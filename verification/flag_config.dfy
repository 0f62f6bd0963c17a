/** The configuration read from `flags.kdl` at start-up. Only the shape of
    the decoded structures is modelled; reading and decoding the file is not. */
module FlagConfig {
  import opened MachineInts

  /** One named stripe colour, given as 8-bit red, green and blue. */
  datatype FlagColor = FlagColor(name: string, r: U8, g: U8, b: U8)

  /** A named flag; its colours are the stripes from left to right. */
  datatype PrideFlag = PrideFlag(name: string, colors: seq<FlagColor>)

  /** The whole configuration: the rotation delay in whole seconds (a signed
      64-bit integer, so it may be negative), the two initial display
      toggles, and the flags in rotation order. */
  datatype FlagsConfig = FlagsConfig(
    rotationDelaySeconds: I64,
    showFlagName: bool,
    showColorNames: bool,
    flags: seq<PrideFlag>)
}
