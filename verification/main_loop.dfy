/** The loop of `main`, from the configuration's initial state, over the
    ticks the terminal delivers until `q` is pressed, a panic occurs, or the
    ticks run out. */
module MainLoop {
  import opened Wrappers
  import opened FlagConfig
  import opened Render
  import opened Rotation
  import opened RotationLemmas

  /** The flag drawn by the iteration, if the index names one. */
  function Displayed(config: FlagsConfig, s: LoopState): (r: Option<PrideFlag>)
    ensures r.Some? <==> s.flagIndex < |config.flags|
    ensures r.Some? ==> r.value == config.flags[s.flagIndex]
  {
    if s.flagIndex < |config.flags| then Some(config.flags[s.flagIndex]) else None
  }

  /** The timer of an iteration runs exactly when a flag is displayed: the
      iteration panics iff a flag is displayed and the delay is negative, and
      with nothing displayed neither the delay nor the elapsed time has any
      effect on it. */
  lemma DisplayedDrivesTimer(config: FlagsConfig, s: LoopState, elapsedSecs: nat, now: nat, input: Input)
    ensures Step(s, |config.flags|, config.rotationDelaySeconds, elapsedSecs, now, input).Panicked? <==>
              Displayed(config, s).Some? && config.rotationDelaySeconds < 0
    ensures Displayed(config, s).None? ==>
              Step(s, |config.flags|, config.rotationDelaySeconds, elapsedSecs, now, input) ==
                Step(s, |config.flags|, 0, 0, now, input)
    ensures Displayed(config, s).Some? && !s.advanceFlag && config.rotationDelaySeconds >= 0 && input == OtherOrNone ==>
              Step(s, |config.flags|, config.rotationDelaySeconds, elapsedSecs, now, input) ==
                if elapsedSecs > config.rotationDelaySeconds
                then Running(s.(flagIndex := Advance(s.flagIndex, |config.flags|), start := now))
                else Running(s)
  {
  }

  /** A configuration whose first flag has no colours, with the flag name
      shown initially, panics while drawing the very first frame: the first
      flag is on display and its overlays index a stripe that does not exist. */
  lemma EmptyFirstFlagPanicsOnFirstFrame(config: FlagsConfig, now: nat)
    requires |config.flags| > 0 && |config.flags[0].colors| == 0 && config.showFlagName
    ensures Displayed(config, Init(config, now)) == Some(config.flags[0])
    ensures RenderLabels(config.flags[0], Init(config, now).config, [], []).None?
  {
  }

  method RunLoop(config: FlagsConfig, startedAt: nat, ticks: seq<Tick>) returns (r: Outcome, used: nat)
    ensures used <= |ticks|
    ensures r == Run(Init(config, startedAt), |config.flags|, config.rotationDelaySeconds, ticks[..used])
    ensures r.Running? ==> used == |ticks|
    ensures !r.Running? ==>
              used > 0 && Run(Init(config, startedAt), |config.flags|, config.rotationDelaySeconds, ticks[..used - 1]).Running?
  {
    var init := Init(config, startedAt);
    var s := init;
    var i := 0;
    while i < |ticks|
      invariant 0 <= i <= |ticks|
      invariant Run(init, |config.flags|, config.rotationDelaySeconds, ticks[..i]) == Running(s)
    {
      RunSnoc(init, |config.flags|, config.rotationDelaySeconds, ticks[..i], ticks[i]);
      assert ticks[..i + 1] == ticks[..i] + [ticks[i]];
      var o := StepTick(s, |config.flags|, config.rotationDelaySeconds, ticks[i]);
      if !o.Running? {
        return o, i + 1;
      }
      s, i := o.state, i + 1;
    }
    assert ticks[..i] == ticks;
    return Running(s), i;
  }
}
