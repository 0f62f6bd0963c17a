/** The main loop of the widget: one call of `Step` is one iteration of the
    loop body. Clock reads and keyboard polling are inputs: `now` is the
    instant read at the top of the iteration, `elapsedSecs` the whole seconds
    since `start` read inside the draw, and `input` the classified key event
    of the 16 ms poll (or its absence). */
module Rotation {
  import opened MachineInts
  import opened Wrappers
  import opened FlagConfig
  import opened Render

  /** The loop's variables. `start` is the instant of the last flag change
      or jump; `advanceFlag` is set during an iteration and consumed at its
      end. */
  datatype LoopState = LoopState(flagIndex: nat, advanceFlag: bool, start: nat, config: RenderConfig)

  /** What the keyboard delivered in one iteration. `OtherOrNone` stands for
      no event, a non-key event, a key release or repeat, or an unbound key. */
  datatype Input = Quit | K | T | B | G | P | F | C | OtherOrNone
  {
    /** The four keys that jump straight to a fixed flag index. */
    predicate IsJump()
    {
      T? || B? || G? || P?
    }
  }

  /** The kind of a key event. */
  datatype KeyKind = Press | Repeat | Release

  /** A terminal event: a key event with its character, or anything else
      (resize, mouse, focus, paste, or a key without a character code such
      as Esc, Enter, an arrow or a function key). */
  datatype Event = Key(kind: KeyKind, code: char) | NonKey

  /** How one iteration ended: still running, leaving the loop on `q`, or
      panicking (the process aborts). */
  datatype Outcome = Running(state: LoopState) | Halted(state: LoopState) | Panicked

  /** The key dispatch's result: the loop goes on, or breaks on `q`. */
  datatype Dispatched = Stay(state: LoopState) | Break

  /** One iteration (tick) of the loop's inputs, for runs over several
      iterations. */
  datatype Tick = Tick(elapsedSecs: nat, now: nat, input: Input)

  /** The characters bound to commands. */
  const BoundKeys: set<char> := {'q', 'k', 't', 'b', 'g', 'p', 'f', 'c'}

  /** The key dispatch's view of a poll: only a press of a bound key is a
      command; everything else is ignored. */
  function Classify(polled: Option<Event>): (i: Input)
    ensures i != OtherOrNone <==>
              polled.Some? && polled.value.Key? && polled.value.kind == Press && polled.value.code in BoundKeys
    ensures i == Quit <==> polled == Some(Key(Press, 'q'))
    ensures i == K <==> polled == Some(Key(Press, 'k'))
    ensures i == T <==> polled == Some(Key(Press, 't'))
    ensures i == B <==> polled == Some(Key(Press, 'b'))
    ensures i == G <==> polled == Some(Key(Press, 'g'))
    ensures i == P <==> polled == Some(Key(Press, 'p'))
    ensures i == F <==> polled == Some(Key(Press, 'f'))
    ensures i == C <==> polled == Some(Key(Press, 'c'))
  {
    if polled.Some? && polled.value.Key? && polled.value.kind == Press then
      match polled.value.code
      case 'q' => Quit
      case 'k' => K
      case 't' => T
      case 'b' => B
      case 'g' => G
      case 'p' => P
      case 'f' => F
      case 'c' => C
      case _ => OtherOrNone
    else OtherOrNone
  }

  /** The literal flag index each jump key selects, never compared with the
      number of flags. */
  function JumpTarget(i: Input): nat
    requires i.IsJump()
  {
    match i
    case T => 0
    case B => 1
    case G => 2
    case P => 3
  }

  /** The loop state before the first iteration. */
  function Init(config: FlagsConfig, now: nat): LoopState
  {
    LoopState(0, false, now, RenderConfig(config.showFlagName, config.showColorNames))
  }

  /** The index after one advance: one more, wrapping to 0 only when it
      becomes exactly `flagCount`. From a valid index it is the next index
      modulo `flagCount`; from an index already past the end it never wraps. */
  function Advance(i: nat, flagCount: nat): (r: nat)
    ensures i < flagCount ==> r < flagCount && r == (i + 1) % flagCount
    ensures i + 1 == flagCount ==> r == 0
    ensures i >= flagCount ==> r == i + 1
  {
    if i + 1 == flagCount then 0 else i + 1
  }

  /** The timer inside the draw closure runs only when a flag exists at the
      current index. Converting the delay to an unsigned integer panics when
      it is negative; otherwise an advance is scheduled once the elapsed whole
      seconds strictly exceed the delay. `None` is the panic. */
  function TimerCheck(s: LoopState, flagCount: nat, delaySecs: I64, elapsedSecs: nat): Option<LoopState>
  {
    if s.flagIndex < flagCount then
      if delaySecs < 0 then None
      else if elapsedSecs > delaySecs then Some(s.(advanceFlag := true))
      else Some(s)
    else Some(s)
  }

  /** The key dispatch: stay in the loop with an updated state, or break
      out of it on `q`. */
  function Dispatch(s: LoopState, now: nat, input: Input): Dispatched
  {
    match input
    case Quit => Break
    case K => Stay(s.(advanceFlag := true))
    case T => Stay(s.(flagIndex := JumpTarget(input), advanceFlag := false, start := now))
    case B => Stay(s.(flagIndex := JumpTarget(input), advanceFlag := false, start := now))
    case G => Stay(s.(flagIndex := JumpTarget(input), advanceFlag := false, start := now))
    case P => Stay(s.(flagIndex := JumpTarget(input), advanceFlag := false, start := now))
    case F => Stay(s.(config := s.config.(showFlagName := !s.config.showFlagName)))
    case C => Stay(s.(config := s.config.(showColorNames := !s.config.showColorNames)))
    case OtherOrNone => Stay(s)
  }

  /** The deferred advance at the end of the iteration, then the
      unconditional clearing of `advanceFlag`. */
  function Settle(s: LoopState, flagCount: nat, now: nat): LoopState
  {
    if s.advanceFlag then s.(flagIndex := Advance(s.flagIndex, flagCount), start := now, advanceFlag := false)
    else s.(advanceFlag := false)
  }

  /** An advance is pending at the end of the draw: left over from before,
      or scheduled by the timer. */
  predicate Pending(s: LoopState, flagCount: nat, delaySecs: I64, elapsedSecs: nat)
  {
    s.advanceFlag || (s.flagIndex < flagCount && elapsedSecs > delaySecs)
  }

  /** The iteration panics exactly when a flag is on display and the delay is
      negative. */
  predicate PanicsOn(s: LoopState, flagCount: nat, delaySecs: I64)
  {
    s.flagIndex < flagCount && delaySecs < 0
  }

  /** One iteration of the main loop: timer check, key dispatch, deferred
      advance, clearing of `advanceFlag`. */
  function Step(s: LoopState, flagCount: nat, delaySecs: I64, elapsedSecs: nat, now: nat, input: Input): (r: Outcome)
    ensures r.Panicked? <==> PanicsOn(s, flagCount, delaySecs)
    ensures r.Halted? <==> input == Quit && !PanicsOn(s, flagCount, delaySecs)
    ensures r.Halted? ==> r.state.flagIndex == s.flagIndex && r.state.start == s.start && r.state.config == s.config
    ensures r.Running? ==> !r.state.advanceFlag
    ensures r.Running? ==> r.state.config.showFlagName == (s.config.showFlagName != (input == F))
    ensures r.Running? ==> r.state.config.showColorNames == (s.config.showColorNames != (input == C))
    ensures r.Running? ==> r.state.start == s.start || r.state.start == now
    ensures r.Running? && r.state.flagIndex != s.flagIndex ==> r.state.start == now
    ensures r.Running? && input.IsJump() ==> r.state.flagIndex == JumpTarget(input) && r.state.start == now
    ensures r.Running? && input == K ==> r.state.flagIndex == Advance(s.flagIndex, flagCount) && r.state.start == now
    ensures r.Running? && (input == F || input == C || input == OtherOrNone) ==>
              if Pending(s, flagCount, delaySecs, elapsedSecs)
              then r.state.flagIndex == Advance(s.flagIndex, flagCount) && r.state.start == now
              else r.state.flagIndex == s.flagIndex && r.state.start == s.start
  {
    match TimerCheck(s, flagCount, delaySecs, elapsedSecs)
    case None => Panicked
    case Some(drawn) =>
      match Dispatch(drawn, now, input)
      case Break => Halted(drawn)
      case Stay(dispatched) => Running(Settle(dispatched, flagCount, now))
  }

  /** `Step` applied to one tick's inputs. */
  function StepTick(s: LoopState, flagCount: nat, delaySecs: I64, f: Tick): Outcome
  {
    Step(s, flagCount, delaySecs, f.elapsedSecs, f.now, f.input)
  }

  /** The loop run over a finite sequence of ticks, stopping at the first
      quit or panic. */
  function Run(s: LoopState, flagCount: nat, delaySecs: I64, ticks: seq<Tick>): (r: Outcome)
    ensures r.Running? && |ticks| > 0 ==> !r.state.advanceFlag
    decreases |ticks|
  {
    if |ticks| == 0 then Running(s)
    else
      match StepTick(s, flagCount, delaySecs, ticks[0])
      case Running(next) => Run(next, flagCount, delaySecs, ticks[1..])
      case other => other
  }
}
