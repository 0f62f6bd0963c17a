/** Properties of the main loop over single iterations and finite runs. */
module RotationLemmas {
  import opened MachineInts
  import opened Wrappers
  import opened Render
  import opened Rotation

  /** How many ticks carry the input `x`. */
  function Count(ticks: seq<Tick>, x: Input): (n: nat)
    ensures n <= |ticks|
  {
    if |ticks| == 0 then 0
    else (if ticks[0].input == x then 1 else 0) + Count(ticks[1..], x)
  }

  /** Every jump key in `ticks` selects an index below `bound`. */
  predicate JumpsBelow(ticks: seq<Tick>, bound: nat)
  {
    forall i :: 0 <= i < |ticks| && ticks[i].input.IsJump() ==> JumpTarget(ticks[i].input) < bound
  }

  /** Every jump key in `ticks` selects an index at or above `bound`. */
  predicate JumpsFrom(ticks: seq<Tick>, bound: nat)
  {
    forall i :: 0 <= i < |ticks| && ticks[i].input.IsJump() ==> JumpTarget(ticks[i].input) >= bound
  }

  /** Running one more tick is one more `Step` after the run, unless the
      run already stopped. */
  lemma {:induction false} RunSnoc(s: LoopState, flagCount: nat, delaySecs: I64, ticks: seq<Tick>, f: Tick)
    ensures Run(s, flagCount, delaySecs, ticks + [f]) ==
              match Run(s, flagCount, delaySecs, ticks)
              case Running(t) => StepTick(t, flagCount, delaySecs, f)
              case other => other
    decreases |ticks|
  {
    if |ticks| == 0 {
      assert ticks + [f] == [f];
      assert [f][1..] == [];
    } else {
      assert (ticks + [f])[0] == ticks[0];
      assert (ticks + [f])[1..] == ticks[1..] + [f];
      match StepTick(s, flagCount, delaySecs, ticks[0])
      case Running(next) =>
        RunSnoc(next, flagCount, delaySecs, ticks[1..], f);
      case _ =>
    }
  }

  /** From a valid index, advances, `k` and jumps to existing flags keep the
      index valid for a whole run, and a quit keeps the last valid index. */
  lemma {:induction false} RunKeepsIndexInRange(s: LoopState, flagCount: nat, delaySecs: I64, ticks: seq<Tick>)
    requires s.flagIndex < flagCount
    requires JumpsBelow(ticks, flagCount)
    ensures !Run(s, flagCount, delaySecs, ticks).Panicked? ==>
              Run(s, flagCount, delaySecs, ticks).state.flagIndex < flagCount
    decreases |ticks|
  {
    if |ticks| > 0 {
      match StepTick(s, flagCount, delaySecs, ticks[0])
      case Running(next) =>
        assert ticks[0].input.IsJump() ==> JumpTarget(ticks[0].input) < flagCount;
        assert JumpsBelow(ticks[1..], flagCount) by {
          forall i | 0 <= i < |ticks[1..]| && ticks[1..][i].input.IsJump()
            ensures JumpTarget(ticks[1..][i].input) < flagCount
          {
            assert ticks[1..][i] == ticks[i + 1];
          }
        }
        RunKeepsIndexInRange(next, flagCount, delaySecs, ticks[1..]);
      case _ =>
    }
  }

  /** Once the index is past the last flag (always so with no flags), only
      a jump to an existing flag brings it back: the timer never runs, so the
      run never panics and does not depend on the delay, and `k` only counts
      upwards past the `==` wrap test. */
  lemma {:induction false} RunStuckOutOfRange(s: LoopState, flagCount: nat, delaySecs: I64, otherDelay: I64, ticks: seq<Tick>)
    requires s.flagIndex >= flagCount
    requires JumpsFrom(ticks, flagCount)
    ensures !Run(s, flagCount, delaySecs, ticks).Panicked?
    ensures Run(s, flagCount, delaySecs, ticks).state.flagIndex >= flagCount
    ensures Run(s, flagCount, delaySecs, ticks) == Run(s, flagCount, otherDelay, ticks)
    decreases |ticks|
  {
    if |ticks| > 0 {
      assert ticks[0].input.IsJump() ==> JumpTarget(ticks[0].input) >= flagCount;
      assert JumpsFrom(ticks[1..], flagCount) by {
        forall i | 0 <= i < |ticks[1..]| && ticks[1..][i].input.IsJump()
          ensures JumpTarget(ticks[1..][i].input) >= flagCount
        {
          assert ticks[1..][i] == ticks[i + 1];
        }
      }
      assert StepTick(s, flagCount, delaySecs, ticks[0]) == StepTick(s, flagCount, otherDelay, ticks[0]);
      match StepTick(s, flagCount, delaySecs, ticks[0])
      case Running(next) =>
        RunStuckOutOfRange(next, flagCount, delaySecs, otherDelay, ticks[1..]);
      case _ =>
    }
  }

  /** With no flags configured nothing is ever displayed: no run panics,
      whatever the delay, and the delay never matters. */
  lemma NoFlagsNeverPanics(s: LoopState, delaySecs: I64, ticks: seq<Tick>)
    ensures !Run(s, 0, delaySecs, ticks).Panicked?
    ensures Run(s, 0, delaySecs, ticks) == Run(s, 0, 0, ticks)
  {
    RunStuckOutOfRange(s, 0, delaySecs, 0, ticks);
  }

  /** Past the last flag, with no jump and no quit, the index is exactly the
      start index plus the number of `k` presses (starting, as every
      iteration does, with no advance pending). */
  lemma {:induction false} StuckIndexCountsPresses(s: LoopState, flagCount: nat, delaySecs: I64, ticks: seq<Tick>)
    requires s.flagIndex >= flagCount && !s.advanceFlag
    requires forall i :: 0 <= i < |ticks| ==> !ticks[i].input.IsJump() && ticks[i].input != Quit
    ensures Run(s, flagCount, delaySecs, ticks).Running?
    ensures Run(s, flagCount, delaySecs, ticks).state.flagIndex == s.flagIndex + Count(ticks, K)
    decreases |ticks|
  {
    if |ticks| > 0 {
      assert !ticks[0].input.IsJump() && ticks[0].input != Quit;
      var next := StepTick(s, flagCount, delaySecs, ticks[0]).state;
      assert forall i :: 0 <= i < |ticks[1..]| ==> ticks[1..][i] == ticks[i + 1];
      StuckIndexCountsPresses(next, flagCount, delaySecs, ticks[1..]);
    }
  }

  /** Over a run that neither quits nor panics, each display toggle ends
      flipped exactly when its key was pressed an odd number of times. */
  lemma {:induction false} ToggleParity(s: LoopState, flagCount: nat, delaySecs: I64, ticks: seq<Tick>)
    ensures Run(s, flagCount, delaySecs, ticks).Running? ==>
              Run(s, flagCount, delaySecs, ticks).state.config.showFlagName ==
                (s.config.showFlagName != (Count(ticks, F) % 2 == 1))
    ensures Run(s, flagCount, delaySecs, ticks).Running? ==>
              Run(s, flagCount, delaySecs, ticks).state.config.showColorNames ==
                (s.config.showColorNames != (Count(ticks, C) % 2 == 1))
    decreases |ticks|
  {
    if |ticks| > 0 {
      match StepTick(s, flagCount, delaySecs, ticks[0])
      case Running(next) =>
        ToggleParity(next, flagCount, delaySecs, ticks[1..]);
      case _ =>
    }
  }

  /** Pressing a toggle key in two successive iterations restores both
      toggles. */
  lemma ToggleTwiceIsIdentity(s: LoopState, flagCount: nat, delaySecs: I64, f1: Tick, f2: Tick)
    requires f1.input == f2.input && (f1.input == F || f1.input == C)
    ensures Run(s, flagCount, delaySecs, [f1, f2]).Running? ==>
              Run(s, flagCount, delaySecs, [f1, f2]).state.config == s.config
  {
    ToggleParity(s, flagCount, delaySecs, [f1, f2]);
    assert [f1, f2][1..] == [f2];
    assert [f2][1..] == [];
  }

  /** An event that is not a press of a bound key (a release or repeat of
      `q` among them) runs the iteration exactly as no event does. */
  lemma UnboundEventIsIgnored(s: LoopState, flagCount: nat, delaySecs: I64, elapsedSecs: nat, now: nat, polled: Option<Event>)
    requires polled.Some? && polled.value.Key? ==> polled.value.kind != Press || polled.value.code !in BoundKeys
    ensures Step(s, flagCount, delaySecs, elapsedSecs, now, Classify(polled)) ==
              Step(s, flagCount, delaySecs, elapsedSecs, now, OtherOrNone)
  {
  }

  /** Releasing or repeating `q` does not leave the loop. */
  lemma QuitNeedsPress(s: LoopState, flagCount: nat, delaySecs: I64, elapsedSecs: nat, now: nat, kind: KeyKind)
    requires kind != Press
    ensures !Step(s, flagCount, delaySecs, elapsedSecs, now, Classify(Some(Key(kind, 'q')))).Halted?
  {
  }

  /** A toggle key does to the loop exactly what no key does, apart from
      flipping its own toggle. */
  lemma ToggleTouchesOnlyItsFlag(s: LoopState, flagCount: nat, delaySecs: I64, elapsedSecs: nat, now: nat)
    ensures var quiet := Step(s, flagCount, delaySecs, elapsedSecs, now, OtherOrNone);
            && Step(s, flagCount, delaySecs, elapsedSecs, now, F) ==
                 (if quiet.Running?
                  then Running(quiet.state.(config := quiet.state.config.(showFlagName := !s.config.showFlagName)))
                  else quiet)
            && Step(s, flagCount, delaySecs, elapsedSecs, now, C) ==
                 (if quiet.Running?
                  then Running(quiet.state.(config := quiet.state.config.(showColorNames := !s.config.showColorNames)))
                  else quiet)
  {
  }

  /** A jump overrides an advance the timer scheduled in the same
      iteration: the index is the literal target, not the one after it. */
  lemma JumpCancelsTimerAdvance(s: LoopState, flagCount: nat, delaySecs: I64, elapsedSecs: nat, now: nat, input: Input)
    requires input.IsJump()
    requires s.flagIndex < flagCount && 0 <= delaySecs < elapsedSecs
    ensures Step(s, flagCount, delaySecs, elapsedSecs, now, input) ==
              Running(s.(flagIndex := JumpTarget(input), advanceFlag := false, start := now))
  {
  }

  /** One flag and a five-second delay: after six whole seconds the index
      wraps from 0 to 0 and `start` is reset; after exactly five nothing
      happens, because the comparison is strict. */
  lemma SingleFlagTimerScenario()
    ensures var s := LoopState(0, false, 100, RenderConfig(true, true));
            && Step(s, 1, 5, 6, 106, OtherOrNone) == Running(s.(start := 106))
            && Step(s, 1, 5, 5, 105, OtherOrNone) == Running(s)
  {
  }

  /** Two flags: `k` moves 0 to 1 at once, whatever the elapsed time, and a
      second `k` wraps to 0. */
  lemma TwoFlagsAdvanceScenario()
    ensures var s := LoopState(0, false, 0, RenderConfig(false, false));
            Run(s, 2, 5, [Tick(0, 1, K), Tick(0, 2, K)]) == Running(s.(start := 2))
  {
    var s := LoopState(0, false, 0, RenderConfig(false, false));
    var ticks := [Tick(0, 1, K), Tick(0, 2, K)];
    assert Step(s, 2, 5, 0, 1, K) == Running(s.(flagIndex := 1, start := 1));
    assert ticks[1..] == [Tick(0, 2, K)];
    assert ticks[1..][1..] == [];
  }

  /** Two flags: `g` jumps to index 2, which does not exist; the timer then
      never fires and `k` moves on to 3 instead of wrapping. */
  lemma JumpPastEndScenario()
    ensures var s := LoopState(0, false, 0, RenderConfig(false, false));
            && Step(s, 2, 5, 0, 1, G) == Running(s.(flagIndex := 2, start := 1))
            && Step(s.(flagIndex := 2), 2, 5, 100, 101, OtherOrNone) == Running(s.(flagIndex := 2))
            && Step(s.(flagIndex := 2), 2, 5, 0, 101, K) == Running(s.(flagIndex := 3, start := 101))
  {
  }
}
