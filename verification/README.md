# Pride flag widget — Dafny model

The widget is a terminal program that shows a list of configured flags one
at a time. Each flag is drawn as equal-width vertical colour stripes. The
program can overlay the flag's name and the name of each stripe colour. The
current flag advances on a timer or on the `k` key. The keys `t`, `b`, `g`
and `p` jump to flag indices 0 to 3. `f` and `c` toggle the two overlays and
`q` quits.

This project models the logic of `src/main.rs`:

- **Main loop** (`Rotation`, `RotationLemmas`, `MainLoop`). `Rotation.Step`
  is one pure loop iteration. It runs four parts in order: the timer check
  inside the draw closure, the key dispatch, the deferred advance, and the
  clearing of `advance_flag`. `Run` folds `Step` over a finite sequence of
  ticks, one tick per loop iteration. `MainLoop.RunLoop` is the loop as a `while` loop, proved to agree
  with `Run`.
- **Contrast colour** (`Contrast`). Overlay text uses the per-channel
  inverse `255 - c` of its stripe's colour.
- **Label placement** (`Placement`, `Render`). The flag name and the colour
  names are placed with checked `u16` arithmetic, and the model gives the
  exact conditions under which that arithmetic panics.

The configuration structures of `src/flag_config.rs` are mirrored as the
datatypes `FlagColor`, `PrideFlag` and `FlagsConfig` in module `FlagConfig`.
Rust integer types are subset types: `U8`, `U16` and `I64`.

Panics are modelled explicitly. The model follows debug-build Rust, where
integer overflow panics. The timer, placement and overlay functions return
`Wrappers.Option`'s `None` for a panic, and `Rotation.Outcome.Panicked` is a
panicking iteration. Elsewhere `None` only means absence, such as no polled
event. Leaving the loop on `q` is its own result, `Rotation.Dispatched.Break`.

Behaviour of the code worth knowing:

- **Zero-colour flag.** The constraint loop pushes nothing for such a flag,
  so no `Ratio(1, 0)` is ever built. What panics is `layout[0]` on the empty
  layout when the flag name is shown (`Render.RenderLabels`).
- **Flag-name row.** The row is `(y + height) - 1`. It underflows only when
  `y + height == 0`. With `height == 0` and `y >= 1` it does not panic,
  and the label lands one row above the stripe.
- **Jump keys.** These are not bounds-checked. An index past the end stays
  out of range under `k`, because the wrap test is `==`, and under the
  timer, which never runs.

## Model

| member | source | states |
|---|---|---|
| Contrast.Invert | src/main.rs:58-59 | `255 - c` stays a byte for every `u8` and is the channel's complement: `c + r == 255`, and never equal to `c` |
| Contrast.ContrastFor | src/main.rs:58-62 | the text colour is RGB exactly when the looked-up background is RGB; each channel then complements the background's; otherwise it is Black |
| Contrast.TextColorOn | src/main.rs:78-82 | the text on a configured colour's stripe is the RGB inverse of that colour, channel by channel |
| Contrast.ContrastInvolution | src/main.rs:58-59 | inverting an inverted RGB colour returns the original colour |
| Contrast.TextColorInvolution | src/main.rs:78-79 | inverting a stripe's text colour gives back the stripe's (r, g, b) |
| Placement.FlagNameRect | src/main.rs:68-71 | the flag-name rectangle exists iff `y + height` fits in `u16` and is non-zero; it keeps x, width and height; its row is `y + height - 1`, inside the stripe when `height >= 1` and one row above it when `height == 0` |
| Placement.ColorNameRect | src/main.rs:89-94 | the colour-name rectangle exists iff the name is no wider than the stripe, the shifted x fits in `u16` and the row fits; then the text ends exactly at `x + width` and starts at or right of `x` (one column past the stripe for an empty name); the row is the bottom row when `height >= 1` and one row above the stripe when `height == 0` |
| Placement.NarrowStripeUnderflows | src/main.rs:91 | a 7-cell name on a 3-cell stripe makes the subtraction underflow |
| Render.FlagNameLabel | src/main.rs:57-73 | the flag-name label exists iff the flag has a stripe and its row fits; it carries the flag's name in the inverse of the first colour at the first stripe's left edge on row `y + height - 1`: the bottom row when `height >= 1`, one row above the stripe when `height == 0` |
| Render.ColorNameLabel | src/main.rs:77-97 | one colour's label exists iff its width converts to `u16` and fits its stripe; it carries the colour's name in its inverse, right-aligned to the stripe's right edge on row `y + height - 1` |
| Render.ColorNameLabels | src/main.rs:76-99 | all colour labels exist iff every name fits its own stripe; then there is one per stripe, in stripe order, each the label of that stripe's colour |
| Render.RenderLabels | src/main.rs:57-99 | the frame's overlays survive iff each enabled overlay fits; the label count is 1 for the name plus one per colour, as enabled; the name comes first, at the first stripe's left edge on row `y + height - 1`; a shown flag name on a flag with no colours always panics; with both toggles off nothing is drawn |
| Rotation.Classify | src/main.rs:136-162 | only a press of one of the eight bound characters is a command, each character its own command; releases, repeats, other events and no event are ignored |
| Rotation.Advance | src/main.rs:166-171 | from a valid index the advance yields `(i + 1) % flagCount`, so it stays valid and wraps from the last flag to 0; from an index past the end it never wraps |
| Rotation.Step | src/main.rs:121-177 | an iteration panics iff a flag is on display and the delay is negative; quit halts with index, start and toggles unchanged; after any running iteration `advanceFlag` is false; `f`/`c` flip only their own toggle; `start` is unchanged or `now`, and is `now` whenever the index changed; jumps set the literal index and `start := now`, cancelling a timer advance; `k` advances; other inputs advance iff an advance is pending, which means elapsed seconds strictly above the delay with a flag on display |
| Rotation.Run | src/main.rs:121-177 | after at least one running tick no advance is left pending |
| RotationLemmas.RunSnoc | src/main.rs:121-177 | running one more tick is one more step after the run, unless the run already stopped |
| RotationLemmas.RunKeepsIndexInRange | src/main.rs:142-171 | from a valid index, with every jump aimed at an existing flag, the index stays valid for the whole run |
| RotationLemmas.RunStuckOutOfRange | src/main.rs:125-171 | once the index is past the end, no step short of a jump to an existing flag brings it back; the run never panics and does not depend on the delay |
| RotationLemmas.NoFlagsNeverPanics | src/main.rs:125-133 | with no flags configured, no run panics and the delay is irrelevant, even a negative one |
| RotationLemmas.StuckIndexCountsPresses | src/main.rs:140-171 | past the end, with no jump and no quit, the index is the start index plus the number of `k` presses |
| RotationLemmas.ToggleParity | src/main.rs:158-161 | over a run that keeps running, each toggle ends flipped iff its key was pressed an odd number of times |
| RotationLemmas.ToggleTwiceIsIdentity | src/main.rs:158-161 | the same toggle key in two successive iterations restores both toggles |
| RotationLemmas.UnboundEventIsIgnored | src/main.rs:136-164 | an event that is not a press of a bound key runs the iteration exactly as no event does |
| RotationLemmas.QuitNeedsPress | src/main.rs:138-139 | a release or repeat of `q` never leaves the loop |
| RotationLemmas.ToggleTouchesOnlyItsFlag | src/main.rs:137-162 | `f` or `c` gives the same outcome as no key, except that its own toggle is flipped |
| RotationLemmas.JumpCancelsTimerAdvance | src/main.rs:125-157 | a jump in an iteration where the timer fired yields the jump target with no advance, and `start := now` |
| RotationLemmas.SingleFlagTimerScenario | src/main.rs:128-173 | one flag and a 5 s delay: after 6 s the index wraps from 0 to 0 and `start` resets; after exactly 5 s nothing happens |
| RotationLemmas.TwoFlagsAdvanceScenario | src/main.rs:140-171 | two flags: `k` moves 0 to 1 at once and a second `k` wraps to 0 |
| RotationLemmas.JumpPastEndScenario | src/main.rs:150-171 | two flags: `g` selects the missing index 2; the timer then never fires and `k` moves on to 3 |
| MainLoop.DisplayedDrivesTimer | src/main.rs:125-133 | an iteration panics iff a flag is displayed and the delay is negative; with nothing displayed the delay and elapsed time have no effect; with a flag displayed, a non-negative delay and no key, it advances (and resets `start`) iff the elapsed seconds exceed the delay, else nothing changes |
| MainLoop.EmptyFirstFlagPanicsOnFirstFrame | src/main.rs:57-69 | a first flag with no colours and the flag name shown initially is on display in the first frame, and drawing its overlays panics |
| MainLoop.RunLoop | src/main.rs:115-177 | the `while` loop from the initial state, index 0 with toggles from the configuration, equals `Run` over the ticks it consumed; it consumes all ticks unless a quit or panic stops it at the last consumed tick |

## Left out

- Config loading (`parse_flags`, src/flag_config.rs:35-41). It reads a file and decodes KDL with a foreign library. Only the decoded structures are modelled.
- Stripe layout (src/main.rs:36-48). The `Ratio(1, n)` split is done by the layout library, whose algorithm is not part of this model. Stripe rectangles are an input to `Render` and have one rectangle per colour.
- Widget rendering (src/main.rs:50-55, 64-66, 73, 96). Stripe painting and drawing the text are not modelled. So are colours other than RGB and Black.
- Unicode display width of a name (`Span::width`). It is an input, `widths`.
- Terminal setup and teardown (src/main.rs:103-104, 112-113, 179-180): raw mode and the alternate screen. The I/O errors of `draw`, `poll` and `read` are left out too. They are terminal I/O.
- Clock reads and the 16 ms poll timeout. `now` and `elapsedSecs` are inputs of `Step`, and are not tied to each other.
- Rotation.Step: it treats the draw closure's `render_flag` call as returning. Its panics are characterised separately by `Render.RenderLabels`.
- Rotation.Step: `flag_index` is an unbounded `nat`, so the `usize` overflow of `flag_index += 1` is not modelled. It would take 2^64 presses of `k`.
- Placement.ColorNameRect, Placement.FlagNameRect: these use debug-build semantics, where an overflowing `u16` operation panics. A release build would wrap around instead.
