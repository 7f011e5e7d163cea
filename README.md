# Eight-step MIDI sequencer: the sequencing state machine

This project models the sequencing core of an openFrameworks step sequencer
(`Code/ofApp.cpp`). The sequencer keeps ten step slots. Slots 1..8 are the
playable steps. Slots 0 and 9 are sentinels that are never active. Each slot
has four settings: `stepActive` (the step takes part in the traversal),
`stepMute` (true means the step *sounds*: a note is sent only when it is
true), `stepRepeat` (how many pulses the step is held for) and
`stepRepeatCount` (the pulses it has left).

The sequencer is driven by three kinds of event:

- a MIDI note-on pulse, which calls `clockAdvance`: the repeat rule moves the
  current step by `sequenceAdvance`, a note is marked due, and the periodic
  reset counts down and, once spent, calls `resetSequence`;
- the per-frame `update`: `limit` brings every setting into range, then the
  skip loop sets the direction from the traversal mode (Forward, Backward,
  PingPong turning at steps 1 and 8, PingPongFixed turning at the sentinels),
  wraps through the sentinels and skips inactive steps until it rests on an
  active one, and finally a due note is sent if the step sounds;
- the keyboard (`keyPressed`) and the step and reset buttons (`mousePressed`).

The model has four modules:

- `Steps` (`steps.dfy`) holds the rules of the skip loop as functions. It gives
  the loop's rest point (`Settle`) and proves that the loop terminates. The
  measure is the distance, along the cycle of slots the mode tests, to the
  next active slot.
- `SequencerState` (`machine.dfy`) holds the sequencer's fields as a `State`
  value and one function per routine: `Clocked`, `Rewound`, `Limited`,
  `Framed`, `Keyed` and the button toggles. A pulse followed by its frame is
  `Pulsed`. A beat (`Beat`) is a pulse, its frame and the idle frame that
  follows before the next pulse. The invariant `Steady` holds between events:
  settings in range, counters in bounds, and the current step on an active
  playable slot.
- `SequencerBehaviour` (`behaviour.dfy`) proves what the sequencer does over
  runs of beats: repeats, the reset period, the walk through each mode's
  cycle, and what the edits and buttons do.
- `SequencerApp` (`sequencer.dfy`) is the application object. It is a class
  whose step arrays are updated in place. Each of its methods is proved to
  act on the state as the matching `SequencerState` function says.

## Model

| member | source | states |
|---|---|---|
| Steps.Settle | Code/ofApp.cpp:230-271 | The skip loop, one pass of which is `Iterate` (the direction update `Heading`, then the wrap `Wrap`), rests on an active playable step (1..8) with direction +1 or -1; Forward leaves +1, Backward -1; the recursion is well founded, so the loop ends from every resolvable start |
| Steps.DistDecreases | Code/ofApp.cpp:230-271 | A pass of the body that reaches an inactive slot leaves a resolvable state strictly closer to an active slot |
| Steps.PhaseAdvance | Code/ofApp.cpp:232-267 | Moving on from a slot of the mode's cycle reaches the next phase of that cycle, and PingPong never steps onto a sentinel from it |
| Steps.PointPhase | Code/ofApp.cpp:232-262 | The slots the body tests, with the direction it sets, correspond one to one with the phases of the mode's cycle |
| Steps.Ahead | Code/ofApp.cpp:265-268 | The number of inactive slots the cycle meets before an active one is at most the look-ahead, and below it the slot found is active |
| Steps.AheadSkips | Code/ofApp.cpp:265-268 | Every slot before the one found is inactive |
| Steps.AheadFinds | Code/ofApp.cpp:265-268 | An active slot j phases ahead bounds the count by j |
| Steps.AheadSaturates | Code/ofApp.cpp:265-268 | Looking one phase further does not change a search that already succeeded |
| Steps.AheadBelow | Code/ofApp.cpp:230 | With some playable step active, a full turn of the cycle finds an active slot |
| Steps.AheadStep | Code/ofApp.cpp:265-268 | From an inactive phase, the count from the next phase is one less |
| Steps.SettleMoves | Code/ofApp.cpp:265-268 | A move that does not land keeps the rest point |
| Steps.AlongStep | Code/ofApp.cpp:230-271 | From an inactive tested slot, one pass reaches the next phase of the cycle, one slot nearer the rest point, with the same rest point |
| Steps.LandsHere | Code/ofApp.cpp:230-271 | An active tested slot is the rest point |
| Steps.SettleAlong | Code/ofApp.cpp:230-271 | The loop rests on the slot k phases after the first one it tests, k being the count of inactive slots before an active one |
| Steps.CycleRest | Code/ofApp.cpp:230-271 | The loop rests on the first active slot of the mode's cycle, counted from the phase of the first tested slot, and every slot it passes is inactive |
| Steps.SettleFollowsCycle | Code/ofApp.cpp:230-271 | The same from any start away from a PingPong sentinel; the first tested slot always lies on the cycle |
| Steps.RestAfter | Code/ofApp.cpp:230-271 | Leaving a point of the cycle, the loop rests on the first active slot after it, passing only inactive slots |
| Steps.SettleAtActive | Code/ofApp.cpp:230-270 | The body runs once even on an active step: the step stays and only the direction is updated |
| Steps.SettleIdempotent | Code/ofApp.cpp:230-271 | Running the loop again from its rest point keeps the step |
| Steps.PingPongSentinelSpins | Code/ofApp.cpp:238-267 | PingPong on a sentinel with steps 1 and 8 inactive moves 0 to 9 and 9 to 0 forever, so no such state is resolvable |
| Steps.OnwardEight | Code/ofApp.cpp:232-237 | On the eight-phase Forward and Backward cycles, going on n phases is adding n modulo 8 |
| SequencerState.Limited | Code/ofApp.cpp:167-221 | After `limit` the reset length is in 1..128, the note range in 0..126 and 1..127, the playable repeat counts in 1..8, the reset position in 1..8, the mode in 1..4 and the current step in 0..9 |
| SequencerState.LimitedKeeps | Code/ofApp.cpp:167-221 | `limit` changes only the values it checks, leaves the sentinel repeat counts alone, and leaves every value already in range as it is |
| SequencerState.LimitedIdempotent | Code/ofApp.cpp:167-221 | `limit` is the identity on an in-range state and is idempotent |
| SequencerState.ModeKeysCycle | Code/ofApp.cpp:461-472 | After `limit`, `]`/`}` select the next mode and `[`/`{` the previous one, cyclically over 1..4 |
| SequencerState.PositionKeysCycle | Code/ofApp.cpp:449-460 | After `limit`, `+`/`=` and `-`/`_` move the reset position cyclically over 1..8 |
| SequencerState.InitialSteady | Code/ofApp.cpp:31-57 | The state after `setup` satisfies the invariant between events |
| SequencerState.FrameSettles | Code/ofApp.cpp:224-281 | A frame on a tidy state lands on an active playable step and changes only the position, the direction and the pending note |
| SequencerState.SteppedCounters | Code/ofApp.cpp:122-129 | The repeat rule keeps every counter between 1 and its repeat count and moves the step by at most the direction |
| SequencerState.RewoundTidy | Code/ofApp.cpp:148-164 | A reset fills every playable counter from its repeat count and keeps the invariant |
| SequencerState.CountedDownTidy | Code/ofApp.cpp:133-140 | The reset countdown stays between 1 and the reset length; the step is either unchanged or the reset position |
| SequencerState.ClockedTidy | Code/ofApp.cpp:120-145 | A pulse from a steady state keeps settings and counters in range and leaves a state the next frame resolves |
| SequencerState.Pulsed | Code/ofApp.cpp:109-117 | A pulse and its frame keep the invariant and change no setting |
| SequencerState.Idled | Code/ofApp.cpp:224-281 | An idle frame keeps the invariant and changes no setting |
| SequencerState.Beat | Code/ofApp.cpp:109-117 | A pulse with the two frames that follow it keeps the invariant and changes no setting |
| SequencerState.KeyFrame | Code/ofApp.cpp:439-472 | A key press and its frame keep the invariant |
| SequencerState.KeyedTidy | Code/ofApp.cpp:439-472 | After an edit key the next frame resolves and leaves a tidy state |
| SequencerState.LimitedTidy | Code/ofApp.cpp:167-221 | `limit` tidies a steady state whose reset position and mode were moved by any amount |
| SequencerState.ActiveFrame | Code/ofApp.cpp:547 | An active-button press that leaves a playable step active, with its frame, keeps the invariant |
| SequencerState.MuteFrame | Code/ofApp.cpp:550 | A mute-button press and its frame keep the invariant |
| SequencerState.ResetFrame | Code/ofApp.cpp:596-602 | A reset-button press and its frame keep the invariant |
| SequencerBehaviour.IdleSettles | Code/ofApp.cpp:224-281 | An idle frame keeps the step and the counters and settles the direction; on a settled state it changes nothing |
| SequencerBehaviour.BeatRests | Code/ofApp.cpp:120-145 | A beat ends settled at the rest point of the loop started where the pulse left the step, with the pulse's counters, and its note is sent exactly when the step it lands on sounds |
| SequencerBehaviour.RunGrows | Code/ofApp.cpp:109-117 | Every run of beats can go on for one more beat |
| SequencerBehaviour.RunKeepsSettings | Code/ofApp.cpp:109-117 | No setting changes along a run of beats |
| SequencerBehaviour.BeatDwells | Code/ofApp.cpp:123-129 | While its counter is above 1, a beat keeps the step and counts it down, unless it is the beat on which the periodic reset fires |
| SequencerBehaviour.RepeatHolds | Code/ofApp.cpp:123-129 | With the reset off, a step whose counter reads c is held for the next c - 1 beats while its counter runs down |
| SequencerBehaviour.RepeatHoldsStep | Code/ofApp.cpp:123-129 | One beat of that hold, with the reset off |
| SequencerBehaviour.RepeatExpires | Code/ofApp.cpp:123-126 | With the reset off, a spent counter is reloaded from the repeat count and the sequencer moves on to the rest point one slot further |
| SequencerBehaviour.RunSuffix | Code/ofApp.cpp:109-117 | Every state of a run starts a run of its own |
| SequencerBehaviour.InitialFull | Code/ofApp.cpp:31-57 | `setup` leaves every counter full |
| SequencerBehaviour.ClockedFull | Code/ofApp.cpp:120-145 | A pulse from a full state refills every counter or keeps the step with the other counters full |
| SequencerBehaviour.BeatKeepsFull | Code/ofApp.cpp:120-145 | Beats keep the counters full, and a step the beat moves onto starts with its full repeat count |
| SequencerBehaviour.RunKeepsFull | Code/ofApp.cpp:120-145 | Every state of a run from a full state is full |
| SequencerBehaviour.RepeatLasts | Code/ofApp.cpp:123-129 | With the reset off, a step whose counter is full is held for exactly its repeat count of beats; the next beat refills its counter and rests where the loop from one slot further rests, which can be the same step (`PingPongInnerEndDoubles`) |
| SequencerBehaviour.RepeatEnds | Code/ofApp.cpp:123-126 | With the reset off, the beat of a run that finds the counter spent refills it and moves to the rest point one slot further |
| SequencerBehaviour.EnteredFull | Code/ofApp.cpp:123-129 | In a run from a full state, a step the sequencer moves onto starts with its full repeat count |
| SequencerBehaviour.EnteredHolds | Code/ofApp.cpp:123-129 | In a run from a full state with the reset off, a step entered on a beat is held for exactly its repeat count of beats; the next beat refills its counter and rests where the loop from one slot further rests, which can be the same step |
| SequencerBehaviour.ResetCountsDown | Code/ofApp.cpp:134-135 | With the reset on, each beat counts the countdown down by one |
| SequencerBehaviour.ClockedResetOn | Code/ofApp.cpp:120-145 | With the reset on and the countdown above 1, a pulse does to the step and the counters exactly what it does with the reset off, and counts the countdown down by one |
| SequencerBehaviour.BeatResetOn | Code/ofApp.cpp:120-145 | The same for a beat: the repeat rule and the traversal run unchanged while the reset is on, until the countdown is spent |
| SequencerBehaviour.ResetRunsAlike | Code/ofApp.cpp:120-145 | Until the periodic reset fires, a run with the reset on is, beat for beat, the run from the same state with the reset off, its countdown reading the start value minus the beats taken; so every reset-off property of the repeat rule and the walk holds between resets |
| SequencerBehaviour.ResetRunsAlikeStep | Code/ofApp.cpp:120-145 | One beat of that correspondence |
| SequencerBehaviour.ResetCountsDownStep | Code/ofApp.cpp:134-135 | One beat of that countdown |
| SequencerBehaviour.BeatCountsDown | Code/ofApp.cpp:134-135 | A pulse with the countdown above 1 only counts down |
| SequencerBehaviour.PulseRewinds | Code/ofApp.cpp:137-139 | The pulse that spends the countdown leaves the step on the reset position, the countdown full, the counters full, and PingPong modes heading forwards |
| SequencerBehaviour.ResetFires | Code/ofApp.cpp:137-164 | That beat ends at the rest point of the loop from the reset position, and on the reset position itself when it is active |
| SequencerBehaviour.ResetPeriod | Code/ofApp.cpp:133-164 | With the reset on, the sequence restarts after exactly as many beats as the countdown reads |
| SequencerBehaviour.RewindKey | Code/ofApp.cpp:446-447 | The `r` key resets the sequence at once, as a spent countdown does |
| SequencerBehaviour.BeatFollowsCycle | Code/ofApp.cpp:230-271 | With the reset off, from a settled state with a spent counter, a beat moves to the first active slot of the mode's cycle after the current one, passing only inactive slots |
| SequencerBehaviour.BeatStepsOn | Code/ofApp.cpp:230-271 | With the reset off, in Forward, Backward and PingPong, from a settled state with every playable step active and played once, a beat moves exactly one phase along the cycle (not in PingPongFixed, whose turns pass the sentinels) |
| SequencerBehaviour.Walks | Code/ofApp.cpp:230-271 | With the reset off, in Forward, Backward and PingPong, from a settled state with every playable step active and played once, n beats move n phases along the cycle |
| SequencerBehaviour.WalksStep | Code/ofApp.cpp:230-271 | One beat of that walk, under the same conditions |
| SequencerBehaviour.ForwardWalks | Code/ofApp.cpp:232-234 | With the reset off, from a settled state with every playable step active and played once, Forward counts up through 1..8, 8 wrapping to 1 |
| SequencerBehaviour.BackwardWalks | Code/ofApp.cpp:235-237 | With the reset off, from a settled state with every playable step active and played once, Backward counts down through 8..1, 1 wrapping to 8 |
| SequencerBehaviour.PingPongTurns | Code/ofApp.cpp:238-245 | With the reset off, from a settled state with every playable step active and played once, PingPong turns at step 8 and plays it once: 7, 8, 7 |
| SequencerBehaviour.PingPongFixedDoubles | Code/ofApp.cpp:246-253 | With the reset off, PingPongFixed turns on the sentinels, so an end step whose counter is spent is played again on the next beat |
| SequencerBehaviour.PingPongSkipTurns | Code/ofApp.cpp:238-268 | With the reset off and a frame between pulses, PingPong also turns at 8 when it reaches it by skipping an inactive step 7 |
| SequencerBehaviour.PingPongInnerEndDoubles | Code/ofApp.cpp:238-268 | With the reset off and steps 6 to 8 inactive, PingPong plays step 5 twice in a row: heading up, and again heading back with its counter refilled |
| SequencerBehaviour.PingPongSkipWithoutFrame | Code/ofApp.cpp:238-268 | When every frame after such a skip has a pulse of its own, with no idle frame between pulses, the steps go 8, 1, 8 instead of turning |
| SequencerBehaviour.InitialWalks | Code/ofApp.cpp:31-57 | After `setup`, beat n plays step n mod 8 + 1 and every due note is sent |
| SequencerBehaviour.EditKeepsStep | Code/ofApp.cpp:449-472 | The reset-position and mode keys change exactly those two settings, each wrapped into range, and keep every other setting, the current step, the repeat counters and the reset countdown |
| SequencerBehaviour.ActiveToggleElsewhere | Code/ofApp.cpp:547 | Switching another step on or off keeps the current step |
| SequencerBehaviour.ActiveToggleCurrent | Code/ofApp.cpp:547 | Switching the current step off moves the sequencer on to the first step of the mode's cycle still active |
| SequencerBehaviour.MuteToggles | Code/ofApp.cpp:550 | A mute button flips exactly that step's flag, keeps every other setting, the step, the repeat counters and the reset countdown; a pending note is sent once the step sounds |
| SequencerBehaviour.ClockedIgnoresMute | Code/ofApp.cpp:120-145 | The pulse handler never reads the mute flags or the pending note |
| SequencerBehaviour.BeatIgnoresMute | Code/ofApp.cpp:120-145 | A beat from a state that differs only in its mute flags and pending note reaches the same step, direction, repeat counters and reset countdown |
| SequencerBehaviour.MuteRunsAlike | Code/ofApp.cpp:550 | Two runs that start alike but for the mute flags and the pending note stay alike at every beat, so muting never disturbs the traversal |
| SequencerBehaviour.ResetToggles | Code/ofApp.cpp:596-602 | The reset button flips the periodic reset and, when switching it on, restarts the countdown from the reset length |
| SequencerApp.Sequencer.constructor | Code/ofApp.cpp:31-57 | `setup` leaves the object in the initial state |
| SequencerApp.Sequencer.ClockAdvance | Code/ofApp.cpp:120-145 | The pulse handler changes the object as `Clocked` says |
| SequencerApp.Sequencer.ResetSequence | Code/ofApp.cpp:148-164 | The reset changes the object as `Rewound` says; its loop refills the playable counters in place |
| SequencerApp.Sequencer.Limit | Code/ofApp.cpp:167-221 | The range checks change the object as `Limited` says; its loop wraps the playable repeat counts in place |
| SequencerApp.Sequencer.Update | Code/ofApp.cpp:224-281 | The frame changes the object as `Framed` says; the skip loop terminates and rests where `Settle` says |
| SequencerApp.Sequencer.KeyPressed | Code/ofApp.cpp:439-472 | A key press changes the object as `Keyed` says |
| SequencerApp.Sequencer.ToggleActive | Code/ofApp.cpp:547 | The active button flips that step's flag in place |
| SequencerApp.Sequencer.ToggleMute | Code/ofApp.cpp:550 | The mute button flips that step's flag in place |
| SequencerApp.Sequencer.ToggleReset | Code/ofApp.cpp:596-602 | The reset button changes the object as `ResetToggled` says |
| SequencerApp.LoopStep | Code/ofApp.cpp:230-271 | One pass of the loop body keeps the rest point: it lands on it or leaves a state still resolving to it and strictly closer |

## Left out

- MIDI port selection, the console prompts, opening and closing the ports (`setup` beyond its field values, `exit`): input and output, not sequencing logic.
- The note pitch and its emission in `update` (the scaling of `stepNote` into the note range and the note-on/note-off messages): only the decision whether a due note is sent, and the clearing of `playNote`, are modelled.
- `stepNote` and the note-length timer and blink timer: floating point and clocks.
- `draw` and the mouse-drag handler: presentation.
- The sliders of `mousePressed` and `mouseDragged` (note, repeat count, reset length, reset position, mode, note length, note range): they map float pixel positions onto settings. Only the step active, step mute and reset buttons are modelled.
- The MIDI listener thread: `newMidiMessage` runs `clockAdvance` on another thread than `update`. The model treats every event as atomic and follows each pulse by its frame, as `Beat` does; `PingPongSkipWithoutFrame` shows what pulses in consecutive frames, with no idle frame between them, do.
- `logicCheck` is a field of the object in the source; here it is a local of `Update`, since `update` sets it before every use.
- SequencerApp.Sequencer.ClockAdvance: requires the current step in 0..9. After two pulses with no frame at all between them the source can index a step array outside its slots, which is undefined behaviour in C++.
- SequencerApp.Sequencer.Update: requires a resolvable state (`Ready`): some playable step active, and step 1 or 8 active when PingPong starts on a sentinel. Otherwise the source loop never ends (`PingPongSentinelSpins`).
- SequencerApp.Sequencer.ToggleActive: the frame that follows it needs some playable step still active (`ActiveFrame`), for the same reason.
- SequencerApp.Sequencer.Limit: each scalar range check (reset length, note range, reset position, mode, current step) is one assignment of `Clamp`, `WrapAround` or `LimitStep`, functions that spell out the source's if-chains; the repeat-count check inside its loop keeps the source's if-chain.
- SequencerApp.Sequencer.Update: each stage of the skip loop's body, the direction update and the wrap at the sentinels, is one assignment of `Heading` or `Wrap`, functions that spell out the source's if-chains; the skip onto the next slot keeps the source's if.
- SequencerState.Limited: its own contract states only the ranges it enforces; what it leaves unchanged is stated by `LimitedKeeps`.
- Integer widths: all settings are `int` in the source and stay far from overflow in every reachable state, so they are modelled as unbounded integers.

## Notes on the source

- `Code/ofApp.h:29-47` declares the step arrays with nine elements, but the code uses ten slots (0..9) throughout, for instance `setup`'s loop at `Code/ofApp.cpp:43` and the sentinel checks. The model follows the code and gives every array ten slots.
- Two situations are not guarded at all in the source. First, the skip loop never ends when no playable step is active. Second, in PingPong mode it never ends either when the loop starts on a sentinel with steps 1 and 8 inactive: it moves 0 to 9 and back forever (`PingPongSentinelSpins`). The model makes both a precondition of the frame (`Ready`, `Resolvable`).
- PingPongFixed does not play the sentinels: the pulse that reaches a sentinel is resolved by the frame back onto the end step with the direction turned. So the end step is played twice in a row (`PingPongFixedDoubles`), rather than a sentinel being played between two visits.
- PingPong turns at an end reached by skipping the step before it only because the next frame updates the direction (`PingPongSkipTurns`). When a pulse arrives in each of consecutive frames, with no idle frame between them, the stale direction carries the sequencer through the sentinel instead: 8, 1, 8 (`PingPongSkipWithoutFrame`).
- PingPong turns only at steps 1 and 8 (`Code/ofApp.cpp:238-245`), whether or not they are active. When the steps beyond the last active one are inactive, the loop runs out to the end, turns there and skips back, so the last active step is played twice in a row, once heading out and once heading back (`PingPongInnerEndDoubles`), as PingPongFixed plays its end steps. With a single active step every mode stays on it.
