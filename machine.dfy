/** The sequencer's state as a value, and what each of its operations does to
    it: the clock pulse (`ofApp::clockAdvance`), the reset (`resetSequence`),
    the range checks (`limit`), the per-frame pass (`update`), and the keyboard
    and button edits. The class in `SequencerApp` is proved to follow these. */
module SequencerState {
  import opened Steps

  /** A snapshot of the sequencer's fields, named as the sequencer names them.
      `stepMute[i]` true means step `i` sounds; `sequenceAdvance` is the
      direction; `resetState` switches the periodic reset on. */
  datatype State = State(
    stepActive: seq<bool>,
    stepMute: seq<bool>,
    stepRepeat: seq<int>,
    stepRepeatCount: seq<int>,
    stepNumber: int,
    sequenceAdvance: int,
    sequencerMode: int,
    resetState: bool,
    resetPosition: int,
    resetLength: int,
    resetPositionCount: int,
    noteLow: int,
    noteHigh: int,
    playNote: bool)

  /** Every step array has the ten slots 0..9. */
  predicate WellFormed(m: State) {
    |m.stepActive| == Slots && |m.stepMute| == Slots && |m.stepRepeat| == Slots && |m.stepRepeatCount| == Slots
  }

  /** The settings in the ranges `limit` enforces, with the sentinel slots
      inactive and some playable step active. */
  predicate Settings(m: State) {
    && WellFormed(m) && Sentinelled(m.stepActive) && SomeActive(m.stepActive)
    && 1 <= m.sequencerMode <= 4 && 1 <= m.resetPosition <= 8 && 1 <= m.resetLength <= 128
    && 0 <= m.noteLow <= 126 && 1 <= m.noteHigh <= 127
    && forall i :: 0 <= i < Slots ==> 1 <= m.stepRepeat[i] <= 8
  }

  /** Every repeat counter lies between 1 and its step's repeat count, and the
      reset countdown between 1 and the reset length. */
  predicate Counters(m: State) {
    && WellFormed(m)
    && (forall i :: 0 <= i < Slots ==> 1 <= m.stepRepeatCount[i] <= m.stepRepeat[i])
    && 1 <= m.resetPositionCount <= m.resetLength
  }

  /** Settings and counters of a running sequencer, with a direction. */
  predicate Tidy(m: State) {
    Settings(m) && Counters(m) && (m.sequenceAdvance == 1 || m.sequenceAdvance == -1)
  }

  /** The state between events: tidy, with the current step on an active
      playable slot. */
  predicate Steady(m: State) {
    Tidy(m) && 1 <= m.stepNumber <= 8 && m.stepActive[m.stepNumber]
  }

  /** `r` has the same settings as `m`: only the position, the direction, the
      counters and the pending note may differ. */
  predicate SameSettings(r: State, m: State) {
    && r.stepActive == m.stepActive && r.stepMute == m.stepMute && r.stepRepeat == m.stepRepeat
    && r.sequencerMode == m.sequencerMode && r.resetState == m.resetState
    && r.resetPosition == m.resetPosition && r.resetLength == m.resetLength
    && r.noteLow == m.noteLow && r.noteHigh == m.noteHigh
  }

  // ---------------------------------------------------------------------------
  // Operations

  /** The state `setup` leaves. */
  function Initial(): (r: State) {
    State(
      seq(Slots, i => 1 <= i <= 8), seq(Slots, i => 1 <= i <= 8),
      seq(Slots, i => 1), seq(Slots, i => 1),
      1, 1, Forward, false, 1, 128, 128, 1, 127, false)
  }

  /** `resetSequence`: back to the reset position with full repeat counters. */
  function Rewound(m: State): (r: State)
    requires WellFormed(m)
  {
    m.(stepNumber := m.resetPosition,
       resetPositionCount := m.resetLength,
       stepRepeatCount := seq(Slots, i requires 0 <= i < Slots =>
         if 1 <= i <= 8 then m.stepRepeat[i] else m.stepRepeatCount[i]),
       sequenceAdvance := if m.sequencerMode == PingPong || m.sequencerMode == PingPongFixed then 1 else m.sequenceAdvance)
  }

  /** The repeat rule of `clockAdvance`: the step's counter runs down; when
      it is spent it is reloaded and the sequencer moves one slot on. */
  function Stepped(m: State): (r: State)
    requires WellFormed(m) && 0 <= m.stepNumber < Slots
  {
    var s := m.stepNumber;
    if m.stepRepeatCount[s] <= 1
    then m.(stepRepeatCount := m.stepRepeatCount[s := m.stepRepeat[s]], stepNumber := s + m.sequenceAdvance)
    else m.(stepRepeatCount := m.stepRepeatCount[s := m.stepRepeatCount[s] - 1])
  }

  /** The reset countdown of `clockAdvance`: when the reset is on, the pulse
      counts down and a spent countdown resets the sequence. */
  function CountedDown(m: State): (r: State)
    requires WellFormed(m)
  {
    if !m.resetState then m
    else if m.resetPositionCount - 1 <= 0 then Rewound(m.(resetPositionCount := m.resetPositionCount - 1))
    else m.(resetPositionCount := m.resetPositionCount - 1)
  }

  /** `clockAdvance`: one clock pulse, which also marks a note as due. */
  function Clocked(m: State): (r: State)
    requires WellFormed(m) && 0 <= m.stepNumber < Slots
  {
    CountedDown(Stepped(m).(playNote := true))
  }

  /** Clamp `x` into `lo..hi`. */
  function Clamp(x: int, lo: int, hi: int): (r: int) {
    if x > hi then hi else if x < lo then lo else x
  }

  /** Bring `x` into `lo..hi` by jumping to the opposite end. */
  function WrapAround(x: int, lo: int, hi: int): (r: int) {
    if x > hi then lo else if x < lo then hi else x
  }

  /** The current step past slot 9 goes to 1, below slot 0 to 8. */
  function LimitStep(s: int): (r: int) {
    if s > 9 then 1 else if s < 0 then 8 else s
  }

  /** The ranges `limit` enforces. */
  predicate InRange(m: State) {
    && WellFormed(m)
    && 1 <= m.resetLength <= 128 && 1 <= m.noteHigh <= 127 && 0 <= m.noteLow <= 126
    && (forall i :: 1 <= i <= 8 ==> 1 <= m.stepRepeat[i] <= 8)
    && 1 <= m.resetPosition <= 8 && 1 <= m.sequencerMode <= 4 && 0 <= m.stepNumber <= 9
  }

  /** `limit`: clamp the reset length and note range, wrap the repeat counts,
      reset position, mode and current step. */
  function Limited(m: State): (r: State)
    requires WellFormed(m)
    ensures InRange(r)
  {
    m.(resetLength := Clamp(m.resetLength, 1, 128),
       noteHigh := Clamp(m.noteHigh, 1, 127),
       noteLow := Clamp(m.noteLow, 0, 126),
       stepRepeat := seq(Slots, i requires 0 <= i < Slots =>
         if 1 <= i <= 8 then WrapAround(m.stepRepeat[i], 1, 8) else m.stepRepeat[i]),
       resetPosition := WrapAround(m.resetPosition, 1, 8),
       sequencerMode := WrapAround(m.sequencerMode, 1, 4),
       stepNumber := LimitStep(m.stepNumber))
  }

  /** A state the per-frame pass can resolve: after `limit`, the skip loop comes to rest. */
  predicate Ready(m: State) {
    WellFormed(m) && Resolvable(m.stepActive, WrapAround(m.sequencerMode, 1, 4), LimitStep(m.stepNumber), m.sequenceAdvance)
  }

  /** `update` without the MIDI output: `limit`, the skip loop, and the note
      decision, which clears the pending note when the current step sounds. */
  function Framed(m: State): (r: State)
    requires Ready(m)
  {
    var l := Limited(m);
    var rest := Settle(l.stepActive, l.sequencerMode, l.stepNumber, l.sequenceAdvance);
    l.(stepNumber := rest.0, sequenceAdvance := rest.1, playNote := l.playNote && !l.stepMute[rest.0])
  }

  /** `keyPressed`: space pulses, `r` resets, and the edit keys move the
      reset position and the mode; other keys do nothing. */
  function Keyed(m: State, key: char): (r: State)
    requires WellFormed(m) && (key == ' ' ==> 0 <= m.stepNumber < Slots)
  {
    if key == ' ' then Clocked(m)
    else if key == 'r' then Rewound(m)
    else m.(resetPosition := PositionKeyed(m.resetPosition, key), sequencerMode := ModeKeyed(m.sequencerMode, key))
  }

  /** `-`/`_` move the reset position back a step, `+`/`=` forward. */
  function PositionKeyed(position: int, key: char): (r: int) {
    if key == '-' || key == '_' then position - 1
    else if key == '+' || key == '=' then position + 1
    else position
  }

  /** `[`/`{` select the previous mode, `]`/`}` the next. */
  function ModeKeyed(mode: int, key: char): (r: int) {
    if key == '[' || key == '{' then mode - 1
    else if key == ']' || key == '}' then mode + 1
    else mode
  }

  /** The active button of step `i`. */
  function ActiveToggled(m: State, i: int): (r: State)
    requires WellFormed(m) && 1 <= i <= 8
  {
    m.(stepActive := m.stepActive[i := !m.stepActive[i]])
  }

  /** The mute button of step `i`. */
  function MuteToggled(m: State, i: int): (r: State)
    requires WellFormed(m) && 1 <= i <= 8
  {
    m.(stepMute := m.stepMute[i := !m.stepMute[i]])
  }

  /** The reset button: switching the reset on restarts its countdown. */
  function ResetToggled(m: State): (r: State) {
    if !m.resetState then m.(resetState := true, resetPositionCount := m.resetLength)
    else m.(resetState := false)
  }

  // ---------------------------------------------------------------------------
  // Range checks

  /** `limit` touches only the settings it bounds and the current step, and
      leaves every value already in range as it is. */
  lemma LimitedKeeps(m: State)
    requires WellFormed(m)
    ensures var r := Limited(m);
            && r == m.(stepRepeat := r.stepRepeat, sequencerMode := r.sequencerMode, resetPosition := r.resetPosition,
                        resetLength := r.resetLength, noteLow := r.noteLow, noteHigh := r.noteHigh, stepNumber := r.stepNumber)
            && r.stepRepeat[0] == m.stepRepeat[0] && r.stepRepeat[9] == m.stepRepeat[9]
            && (forall i :: 1 <= i <= 8 && 1 <= m.stepRepeat[i] <= 8 ==> r.stepRepeat[i] == m.stepRepeat[i])
            && (1 <= m.resetLength <= 128 ==> r.resetLength == m.resetLength)
            && (1 <= m.noteHigh <= 127 ==> r.noteHigh == m.noteHigh)
            && (0 <= m.noteLow <= 126 ==> r.noteLow == m.noteLow)
            && (1 <= m.resetPosition <= 8 ==> r.resetPosition == m.resetPosition)
            && (1 <= m.sequencerMode <= 4 ==> r.sequencerMode == m.sequencerMode)
            && (0 <= m.stepNumber <= 9 ==> r.stepNumber == m.stepNumber)
  {
  }

  /** `limit` leaves values already in range alone, so it is idempotent. */
  lemma LimitedIdempotent(m: State)
    requires WellFormed(m)
    ensures InRange(m) ==> Limited(m) == m
    ensures Limited(Limited(m)) == Limited(m)
  {
    var r := Limited(m);
    assert InRange(m) ==> r.stepRepeat == m.stepRepeat;
    assert Limited(r).stepRepeat == r.stepRepeat;
  }

  /** The mode keys step through the four modes cyclically once `limit` has
      run. */
  lemma ModeKeysCycle(m: State)
    requires WellFormed(m) && 1 <= m.sequencerMode <= 4
    ensures Limited(Keyed(m, ']')).sequencerMode == m.sequencerMode % 4 + 1
    ensures Limited(Keyed(m, '}')).sequencerMode == m.sequencerMode % 4 + 1
    ensures Limited(Keyed(m, '[')).sequencerMode == (m.sequencerMode + 2) % 4 + 1
    ensures Limited(Keyed(m, '{')).sequencerMode == (m.sequencerMode + 2) % 4 + 1
  {
  }

  /** The reset-position keys step through the playable steps cyclically once
      `limit` has run. */
  lemma PositionKeysCycle(m: State)
    requires WellFormed(m) && 1 <= m.resetPosition <= 8
    ensures Limited(Keyed(m, '+')).resetPosition == m.resetPosition % 8 + 1
    ensures Limited(Keyed(m, '=')).resetPosition == m.resetPosition % 8 + 1
    ensures Limited(Keyed(m, '-')).resetPosition == (m.resetPosition + 6) % 8 + 1
    ensures Limited(Keyed(m, '_')).resetPosition == (m.resetPosition + 6) % 8 + 1
  {
  }

  // ---------------------------------------------------------------------------
  // The invariant across events

  /** `setup` leaves a steady sequencer. */
  lemma InitialSteady()
    ensures Steady(Initial())
  {
    assert Initial().stepActive[1];
  }

  /** The per-frame pass on a tidy state lands on an active playable step and
      changes nothing but the position, the direction and the pending note. */
  lemma FrameSettles(m: State)
    requires Ready(m) && Tidy(Limited(m))
    ensures Steady(Framed(m)) && SameSettings(Framed(m), Limited(m))
    ensures Framed(m).stepRepeatCount == m.stepRepeatCount
    ensures Framed(m).resetPositionCount == m.resetPositionCount
  {
  }

  /** The repeat rule keeps the counters in bounds and moves at most one slot. */
  lemma SteppedCounters(m: State)
    requires Settings(m) && Counters(m) && 0 <= m.stepNumber < Slots
    ensures Counters(Stepped(m)) && SameSettings(Stepped(m), m)
    ensures Stepped(m).stepNumber in {m.stepNumber, m.stepNumber + m.sequenceAdvance}
    ensures Stepped(m).sequenceAdvance == m.sequenceAdvance
    ensures Stepped(m).stepActive == m.stepActive
  {
    var r := Stepped(m);
    forall i | 0 <= i < Slots ensures 1 <= r.stepRepeatCount[i] <= r.stepRepeat[i] {
    }
  }

  /** A reset leaves the counters full and the position on a playable step. */
  lemma RewoundTidy(m: State)
    requires Settings(m) && WellFormed(m)
    requires forall i :: 0 <= i < Slots ==> 1 <= m.stepRepeatCount[i] <= m.stepRepeat[i]
    requires m.sequenceAdvance == 1 || m.sequenceAdvance == -1
    ensures Tidy(Rewound(m)) && SameSettings(Rewound(m), m) && Rewound(m).stepActive == m.stepActive
    ensures forall i :: 1 <= i <= 8 ==> Rewound(m).stepRepeatCount[i] == m.stepRepeat[i]
  {
    var r := Rewound(m);
    forall i | 0 <= i < Slots ensures 1 <= r.stepRepeatCount[i] <= r.stepRepeat[i] {
    }
  }

  /** The reset countdown stays between 1 and the reset length. */
  lemma CountedDownTidy(m: State)
    requires Tidy(m)
    ensures Tidy(CountedDown(m)) && SameSettings(CountedDown(m), m)
    ensures CountedDown(m).stepActive == m.stepActive
    ensures CountedDown(m).stepNumber in {m.stepNumber, m.resetPosition}
  {
    if m.resetState && m.resetPositionCount - 1 <= 0 {
      RewoundTidy(m.(resetPositionCount := m.resetPositionCount - 1));
    }
  }

  /** A pulse from a steady state keeps the counters in bounds and leaves a
      state the next frame resolves: a PingPong pulse reaches a sentinel only
      from step 1 or 8, which is then active. */
  lemma ClockedTidy(m: State)
    requires Steady(m)
    ensures InRange(Clocked(m)) && Tidy(Clocked(m)) && SameSettings(Clocked(m), m)
    ensures Resolvable(m.stepActive, m.sequencerMode, Clocked(m).stepNumber, Clocked(m).sequenceAdvance)
  {
    SteppedCounters(m);
    var p := Stepped(m).(playNote := true);
    assert Tidy(p);
    CountedDownTidy(p);
  }

  /** One pulse and the frame that follows it. */
  function Pulsed(m: State): (r: State)
    requires Steady(m)
    ensures Steady(r) && SameSettings(r, m)
  {
    ClockedTidy(m);
    LimitedIdempotent(Clocked(m));
    FrameSettles(Clocked(m));
    Framed(Clocked(m))
  }

  /** A frame in which nothing else happens. */
  function Idled(m: State): (r: State)
    requires Steady(m)
    ensures Steady(r) && SameSettings(r, m)
  {
    LimitedIdempotent(m);
    FrameSettles(m);
    Framed(m)
  }

  /** A pulse, its frame, and the idle frame that runs before the next note
      arrives; further idle frames change nothing (see `IdleSettles`). */
  function Beat(m: State): (r: State)
    requires Steady(m)
    ensures Steady(r) && SameSettings(r, m)
  {
    Idled(Pulsed(m))
  }

  /** Link `i` of a run: the state after it is one beat on from the state before. */
  predicate Links(ms: seq<State>, i: nat)
    requires i + 1 < |ms| && Steady(ms[i])
  {
    ms[i + 1] == Beat(ms[i])
  }

  /** The states a steady sequencer passes through, beat after beat. */
  predicate Run(ms: seq<State>) {
    && |ms| > 0
    && (forall i :: 0 <= i < |ms| ==> Steady(ms[i]))
    && forall i: nat :: i + 1 < |ms| ==> Links(ms, i)
  }

  /** A state an idle frame leaves: the direction is the one the skip loop
      sets on the current step, and no note is pending on a sounding step. */
  predicate Settled(m: State) {
    && Steady(m) && m.sequenceAdvance == Heading(m.sequencerMode, m.stepNumber, m.sequenceAdvance)
    && (m.playNote ==> !m.stepMute[m.stepNumber])
  }

  /** A key press and the frame that follows it. */
  function KeyFrame(m: State, key: char): (r: State)
    requires Steady(m)
    ensures Steady(r)
  {
    var k := Keyed(m, key);
    if key == ' ' then Pulsed(m)
    else
      KeyedTidy(m, key);
      FrameSettles(k);
      Framed(k)
  }

  /** An edit key leaves a state the next frame resolves and tidies. */
  lemma KeyedTidy(m: State, key: char)
    requires Steady(m) && key != ' '
    ensures Ready(Keyed(m, key)) && Tidy(Limited(Keyed(m, key)))
  {
    var k := Keyed(m, key);
    if key == 'r' {
      RewoundTidy(m);
      LimitedIdempotent(k);
    } else {
      LimitedTidy(m, PositionKeyed(m.resetPosition, key), ModeKeyed(m.sequencerMode, key));
    }
  }

  /** `limit` tidies a steady state whose reset position and mode were moved. */
  lemma LimitedTidy(m: State, position: int, mode: int)
    requires Steady(m)
    ensures Ready(m.(resetPosition := position, sequencerMode := mode))
    ensures Tidy(Limited(m.(resetPosition := position, sequencerMode := mode)))
  {
    var k := m.(resetPosition := position, sequencerMode := mode);
    var l := Limited(k);
    assert l.stepRepeat == k.stepRepeat;
  }

  /** An active-button press and the frame that follows it; the press must
      leave some playable step active, or the skip loop would never end. */
  function ActiveFrame(m: State, i: int): (r: State)
    requires Steady(m) && 1 <= i <= 8 && SomeActive(ActiveToggled(m, i).stepActive)
    ensures Steady(r)
  {
    var k := ActiveToggled(m, i);
    LimitedIdempotent(k);
    FrameSettles(k);
    Framed(k)
  }

  /** A mute-button press and the frame that follows it. */
  function MuteFrame(m: State, i: int): (r: State)
    requires Steady(m) && 1 <= i <= 8
    ensures Steady(r)
  {
    var k := MuteToggled(m, i);
    LimitedIdempotent(k);
    FrameSettles(k);
    Framed(k)
  }

  /** A reset-button press and the frame that follows it. */
  function ResetFrame(m: State): (r: State)
    requires Steady(m)
    ensures Steady(r)
  {
    var k := ResetToggled(m);
    LimitedIdempotent(k);
    FrameSettles(k);
    Framed(k)
  }
}
