/** What the sequencer does over time: frames settle, notes follow the mute
    buttons, steps repeat, the periodic reset fires, the four modes walk their
    cycles, and the edits and buttons act on the current step as they should. */
module SequencerBehaviour {
  import opened Steps
  import opened SequencerState

  // ---------------------------------------------------------------------------
  // Frames and notes

  /** An idle frame keeps the current step and settles the direction; on a
      settled state it changes nothing, so further idle frames are no-ops. */
  lemma IdleSettles(m: State)
    requires Steady(m)
    ensures Settled(Idled(m)) && Idled(m).stepNumber == m.stepNumber
    ensures Idled(m).stepRepeatCount == m.stepRepeatCount
    ensures Idled(m).resetPositionCount == m.resetPositionCount
    ensures Settled(m) ==> Idled(m) == m
  {
    LimitedIdempotent(m);
    SettleAtActive(m.stepActive, m.sequencerMode, m.stepNumber, m.sequenceAdvance);
  }

  /** A beat leaves the sequencer settled at the rest point of the skip loop
      started from the slot the pulse reached, with the counters the pulse
      left; the beat's note is sent exactly when the step it lands on sounds. */
  lemma BeatRests(m: State)
    requires Steady(m)
    ensures Resolvable(m.stepActive, m.sequencerMode, Clocked(m).stepNumber, Clocked(m).sequenceAdvance)
    ensures (Beat(m).stepNumber, Beat(m).sequenceAdvance)
         == Rest(m.stepActive, m.sequencerMode, Clocked(m).stepNumber, Clocked(m).sequenceAdvance)
    ensures Pulsed(m).stepNumber == Beat(m).stepNumber
    ensures Beat(m).stepRepeatCount == Clocked(m).stepRepeatCount
    ensures Beat(m).resetPositionCount == Clocked(m).resetPositionCount
    ensures Pulsed(m).playNote == Beat(m).playNote == !m.stepMute[Beat(m).stepNumber]
    ensures Settled(Beat(m))
  {
    ClockedTidy(m);
    var c := Clocked(m);
    LimitedIdempotent(c);
    var p := Pulsed(m);
    LimitedIdempotent(p);
    SettleAtActive(p.stepActive, p.sequencerMode, p.stepNumber, p.sequenceAdvance);
    IdleSettles(p);
  }

  /** A run can always go on for one more beat. */
  lemma RunGrows(ms: seq<State>)
    requires Run(ms)
    ensures Run(ms + [Beat(ms[|ms| - 1])])
  {
    var last := ms[|ms| - 1];
    var ns := ms + [Beat(last)];
    forall i | 0 <= i < |ns| ensures Steady(ns[i]) {
      if i < |ms| {
        assert ns[i] == ms[i];
      }
    }
    forall i: nat | i + 1 < |ns| ensures Links(ns, i) {
      if i + 1 < |ms| {
        assert Links(ms, i) && ns[i] == ms[i] && ns[i + 1] == ms[i + 1];
      } else {
        assert ns[i] == last;
      }
    }
  }

  /** A run changes no setting. */
  lemma {:induction false} RunKeepsSettings(ms: seq<State>, n: nat)
    requires Run(ms) && n < |ms|
    ensures SameSettings(ms[n], ms[0])
    decreases n
  {
    if n > 0 {
      var i := n - 1;
      RunKeepsSettings(ms, i);
      assert Links(ms, i);
    }
  }

  // ---------------------------------------------------------------------------
  // The repeat rule

  /** While its counter is above 1, a beat keeps the step and counts down,
      unless it is the beat on which the periodic reset fires. */
  lemma BeatDwells(m: State)
    requires Steady(m) && !(m.resetState && m.resetPositionCount <= 1) && m.stepRepeatCount[m.stepNumber] > 1
    ensures Beat(m).stepNumber == m.stepNumber
    ensures Beat(m).stepRepeatCount == m.stepRepeatCount[m.stepNumber := m.stepRepeatCount[m.stepNumber] - 1]
  {
    BeatRests(m);
    SettleAtActive(m.stepActive, m.sequencerMode, m.stepNumber, m.sequenceAdvance);
  }

  /** A step whose counter reads `c` holds for the next `c - 1` beats, its
      counter running down to 1. */
  lemma {:induction false} RepeatHolds(ms: seq<State>, j: nat)
    requires Run(ms) && !ms[0].resetState && j < |ms| && j < ms[0].stepRepeatCount[ms[0].stepNumber]
    ensures ms[j].stepNumber == ms[0].stepNumber
    ensures ms[j].stepRepeatCount[ms[0].stepNumber] == ms[0].stepRepeatCount[ms[0].stepNumber] - j
    decreases j
  {
    if j > 0 {
      var i := j - 1;
      RepeatHolds(ms, i);
      RepeatHoldsStep(ms, i);
    }
  }

  /** The inductive step of `RepeatHolds`. */
  lemma RepeatHoldsStep(ms: seq<State>, j: nat)
    requires Run(ms) && !ms[0].resetState && j + 1 < |ms| && j + 1 < ms[0].stepRepeatCount[ms[0].stepNumber]
    requires ms[j].stepNumber == ms[0].stepNumber
    requires ms[j].stepRepeatCount[ms[0].stepNumber] == ms[0].stepRepeatCount[ms[0].stepNumber] - j
    ensures ms[j + 1].stepNumber == ms[0].stepNumber
    ensures ms[j + 1].stepRepeatCount[ms[0].stepNumber] == ms[0].stepRepeatCount[ms[0].stepNumber] - (j + 1)
  {
    assert Links(ms, j);
    RunKeepsSettings(ms, j);
    BeatDwells(ms[j]);
  }

  /** The beat that finds the counter spent reloads it from the step's repeat
      count and moves on: the rest of the loop started one slot further on. */
  lemma RepeatExpires(m: State)
    requires Steady(m) && !m.resetState && m.stepRepeatCount[m.stepNumber] <= 1
    ensures Beat(m).stepRepeatCount == m.stepRepeatCount[m.stepNumber := m.stepRepeat[m.stepNumber]]
    ensures Resolvable(m.stepActive, m.sequencerMode, m.stepNumber + m.sequenceAdvance, m.sequenceAdvance)
    ensures (Beat(m).stepNumber, Beat(m).sequenceAdvance)
         == Rest(m.stepActive, m.sequencerMode, m.stepNumber + m.sequenceAdvance, m.sequenceAdvance)
  {
    BeatRests(m);
  }

  /** A run from `ms[0]` is a run from any of its states on. */
  lemma RunSuffix(ms: seq<State>, e: nat)
    requires Run(ms) && e < |ms|
    ensures Run(ms[e..])
  {
    var ns := ms[e..];
    forall i | 0 <= i < |ns| ensures Steady(ns[i]) {
      assert ns[i] == ms[e + i];
    }
    forall i: nat | i + 1 < |ns| ensures Links(ns, i) {
      assert Links(ms, e + i) && ns[i] == ms[e + i] && ns[i + 1] == ms[e + i + 1];
    }
  }

  /** A step's counter reads its full repeat count whenever the step is not
      the current one: a step is entered with its whole repeat count. */
  predicate Full(m: State)
    requires WellFormed(m)
  {
    forall i :: 1 <= i <= 8 && i != m.stepNumber ==> m.stepRepeatCount[i] == m.stepRepeat[i]
  }

  /** `setup` leaves every counter full. */
  lemma InitialFull()
    ensures WellFormed(Initial()) && Full(Initial())
  {
  }

  /** A pulse either leaves every counter full, or keeps the step and
      leaves every other counter full. */
  lemma ClockedFull(m: State)
    requires Steady(m) && Full(m)
    ensures var c := Clocked(m);
            || (forall i :: 1 <= i <= 8 ==> c.stepRepeatCount[i] == m.stepRepeat[i])
            || (c.stepNumber == m.stepNumber
                && forall i :: 1 <= i <= 8 && i != m.stepNumber ==> c.stepRepeatCount[i] == m.stepRepeat[i])
  {
    if m.resetState && m.resetPositionCount <= 1 {
      PulseRewinds(m);
    }
  }

  /** A beat keeps the counters full, and the step a beat moves to starts
      with its whole repeat count. */
  lemma BeatKeepsFull(m: State)
    requires Steady(m) && Full(m)
    ensures Full(Beat(m))
    ensures Beat(m).stepNumber != m.stepNumber
        ==> Beat(m).stepRepeatCount[Beat(m).stepNumber] == m.stepRepeat[Beat(m).stepNumber]
  {
    BeatRests(m);
    ClockedFull(m);
    var c := Clocked(m);
    if c.stepNumber == m.stepNumber {
      SettleAtActive(m.stepActive, m.sequencerMode, c.stepNumber, c.sequenceAdvance);
    }
  }

  /** Along a run, the counters stay full. */
  lemma {:induction false} RunKeepsFull(ms: seq<State>, n: nat)
    requires Run(ms) && Full(ms[0]) && n < |ms|
    ensures Full(ms[n])
    decreases n
  {
    if n > 0 {
      var i := n - 1;
      RunKeepsFull(ms, i);
      assert Links(ms, i);
      BeatKeepsFull(ms[i]);
    }
  }

  /** A step whose counter is full stays current for exactly its repeat
      count `k` of beats: on beats 0 .. k - 1 it is current, and beat `k`
      reloads its counter and moves on to where the skip loop started one
      slot further comes to rest. */
  lemma RepeatLasts(ms: seq<State>)
    requires Run(ms) && !ms[0].resetState
    requires ms[0].stepRepeatCount[ms[0].stepNumber] == ms[0].stepRepeat[ms[0].stepNumber]
    requires ms[0].stepRepeat[ms[0].stepNumber] < |ms|
    ensures forall j :: 0 <= j < ms[0].stepRepeat[ms[0].stepNumber] ==> ms[j].stepNumber == ms[0].stepNumber
    ensures ms[ms[0].stepRepeat[ms[0].stepNumber]].stepRepeatCount[ms[0].stepNumber]
         == ms[0].stepRepeat[ms[0].stepNumber]
    ensures Resolvable(ms[0].stepActive, ms[0].sequencerMode,
                       ms[0].stepNumber + ms[ms[0].stepRepeat[ms[0].stepNumber] - 1].sequenceAdvance,
                       ms[ms[0].stepRepeat[ms[0].stepNumber] - 1].sequenceAdvance)
    ensures (ms[ms[0].stepRepeat[ms[0].stepNumber]].stepNumber, ms[ms[0].stepRepeat[ms[0].stepNumber]].sequenceAdvance)
         == Rest(ms[0].stepActive, ms[0].sequencerMode,
                 ms[0].stepNumber + ms[ms[0].stepRepeat[ms[0].stepNumber] - 1].sequenceAdvance,
                 ms[ms[0].stepRepeat[ms[0].stepNumber] - 1].sequenceAdvance)
  {
    var s := ms[0].stepNumber;
    var k := ms[0].stepRepeat[s];
    forall j | 0 <= j < k ensures ms[j].stepNumber == s {
      RepeatHolds(ms, j);
    }
    var i := k - 1;
    RepeatHolds(ms, i);
    RepeatEnds(ms, i);
  }

  /** The beat of a run that finds the counter spent, as `RepeatExpires`
      states it for a run. */
  lemma RepeatEnds(ms: seq<State>, i: nat)
    requires Run(ms) && !ms[0].resetState && i + 1 < |ms|
    requires ms[i].stepRepeatCount[ms[i].stepNumber] <= 1
    ensures ms[i + 1].stepRepeatCount[ms[i].stepNumber] == ms[0].stepRepeat[ms[i].stepNumber]
    ensures Resolvable(ms[0].stepActive, ms[0].sequencerMode, ms[i].stepNumber + ms[i].sequenceAdvance, ms[i].sequenceAdvance)
    ensures (ms[i + 1].stepNumber, ms[i + 1].sequenceAdvance)
         == Rest(ms[0].stepActive, ms[0].sequencerMode, ms[i].stepNumber + ms[i].sequenceAdvance, ms[i].sequenceAdvance)
  {
    assert Links(ms, i);
    RunKeepsSettings(ms, i);
    RepeatExpires(ms[i]);
  }

  /** With the counters full, a step the sequencer moves onto starts with a
      full repeat count. */
  lemma EnteredFull(ms: seq<State>, j: nat)
    requires Run(ms) && Full(ms[0])
    requires j + 1 < |ms| && ms[j + 1].stepNumber != ms[j].stepNumber
    ensures SameSettings(ms[j + 1], ms[0])
    ensures ms[j + 1].stepRepeatCount[ms[j + 1].stepNumber] == ms[0].stepRepeat[ms[j + 1].stepNumber]
  {
    RunKeepsFull(ms, j);
    assert Links(ms, j);
    RunKeepsSettings(ms, j);
    BeatKeepsFull(ms[j]);
    var e := j + 1;
    RunKeepsSettings(ms, e);
  }

  /** With the counters full and the reset off, a step the sequencer moves
      onto is held for exactly its repeat count of beats, then left. */
  lemma EnteredHolds(ms: seq<State>, j: nat)
    requires Run(ms) && Full(ms[0]) && !ms[0].resetState
    requires j + 1 < |ms| && ms[j + 1].stepNumber != ms[j].stepNumber
    requires j + 1 + ms[0].stepRepeat[ms[j + 1].stepNumber] < |ms|
    ensures forall i :: j + 1 <= i <= j + ms[0].stepRepeat[ms[j + 1].stepNumber] ==> ms[i].stepNumber == ms[j + 1].stepNumber
    ensures ms[j + 1 + ms[0].stepRepeat[ms[j + 1].stepNumber]].stepRepeatCount[ms[j + 1].stepNumber]
         == ms[0].stepRepeat[ms[j + 1].stepNumber]
    ensures var s := ms[j + 1].stepNumber;
            var k := ms[0].stepRepeat[s];
            var d := ms[j + k].sequenceAdvance;
            && Resolvable(ms[0].stepActive, ms[0].sequencerMode, s + d, d)
            && (ms[j + 1 + k].stepNumber, ms[j + 1 + k].sequenceAdvance)
               == Rest(ms[0].stepActive, ms[0].sequencerMode, s + d, d)
  {
    var e := j + 1;
    EnteredFull(ms, j);
    var ns := ms[e..];
    RunSuffix(ms, e);
    var s := ms[e].stepNumber;
    var k := ms[0].stepRepeat[s];
    assert ns[0] == ms[e] && ns[0].stepRepeat[s] == k;
    RepeatLasts(ns);
    forall i | e <= i <= j + k ensures ms[i].stepNumber == s {
      assert ms[i] == ns[i - e];
    }
    assert ms[e + k] == ns[k];
    var i := k - 1;
    assert ms[j + k] == ns[i];
  }

  // ---------------------------------------------------------------------------
  // The periodic reset

  /** With the reset on, a beat that does not spend the countdown moves the
      step and the counters exactly as it would with the reset off, and counts
      the countdown down by one. */
  lemma BeatResetOn(t: State, k: int)
    requires Steady(t) && !t.resetState && 1 < k <= t.resetLength
    ensures Steady(t.(resetState := true, resetPositionCount := k))
    ensures Beat(t.(resetState := true, resetPositionCount := k))
         == Beat(t).(resetState := true, resetPositionCount := k - 1)
  {
    var m := t.(resetState := true, resetPositionCount := k);
    assert Steady(m);
    ClockedResetOn(t, k);
    BeatRests(m);
    BeatRests(t);
    var b, b' := Beat(m), Beat(t);
    assert b.stepNumber == b'.stepNumber && b.sequenceAdvance == b'.sequenceAdvance;
    assert b.stepRepeatCount == b'.stepRepeatCount && b.playNote == b'.playNote;
    assert b.resetPositionCount == k - 1;
  }

  /** The pulse-level half of `BeatResetOn`. */
  lemma ClockedResetOn(t: State, k: int)
    requires WellFormed(t) && 0 <= t.stepNumber < Slots && !t.resetState && k > 1
    ensures Clocked(t.(resetState := true, resetPositionCount := k))
         == Clocked(t).(resetState := true, resetPositionCount := k - 1)
  {
  }

  /** `m` is `t` with the periodic reset switched on and the countdown at `k`. */
  predicate ResetTwin(m: State, t: State, k: int) {
    && m.stepActive == t.stepActive && m.stepMute == t.stepMute && m.stepRepeat == t.stepRepeat
    && m.stepRepeatCount == t.stepRepeatCount && m.stepNumber == t.stepNumber
    && m.sequenceAdvance == t.sequenceAdvance && m.sequencerMode == t.sequencerMode
    && m.resetState && !t.resetState && m.resetPositionCount == k
    && m.resetPosition == t.resetPosition && m.resetLength == t.resetLength
    && m.noteLow == t.noteLow && m.noteHigh == t.noteHigh && m.playNote == t.playNote
  }

  /** Between two firings of the periodic reset, a run with the reset on
      follows the run from the same state with the reset off beat for beat,
      its countdown running down alongside. */
  lemma {:induction false} ResetRunsAlike(ms: seq<State>, ns: seq<State>, n: nat)
    requires Run(ms) && Run(ns) && ResetTwin(ms[0], ns[0], ms[0].resetPositionCount)
    requires n < |ms| && n < |ns| && n < ms[0].resetPositionCount
    ensures ResetTwin(ms[n], ns[n], ms[0].resetPositionCount - n)
    decreases n
  {
    if n > 0 {
      var i := n - 1;
      ResetRunsAlike(ms, ns, i);
      assert Links(ms, i) && Links(ns, i);
      ResetRunsAlikeStep(ms, ns, i, ms[0].resetPositionCount - i);
    }
  }

  /** The inductive step of `ResetRunsAlike`. */
  lemma ResetRunsAlikeStep(ms: seq<State>, ns: seq<State>, j: nat, k: int)
    requires j + 1 < |ms| && j + 1 < |ns| && Steady(ms[j]) && Steady(ns[j])
    requires Links(ms, j) && Links(ns, j)
    requires ResetTwin(ms[j], ns[j], k) && 1 < k
    ensures ResetTwin(ms[j + 1], ns[j + 1], k - 1)
  {
    assert ms[j] == ns[j].(resetState := true, resetPositionCount := k);
    BeatResetOn(ns[j], k);
  }

  /** With the reset on, every pulse counts the countdown down by one. */
  lemma {:induction false} ResetCountsDown(ms: seq<State>, j: nat)
    requires Run(ms) && ms[0].resetState && j < |ms| && j < ms[0].resetPositionCount
    ensures ms[j].resetPositionCount == ms[0].resetPositionCount - j
    decreases j
  {
    if j > 0 {
      var i := j - 1;
      ResetCountsDown(ms, i);
      ResetCountsDownStep(ms, i);
    }
  }

  /** The inductive step of `ResetCountsDown`. */
  lemma ResetCountsDownStep(ms: seq<State>, j: nat)
    requires Run(ms) && ms[0].resetState && j + 1 < |ms| && j + 1 < ms[0].resetPositionCount
    requires ms[j].resetPositionCount == ms[0].resetPositionCount - j
    ensures ms[j + 1].resetPositionCount == ms[0].resetPositionCount - (j + 1)
  {
    assert Links(ms, j);
    RunKeepsSettings(ms, j);
    BeatCountsDown(ms[j]);
  }

  /** A pulse with the reset on and the countdown above 1 only counts down. */
  lemma BeatCountsDown(m: State)
    requires Steady(m) && m.resetState && m.resetPositionCount > 1
    ensures Beat(m).resetPositionCount == m.resetPositionCount - 1
  {
    BeatRests(m);
  }

  /** The pulse that spends the countdown resets the sequence: the countdown
      restarts from the reset length, every playable step's counter is full,
      and the sequencer settles from the reset position, PingPong modes
      heading forwards; an active reset position is where it lands. */
  lemma ResetFires(m: State)
    requires Steady(m) && m.resetState && m.resetPositionCount <= 1
    ensures Beat(m).resetPositionCount == m.resetLength
    ensures forall i :: 1 <= i <= 8 ==> Beat(m).stepRepeatCount[i] == m.stepRepeat[i]
    ensures var d := if m.sequencerMode == PingPong || m.sequencerMode == PingPongFixed then 1 else m.sequenceAdvance;
            && Resolvable(m.stepActive, m.sequencerMode, m.resetPosition, d)
            && (Beat(m).stepNumber, Beat(m).sequenceAdvance) == Rest(m.stepActive, m.sequencerMode, m.resetPosition, d)
    ensures m.stepActive[m.resetPosition] ==> Beat(m).stepNumber == m.resetPosition
  {
    BeatRests(m);
    var d := if m.sequencerMode == PingPong || m.sequencerMode == PingPongFixed then 1 else m.sequenceAdvance;
    PulseRewinds(m);
    if m.stepActive[m.resetPosition] {
      SettleAtActive(m.stepActive, m.sequencerMode, m.resetPosition, d);
    }
  }

  /** The pulse that spends the countdown leaves the sequencer rewound. */
  lemma PulseRewinds(m: State)
    requires Steady(m) && m.resetState && m.resetPositionCount <= 1
    ensures Clocked(m).resetPositionCount == m.resetLength
    ensures forall i :: 1 <= i <= 8 ==> Clocked(m).stepRepeatCount[i] == m.stepRepeat[i]
    ensures Clocked(m).stepNumber == m.resetPosition
    ensures Clocked(m).sequenceAdvance
         == if m.sequencerMode == PingPong || m.sequencerMode == PingPongFixed then 1 else m.sequenceAdvance
  {
  }

  /** With the reset on, the sequence restarts every `resetLength` pulses:
      the countdown runs out after exactly as many pulses as it reads. */
  lemma ResetPeriod(ms: seq<State>)
    requires Run(ms) && ms[0].resetState && ms[0].resetPositionCount < |ms|
    ensures var m := ms[0];
            var r := ms[m.resetPositionCount];
            && r.resetPositionCount == m.resetLength
            && (forall i :: 1 <= i <= 8 ==> r.stepRepeatCount[i] == m.stepRepeat[i])
            && (m.stepActive[m.resetPosition] ==> r.stepNumber == m.resetPosition)
  {
    var i := ms[0].resetPositionCount - 1;
    ResetCountsDown(ms, i);
    assert Links(ms, i);
    RunKeepsSettings(ms, i);
    ResetFires(ms[i]);
  }

  /** The `r` key resets at once, as the countdown would. */
  lemma RewindKey(m: State)
    requires Steady(m)
    ensures KeyFrame(m, 'r').resetPositionCount == m.resetLength
    ensures forall i :: 1 <= i <= 8 ==> KeyFrame(m, 'r').stepRepeatCount[i] == m.stepRepeat[i]
    ensures m.stepActive[m.resetPosition] ==> KeyFrame(m, 'r').stepNumber == m.resetPosition
  {
    RewoundTidy(m);
    var k := Rewound(m);
    LimitedIdempotent(k);
    if m.stepActive[m.resetPosition] {
      SettleAtActive(k.stepActive, k.sequencerMode, k.stepNumber, k.sequenceAdvance);
    }
  }

  // ---------------------------------------------------------------------------
  // Walking the cycle

  /** Every playable step active and played once per visit. */
  predicate Plain(m: State)
    requires WellFormed(m)
  {
    forall i :: 1 <= i <= 8 ==> m.stepActive[i] && m.stepRepeat[i] == 1
  }

  /** From a settled state whose counter is spent, a beat moves to the first
      active slot of the mode's cycle after the current one, passing only
      inactive slots, and settles there with the cycle's direction. */
  lemma BeatFollowsCycle(m: State)
    requires Settled(m) && !m.resetState && m.stepRepeatCount[m.stepNumber] <= 1
    ensures OnCycle(m.sequencerMode, m.stepNumber, m.sequenceAdvance)
    ensures var mode, a := m.sequencerMode, m.stepActive;
            var q := NextPhase(mode, Phase(mode, m.stepNumber, m.sequenceAdvance));
            var k := Ahead(a, mode, q, CycleLength(mode));
            && k < CycleLength(mode)
            && (Beat(m).stepNumber, Beat(m).sequenceAdvance) == Point(mode, Shift(mode, q, k))
            && forall j :: 0 <= j < k ==> !a[CycleStep(mode, Shift(mode, q, j))]
  {
    RepeatExpires(m);
    RestAfter(m.stepActive, m.sequencerMode, m.stepNumber, m.sequenceAdvance);
  }

  /** With every playable step active and played once, a beat moves exactly
      one phase along the cycle. */
  lemma BeatStepsOn(m: State)
    requires Settled(m) && !m.resetState && 1 <= m.sequencerMode <= 3 && Plain(m)
    ensures OnCycle(m.sequencerMode, m.stepNumber, m.sequenceAdvance)
    ensures var q := NextPhase(m.sequencerMode, Phase(m.sequencerMode, m.stepNumber, m.sequenceAdvance));
            (Beat(m).stepNumber, Beat(m).sequenceAdvance) == Point(m.sequencerMode, q)
  {
    assert m.stepRepeatCount[m.stepNumber] <= 1;
    BeatFollowsCycle(m);
  }

  /** With every playable step active and played once, `n` beats move `n`
      phases along the mode's cycle: Forward counts up through 1..8, Backward
      down, PingPong up and down turning at 1 and 8. */
  lemma {:induction false} Walks(ms: seq<State>, n: nat)
    requires Run(ms) && Settled(ms[0]) && !ms[0].resetState && 1 <= ms[0].sequencerMode <= 3 && Plain(ms[0])
    requires n < |ms|
    ensures OnCycle(ms[0].sequencerMode, ms[0].stepNumber, ms[0].sequenceAdvance)
    ensures Settled(ms[n])
    ensures (ms[n].stepNumber, ms[n].sequenceAdvance)
         == Point(ms[0].sequencerMode, Onward(ms[0].sequencerMode, Phase(ms[0].sequencerMode, ms[0].stepNumber, ms[0].sequenceAdvance), n))
    decreases n
  {
    var mode, s, d := ms[0].sequencerMode, ms[0].stepNumber, ms[0].sequenceAdvance;
    if n == 0 {
      PointPhase(mode, s, d, Phase(mode, s, d));
    } else {
      var i := n - 1;
      Walks(ms, i);
      WalksStep(ms, i);
    }
  }

  /** The inductive step of `Walks`. */
  lemma WalksStep(ms: seq<State>, j: nat)
    requires Run(ms) && Settled(ms[0]) && !ms[0].resetState && 1 <= ms[0].sequencerMode <= 3 && Plain(ms[0])
    requires j + 1 < |ms| && Settled(ms[j])
    requires (ms[j].stepNumber, ms[j].sequenceAdvance)
          == Point(ms[0].sequencerMode, Onward(ms[0].sequencerMode, Phase(ms[0].sequencerMode, ms[0].stepNumber, ms[0].sequenceAdvance), j))
    ensures Settled(ms[j + 1])
    ensures (ms[j + 1].stepNumber, ms[j + 1].sequenceAdvance)
         == Point(ms[0].sequencerMode, Onward(ms[0].sequencerMode, Phase(ms[0].sequencerMode, ms[0].stepNumber, ms[0].sequenceAdvance), j + 1))
  {
    var mode := ms[0].sequencerMode;
    var p := Phase(mode, ms[0].stepNumber, ms[0].sequenceAdvance);
    var b := ms[j];
    assert Links(ms, j);
    RunKeepsSettings(ms, j);
    PointPhase(mode, b.stepNumber, b.sequenceAdvance, Onward(mode, p, j));
    BeatStepsOn(b);
    BeatRests(b);
  }

  /** Forward with every step active and played once counts up, 8 wrapping to 1. */
  lemma ForwardWalks(ms: seq<State>, n: nat)
    requires Run(ms) && Settled(ms[0]) && !ms[0].resetState && ms[0].sequencerMode == Forward && Plain(ms[0])
    requires n < |ms|
    ensures ms[n].stepNumber == (ms[0].stepNumber - 1 + n) % 8 + 1
  {
    Walks(ms, n);
    OnwardEight(Forward, ms[0].stepNumber - 1, n);
  }

  /** Backward with every step active and played once counts down, 1 wrapping to 8. */
  lemma BackwardWalks(ms: seq<State>, n: nat)
    requires Run(ms) && Settled(ms[0]) && !ms[0].resetState && ms[0].sequencerMode == Backward && Plain(ms[0])
    requires n < |ms|
    ensures ms[n].stepNumber == 8 - (8 - ms[0].stepNumber + n) % 8
  {
    Walks(ms, n);
    OnwardEight(Backward, 8 - ms[0].stepNumber, n);
  }

  /** PingPong with every step active turns at 8 and plays it once: 7, 8, 7. */
  lemma PingPongTurns(m: State)
    requires Settled(m) && !m.resetState && m.sequencerMode == PingPong && Plain(m)
    requires m.stepNumber == 7 && m.sequenceAdvance == 1
    ensures Beat(m).stepNumber == 8 && Beat(m).sequenceAdvance == -1
    ensures Beat(Beat(m)).stepNumber == 7 && Beat(Beat(m)).sequenceAdvance == -1
  {
    BeatStepsOn(m);
    BeatRests(m);
    BeatStepsOn(Beat(m));
  }

  /** PingPongFixed turns on the sentinels, so each end step is played twice:
      it is reached heading out and again heading back. */
  lemma PingPongFixedDoubles(m: State)
    requires Steady(m) && !m.resetState && m.sequencerMode == PingPongFixed
    requires m.stepRepeatCount[m.stepNumber] <= 1
    ensures m.stepNumber == 8 && m.sequenceAdvance == 1 ==> Beat(m).stepNumber == 8 && Beat(m).sequenceAdvance == -1
    ensures m.stepNumber == 1 && m.sequenceAdvance == -1 ==> Beat(m).stepNumber == 1 && Beat(m).sequenceAdvance == 1
  {
    var a := m.stepActive;
    BeatRests(m);
    if m.stepNumber == 8 && m.sequenceAdvance == 1 {
      assert Clocked(m).stepNumber == 9 && Clocked(m).sequenceAdvance == 1;
      assert Iterate(a, PingPongFixed, 9, 1) == (8, -1);
    } else if m.stepNumber == 1 && m.sequenceAdvance == -1 {
      assert Clocked(m).stepNumber == 0 && Clocked(m).sequenceAdvance == -1;
      assert Iterate(a, PingPongFixed, 0, -1) == (1, 1);
    }
  }

  /** PingPong turns only at 8, so with steps 6 to 8 inactive the last active
      step, 5, is played twice in a row: once heading up and once heading
      back, as PingPongFixed plays its end steps. */
  lemma PingPongInnerEndDoubles(m: State)
    requires Settled(m) && !m.resetState && m.sequencerMode == PingPong
    requires m.stepNumber == 5 && m.sequenceAdvance == 1
    requires !m.stepActive[6] && !m.stepActive[7] && !m.stepActive[8] && m.stepRepeatCount[5] <= 1
    ensures Beat(m).stepNumber == 5 && Beat(m).sequenceAdvance == -1
    ensures Beat(m).stepRepeatCount[5] == m.stepRepeat[5]
  {
    var a := m.stepActive;
    RepeatExpires(m);
    assert Settle(a, PingPong, 6, -1) == (5, -1);
    assert Settle(a, PingPong, 7, -1) == (5, -1);
    assert Settle(a, PingPong, 8, 1) == (5, -1);
    assert Settle(a, PingPong, 7, 1) == (5, -1);
    assert Settle(a, PingPong, 6, 1) == (5, -1);
  }

  /** With a frame between pulses, PingPong also turns at 8 when it reaches
      it by skipping an inactive step 7. */
  lemma PingPongSkipTurns(m: State)
    requires Settled(m) && !m.resetState && m.sequencerMode == PingPong
    requires m.stepNumber == 6 && m.sequenceAdvance == 1 && !m.stepActive[7] && m.stepActive[8]
    requires m.stepRepeatCount[6] <= 1 && m.stepRepeatCount[8] <= 1
    ensures Beat(m).stepNumber == 8 && Beat(m).sequenceAdvance == -1
    ensures Beat(Beat(m)).stepNumber == 6
  {
    var a := m.stepActive;
    var b := Beat(m);
    BeatRests(m);
    assert Iterate(a, PingPong, 7, 1) == (8, 1);
    assert Rest(a, PingPong, 7, 1) == (8, -1);
    BeatRests(b);
    assert Clocked(b).stepNumber == 7 && Clocked(b).sequenceAdvance == -1;
    assert Iterate(a, PingPong, 7, -1) == (6, -1);
  }

  /** A pulse in each of consecutive frames after such a skip, with no idle
      frame between pulses: the first leaves the direction heading out at
      step 8, so the second wraps to step 1 and the third back to 8, instead
      of turning. */
  lemma PingPongSkipWithoutFrame(m: State)
    requires Steady(m) && !m.resetState && m.sequencerMode == PingPong
    requires m.stepNumber == 6 && m.sequenceAdvance == 1 && !m.stepActive[7] && m.stepActive[8] && m.stepActive[1]
    requires m.stepRepeatCount[6] <= 1 && m.stepRepeatCount[8] <= 1 && m.stepRepeatCount[1] <= 1
    ensures Pulsed(m).stepNumber == 8 && Pulsed(m).sequenceAdvance == 1
    ensures Pulsed(Pulsed(m)).stepNumber == 1 && Pulsed(Pulsed(m)).sequenceAdvance == -1
    ensures Pulsed(Pulsed(Pulsed(m))).stepNumber == 8
  {
    var a := m.stepActive;
    var p1 := Pulsed(m);
    ClockedTidy(m);
    LimitedIdempotent(Clocked(m));
    assert Iterate(a, PingPong, 7, 1) == (8, 1);
    var p2 := Pulsed(p1);
    ClockedTidy(p1);
    LimitedIdempotent(Clocked(p1));
    assert Clocked(p1).stepNumber == 9;
    assert Iterate(a, PingPong, 9, 1) == (1, -1);
    ClockedTidy(p2);
    LimitedIdempotent(Clocked(p2));
    assert Clocked(p2).stepNumber == 0;
    assert Iterate(a, PingPong, 0, -1) == (8, 1);
  }

  /** After `setup`, the `n`-th pulse plays step `n % 8 + 1`, and every
      note is sent, all steps sounding. */
  lemma InitialWalks(ms: seq<State>, n: nat)
    requires Run(ms) && ms[0] == Initial() && n < |ms|
    ensures ms[n].stepNumber == n % 8 + 1
    ensures !ms[n].playNote
  {
    ForwardWalks(ms, n);
    if n > 0 {
      var i := n - 1;
      assert Links(ms, i);
      RunKeepsSettings(ms, i);
      BeatRests(ms[i]);
    }
  }

  // ---------------------------------------------------------------------------
  // Edits and buttons

  /** The reset-position and mode keys change only those settings, wrapped
      into range; the current step stays. */
  lemma EditKeepsStep(m: State, key: char)
    requires Steady(m) && key != ' ' && key != 'r'
    ensures KeyFrame(m, key).stepNumber == m.stepNumber
    ensures KeyFrame(m, key).sequencerMode == WrapAround(ModeKeyed(m.sequencerMode, key), 1, 4)
    ensures KeyFrame(m, key).resetPosition == WrapAround(PositionKeyed(m.resetPosition, key), 1, 8)
    ensures KeyFrame(m, key).stepActive == m.stepActive && KeyFrame(m, key).stepRepeat == m.stepRepeat
    ensures KeyFrame(m, key).stepRepeatCount == m.stepRepeatCount
    ensures KeyFrame(m, key).resetPositionCount == m.resetPositionCount
    ensures SameSettings(KeyFrame(m, key),
                         m.(resetPosition := WrapAround(PositionKeyed(m.resetPosition, key), 1, 8),
                            sequencerMode := WrapAround(ModeKeyed(m.sequencerMode, key), 1, 4)))
  {
    KeyedTidy(m, key);
    var l := Limited(Keyed(m, key));
    SettleAtActive(l.stepActive, l.sequencerMode, l.stepNumber, l.sequenceAdvance);
  }

  /** Switching another step on or off keeps the current step. */
  lemma ActiveToggleElsewhere(m: State, i: int)
    requires Steady(m) && 1 <= i <= 8 && i != m.stepNumber
    ensures SomeActive(ActiveToggled(m, i).stepActive)
    ensures ActiveFrame(m, i).stepNumber == m.stepNumber
    ensures ActiveFrame(m, i).stepActive == m.stepActive[i := !m.stepActive[i]]
  {
    var k := ActiveToggled(m, i);
    assert k.stepActive[m.stepNumber];
    LimitedIdempotent(k);
    SettleAtActive(k.stepActive, k.sequencerMode, k.stepNumber, k.sequenceAdvance);
  }

  /** Switching the current step off moves the sequencer on, along the mode's
      cycle, to the first step still active. */
  lemma ActiveToggleCurrent(m: State)
    requires Steady(m) && SomeActive(ActiveToggled(m, m.stepNumber).stepActive)
    ensures var mode, s, a := m.sequencerMode, m.stepNumber, ActiveToggled(m, m.stepNumber).stepActive;
            && OnCycle(mode, s, Heading(mode, s, m.sequenceAdvance))
            && var p := Phase(mode, s, Heading(mode, s, m.sequenceAdvance));
               var k := Ahead(a, mode, p, CycleLength(mode));
               && k < CycleLength(mode)
               && ActiveFrame(m, s).stepNumber == CycleStep(mode, Shift(mode, p, k))
               && (forall j :: 0 <= j < k ==> !a[CycleStep(mode, Shift(mode, p, j))])
    ensures ActiveFrame(m, m.stepNumber).stepNumber != m.stepNumber
  {
    var k := ActiveToggled(m, m.stepNumber);
    LimitedIdempotent(k);
    SettleFollowsCycle(k.stepActive, k.sequencerMode, k.stepNumber, k.sequenceAdvance);
  }

  /** A mute button changes only that step's mute; the current step stays, and
      a note pending on it is sent once it sounds. */
  lemma MuteToggles(m: State, i: int)
    requires Steady(m) && 1 <= i <= 8
    ensures MuteFrame(m, i).stepNumber == m.stepNumber
    ensures MuteFrame(m, i).stepMute == m.stepMute[i := !m.stepMute[i]]
    ensures MuteFrame(m, i).playNote == (m.playNote && !MuteFrame(m, i).stepMute[m.stepNumber])
    ensures SameSettings(MuteFrame(m, i), m.(stepMute := m.stepMute[i := !m.stepMute[i]]))
    ensures MuteFrame(m, i).stepRepeatCount == m.stepRepeatCount
    ensures MuteFrame(m, i).resetPositionCount == m.resetPositionCount
  {
    var k := MuteToggled(m, i);
    LimitedIdempotent(k);
    SettleAtActive(k.stepActive, k.sequencerMode, k.stepNumber, k.sequenceAdvance);
  }

  /** The mute flags play no part in a pulse. */
  lemma ClockedIgnoresMute(m: State, mute: seq<bool>, note: bool)
    requires WellFormed(m) && 0 <= m.stepNumber < Slots && |mute| == Slots
    ensures Clocked(m.(stepMute := mute, playNote := note)) == Clocked(m).(stepMute := mute)
  {
    var m' := m.(stepMute := mute, playNote := note);
    assert Stepped(m').(playNote := true) == Stepped(m).(playNote := true).(stepMute := mute);
    var p := Stepped(m).(playNote := true);
    if p.resetState && p.resetPositionCount - 1 <= 0 {
      var p' := p.(resetPositionCount := p.resetPositionCount - 1);
      assert Rewound(p'.(stepMute := mute)) == Rewound(p').(stepMute := mute);
    }
  }

  /** Muting or unmuting steps, and whether a note is pending, change nothing
      in a beat but the mute flags and the pending note: the traversal and the
      repeat and reset counting go on as before. */
  lemma BeatIgnoresMute(m: State, mute: seq<bool>, note: bool)
    requires Steady(m) && |mute| == Slots
    ensures Steady(m.(stepMute := mute, playNote := note))
    ensures Beat(m.(stepMute := mute, playNote := note))
         == Beat(m).(stepMute := mute, playNote := Beat(m.(stepMute := mute, playNote := note)).playNote)
  {
    var m' := m.(stepMute := mute, playNote := note);
    assert Steady(m');
    ClockedIgnoresMute(m, mute, note);
    BeatRests(m);
    BeatRests(m');
  }

  /** Two runs that start alike but for the mute flags and the pending note
      stay alike beat for beat: the mute flags never disturb the traversal. */
  lemma {:induction false} MuteRunsAlike(ms: seq<State>, ns: seq<State>, n: nat)
    requires Run(ms) && Run(ns) && n < |ms| && n < |ns|
    requires ns[0] == ms[0].(stepMute := ns[0].stepMute, playNote := ns[0].playNote)
    ensures ns[n] == ms[n].(stepMute := ns[0].stepMute, playNote := ns[n].playNote)
    decreases n
  {
    if n > 0 {
      var i := n - 1;
      MuteRunsAlike(ms, ns, i);
      assert Links(ms, i) && Links(ns, i);
      RunKeepsSettings(ns, i);
      BeatIgnoresMute(ms[i], ns[0].stepMute, ns[i].playNote);
    }
  }

  /** The reset button switches the periodic reset; switching it on restarts
      the countdown from the reset length. */
  lemma ResetToggles(m: State)
    requires Steady(m)
    ensures ResetFrame(m).stepNumber == m.stepNumber
    ensures ResetFrame(m).resetState == !m.resetState
    ensures ResetFrame(m).resetPositionCount == if m.resetState then m.resetPositionCount else m.resetLength
  {
    var k := ResetToggled(m);
    LimitedIdempotent(k);
    SettleAtActive(k.stepActive, k.sequencerMode, k.stepNumber, k.sequenceAdvance);
  }
}
