/** The sequencer as the application holds it: one object whose step arrays
    are updated in place and whose scalar settings are fields. Each method
    follows its routine in `ofApp` step by step and is proved to act on the
    state as the matching function of `SequencerState` says. A range check of
    `limit` and each of the three stages of the skip loop's body are written
    as one assignment of the function (`Clamp`, `WrapAround`, `LimitStep`,
    `Heading`, `Wrap`) that spells out its if-chain. */
module SequencerApp {
  import opened Steps
  import opened SequencerState

  class Sequencer {
    /** Per-slot settings and counters, slots 0..9. */
    const stepActive: array<bool>
    const stepMute: array<bool>
    const stepRepeat: array<int>
    const stepRepeatCount: array<int>

    var stepNumber: int
    var sequenceAdvance: int
    var sequencerMode: int
    var resetState: bool
    var resetPosition: int
    var resetLength: int
    var resetPositionCount: int
    var noteLow: int
    var noteHigh: int
    var playNote: bool

    /** Ten slots in every step array, and no two arrays of one type shared. */
    ghost predicate Valid()
      reads this
    {
      && stepActive.Length == Slots && stepMute.Length == Slots
      && stepRepeat.Length == Slots && stepRepeatCount.Length == Slots
      && stepActive != stepMute && stepRepeat != stepRepeatCount
    }

    /** The object's fields as a `State` value. */
    ghost function Abs(): (m: State)
      reads this, stepActive, stepMute, stepRepeat, stepRepeatCount
      ensures Valid() ==> WellFormed(m)
    {
      State(stepActive[..], stepMute[..], stepRepeat[..], stepRepeatCount[..],
            stepNumber, sequenceAdvance, sequencerMode, resetState,
            resetPosition, resetLength, resetPositionCount, noteLow, noteHigh, playNote)
    }

    /** `setup`: steps 1..8 active, sounding and played once, Forward from
        step 1, the reset off with the longest reset length. */
    constructor ()
      ensures Valid() && Abs() == Initial()
      ensures fresh(stepActive) && fresh(stepMute) && fresh(stepRepeat) && fresh(stepRepeatCount)
    {
      stepNumber := 1;
      resetPosition := 1;
      resetLength := 128;
      resetPositionCount := 128;
      resetState := false;
      sequencerMode := Forward;
      sequenceAdvance := 1;
      playNote := false;
      noteLow := 1;
      noteHigh := 127;
      var active := new bool[Slots];
      var mute := new bool[Slots];
      var repeat := new int[Slots];
      var count := new int[Slots];
      for i := 0 to Slots
        invariant forall j :: 0 <= j < i ==> active[j] == mute[j] == (1 <= j <= 8)
        invariant forall j :: 0 <= j < i ==> repeat[j] == 1 && count[j] == 1
      {
        repeat[i] := 1;
        if i == 0 || i == 9 {
          active[i] := false;
          mute[i] := false;
          count[i] := 1;
        } else {
          active[i] := true;
          mute[i] := true;
          count[i] := repeat[i];
        }
      }
      stepActive, stepMute, stepRepeat, stepRepeatCount := active, mute, repeat, count;
      new;
      assert stepActive[..] == Initial().stepActive && stepMute[..] == Initial().stepMute;
      assert stepRepeat[..] == Initial().stepRepeat && stepRepeatCount[..] == Initial().stepRepeatCount;
    }

    /** `clockAdvance`: the repeat rule, a note marked due, and the reset
        countdown, which resets the sequence when it runs out. */
    method ClockAdvance()
      requires Valid() && 0 <= stepNumber < Slots
      modifies this, stepRepeatCount
      ensures Valid() && Abs() == Clocked(old(Abs()))
    {
      if stepRepeatCount[stepNumber] <= 1 {
        stepRepeatCount[stepNumber] := stepRepeat[stepNumber];
        stepNumber := stepNumber + sequenceAdvance;
      } else {
        stepRepeatCount[stepNumber] := stepRepeatCount[stepNumber] - 1;
      }
      playNote := true;
      assert Abs() == Stepped(old(Abs())).(playNote := true);
      if resetState {
        resetPositionCount := resetPositionCount - 1;
        if resetPositionCount <= 0 {
          ResetSequence();
        }
      }
    }

    /** `resetSequence`: back to the reset position, the countdown and the
        playable steps' repeat counters reloaded, PingPong modes heading forwards. */
    method ResetSequence()
      requires Valid()
      modifies this, stepRepeatCount
      ensures Valid() && Abs() == Rewound(old(Abs()))
    {
      stepNumber := resetPosition;
      resetPositionCount := resetLength;
      for i := 1 to 9
        modifies stepRepeatCount
        invariant forall j :: 0 <= j < Slots ==>
          stepRepeatCount[j] == if 1 <= j < i then stepRepeat[j] else old(stepRepeatCount[j])
      {
        stepRepeatCount[i] := stepRepeat[i];
      }
      if sequencerMode == PingPong || sequencerMode == PingPongFixed {
        sequenceAdvance := 1;
      }
      assert stepRepeatCount[..] == Rewound(old(Abs())).stepRepeatCount;
    }

    /** `limit`: clamp the reset length and the note range, wrap the repeat
        counts of the playable steps, the reset position, the mode and the
        current step. */
    method Limit()
      requires Valid()
      modifies this, stepRepeat
      ensures Valid() && Abs() == Limited(old(Abs()))
    {
      ghost var m := Abs();
      resetLength := Clamp(resetLength, 1, 128);
      noteHigh := Clamp(noteHigh, 1, 127);
      noteLow := Clamp(noteLow, 0, 126);
      for i := 1 to 9
        modifies stepRepeat
        invariant forall j :: 0 <= j < Slots ==>
          stepRepeat[j] == if 1 <= j < i then WrapAround(m.stepRepeat[j], 1, 8) else m.stepRepeat[j]
      {
        if stepRepeat[i] > 8 {
          stepRepeat[i] := 1;
        } else if stepRepeat[i] < 1 {
          stepRepeat[i] := 8;
        }
      }
      assert stepRepeat[..] == Limited(m).stepRepeat;
      resetPosition := WrapAround(resetPosition, 1, 8);
      sequencerMode := WrapAround(sequencerMode, 1, 4);
      stepNumber := LimitStep(stepNumber);
    }

    /** `update` without the MIDI output: `limit`, then the skip loop, which
        runs its body at least once and until the current step is active,
        then the note decision, which clears the pending note once it is
        sent on a sounding step. */
    method Update()
      requires Valid() && Ready(Abs())
      modifies this, stepRepeat
      ensures Valid() && Abs() == Framed(old(Abs()))
    {
      var logicCheck := false;
      Limit();
      ghost var l := Abs();
      ghost var a, mode := l.stepActive, l.sequencerMode;
      ghost var rest := Settle(a, mode, l.stepNumber, l.sequenceAdvance);
      while !stepActive[stepNumber] || !logicCheck
        modifies this`stepNumber, this`sequenceAdvance
        invariant 0 <= stepNumber <= 9
        invariant !logicCheck ==> stepNumber == l.stepNumber && sequenceAdvance == l.sequenceAdvance
        invariant logicCheck ==> Resolvable(a, mode, stepNumber, sequenceAdvance)
        invariant logicCheck && a[stepNumber] ==> (stepNumber, sequenceAdvance) == rest
        invariant logicCheck && !a[stepNumber] ==> Settle(a, mode, stepNumber, sequenceAdvance) == rest
        decreases if logicCheck then 0 else 1,
                  if logicCheck && !a[stepNumber] then Dist(a, mode, stepNumber, sequenceAdvance) + 1 else 0
      {
        ghost var s, d := stepNumber, sequenceAdvance;
        sequenceAdvance := Heading(sequencerMode, stepNumber, sequenceAdvance);
        stepNumber := Wrap(sequencerMode, stepNumber);
        if !stepActive[stepNumber] {
          stepNumber := stepNumber + sequenceAdvance;
        }
        assert (stepNumber, sequenceAdvance) == Iterate(a, mode, s, d);
        LoopStep(a, mode, s, d, rest);
        logicCheck := true;
      }
      assert Abs() == l.(stepNumber := stepNumber, sequenceAdvance := sequenceAdvance);
      if stepMute[stepNumber] && playNote {
        playNote := false;
      }
    }

    /** `keyPressed`: space pulses, `r` resets, `-`/`_` and `+`/`=` move the
        reset position, `[`/`{` and `]`/`}` the mode; other keys do nothing. */
    method KeyPressed(key: char)
      requires Valid() && (key == ' ' ==> 0 <= stepNumber < Slots)
      modifies this, stepRepeatCount
      ensures Valid() && Abs() == Keyed(old(Abs()), key)
    {
      if key == ' ' {
        ClockAdvance();
      } else if key == 'r' {
        ResetSequence();
      } else if key == '-' {
        resetPosition := resetPosition - 1;
      } else if key == '_' {
        resetPosition := resetPosition - 1;
      } else if key == '+' {
        resetPosition := resetPosition + 1;
      } else if key == '=' {
        resetPosition := resetPosition + 1;
      } else if key == '[' {
        sequencerMode := sequencerMode - 1;
      } else if key == '{' {
        sequencerMode := sequencerMode - 1;
      } else if key == ']' {
        sequencerMode := sequencerMode + 1;
      } else if key == '}' {
        sequencerMode := sequencerMode + 1;
      }
    }

    /** The active button of step `i` (`mousePressed`). */
    method ToggleActive(i: int)
      requires Valid() && 1 <= i <= 8
      modifies stepActive
      ensures Valid() && Abs() == ActiveToggled(old(Abs()), i)
    {
      stepActive[i] := !stepActive[i];
    }

    /** The mute button of step `i` (`mousePressed`). */
    method ToggleMute(i: int)
      requires Valid() && 1 <= i <= 8
      modifies stepMute
      ensures Valid() && Abs() == MuteToggled(old(Abs()), i)
    {
      stepMute[i] := !stepMute[i];
    }

    /** The reset button (`mousePressed`): switching the reset on restarts the
        countdown from the reset length. */
    method ToggleReset()
      requires Valid()
      modifies this
      ensures Valid() && Abs() == ResetToggled(old(Abs()))
    {
      resetState := !resetState;
      if resetState {
        resetPositionCount := resetLength;
      }
    }
  }

  /** One pass of the skip loop's body from a state that resolves to `rest`:
      either it lands on an active slot, which is `rest`, or it leaves a state
      that still resolves to `rest` and is closer to it. */
  lemma LoopStep(a: seq<bool>, mode: int, s: int, d: int, rest: (int, int))
    requires Resolvable(a, mode, s, d) && Settle(a, mode, s, d) == rest
    ensures var (t, e) := Iterate(a, mode, s, d);
            && Resolvable(a, mode, t, e)
            && (a[t] ==> (t, e) == rest)
            && (!a[t] ==> Settle(a, mode, t, e) == rest && Dist(a, mode, t, e) < Dist(a, mode, s, d))
  {
    if !a[Wrap(mode, s)] {
      DistDecreases(a, mode, s, d);
    }
  }
}
