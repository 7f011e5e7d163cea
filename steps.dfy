/** The step-resolution rules of the eight-step sequencer (the skip loop of
    `ofApp::update`): how the traversal mode sets the direction, how the
    sentinel slots 0 and 9 wrap, and where the loop comes to rest.

    The step arrays have ten slots. Slots 1..8 are the playable steps; slots
    0 and 9 are sentinels that are never active. */
module Steps {

  /** Number of slots in every step array. */
  const Slots := 10

  /** The traversal modes, numbered as the sequencer numbers them. */
  const Forward := 1
  const Backward := 2
  const PingPong := 3
  const PingPongFixed := 4

  /** The direction the loop body sets from the mode and the current slot `s`;
      `d` is the direction in force. Forward and Backward force it, PingPong
      turns at the playable ends 1 and 8, PingPongFixed at the sentinels. */
  function Heading(mode: int, s: int, d: int): (e: int) {
    if mode == Forward then 1
    else if mode == Backward then -1
    else if mode == PingPong then (if s <= 1 then 1 else if s >= 8 then -1 else d)
    else if mode == PingPongFixed then (if s <= 0 then 1 else if s >= 9 then -1 else d)
    else d
  }

  /** Wrap-around through the sentinels, in every mode except PingPongFixed. */
  function Wrap(mode: int, s: int): (t: int) {
    if mode != PingPongFixed then (if s == 9 then 1 else if s == 0 then 8 else s) else s
  }

  /** A step array whose sentinels are inactive. */
  predicate Sentinelled(a: seq<bool>) {
    |a| == Slots && !a[0] && !a[9]
  }

  /** Some playable step is active. */
  predicate SomeActive(a: seq<bool>)
    requires |a| == Slots
  {
    exists i :: 1 <= i <= 8 && a[i]
  }

  /** The states from which the skip loop comes to rest. Besides an active
      playable step, PingPong needs step 1 or 8 active when it starts on a
      sentinel: otherwise the loop bounces between 0 and 9 for ever. */
  predicate Resolvable(a: seq<bool>, mode: int, s: int, d: int) {
    && Sentinelled(a) && SomeActive(a)
    && 1 <= mode <= 4 && 0 <= s <= 9 && (d == 1 || d == -1)
    && (mode == PingPong && (s == 0 || s == 9) ==> a[1] || a[8])
  }

  /** One pass of the loop body on slot `s` and direction `d`: set the direction,
      wrap, and move one slot on if the slot reached is inactive. */
  function Iterate(a: seq<bool>, mode: int, s: int, d: int): (next: (int, int))
    requires |a| == Slots && 0 <= s <= 9
  {
    var e := Heading(mode, s, d);
    var t := Wrap(mode, s);
    if a[t] then (t, e) else (t + e, e)
  }

  // ---------------------------------------------------------------------------
  // The cycle of tested slots. Away from a PingPong sentinel, the slots the loop
  // body tests (the slot after wrapping) follow a fixed cycle for each mode:
  // Forward 1..8, Backward 8..1, PingPong 1..8..2, PingPongFixed 0..9..1.

  /** Number of phases in the mode's cycle. */
  function CycleLength(mode: int): (r: nat) {
    if mode == PingPong then 14 else if mode == PingPongFixed then 18 else 8
  }

  /** The slot tested at phase `p` of the cycle. */
  function CycleStep(mode: int, p: nat): (t: int)
    requires p < CycleLength(mode)
    ensures 0 <= t <= 9
    ensures mode != PingPongFixed ==> 1 <= t <= 8
  {
    if mode == Backward then 8 - p
    else if mode == PingPong then (if p <= 7 then p + 1 else 15 - p)
    else if mode == PingPongFixed then (if p <= 9 then p else 18 - p)
    else p + 1
  }

  /** The phase `k` places further on. */
  function Shift(mode: int, p: nat, k: nat): (q: nat)
    requires p < CycleLength(mode) && k < CycleLength(mode)
    ensures q < CycleLength(mode)
  {
    if p + k < CycleLength(mode) then p + k else p + k - CycleLength(mode)
  }

  /** The phase after `p`. */
  function NextPhase(mode: int, p: nat): (q: nat)
    requires p < CycleLength(mode)
    ensures q < CycleLength(mode)
  {
    if p + 1 < CycleLength(mode) then p + 1 else 0
  }

  /** A tested slot `t` with the direction `e` the body applied: a point of the cycle. */
  predicate OnCycle(mode: int, t: int, e: int) {
    && 1 <= mode <= 4 && (e == 1 || e == -1) && e == Heading(mode, t, e)
    && (if mode == PingPongFixed then 0 <= t <= 9 else 1 <= t <= 8)
  }

  /** The phase of a point of the cycle. */
  function Phase(mode: int, t: int, e: int): (p: nat)
    requires OnCycle(mode, t, e)
    ensures p < CycleLength(mode) && CycleStep(mode, p) == t
  {
    if mode == Backward then 8 - t
    else if mode == PingPong then (if e == 1 then t - 1 else 15 - t)
    else if mode == PingPongFixed then (if e == 1 then t else 18 - t)
    else t - 1
  }

  /** The point of the cycle at phase `q`: the slot tested there, and the
      direction the body sets on it. */
  function Point(mode: int, q: nat): (pt: (int, int))
    requires q < CycleLength(mode)
  {
    (CycleStep(mode, q),
     if mode == Backward then -1
     else if mode == PingPong then (if q < 7 then 1 else -1)
     else if mode == PingPongFixed then (if q < 9 then 1 else -1)
     else 1)
  }

  /** Points and phases correspond one to one. */
  lemma PointPhase(mode: int, t: int, e: int, q: nat)
    requires 1 <= mode <= 4 && q < CycleLength(mode)
    ensures OnCycle(mode, Point(mode, q).0, Point(mode, q).1)
    ensures Phase(mode, Point(mode, q).0, Point(mode, q).1) == q
    ensures OnCycle(mode, t, e) ==> (Point(mode, q) == (t, e) <==> Phase(mode, t, e) == q)
  {
  }

  /** The phase at which playable step `i` is tested. */
  function PhaseOf(mode: int, i: int): (p: nat)
    requires 1 <= mode <= 4 && 1 <= i <= 8
    ensures p < CycleLength(mode) && CycleStep(mode, p) == i
  {
    if mode == Backward then 8 - i else if mode == PingPongFixed then i else i - 1
  }

  /** Moving on from an inactive point of the cycle reaches the next phase, and
      PingPong never steps onto a sentinel from the cycle. */
  lemma PhaseAdvance(mode: int, t: int, e: int)
    requires OnCycle(mode, t, e)
    ensures 0 <= t + e <= 9
    ensures mode == PingPong ==> 1 <= t + e <= 8
    ensures OnCycle(mode, Wrap(mode, t + e), Heading(mode, t + e, e))
    ensures Phase(mode, Wrap(mode, t + e), Heading(mode, t + e, e)) == NextPhase(mode, Phase(mode, t, e))
  {
  }

  /** Shifting from the next phase is shifting one further. */
  lemma ShiftNext(mode: int, p: nat, k: nat)
    requires p < CycleLength(mode) && k + 1 < CycleLength(mode)
    ensures Shift(mode, NextPhase(mode, p), k) == Shift(mode, p, k + 1)
  {
  }

  /** The phase `n` phases after `p`, going round the cycle as often as needed. */
  function Onward(mode: int, p: nat, n: nat): (q: nat)
    requires p < CycleLength(mode)
    ensures q < CycleLength(mode)
  {
    if n == 0 then p else NextPhase(mode, Onward(mode, p, n - 1))
  }

  /** On the eight-phase cycles of Forward and Backward, going on `n` phases
      is adding `n` modulo 8. */
  lemma {:induction false} OnwardEight(mode: int, p: nat, n: nat)
    requires CycleLength(mode) == 8 && p < 8
    ensures Onward(mode, p, n) == (p + n) % 8
  {
    if n > 0 {
      var i := n - 1;
      OnwardEight(mode, p, i);
      CountOn(p + i);
    }
  }

  /** Counting one on, modulo 8. */
  lemma CountOn(x: nat)
    ensures (x + 1) % 8 == if x % 8 < 7 then x % 8 + 1 else 0
  {
  }

  /** How many inactive slots the cycle meets from phase `p` before an active
      one, looking at most `n` phases ahead (`n` when there is none). */
  function Ahead(a: seq<bool>, mode: int, p: nat, n: nat): (k: nat)
    requires |a| == Slots && p < CycleLength(mode) && n <= CycleLength(mode)
    ensures k <= n
    ensures k < n ==> a[CycleStep(mode, Shift(mode, p, k))]
    decreases n
  {
    if n == 0 || a[CycleStep(mode, p)] then 0
    else
      var k := Ahead(a, mode, NextPhase(mode, p), n - 1);
      if k < n - 1 then
        ShiftNext(mode, p, k);
        1 + k
      else
        1 + k
  }

  /** Every phase before the one `Ahead` finds tests an inactive slot. */
  lemma {:induction false} AheadSkips(a: seq<bool>, mode: int, p: nat, n: nat, j: nat)
    requires |a| == Slots && p < CycleLength(mode) && n <= CycleLength(mode)
    requires j < Ahead(a, mode, p, n)
    ensures !a[CycleStep(mode, Shift(mode, p, j))]
    decreases j
  {
    if j == 0 {
      assert Shift(mode, p, 0) == p;
    } else {
      var n', j' := n - 1, j - 1;
      AheadSkips(a, mode, NextPhase(mode, p), n', j');
      ShiftNext(mode, p, j');
    }
  }

  /** An active slot `j` phases ahead bounds what `Ahead` finds. */
  lemma {:induction false} AheadFinds(a: seq<bool>, mode: int, p: nat, n: nat, j: nat)
    requires |a| == Slots && p < CycleLength(mode) && n <= CycleLength(mode)
    requires j < n && a[CycleStep(mode, Shift(mode, p, j))]
    ensures Ahead(a, mode, p, n) <= j
    decreases j
  {
    if j == 0 {
      assert Shift(mode, p, 0) == p;
    } else if !a[CycleStep(mode, p)] {
      ShiftNext(mode, p, j - 1);
      AheadFinds(a, mode, NextPhase(mode, p), n - 1, j - 1);
    }
  }

  /** Looking further does not change a search that has already succeeded. */
  lemma {:induction false} AheadSaturates(a: seq<bool>, mode: int, p: nat, n: nat)
    requires |a| == Slots && p < CycleLength(mode) && n < CycleLength(mode)
    requires Ahead(a, mode, p, n) < n
    ensures Ahead(a, mode, p, n + 1) == Ahead(a, mode, p, n)
    decreases n
  {
    if !a[CycleStep(mode, p)] {
      AheadSaturates(a, mode, NextPhase(mode, p), n - 1);
    }
  }

  /** Every active step lies on the cycle, so a full turn finds one. */
  lemma AheadBelow(a: seq<bool>, mode: int, p: nat)
    requires Sentinelled(a) && SomeActive(a) && 1 <= mode <= 4 && p < CycleLength(mode)
    ensures Ahead(a, mode, p, CycleLength(mode)) < CycleLength(mode)
  {
    var L := CycleLength(mode);
    var i :| 1 <= i <= 8 && a[i];
    var r := PhaseOf(mode, i);
    var j := if r >= p then r - p else r + L - p;
    assert Shift(mode, p, j) == r;
    AheadFinds(a, mode, p, L, j);
  }

  /** From an inactive phase, the search from the next phase is one shorter:
      every active step lies on the cycle, at a phase other than `p`. */
  lemma AheadStep(a: seq<bool>, mode: int, p: nat)
    requires Sentinelled(a) && SomeActive(a) && 1 <= mode <= 4
    requires p < CycleLength(mode) && !a[CycleStep(mode, p)]
    ensures Ahead(a, mode, p, CycleLength(mode)) == 1 + Ahead(a, mode, NextPhase(mode, p), CycleLength(mode))
  {
    var L := CycleLength(mode);
    var q := NextPhase(mode, p);
    var i :| 1 <= i <= 8 && a[i];
    var r := PhaseOf(mode, i);
    assert r != p;
    var j := if r >= q then r - q else r + L - q;
    assert Shift(mode, q, j) == r;
    AheadFinds(a, mode, q, L - 1, j);
    AheadSaturates(a, mode, q, L - 1);
  }

  /** The loop's termination measure: the number of moves left before the body
      tests an active slot. */
  function Dist(a: seq<bool>, mode: int, s: int, d: int): (r: nat)
    requires Resolvable(a, mode, s, d)
  {
    if mode == PingPong && (s == 0 || s == 9) then (if a[Wrap(mode, s)] then 0 else 1)
    else Ahead(a, mode, Phase(mode, Wrap(mode, s), Heading(mode, s, d)), CycleLength(mode))
  }

  /** A pass of the body that does not land keeps the state resolvable and
      brings the loop one move closer to an active slot. */
  lemma DistDecreases(a: seq<bool>, mode: int, s: int, d: int)
    requires Resolvable(a, mode, s, d) && !a[Wrap(mode, s)]
    ensures Resolvable(a, mode, Iterate(a, mode, s, d).0, Iterate(a, mode, s, d).1)
    ensures Dist(a, mode, Iterate(a, mode, s, d).0, Iterate(a, mode, s, d).1) < Dist(a, mode, s, d)
  {
    var t, e := Wrap(mode, s), Heading(mode, s, d);
    assert Iterate(a, mode, s, d) == (t + e, e);
    if mode == PingPong && (s == 0 || s == 9) {
      assert t + e == 9 - s;
    } else {
      assert OnCycle(mode, t, e);
      var p := Phase(mode, t, e);
      assert Dist(a, mode, s, d) == Ahead(a, mode, p, CycleLength(mode));
      PhaseAdvance(mode, t, e);
      assert Dist(a, mode, t + e, e) == Ahead(a, mode, NextPhase(mode, p), CycleLength(mode));
      AheadStep(a, mode, p);
    }
  }

  /** Where the skip loop comes to rest: the loop body runs once, then again
      for as long as the current slot is inactive. */
  function Settle(a: seq<bool>, mode: int, s: int, d: int): (r: (int, int))
    requires Resolvable(a, mode, s, d)
    ensures 1 <= r.0 <= 8 && a[r.0]
    ensures r.1 == 1 || r.1 == -1
    ensures mode == Forward ==> r.1 == 1
    ensures mode == Backward ==> r.1 == -1
    decreases Dist(a, mode, s, d)
  {
    var next := Iterate(a, mode, s, d);
    if a[next.0] then next
    else
      DistDecreases(a, mode, s, d);
      Settle(a, mode, next.0, next.1)
  }

  /** The rest point with the direction a further pass of the body brings
      it to: where the next frame leaves the sequencer. */
  function Rest(a: seq<bool>, mode: int, s: int, d: int): (rest: (int, int))
    requires Resolvable(a, mode, s, d)
  {
    var r := Settle(a, mode, s, d);
    (r.0, Heading(mode, r.0, r.1))
  }

  /** A move that does not land leaves the rest point unchanged, and the
      direction the next pass of the body would take there. */
  lemma SettleMoves(a: seq<bool>, mode: int, s: int, d: int)
    requires Resolvable(a, mode, s, d) && !a[Wrap(mode, s)]
    ensures var t, e := Wrap(mode, s), Heading(mode, s, d);
            Resolvable(a, mode, t + e, e) && Rest(a, mode, t + e, e) == Rest(a, mode, s, d)
  {
    var t, e := Wrap(mode, s), Heading(mode, s, d);
    assert Iterate(a, mode, s, d) == (t + e, e);
    DistDecreases(a, mode, s, d);
    if a[t + e] {
      SettleAtActive(a, mode, t + e, e);
    }
  }

  /** One move along the cycle: from an inactive tested slot the loop body
      steps to the next phase, one fewer slot ahead of the rest point. */
  lemma AlongStep(a: seq<bool>, mode: int, s: int, d: int, p: nat)
    requires Resolvable(a, mode, s, d) && !(mode == PingPong && (s == 0 || s == 9))
    requires OnCycle(mode, Wrap(mode, s), Heading(mode, s, d)) && !a[Wrap(mode, s)]
    requires p == Phase(mode, Wrap(mode, s), Heading(mode, s, d))
    ensures var s', e := Wrap(mode, s) + Heading(mode, s, d), Heading(mode, s, d);
            && Resolvable(a, mode, s', e) && !(mode == PingPong && (s' == 0 || s' == 9))
            && OnCycle(mode, Wrap(mode, s'), Heading(mode, s', e))
            && NextPhase(mode, p) == Phase(mode, Wrap(mode, s'), Heading(mode, s', e))
            && Ahead(a, mode, p, CycleLength(mode)) == 1 + Ahead(a, mode, NextPhase(mode, p), CycleLength(mode))
            && Rest(a, mode, s', e) == Rest(a, mode, s, d)
  {
    var t, e := Wrap(mode, s), Heading(mode, s, d);
    PhaseAdvance(mode, t, e);
    AheadStep(a, mode, p);
    SettleMoves(a, mode, s, d);
  }

  /** A tested slot that is active is the rest point. */
  lemma LandsHere(a: seq<bool>, mode: int, s: int, d: int, p: nat)
    requires Resolvable(a, mode, s, d) && 1 <= Wrap(mode, s) <= 8 && a[Wrap(mode, s)]
    requires OnCycle(mode, Wrap(mode, s), Heading(mode, s, d))
    requires p == Phase(mode, Wrap(mode, s), Heading(mode, s, d))
    ensures Rest(a, mode, s, d) == Point(mode, p)
  {
    var t, e := Wrap(mode, s), Heading(mode, s, d);
    assert Iterate(a, mode, s, d) == (t, e);
    assert Rest(a, mode, s, d) == (t, e);
    PointPhase(mode, t, e, p);
  }

  /** Away from a PingPong sentinel, the loop rests on the slot `k` phases
      after the first slot it tests, `k` being what `Ahead` counts, and the
      next pass of the body leaves it at that phase. */
  lemma {:induction false} SettleAlong(a: seq<bool>, mode: int, s: int, d: int, p: nat, k: nat)
    requires Resolvable(a, mode, s, d) && !(mode == PingPong && (s == 0 || s == 9))
    requires OnCycle(mode, Wrap(mode, s), Heading(mode, s, d))
    requires p == Phase(mode, Wrap(mode, s), Heading(mode, s, d))
    requires k == Ahead(a, mode, p, CycleLength(mode)) && k < CycleLength(mode)
    ensures Rest(a, mode, s, d) == Point(mode, Shift(mode, p, k))
    decreases k
  {
    var t, e := Wrap(mode, s), Heading(mode, s, d);
    if a[t] {
      LandsHere(a, mode, s, d, p);
      assert k == 0 && Shift(mode, p, 0) == p;
    } else {
      AlongStep(a, mode, s, d, p);
      var k' := k - 1;
      SettleAlong(a, mode, t + e, e, NextPhase(mode, p), k');
      ShiftNext(mode, p, k');
    }
  }

  /** Away from a PingPong sentinel, the loop rests on the first active slot of
      the mode's cycle, counted from phase `p` of the first slot it tests, and
      every slot it passes on the way is inactive. */
  lemma CycleRest(a: seq<bool>, mode: int, s: int, d: int, p: nat)
    requires Resolvable(a, mode, s, d) && !(mode == PingPong && (s == 0 || s == 9))
    requires OnCycle(mode, Wrap(mode, s), Heading(mode, s, d))
    requires p == Phase(mode, Wrap(mode, s), Heading(mode, s, d))
    ensures var k := Ahead(a, mode, p, CycleLength(mode));
            && k < CycleLength(mode)
            && Rest(a, mode, s, d) == Point(mode, Shift(mode, p, k))
            && forall j :: 0 <= j < k ==> !a[CycleStep(mode, Shift(mode, p, j))]
  {
    var k := Ahead(a, mode, p, CycleLength(mode));
    AheadBelow(a, mode, p);
    SettleAlong(a, mode, s, d, p, k);
    forall j | 0 <= j < k ensures !a[CycleStep(mode, Shift(mode, p, j))] {
      AheadSkips(a, mode, p, CycleLength(mode), j);
    }
  }

  /** The same, counted from wherever the loop starts: the first slot it tests
      is a point of the cycle. */
  lemma SettleFollowsCycle(a: seq<bool>, mode: int, s: int, d: int)
    requires Resolvable(a, mode, s, d) && !(mode == PingPong && (s == 0 || s == 9))
    ensures OnCycle(mode, Wrap(mode, s), Heading(mode, s, d))
    ensures var p := Phase(mode, Wrap(mode, s), Heading(mode, s, d));
            var k := Ahead(a, mode, p, CycleLength(mode));
            && k < CycleLength(mode)
            && Rest(a, mode, s, d) == Point(mode, Shift(mode, p, k))
            && forall j :: 0 <= j < k ==> !a[CycleStep(mode, Shift(mode, p, j))]
  {
    var t, e := Wrap(mode, s), Heading(mode, s, d);
    assert OnCycle(mode, t, e);
    CycleRest(a, mode, s, d, Phase(mode, t, e));
  }

  /** Leaving point `(s, d)` of the cycle, the skip loop rests on the first
      active slot of the cycle after it, passing only inactive ones. */
  lemma RestAfter(a: seq<bool>, mode: int, s: int, d: int)
    requires Sentinelled(a) && SomeActive(a) && OnCycle(mode, s, d)
    ensures Resolvable(a, mode, s + d, d)
    ensures var q := NextPhase(mode, Phase(mode, s, d));
            var k := Ahead(a, mode, q, CycleLength(mode));
            && k < CycleLength(mode)
            && Rest(a, mode, s + d, d) == Point(mode, Shift(mode, q, k))
            && forall j :: 0 <= j < k ==> !a[CycleStep(mode, Shift(mode, q, j))]
  {
    PhaseAdvance(mode, s, d);
    CycleRest(a, mode, s + d, d, NextPhase(mode, Phase(mode, s, d)));
  }

  /** The body runs even when the current step is active: the step stays and
      only the direction is brought up to date. */
  lemma SettleAtActive(a: seq<bool>, mode: int, s: int, d: int)
    requires Resolvable(a, mode, s, d) && 1 <= s <= 8 && a[s]
    ensures Settle(a, mode, s, d) == (s, Heading(mode, s, d))
  {
  }

  /** Resolving again where the loop came to rest keeps the step. */
  lemma SettleIdempotent(a: seq<bool>, mode: int, s: int, d: int)
    requires Resolvable(a, mode, s, d)
    ensures var r := Settle(a, mode, s, d);
            Resolvable(a, mode, r.0, r.1) && Settle(a, mode, r.0, r.1).0 == r.0
  {
  }

  /** PingPong on a sentinel with steps 1 and 8 inactive: the body moves 0 to 9
      and 9 back to 0, so the loop never finds an active slot. */
  lemma PingPongSentinelSpins(a: seq<bool>, d: int)
    requires Sentinelled(a) && !a[1] && !a[8]
    ensures Iterate(a, PingPong, 0, d) == (9, 1) && !a[9]
    ensures Iterate(a, PingPong, 9, 1) == (0, -1) && !a[0]
    ensures !Resolvable(a, PingPong, 0, d) && !Resolvable(a, PingPong, 9, d)
  {
  }
}
