/** Whole runs of the linear scan: what they keep, when none of them meets the undefined lookup of line 422, and
    that with `<=` at line 241 none ever does. */
module ScanRuns {
  import opened Basis
  import opened Intervals
  import opened LinearScan
  import opened ScanInvariant
  import opened ScanTermination
  import opened Locations
  import opened Sums

  // Lines 196-203: pre-coloured intervals are active, the others unhandled.
  ghost predicate Begins(s: Scan, intervals: set<Interval>) {
    && s.active == (set it | it in intervals && it.reg.Some?)
    && s.unhandled == (set it | it in intervals && it.reg.None?)
    && s.inactive == s.handled == s.stacked == {}
  }

  ghost predicate Leads(s: Scan, cur: Interval, bbStarts: set<nat>, n: Scan) {
    Pickable(s, cur) && Round(s, cur, bbStarts, Go(n))
  }

  // Rounds from state to state, each for the interval picked.
  ghost predicate Rounds(run: seq<Scan>, picks: seq<Interval>, bbStarts: set<nat>) {
    && |run| == |picks| + 1
    && forall k, m {:trigger picks[k], run[m]} :: 0 <= k < |picks| && m == k + 1 ==>
      Leads(run[k], picks[k], bbStarts, run[m])
  }

  // The next round has no defined outcome.
  ghost predicate Fails(s: Scan, bbStarts: set<nat>) {
    exists cur :: Pickable(s, cur) && Round(s, cur, bbStarts, Undefined)
  }

  lemma RoundsMore(run: seq<Scan>, picks: seq<Interval>, bbStarts: set<nat>, cur: Interval, n: Scan)
    requires Rounds(run, picks, bbStarts) && Leads(run[|picks|], cur, bbStarts, n)
    ensures |run| == |picks| + 1 && Rounds(run + [n], picks + [cur], bbStarts)
  {
    hide Leads;
  }

  /** A round fails only where an interval that holds a register ended exactly at its position. */
  lemma FailsAtEnd(s: Scan, cur: Interval, orig: map<Value, Interval>, bbStarts: set<nat>,
      lo: nat) returns (it: Interval)
    requires Inv(s, orig, bbStarts, lo) && Pickable(s, cur) && Round(s, cur, bbStarts, Undefined)
    ensures it in s.active + s.inactive && it.s != {} && it.End() == cur.Start()
  {
    hide Inv, Advance, BestFree, FreeRound;
    var t := Advance(s.(unhandled := s.unhandled - {cur}), cur.Start());
    NoRegister(s, cur, orig, bbStarts, lo);
    var r :| BestFree(t, cur, r) && FreeRound(t, cur, r, bbStarts, Undefined);
    it := StealFails(t, cur, r, bbStarts);
    EndsHere(s, cur, orig, bbStarts, lo, it);
  }

  lemma NoRegister(s: Scan, cur: Interval, orig: map<Value, Interval>, bbStarts: set<nat>, lo: nat)
    requires Inv(s, orig, bbStarts, lo) && Pickable(s, cur)
    ensures cur.reg.None?
  {
    assert Sorted(s);
  }

  lemma EndsHere(s: Scan, cur: Interval, orig: map<Value, Interval>, bbStarts: set<nat>, lo: nat, it: Interval)
    requires Inv(s, orig, bbStarts, lo) && Pickable(s, cur) && Ended(it, cur.Start())
    requires it in Advance(s.(unhandled := s.unhandled - {cur}), cur.Start()).inactive
    ensures it in s.active + s.inactive && it.s != {} && it.End() == cur.Start()
  {
    hide Partition, NoClash, Linked, Slots;
    assert !EndedBefore(it, cur.Start());
    var x :| x in it.s && x + 1 >= cur.Start();
  }

  lemma StealFails(t: Scan, cur: Interval, r: Reg, bbStarts: set<nat>) returns (it: Interval)
    requires cur.s != {} && FreeRound(t, cur, r, bbStarts, Undefined)
    ensures it in t.inactive && Ended(it, cur.Start())
  {
    hide FreeRows, FreeUntil, BestUse, UseRows, NextUse, Steal, StackPrefix, StackWhole, TakeWhole, TakePrefix;
    it :| it in t.inactive && it.SegmentFrom(cur.Start()).None?;
    NoSegment(it, cur.Start());
  }

  lemma NoSegment(it: Interval, p: nat)
    requires it.SegmentFrom(p).None?
    ensures Ended(it, p)
  {
    assert forall x :: x in it.s ==> x < p;
  }

  /** Slots once given are never moved: those of allocas, for one, stay where they are. */
  lemma RoundKeepsSlots(s: Scan, cur: Interval, bbStarts: set<nat>, n: Scan)
    requires Pickable(s, cur) && Round(s, cur, bbStarts, Go(n))
    ensures forall v :: v in s.slots ==> v in n.slots && n.slots[v] == s.slots[v]
  {
    hide Pickable, BestFree, BestUse, FreeUntil, NextUse, FreeRows, UseRows, StealDefined;
  }

  // What the main loop knows of the run so far.
  ghost predicate RunsTo(run: seq<Scan>, picks: seq<Interval>, bbStarts: set<nat>, intervals: set<Interval>,
      slots: map<Value, nat>, s: Scan) {
    && Rounds(run, picks, bbStarts) && Begins(run[0], intervals) && run[0].slots == slots && run[|picks|] == s
    && (forall v :: v in slots ==> v in s.slots && s.slots[v] == slots[v])
    && (NoHoles(intervals) ==> s.inactive == {} && NoHoles(s.active) && NoHoles(s.unhandled))
  }

  lemma RunsOne(bbStarts: set<nat>, intervals: set<Interval>, s: Scan)
    requires Begins(s, intervals)
    ensures RunsTo([s], [], bbStarts, intervals, s.slots, s)
  {
    hide Whole;
  }

  lemma RunsOn(run: seq<Scan>, picks: seq<Interval>, bbStarts: set<nat>, intervals: set<Interval>,
      slots: map<Value, nat>, s: Scan, orig: map<Value, Interval>, lo: nat, cur: Interval, n: Scan)
    requires RunsTo(run, picks, bbStarts, intervals, slots, s) && Inv(s, orig, bbStarts, lo)
        && Leads(s, cur, bbStarts, n)
    ensures RunsTo(run + [n], picks + [cur], bbStarts, intervals, slots, n)
  {
    hide Inv, NoHoles, Rounds, Begins, Leads;
    LeadsMeans(s, cur, bbStarts, n);
    RoundKeepsSlots(s, cur, bbStarts, n);
    RoundsMore(run, picks, bbStarts, cur, n);
    if NoHoles(intervals) { WholeRound(s, cur, orig, bbStarts, lo, Go(n)); }
  }

  lemma LeadsMeans(s: Scan, cur: Interval, bbStarts: set<nat>, n: Scan)
    requires Leads(s, cur, bbStarts, n)
    ensures Pickable(s, cur) && Round(s, cur, bbStarts, Go(n))
  {
  }

  lemma RunsMeans(run: seq<Scan>, picks: seq<Interval>, bbStarts: set<nat>, intervals: set<Interval>,
      slots: map<Value, nat>, s: Scan)
    requires RunsTo(run, picks, bbStarts, intervals, slots, s)
    ensures Rounds(run, picks, bbStarts) && Begins(run[0], intervals) && run[0].slots == slots && run[|picks|] == s
    ensures forall v :: v in slots ==> v in s.slots && s.slots[v] == slots[v]
  {
  }

  lemma RunsFail(run: seq<Scan>, picks: seq<Interval>, bbStarts: set<nat>, intervals: set<Interval>,
      slots: map<Value, nat>, s: Scan,
                 orig: map<Value, Interval>, lo: nat, cur: Interval)
    requires RunsTo(run, picks, bbStarts, intervals, slots, s) && Inv(s, orig, bbStarts, lo)
    requires Pickable(s, cur) && Round(s, cur, bbStarts, Undefined)
    ensures Fails(run[|picks|], bbStarts) && !NoHoles(intervals)
  {
    hide Inv, NoHoles, Rounds, Begins, Pickable, Round;
    if NoHoles(intervals) { WholeRound(s, cur, orig, bbStarts, lo, Undefined); }
  }

  // ---------- lifetimes without holes ----------

  ghost predicate Whole(it: Interval) { forall x, y, z :: x in it.s && z in it.s && x <= y <= z ==> y in it.s }

  ghost predicate NoHoles(P: set<Interval>) { forall it :: it in P ==> Whole(it) }

  lemma CutsWhole(it: Interval, pos: nat, reg: Option<Reg>)
    requires Whole(it)
    ensures Whole(it.Head(pos)) && Whole(it.Tail(pos)) && Whole(it.(reg := reg)) && Whole(it.Head(pos).(reg := reg))
  {
  }

  // An active interval that has not ended covers the position.
  lemma StaysActive(it: Interval, p: nat)
    requires Whole(it) && it.s != {} && it.Start() <= p && !Ended(it, p)
    ensures it.Cover(p)
  {
    var z :| z in it.s && p <= z;
  }

  lemma NothingInactive(s: Scan, cur: Interval, orig: map<Value, Interval>, bbStarts: set<nat>, lo: nat)
    requires Inv(s, orig, bbStarts, lo) && Pickable(s, cur) && NoHoles(s.active) && s.inactive == {}
    ensures var t := Advance(s.(unhandled := s.unhandled - {cur}), cur.Start());
      t.inactive == {} && t.active <= s.active
  {
    hide Partition, NoClash, Linked, Slots, Whole;
    assert lo <= cur.Start() by { assert Frontier(s, lo); }
    forall it | it in s.active && !Ended(it, cur.Start()) ensures it.Cover(cur.Start()) {
      assert it.s != {} && it.Start() <= lo;
      StaysActive(it, cur.Start());
    }
  }

  // A steal with nothing inactive leaves nothing inactive.
  lemma StealWhole(t: Scan, cur: Interval, r: Reg, p: nat, bbStarts: set<nat>)
    requires t.inactive == {} && NoHoles(t.active) && NoHoles(t.unhandled) && Whole(cur)
    ensures StealDefined(t, r, p)
    ensures var n := Steal(t, cur, r, p, bbStarts); n.inactive == {} && NoHoles(n.active) && NoHoles(n.unhandled)
  {
    hide Whole;
    forall it | it in t.active ensures Whole(it.Head(p)) && Whole(it.Tail(p)) {
      CutsWhole(it, p, None);
    }
    CutsWhole(cur, 0, Some(r));
  }

  lemma BusyWhole(t: Scan, cur: Interval, r: Reg, bbStarts: set<nat>, o: Outcome)
    requires t.inactive == {} && NoHoles(t.active) && NoHoles(t.unhandled) && Whole(cur) && cur.s != {}
    requires BusyRound(t, cur, r, bbStarts, o)
    ensures o.Go? && o.next.inactive == {} && NoHoles(o.next.active) && NoHoles(o.next.unhandled)
  {
    hide Whole, UseRows, NextUse, ResumeAt, Steal, StealDefined;
    var p := cur.Start();
    var t1 := t.(useKeys := UseRows(t, p, cur.val.isFloat));
    StealWhole(t1, cur, r, p, bbStarts);
    if cur.uses != {} { CutsWhole(cur, ResumeAt(cur, p, NextUse(t, p, r)), None); }
  }

  lemma FreeWhole(t: Scan, cur: Interval, r: Reg, bbStarts: set<nat>, o: Outcome)
    requires t.inactive == {} && NoHoles(t.active) && NoHoles(t.unhandled) && Whole(cur) && cur.s != {}
    requires FreeRound(t, cur, r, bbStarts, o)
    ensures o.Go? && o.next.inactive == {} && NoHoles(o.next.active) && NoHoles(o.next.unhandled)
  {
    hide Whole, FreeRows, FreeUntil, BestUse, BusyRound;
    var t1, pos := t.(freeKeys := FreeRows(t, cur)), FreeUntil(t, cur, r);
    if pos == 0 {
      var q :| BestUse(t1, cur.Start(), cur.val.isFloat, q) && BusyRound(t1, cur, q, bbStarts, o);
      BusyWhole(t1, cur, q, bbStarts, o);
    } else {
      CutsWhole(cur, pos, Some(r));
    }
  }

  /** Without holes every round is defined, and nothing ever becomes inactive. */
  lemma WholeRound(s: Scan, cur: Interval, orig: map<Value, Interval>, bbStarts: set<nat>, lo: nat, o: Outcome)
    requires Inv(s, orig, bbStarts, lo) && Pickable(s, cur) && Round(s, cur, bbStarts, o)
    requires s.inactive == {} && NoHoles(s.active) && NoHoles(s.unhandled)
    ensures o.Go? && o.next.inactive == {} && NoHoles(o.next.active) && NoHoles(o.next.unhandled)
  {
    assert cur.reg.None? by { assert Sorted(s); }
    NothingInactive(s, cur, orig, bbStarts, lo);
    hide Inv, Advance, Whole, BestFree, FreeRound;
    var t := Advance(s.(unhandled := s.unhandled - {cur}), cur.Start());
    AdvanceUnhandled(s.(unhandled := s.unhandled - {cur}), cur.Start());
    var r :| BestFree(t, cur, r) && FreeRound(t, cur, r, bbStarts, o);
    FreeWhole(t, cur, r, bbStarts, o);
  }

  lemma AdvanceUnhandled(s: Scan, p: nat)
    ensures Advance(s, p).unhandled == s.unhandled
  {
  }

  // ---------- with <= at line 241 ----------

  // Both tests retire an interval that ends at the position.
  ghost function AdvanceInclusive(s: Scan, p: nat): Scan {
    s.(active := (set it | it in s.active && !Ended(it, p) && it.Cover(p))
                 + (set it | it in s.inactive && !Ended(it, p) && it.Cover(p)),
       inactive := (set it | it in s.inactive && !Ended(it, p) && !it.Cover(p))
                   + (set it | it in s.active && !Ended(it, p) && !it.Cover(p)),
       handled := s.handled + (set it | it in s.active && Ended(it, p))
                  + (set it | it in s.inactive && Ended(it, p)))
  }

  ghost predicate RoundInclusive(s: Scan, cur: Interval, bbStarts: set<nat>, o: Outcome)
    requires Pickable(s, cur)
  {
    var s0 := s.(unhandled := s.unhandled - {cur});
    if cur.reg.Some? then o == Go(s0.(active := s0.active + {cur}))
    else
      var t := AdvanceInclusive(s0, cur.Start());
      exists r :: BestFree(t, cur, r) && FreeRound(t, cur, r, bbStarts, o)
  }

  lemma InclusiveKeeps(s: Scan, cur: Interval, orig: map<Value, Interval>, bbStarts: set<nat>, lo: nat)
    requires Inv(s, orig, bbStarts, lo) && Pickable(s, cur)
    ensures var T := AdvanceInclusive(s, cur.Start());
            && Inv(T, orig, bbStarts, cur.Start()) && Current(T, cur.Start())
            && Allocated(T) == Allocated(s) && T.unhandled == s.unhandled
    ensures forall it :: it in AdvanceInclusive(s, cur.Start()).inactive ==> !Ended(it, cur.Start())
  {
    hide Partition, NoClash, Linked, Ended;
    var p := cur.Start();
    var T := AdvanceInclusive(s, p);
    assert Allocated(T) == Allocated(s);
    assert Pieces(T) == Pieces(s);
    InclusiveSorted(s, p);
    InclusiveFrontier(s, cur, lo);
    InclusiveCurrent(s, p);
  }

  lemma InclusiveSorted(s: Scan, p: nat)
    requires Sorted(s)
    ensures Sorted(AdvanceInclusive(s, p))
  {
    hide Ended;
    assert Allocated(AdvanceInclusive(s, p)) == Allocated(s);
  }

  lemma InclusiveFrontier(s: Scan, cur: Interval, lo: nat)
    requires Frontier(s, lo) && Pickable(s, cur)
    ensures Frontier(AdvanceInclusive(s, cur.Start()), cur.Start())
  {
    var p := cur.Start();
    var t := AdvanceInclusive(s, p);
    forall it, x | it in t.unhandled && x in it.s ensures p <= x {
      assert it.Start() <= x;
    }
    assert lo <= p;
  }

  lemma InclusiveCurrent(s: Scan, p: nat)
    ensures Current(AdvanceInclusive(s, p), p)
  {
    forall it: Interval | !Ended(it, p) ensures !EndedBefore(it, p) {
    }
  }

  /** With `<=` at line 241 the lookup of line 422 is always defined. */
  lemma InclusiveDefined(T: Scan, cur: Interval, r: Reg, bbStarts: set<nat>, o: Outcome)
    requires cur.s != {} && FreeRound(T, cur, r, bbStarts, o)
        && forall it :: it in T.inactive ==> !Ended(it, cur.Start())
    ensures o.Go?
  {
    hide FreeRows, FreeUntil, BestUse, UseRows, NextUse, Steal, StackPrefix, StackWhole, TakeWhole, TakePrefix;
    forall q, t: Scan | t.inactive == T.inactive ensures StealDefined(t, q, cur.Start()) {
      forall it | it in Holders(t.inactive, q) ensures it.SegmentFrom(cur.Start()).Some? {
        assert !Ended(it, cur.Start());
      }
    }
  }

  /** ... so every round has an outcome, which keeps the invariant, and brings the end nearer. */
  lemma InclusiveRound(s: Scan, cur: Interval, orig: map<Value, Interval>, bbStarts: set<nat>, lo: nat, o: Outcome,
      R: set<Reg>)
    requires Inv(s, orig, bbStarts, lo) && Pickable(s, cur) && RoundInclusive(s, cur, bbStarts, o) && Known(s, R)
    ensures o.Go? && Inv(o.next, orig, bbStarts, cur.Start()) && Known(o.next, R)
    ensures forall c :: Pickable(o.next, c) ==> Shrinks(s, cur.Start(), o.next, c.Start(), R)
  {
    var p := cur.Start();
    InclusiveKeeps(s, cur, orig, bbStarts, lo);
    assert cur.reg.None? by { assert Sorted(s); }
    var T := AdvanceInclusive(s, p);
    InclusiveWithout(s, cur);
    var t := T.(unhandled := T.unhandled - {cur});
    hide AdvanceInclusive, FreeRound, Current;
    var r :| BestFree(t, cur, r) && FreeRound(t, cur, r, bbStarts, o);
    InclusiveDefined(t, cur, r, bbStarts, o);
    InclusiveOutcome(s, T, t, cur, r, orig, bbStarts, o, R);
  }

  lemma InclusiveWithout(s: Scan, cur: Interval)
    requires cur.s != {}
    ensures var T := AdvanceInclusive(s, cur.Start());
            AdvanceInclusive(s.(unhandled := s.unhandled - {cur}), cur.Start()) == T.(unhandled := T.unhandled - {cur})
  {
  }

  lemma InclusiveOutcome(s: Scan, T: Scan, t: Scan, cur: Interval, r: Reg, orig: map<Value, Interval>,
      bbStarts: set<nat>, o: Outcome, R: set<Reg>)
    requires cur.s != {} && Inv(T, orig, bbStarts, cur.Start()) && Current(T, cur.Start()) && cur in T.unhandled
    requires t == T.(unhandled := T.unhandled - {cur}) && Known(s, R)
    requires Allocated(T) == Allocated(s) && T.unhandled == s.unhandled && T.freeKeys == s.freeKeys
        && T.useKeys == s.useKeys
    requires BestFree(t, cur, r) && FreeRound(t, cur, r, bbStarts, o) && o.Go?
    ensures Inv(o.next, orig, bbStarts, cur.Start()) && Known(o.next, R)
    ensures forall c :: Pickable(o.next, c) ==> Shrinks(s, cur.Start(), o.next, c.Start(), R)
  {
    hide Current, FreeRound, FreeUntil, HeldUses, StartingAt, FreeRows, Known, HandledBehind, Rows, Inv, Shrinks;
    assert r.isFloat == cur.val.isFloat;
    FreeRoundKeeps(T, t, cur, r, orig, bbStarts, o);
    InclusiveShrinks(s, T, t, cur, r, orig, bbStarts, o, R);
    forall c | Pickable(o.next, c) ensures Shrinks(s, cur.Start(), o.next, c.Start(), R) {
      StartsFrom(o.next, orig, bbStarts, cur.Start(), c);
      ShrinksLater(s, cur.Start(), o.next, c.Start(), R);
    }
  }

  lemma InclusiveShrinks(s: Scan, T: Scan, t: Scan, cur: Interval, r: Reg, orig: map<Value, Interval>,
      bbStarts: set<nat>, o: Outcome, R: set<Reg>)
    requires cur.s != {} && Inv(T, orig, bbStarts, cur.Start()) && Current(T, cur.Start()) && cur in T.unhandled
    requires t == T.(unhandled := T.unhandled - {cur}) && Known(s, R)
    requires Allocated(T) == Allocated(s) && T.unhandled == s.unhandled && T.freeKeys == s.freeKeys
        && T.useKeys == s.useKeys
    requires BestFree(t, cur, r) && FreeRound(t, cur, r, bbStarts, o) && o.Go?
    ensures Known(o.next, R) && Shrinks(s, cur.Start(), o.next, cur.Start(), R)
  {
    hide Current, FreeRound, FreeUntil, FreeRows, HeldUses;
    CurrentFits(T, cur, orig, bbStarts);
    HandledUses(T, orig, bbStarts, cur.Start());
    assert Known(T, R) && Rows(T);
    assert r in FreeRows(t, cur);
    SameAllocated(s, T, cur.Start(), R);
    hide Known, HandledBehind, Rows, Shrinks, Inv;
    FreeRoundShrinks(T, t, cur, r, bbStarts, o, R);
    SameShrinks(s, T, cur.Start(), o.next, R);
  }

  // ---------- there is always a next round ----------

  lemma {:induction false} GreatestRow(rows: set<Reg>, value: Reg -> nat) returns (r: Reg)
    requires rows != {}
    ensures r in rows && forall q :: q in rows ==> value(q) <= value(r)
  {
    r :| r in rows;
    if rows != {r} {
      assert rows - {r} != {} by { assert exists q :: q in rows && q != r; }
      var other := GreatestRow(rows - {r}, value);
      if value(r) < value(other) { r := other; }
    }
  }

  lemma BestFreeExists(t: Scan, cur: Interval) returns (r: Reg)
    requires HasClass(t.freeKeys, cur.val.isFloat)
    ensures BestFree(t, cur, r)
  {
    hide FreeUntil;
    var rows := set q | q in FreeRows(t, cur) && q.isFloat == cur.val.isFloat;
    var k :| k in t.freeKeys && k.isFloat == cur.val.isFloat;
    assert k in rows;
    var value := q => FreeUntil(t, cur, q);
    r := GreatestRow(rows, value);
    forall q | q in rows ensures FreeUntil(t, cur, q) <= FreeUntil(t, cur, r) {
      assert value(q) <= value(r);
    }
  }

  lemma BestUseExists(t: Scan, p: nat, isFloat: bool) returns (r: Reg)
    requires HasClass(t.useKeys, isFloat)
    ensures BestUse(t, p, isFloat, r)
  {
    hide NextUse;
    var rows := set q | q in UseRows(t, p, isFloat) && q.isFloat == isFloat;
    var k :| k in t.useKeys && k.isFloat == isFloat;
    assert k in rows;
    var value := q => NextUse(t, p, q);
    r := GreatestRow(rows, value);
    forall q | q in rows ensures NextUse(t, p, q) <= NextUse(t, p, r) {
      assert value(q) <= value(r);
    }
  }

  lemma BusyExists(t: Scan, cur: Interval, r: Reg, bbStarts: set<nat>) returns (o: Outcome)
    requires cur.s != {}
    ensures BusyRound(t, cur, r, bbStarts, o)
  {
    hide UseRows, NextUse, ResumeAt, StackWhole, StackPrefix, Steal, StealDefined;
    var p := cur.Start();
    var t1 := t.(useKeys := UseRows(t, p, cur.val.isFloat));
    var u := NextUse(t, p, r);
    o := if cur.uses == {} then Go(StackWhole(t1, cur))
         else if Min(cur.uses) >= u then Go(StackPrefix(t1, cur, ResumeAt(cur, p, u), bbStarts))
         else if StealDefined(t1, r, p) then Go(Steal(t1, cur, r, p, bbStarts)) else Undefined;
  }

  lemma InclusiveExists(s: Scan, cur: Interval, bbStarts: set<nat>) returns (o: Outcome)
    requires Rows(s) && Pickable(s, cur) && cur.reg.None?
    ensures RoundInclusive(s, cur, bbStarts, o)
  {
    hide BestFree, FreeUntil, FreeRows, TakeWhole, TakePrefix, BusyRound, BestUse;
    var t := AdvanceInclusive(s.(unhandled := s.unhandled - {cur}), cur.Start());
    assert Rows(t);
    hide AdvanceInclusive;
    var r := BestFreeExists(t, cur);
    var t1 := t.(freeKeys := FreeRows(t, cur));
    var pos := FreeUntil(t, cur, r);
    if pos == 0 {
      var q := BestUseExists(t1, cur.Start(), cur.val.isFloat);
      o := BusyExists(t1, cur, q, bbStarts);
    } else {
      o := Go(if cur.End() < pos then TakeWhole(t1, cur, r) else TakePrefix(t1, cur, r, pos, bbStarts));
    }
    assert FreeRound(t, cur, r, bbStarts, o);
  }

  ghost predicate LeadsInclusive(s: Scan, cur: Interval, bbStarts: set<nat>, n: Scan) {
    Pickable(s, cur) && RoundInclusive(s, cur, bbStarts, Go(n))
  }

  ghost predicate RoundsInclusive(run: seq<Scan>, picks: seq<Interval>, bbStarts: set<nat>) {
    && |run| == |picks| + 1
    && forall k, m {:trigger picks[k], run[m]} :: 0 <= k < |picks| && m == k + 1 ==>
      LeadsInclusive(run[k], picks[k], bbStarts, run[m])
  }

  /** The scan with `<=` at line 241 can always be run to its end, and ends in a state that keeps the invariant
      with nothing left unhandled. */
  lemma {:induction false} InclusiveEnds(s: Scan, orig: map<Value, Interval>, bbStarts: set<nat>, lo: nat, R: set<Reg>)
    returns (run: seq<Scan>, picks: seq<Interval>)
    requires Inv(s, orig, bbStarts, lo) && Known(s, R)
    ensures RoundsInclusive(run, picks, bbStarts) && run[0] == s && Done(run[|picks|], orig, bbStarts)
    decreases Distance(s), HeldSum(s, R), Waiting(s)
  {
    if s.unhandled == {} {
      run, picks := [s], [];
    } else {
      UnhandledNonempty(s, orig, bbStarts, lo);
      var cur := PickExists(s);
      assert Rows(s) && cur.reg.None? by { assert Sorted(s); }
      assert cur.Start() < SIZE_MAX;
      hide Inv, Known, Shrinks, RoundInclusive, Distance, HeldSum, Waiting, Done;
      var o := InclusiveExists(s, cur, bbStarts);
      InclusiveRound(s, cur, orig, bbStarts, lo, o, R);
      MeasureShrinks(s, cur, o.next, R, orig, bbStarts, cur.Start());
      var rest, others := InclusiveEnds(o.next, orig, bbStarts, cur.Start(), R);
      run, picks := [s] + rest, [cur] + others;
      InclusiveFirst(s, cur, bbStarts, rest, others);
    }
  }

  lemma InclusiveFirst(s: Scan, cur: Interval, bbStarts: set<nat>, rest: seq<Scan>, others: seq<Interval>)
    requires RoundsInclusive(rest, others, bbStarts) && LeadsInclusive(s, cur, bbStarts, rest[0])
    ensures RoundsInclusive([s] + rest, [cur] + others, bbStarts)
  {
    hide LeadsInclusive;
    var run, picks := [s] + rest, [cur] + others;
    forall k, m | 0 <= k < |picks| && m == k + 1 ensures LeadsInclusive(run[k], picks[k], bbStarts, run[m]) {
      assert run[m] == rest[k];
      if k > 0 { assert picks[k] == others[k - 1] && run[k] == rest[k - 1]; }
    }
  }

  /** However it is run, it never comes to a round without an outcome. */
  lemma {:induction false} InclusiveNeverFails(run: seq<Scan>, picks: seq<Interval>, orig: map<Value, Interval>,
      bbStarts: set<nat>, lo: nat, R: set<Reg>, cur: Interval, o: Outcome) returns (p: nat)
    requires RoundsInclusive(run, picks, bbStarts) && Inv(run[0], orig, bbStarts, lo) && Known(run[0], R)
    ensures Inv(run[|picks|], orig, bbStarts, p) && Known(run[|picks|], R)
    ensures Pickable(run[|picks|], cur) && RoundInclusive(run[|picks|], cur, bbStarts, o) ==> o.Go?
    decreases |picks|
  {
    hide Inv, Known, Pickable, RoundInclusive, Shrinks;
    var n := |picks|;
    p := lo;
    if n > 0 {
      p := InclusiveNeverFails(run[..n], picks[..n - 1], orig, bbStarts, lo, R, cur, o);
      var before, last := run[n - 1], run[n];
      assert LeadsInclusive(before, picks[n - 1], bbStarts, last);
      InclusiveRound(before, picks[n - 1], orig, bbStarts, p, Go(last), R);
      p := picks[n - 1].Start();
    }
    if Pickable(run[n], cur) && RoundInclusive(run[n], cur, bbStarts, o) {
      InclusiveRound(run[n], cur, orig, bbStarts, p, o, R);
    }
  }
}
