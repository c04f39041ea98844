/** Why the linear scan ends although stolen intervals go back to unhandled: each round moves the
    start of the next interval forward, or takes a register over for an earlier use, or leaves
    fewer intervals to start at the same position. */
module ScanTermination {
  import opened Basis
  import opened Intervals
  import opened LinearScan
  import opened ScanInvariant
  import opened Sums

  // ---------- the measure ----------

  // Next use, at or behind p, of what register r holds.
  ghost function HeldUse(A: set<Interval>, r: Reg, p: nat): nat { MinOr(UsesFrom(A, r, p), SIZE_MAX) }

  ghost function HeldUses(R: set<Reg>, s: Scan, p: nat): map<Reg, nat> {
    map r | r in R :: HeldUse(Allocated(s), r, p)
  }

  ghost function StartingAt(s: Scan, p: nat): set<Interval> {
    set it | it in s.unhandled && it.s != {} && it.Start() == p
  }

  // R holds every register that any table or interval mentions.
  ghost predicate Known(s: Scan, R: set<Reg>) {
    && s.freeKeys <= R && s.useKeys <= R
    && forall it :: it in Allocated(s) && it.reg.Some? ==> it.reg.value in R
  }

  /** The lexicographic measure of a state whose next interval starts at p: first p itself counted
      down from SIZE_MAX, then the sum of the next uses, then the intervals left to start at p. */
  ghost predicate Shrinks(s: Scan, p: nat, n: Scan, p': nat, R: set<Reg>) {
    || p < p'
    || (p == p' && Sum(HeldUses(R, n, p)) < Sum(HeldUses(R, s, p)))
    || (p == p' && Sum(HeldUses(R, n, p)) <= Sum(HeldUses(R, s, p)) && |StartingAt(n, p)| < |StartingAt(s, p)|)
  }

  lemma MinOrGrows(a: set<nat>, b: set<nat>, d: nat)
    requires a <= b
    ensures MinOr(b, d) <= MinOr(a, d)
  {
  }

  // Rounds that allocate at most one new piece and take cur out of unhandled.
  lemma PlacedShrinks(s: Scan, n: Scan, cur: Interval, R: set<Reg>)
    requires cur in s.unhandled && cur.s != {}
    requires Allocated(s) <= Allocated(n)
    requires forall it :: it in n.unhandled && it !in s.unhandled ==> it.s == {} || cur.Start() < it.Start()
    requires cur !in n.unhandled
    ensures Shrinks(s, cur.Start(), n, cur.Start(), R)
  {
    hide HeldUses, StartingAt, Allocated;
    var p := cur.Start();
    MoreUses(s, n, p, R);
    FewerStart(s, n, cur);
    SmallerSet(StartingAt(n, p), StartingAt(s, p), cur);
  }

  lemma MoreUses(s: Scan, n: Scan, p: nat, R: set<Reg>)
    requires Allocated(s) <= Allocated(n)
    ensures Sum(HeldUses(R, n, p)) <= Sum(HeldUses(R, s, p))
  {
    hide Allocated, MinOr;
    forall r | r in R ensures HeldUses(R, n, p)[r] <= HeldUses(R, s, p)[r] {
      assert UsesFrom(Allocated(s), r, p) <= UsesFrom(Allocated(n), r, p);
      MinOrGrows(UsesFrom(Allocated(s), r, p), UsesFrom(Allocated(n), r, p), SIZE_MAX);
    }
    hide UsesFrom;
    SumMonotone(HeldUses(R, s, p), HeldUses(R, n, p));
  }

  lemma FewerStart(s: Scan, n: Scan, cur: Interval)
    requires cur in s.unhandled && cur.s != {} && cur !in n.unhandled
    requires forall it :: it in n.unhandled && it !in s.unhandled ==> it.s == {} || cur.Start() < it.Start()
    ensures StartingAt(n, cur.Start()) <= StartingAt(s, cur.Start()) - {cur} && cur in StartingAt(s, cur.Start())
  {
  }

  lemma SmallerSet(a: set<Interval>, b: set<Interval>, x: Interval)
    requires a <= b - {x} && x in b
    ensures |a| < |b|
  {
    SubsetSize(a, b - {x});
  }

  lemma {:induction false} SubsetSize(a: set<Interval>, b: set<Interval>)
    requires a <= b
    ensures |a| <= |b|
  {
    if a != {} {
      var x :| x in a;
      SubsetSize(a - {x}, b - {x});
    }
  }

  // ---------- stealing a register ----------

  ghost predicate HandledBehind(t: Scan, p: nat) {
    forall it, x :: it in t.handled && x in it.uses ==> x < p
  }

  lemma HandledUses(t: Scan, orig: map<Value, Interval>, bbStarts: set<nat>, p: nat)
    requires Inv(t, orig, bbStarts, p)
    ensures HandledBehind(t, p)
  {
    forall it | it in t.handled ensures it.uses <= it.s {
      PieceFits(t, it, orig);
    }
  }

  lemma HandledHasNoUse(t: Scan, r: Reg, p: nat)
    requires HandledBehind(t, p)
    ensures UsesFrom(Allocated(t), r, p) == UsesFrom(t.active + t.inactive, r, p)
  {
  }

  lemma StealHolder(t: Scan, cur: Interval, r: Reg, p: nat, bbStarts: set<nat>, it: Interval, x: nat)
    requires HandledBehind(t, p)
    requires it in Allocated(Steal(t, cur, r, p, bbStarts)) && it.reg == Some(r) && x in it.uses && x >= p
    ensures it == cur.(reg := Some(r))
  {
  }

  lemma StealOther(t: Scan, cur: Interval, r: Reg, p: nat, bbStarts: set<nat>, it: Interval)
    requires it.reg.Some? && it.reg != Some(r)
    ensures it in Allocated(Steal(t, cur, r, p, bbStarts)) <==> it in Allocated(t)
  {
    forall b | b in Heads(Holders(t.active, r), p) + Heads(Holders(t.inactive, r), p) ensures b.reg == Some(r) {
    }
  }

  // After a steal the only use of r at or behind p is by cur; other registers are untouched.
  lemma StealUses(t: Scan, cur: Interval, r: Reg, bbStarts: set<nat>, q: Reg)
    requires cur.s != {} && HandledBehind(t, cur.Start()) && cur.uses <= cur.s
    ensures var n := Steal(t, cur, r, cur.Start(), bbStarts);
            UsesFrom(Allocated(n), q, cur.Start()) ==
            if q == r then cur.uses else UsesFrom(Allocated(t), q, cur.Start())
  {
    var p := cur.Start();
    var n := Steal(t, cur, r, p, bbStarts);
    if q == r {
      forall it, x | it in Allocated(n) && it.reg == Some(r) && x in it.uses && x >= p ensures x in cur.uses {
        StealHolder(t, cur, r, p, bbStarts, it, x);
      }
      assert cur.(reg := Some(r)) in Allocated(n);
    } else {
      forall it: Interval | it.reg == Some(q) ensures it in Allocated(n) <==> it in Allocated(t) {
        StealOther(t, cur, r, p, bbStarts, it);
      }
    }
  }

  lemma StealShrinks(t: Scan, cur: Interval, r: Reg, bbStarts: set<nat>, R: set<Reg>)
    requires cur.s != {} && HandledBehind(t, cur.Start()) && cur.uses != {} && cur.uses <= cur.s
    requires r in R && Min(cur.uses) < NextUse(t, cur.Start(), r)
    ensures Sum(HeldUses(R, Steal(t, cur, r, cur.Start(), bbStarts), cur.Start())) < Sum(HeldUses(R, t, cur.Start()))
  {
    var p := cur.Start();
    var n := Steal(t, cur, r, p, bbStarts);
    HandledHasNoUse(t, r, p);
    forall q ensures q in R ==> HeldUses(R, n, p)[q] <= HeldUses(R, t, p)[q]
      ensures q == r ==> HeldUses(R, n, p)[q] < HeldUses(R, t, p)[q]
    {
      StealUses(t, cur, r, bbStarts, q);
    }
    SumMonotone(HeldUses(R, t, p), HeldUses(R, n, p));
  }

  // ---------- one round ----------

  // The best register of a busy class is next used at or behind p, so a spilled interval resumes later.
  lemma ResumesLater(t: Scan, cur: Interval, r: Reg)
    requires cur.s != {} && cur.uses != {} && cur.uses <= cur.s && cur.Start() < SIZE_MAX
    requires HasClass(t.useKeys, cur.val.isFloat) && BestUse(t, cur.Start(), cur.val.isFloat, r)
    requires Min(cur.uses) >= NextUse(t, cur.Start(), r)
    ensures cur.Start() < ResumeAt(cur, cur.Start(), NextUse(t, cur.Start(), r))
  {
    var p := cur.Start();
    var q :| q in t.useKeys && q.isFloat == cur.val.isFloat;
    assert q in UseRows(t, p, cur.val.isFloat) && p <= NextUse(t, p, q);
    var first := Min(cur.uses);
    assert p <= first;
    if cur.uses != {first} {
      assert cur.uses - {first} != {} by { assert exists x :: x in cur.uses && x != first; }
    }
  }

  // Sums and known registers depend only on the allocated pieces and the tables.
  lemma SameAllocated(s: Scan, t: Scan, p: nat, R: set<Reg>)
    requires Allocated(s) == Allocated(t)
    ensures HeldUses(R, s, p) == HeldUses(R, t, p)
  {
  }

  /** Every round is followed by a smaller state, for any table size and any choice among ties. */
  lemma RoundShrinks(s: Scan, cur: Interval, orig: map<Value, Interval>, bbStarts: set<nat>, lo: nat, o: Outcome,
                     R: set<Reg>)
    requires Inv(s, orig, bbStarts, lo) && Pickable(s, cur) && Round(s, cur, bbStarts, o) && Known(s, R)
    requires o.Go?
    ensures Known(o.next, R)
    ensures forall c :: Pickable(o.next, c) ==> Shrinks(s, cur.Start(), o.next, c.Start(), R)
  {
    hide Inv, Known, Shrinks, Round;
    RoundKeeps(s, cur, orig, bbStarts, lo, o);
    RoundShrinksHere(s, cur, orig, bbStarts, lo, o, R);
    forall c | Pickable(o.next, c) ensures Shrinks(s, cur.Start(), o.next, c.Start(), R) {
      StartsFrom(o.next, orig, bbStarts, cur.Start(), c);
      ShrinksLater(s, cur.Start(), o.next, c.Start(), R);
    }
  }

  lemma StartsFrom(n: Scan, orig: map<Value, Interval>, bbStarts: set<nat>, p: nat, c: Interval)
    requires Inv(n, orig, bbStarts, p) && Pickable(n, c)
    ensures c.s != {} && p <= c.Start()
  {
    assert Frontier(n, p);
  }

  lemma ShrinksLater(s: Scan, p: nat, n: Scan, q: nat, R: set<Reg>)
    requires Shrinks(s, p, n, p, R) && p <= q
    ensures Shrinks(s, p, n, q, R)
  {
  }

  lemma RoundShrinksHere(s: Scan, cur: Interval, orig: map<Value, Interval>, bbStarts: set<nat>, lo: nat, o: Outcome,
                         R: set<Reg>)
    requires Inv(s, orig, bbStarts, lo) && Pickable(s, cur) && Round(s, cur, bbStarts, o) && Known(s, R)
    requires o.Go?
    ensures Known(o.next, R) && Shrinks(s, cur.Start(), o.next, cur.Start(), R)
  {
    hide Inv, Current, Rows, HandledBehind, FreeRound, Advance, Known, FreeRows, FreeUntil, Shrinks, Allocated,
        HeldUses;
    var p := cur.Start();
    var T := Advance(s, p);
    Prepared(s, cur, orig, bbStarts, lo, R);
    var t := Advance(s.(unhandled := s.unhandled - {cur}), p);
    AdvanceWithout(s, cur);
    var r :| BestFree(t, cur, r) && FreeRound(t, cur, r, bbStarts, o);
    assert r in FreeRows(t, cur);
    FreeRoundShrinks(T, t, cur, r, bbStarts, o, R);
    SameAllocated(s, T, p, R);
    SameShrinks(s, T, p, o.next, R);
  }

  lemma AdvanceWithout(s: Scan, cur: Interval)
    requires cur.s != {}
    ensures var T := Advance(s, cur.Start());
            Advance(s.(unhandled := s.unhandled - {cur}), cur.Start()) == T.(unhandled := T.unhandled - {cur})
  {
  }

  lemma SameShrinks(s: Scan, T: Scan, p: nat, n: Scan, R: set<Reg>)
    requires HeldUses(R, s, p) == HeldUses(R, T, p) && T.unhandled == s.unhandled && Shrinks(T, p, n, p, R)
    ensures Shrinks(s, p, n, p, R)
  {
    hide HeldUses;
  }

  lemma Prepared(s: Scan, cur: Interval, orig: map<Value, Interval>, bbStarts: set<nat>, lo: nat, R: set<Reg>)
    requires Inv(s, orig, bbStarts, lo) && Pickable(s, cur) && Known(s, R)
    ensures var T := Advance(s, cur.Start());
            && Current(T, cur.Start()) && HandledBehind(T, cur.Start()) && Rows(T) && Known(T, R)
            && Allocated(T) == Allocated(s) && T.unhandled == s.unhandled
    ensures (forall x :: x in cur.s ==> x + 1 < SIZE_MAX) && cur.uses <= cur.s && cur.reg.None?
  {
    AdvanceKeeps(s, cur, orig, bbStarts, lo);
    var T := Advance(s, cur.Start());
    CurrentFits(T, cur, orig, bbStarts);
    HandledUses(T, orig, bbStarts, cur.Start());
    assert Sorted(s);
  }

  lemma FreeRoundShrinks(T: Scan, t: Scan, cur: Interval, r: Reg, bbStarts: set<nat>, o: Outcome, R: set<Reg>)
    requires cur.s != {} && cur in T.unhandled && Current(T, cur.Start())
    requires HandledBehind(T, cur.Start()) && Rows(T) && Known(T, R)
    requires (forall x :: x in cur.s ==> x + 1 < SIZE_MAX) && cur.uses <= cur.s
    requires t == T.(unhandled := T.unhandled - {cur})
    requires r in FreeRows(t, cur) && FreeRound(t, cur, r, bbStarts, o) && o.Go?
    ensures Known(o.next, R) && Shrinks(T, cur.Start(), o.next, cur.Start(), R)
  {
    var p := cur.Start();
    var t1 := t.(freeKeys := FreeRows(t, cur));
    assert Known(t1, R) && r in R;
    if FreeUntil(t, cur, r) == 0 {
      var q :| BestUse(t1, p, cur.val.isFloat, q) && BusyRound(t1, cur, q, bbStarts, o);
      BusyRoundShrinks(T, t1, cur, q, bbStarts, o, R);
    } else {
      assert FreeUntil(T, cur, r) == FreeUntil(t, cur, r);
      FreePosition(T, cur, r);
      hide FreeUntil, FreeRows, Current, Rows, HandledBehind;
      PlacedShrinks(T, o.next, cur, R);
    }
  }

  lemma BusyRoundShrinks(T: Scan, t: Scan, cur: Interval, r: Reg, bbStarts: set<nat>, o: Outcome, R: set<Reg>)
    requires cur.s != {} && cur in T.unhandled
    requires HandledBehind(T, cur.Start()) && Rows(T) && Known(t, R)
    requires (forall x :: x in cur.s ==> x + 1 < SIZE_MAX) && cur.uses <= cur.s
    requires t == T.(unhandled := T.unhandled - {cur}, freeKeys := t.freeKeys)
    requires BestUse(t, cur.Start(), cur.val.isFloat, r) && BusyRound(t, cur, r, bbStarts, o) && o.Go?
    ensures Known(o.next, R) && Shrinks(T, cur.Start(), o.next, cur.Start(), R)
  {
    var p := cur.Start();
    var t1 := t.(useKeys := UseRows(t, p, cur.val.isFloat));
    assert Known(t1, R);
    assert r in R;
    if cur.uses == {} {
      PlacedShrinks(T, o.next, cur, R);
    } else if Min(cur.uses) >= NextUse(t, p, r) {
      ResumesLater(t, cur, r);
      hide ResumeAt, UseRows, NextUse, BestUse;
      PlacedShrinks(T, o.next, cur, R);
    } else {
      StealShrinks(t1, cur, r, bbStarts, R);
      SameAllocated(T, t1, p, R);
      hide UseRows, NextUse, BestUse, HandledBehind, Rows;
      StealKnown(t1, cur, r, bbStarts, R);
    }
  }

  lemma StealKnown(t: Scan, cur: Interval, r: Reg, bbStarts: set<nat>, R: set<Reg>)
    requires cur.s != {} && Known(t, R) && r in R
    ensures Known(Steal(t, cur, r, cur.Start(), bbStarts), R)
  {
    var n := Steal(t, cur, r, cur.Start(), bbStarts);
    forall it | it in Allocated(n) && it.reg.Some? ensures it.reg.value in R {
      if it.reg != Some(r) { StealOther(t, cur, r, cur.Start(), bbStarts, it); }
    }
  }

  // ---------- the measure as three numbers ----------

  ghost function NextStart(s: Scan): nat {
    var starts := set it | it in s.unhandled && it.s != {} :: it.Start();
    if starts == {} then 0 else Min(starts)
  }

  // The three components of the measure.
  ghost function Distance(s: Scan): nat {
    if s.unhandled == {} || NextStart(s) > SIZE_MAX then 0 else 1 + SIZE_MAX - NextStart(s)
  }

  ghost function HeldSum(s: Scan, R: set<Reg>): nat { Sum(HeldUses(R, s, NextStart(s))) }

  ghost function Waiting(s: Scan): nat { |StartingAt(s, NextStart(s))| }

  lemma PickableStart(s: Scan, cur: Interval)
    requires Pickable(s, cur)
    ensures NextStart(s) == cur.Start()
  {
    var starts := set it | it in s.unhandled && it.s != {} :: it.Start();
    assert cur.Start() in starts;
  }

  lemma UnhandledNonempty(s: Scan, orig: map<Value, Interval>, bbStarts: set<nat>, p: nat)
    requires Inv(s, orig, bbStarts, p)
    ensures forall it :: it in s.unhandled ==> it.s != {} && it.Start() < SIZE_MAX
  {
    forall it | it in s.unhandled ensures it.s != {} && it.Start() < SIZE_MAX { PieceFits(s, it, orig); }
  }

  lemma PickExists(s: Scan) returns (cur: Interval)
    requires s.unhandled != {} && forall it :: it in s.unhandled ==> it.s != {}
    ensures Pickable(s, cur)
  {
    var starts := set it | it in s.unhandled && it.s != {} :: it.Start();
    var it :| it in s.unhandled;
    assert it.Start() in starts;
    cur :| cur in s.unhandled && cur.Start() == Min(starts);
    forall a | a in s.unhandled ensures cur.Start() <= a.Start() {
      assert a.Start() in starts;
      assert Min(starts) <= a.Start();
    }
  }

  lemma MeasureShrinks(s: Scan, cur: Interval, n: Scan, R: set<Reg>, orig: map<Value, Interval>, bbStarts: set<nat>,
      p: nat)
    requires Pickable(s, cur) && cur.Start() < SIZE_MAX && Inv(n, orig, bbStarts, p)
    requires forall c :: Pickable(n, c) ==> Shrinks(s, cur.Start(), n, c.Start(), R)
    ensures || Distance(n) < Distance(s)
            || (Distance(n) == Distance(s) && HeldSum(n, R) < HeldSum(s, R))
            || (Distance(n) == Distance(s) && HeldSum(n, R) == HeldSum(s, R) && Waiting(n) < Waiting(s))
  {
    hide Inv, Pickable, NextStart, HeldUses, StartingAt;
    PickableStart(s, cur);
    UnhandledNonempty(n, orig, bbStarts, p);
    assert s.unhandled != {} by { PickedFrom(s, cur); }
    if n.unhandled != {} {
      var c := PickExists(n);
      PickableStart(n, c);
      PickedFrom(n, c);
    }
  }

  lemma PickedFrom(s: Scan, cur: Interval)
    requires Pickable(s, cur)
    ensures cur in s.unhandled && cur.s != {}
  {
  }
}
