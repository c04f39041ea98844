/** Where the scan records moves (src/codegen_new/regalloc.cc, split_moves): at the seams between the pieces of a
    value, never inside a piece and never where a block begins. */
module ScanMoves {
  import opened Basis
  import opened Intervals
  import opened LinearScan
  import opened ScanInvariant

  // No piece of v goes on from x - 1 to x.
  ghost predicate SeamAt(s: Scan, v: Value, x: nat) {
    forall b :: b in Pieces(s) && b.val == v && x in b.s ==> x == 0 || x - 1 !in b.s
  }

  ghost predicate MoveFits(s: Scan, orig: map<Value, Interval>, bbStarts: set<nat>, m: (Value, nat)) {
    m.1 !in bbStarts && m.0 in orig && m.1 in orig[m.0].s && SeamAt(s, m.0, m.1)
  }

  ghost predicate MovesFit(s: Scan, orig: map<Value, Interval>, bbStarts: set<nat>) {
    forall m :: m in s.splitMoves ==> MoveFits(s, orig, bbStarts, m)
  }

  // Every piece of n is a part of a piece of s.
  ghost predicate Refines(s: Scan, n: Scan) {
    forall b :: b in Pieces(n) ==> PartOf(s, b)
  }

  ghost predicate PartOf(s: Scan, b: Interval) { exists a :: a in Pieces(s) && a.val == b.val && b.s <= a.s }

  lemma OldMoveFits(s: Scan, n: Scan, orig: map<Value, Interval>, bbStarts: set<nat>, m: (Value, nat))
    requires MoveFits(s, orig, bbStarts, m) && Refines(s, n)
    ensures MoveFits(n, orig, bbStarts, m)
  {
    hide Pieces;
    forall b | b in Pieces(n) && b.val == m.0 && m.1 in b.s ensures m.1 == 0 || m.1 - 1 !in b.s {
      assert PartOf(s, b);
      var a :| a in Pieces(s) && a.val == b.val && b.s <= a.s;
    }
  }

  // A position of cur at which its pieces begin anew.
  lemma NewMoveFits(T: Scan, n: Scan, orig: map<Value, Interval>, bbStarts: set<nat>, it: Interval, x: nat)
    requires Partition(Pieces(T), orig) && it in Pieces(T) && x in it.s && x !in bbStarts && Refines(T, n)
    requires forall b :: b in Pieces(n) && b.val == it.val && b.s <= it.s && x in b.s ==> x == 0 || x - 1 !in b.s
    ensures MoveFits(n, orig, bbStarts, (it.val, x))
  {
    hide Pieces;
    forall b | b in Pieces(n) && b.val == it.val && x in b.s ensures x == 0 || x - 1 !in b.s {
      assert PartOf(T, b);
      var a :| a in Pieces(T) && a.val == b.val && b.s <= a.s;
      assert a == it;
    }
  }

  // ---------- what becomes of the pieces ----------

  // n has the pieces of T, with cur cut in two.
  ghost predicate CutsCur(T: Scan, n: Scan, cur: Interval, pos: nat) {
    forall b :: b in Pieces(n) ==>
      || (b in Pieces(T) && b != cur)
      || (b.val == cur.val && (b.s == Below(cur.s, pos) || b.s == From(cur.s, pos)))
  }

  lemma CutsRefine(T: Scan, n: Scan, cur: Interval, pos: nat)
    requires CutsCur(T, n, cur, pos) && cur in Pieces(T)
    ensures Refines(T, n)
  {
    hide Pieces;
    forall b | b in Pieces(n) ensures PartOf(T, b) {
      if b in Pieces(T) && b != cur {
        assert b.s <= b.s;
      } else {
        assert b.s <= cur.s;
      }
    }
  }

  lemma CutMoveFits(T: Scan, n: Scan, cur: Interval, pos: nat, orig: map<Value, Interval>, bbStarts: set<nat>)
    requires Partition(Pieces(T), orig) && cur in Pieces(T) && CutsCur(T, n, cur, pos)
    requires pos in cur.s && pos !in bbStarts
    ensures MoveFits(n, orig, bbStarts, (cur.val, pos))
  {
    hide Pieces;
    CutsRefine(T, n, cur, pos);
    forall b | b in Pieces(n) && b.val == cur.val && b.s <= cur.s && pos in b.s ensures pos == 0 || pos - 1 !in b.s {
      if b in Pieces(T) && b != cur {
        assert false;
      }
    }
    NewMoveFits(T, n, orig, bbStarts, cur, pos);
  }

  // cur is nowhere but in unhandled.
  lemma CurIsUnhandled(T: Scan, cur: Interval)
    requires Sorted(T) && cur in T.unhandled
    ensures cur !in Allocated(T) && cur !in T.stacked && cur in Pieces(T) && cur.reg.None?
  {
  }

  lemma TakeCuts(T: Scan, t: Scan, cur: Interval, r: Reg, pos: nat, bbStarts: set<nat>)
    requires Sorted(T) && cur in T.unhandled
    requires t == T.(unhandled := T.unhandled - {cur}, freeKeys := t.freeKeys)
    ensures CutsCur(T, TakePrefix(t, cur, r, pos, bbStarts), cur, pos)
    ensures CutsCur(T, TakeWhole(t, cur, r), cur, 0)
  {
    CurIsUnhandled(T, cur);
    assert From(cur.s, 0) == cur.s;
  }

  lemma StackCuts(T: Scan, t: Scan, cur: Interval, pos: nat, bbStarts: set<nat>)
    requires Sorted(T) && cur in T.unhandled
    requires t == T.(unhandled := T.unhandled - {cur}, freeKeys := t.freeKeys, useKeys := t.useKeys)
    ensures CutsCur(T, StackPrefix(t, cur, pos, bbStarts), cur, pos)
    ensures CutsCur(T, StackWhole(t, cur), cur, 0)
  {
    CurIsUnhandled(T, cur);
    assert From(cur.s, 0) == cur.s;
  }

  // Each piece after a steal: untouched, cur in its register, or a part of a holder cut at p.
  lemma StealParts(T: Scan, t: Scan, cur: Interval, r: Reg, p: nat, bbStarts: set<nat>, b: Interval)
    requires Sorted(T) && cur in T.unhandled
    requires t == T.(unhandled := T.unhandled - {cur}, freeKeys := t.freeKeys, useKeys := t.useKeys)
    requires b in Pieces(Steal(t, cur, r, p, bbStarts))
    ensures
      || (b in Pieces(T) && b != cur && b !in Holders(T.active + T.inactive, r))
      || (b.val == cur.val && b.s == cur.s)
      || exists a :: a in Holders(T.active + T.inactive, r) && CutOf(b, a, p)
  {
    CurIsUnhandled(T, cur);
    HolderParts(T, r, p, b);
    if b in T.handled { assert b !in Holders(T.active + T.inactive, r); }
    if b in T.unhandled + T.stacked { assert b.reg.None?; }
  }

  lemma HolderParts(T: Scan, r: Reg, p: nat, b: Interval)
    ensures b in Heads(Holders(T.active, r), p) + Heads(Holders(T.inactive, r), p)
                 + Tails(Holders(T.active, r), p) + Tails(Holders(T.inactive, r), p) ==>
              exists a :: a in Holders(T.active + T.inactive, r) && CutOf(b, a, p)
  {
    if b in Heads(Holders(T.active, r), p) + Tails(Holders(T.active, r), p) {
      var a := CutOrigin(Holders(T.active, r), p, b);
      assert a in Holders(T.active + T.inactive, r);
    } else if b in Heads(Holders(T.inactive, r), p) + Tails(Holders(T.inactive, r), p) {
      var a := CutOrigin(Holders(T.inactive, r), p, b);
      assert a in Holders(T.active + T.inactive, r);
    }
  }

  lemma StealRefines(T: Scan, t: Scan, cur: Interval, r: Reg, p: nat, bbStarts: set<nat>)
    requires Sorted(T) && cur in T.unhandled
    requires t == T.(unhandled := T.unhandled - {cur}, freeKeys := t.freeKeys, useKeys := t.useKeys)
    ensures Refines(T, Steal(t, cur, r, p, bbStarts))
  {
    var n := Steal(t, cur, r, p, bbStarts);
    hide Steal;
    forall b | b in Pieces(n) ensures PartOf(T, b) {
      StealParts(T, t, cur, r, p, bbStarts, b);
      if a :| a in Holders(T.active + T.inactive, r) && CutOf(b, a, p) {
        assert a in Pieces(T) && b.s <= a.s;
      } else if b.val == cur.val && b.s == cur.s {
        assert cur in Pieces(T);
      }
    }
  }

  // A holder begins anew at p, or where it resumes behind p.
  lemma StealMoveFits(T: Scan, t: Scan, cur: Interval, r: Reg, p: nat, orig: map<Value, Interval>, bbStarts: set<nat>,
      it: Interval, x: nat)
    requires Partition(Pieces(T), orig) && Sorted(T) && cur in T.unhandled && cur.s != {}
    requires t == T.(unhandled := T.unhandled - {cur}, freeKeys := t.freeKeys, useKeys := t.useKeys)
    requires it in Holders(T.active + T.inactive, r) && x in it.s && x !in bbStarts && x >= p
    requires forall y :: y in it.s && p <= y ==> x <= y
    ensures MoveFits(Steal(t, cur, r, p, bbStarts), orig, bbStarts, (it.val, x))
  {
    hide Steal, Pieces, Holders, Sorted, Allocated, Partition, CutOf, Refines;
    var n := Steal(t, cur, r, p, bbStarts);
    StealRefines(T, t, cur, r, p, bbStarts);
    CurIsUnhandled(T, cur);
    HolderIsPiece(T, r, it);
    PartitionApart(Pieces(T), orig);
    forall b | b in Pieces(n) && b.val == it.val && b.s <= it.s && x in b.s ensures x == 0 || x - 1 !in b.s {
      StealParts(T, t, cur, r, p, bbStarts, b);
      if a :| a in Holders(T.active + T.inactive, r) && CutOf(b, a, p) {
        HolderIsPiece(T, r, a);
        HolderSeam(Pieces(T), it, a, b, p, x);
      } else if b.val == cur.val && b.s == cur.s {
        OnePiece(Pieces(T), it, cur, x);
        assert false;
      } else {
        OnePiece(Pieces(T), it, b, x);
        assert false;
      }
    }
    NewMoveFits(T, n, orig, bbStarts, it, x);
  }

  lemma OnePiece(P: set<Interval>, a: Interval, b: Interval, x: nat)
    requires Apart(P) && a in P && b in P && a.val == b.val && x in a.s && x in b.s
    ensures a == b
  {
  }

  lemma HolderSeam(P: set<Interval>, it: Interval, a: Interval, b: Interval, p: nat, x: nat)
    requires Apart(P) && it in P && a in P && CutOf(b, a, p) && b.val == it.val && x in b.s && x in it.s && x >= p
    requires forall y :: y in it.s && p <= y ==> x <= y
    ensures x == 0 || x - 1 !in b.s
  {
    OnePiece(P, it, a, x);
  }

  lemma HolderIsPiece(T: Scan, r: Reg, a: Interval)
    requires a in Holders(T.active + T.inactive, r)
    ensures a in Pieces(T) && a.reg == Some(r)
  {
  }

  // ---------- one round ----------

  lemma StealFits(T: Scan, t: Scan, cur: Interval, r: Reg, orig: map<Value, Interval>, bbStarts: set<nat>)
    requires cur.s != {} && Inv(T, orig, bbStarts, cur.Start()) && Current(T, cur.Start()) && cur in T.unhandled
    requires t == T.(unhandled := T.unhandled - {cur}, freeKeys := t.freeKeys, useKeys := t.useKeys)
    requires MovesFit(T, orig, bbStarts) && StealDefined(t, r, cur.Start())
    ensures MovesFit(Steal(t, cur, r, cur.Start(), bbStarts), orig, bbStarts)
  {
    hide Inv, Current, MovesFit, MoveFits, Refines, Steal, Pieces, Partition, Sorted, StealDefined, StealMoves;
    var p := cur.Start();
    var n := Steal(t, cur, r, p, bbStarts);
    InvGives(T, cur, orig, bbStarts);
    StealRefines(T, t, cur, r, p, bbStarts);
    StealAdds(t, cur, r, p, bbStarts);
    forall m | m in StealMoves(t, r, p, bbStarts) ensures MoveFits(n, orig, bbStarts, m) {
      var it := NewMove(T, t, r, p, bbStarts, m);
      StealMoveFits(T, t, cur, r, p, orig, bbStarts, it, m.1);
    }
    KeptFit(T, n, orig, bbStarts, StealMoves(t, r, p, bbStarts));
  }

  lemma StealAdds(t: Scan, cur: Interval, r: Reg, p: nat, bbStarts: set<nat>)
    ensures Steal(t, cur, r, p, bbStarts).splitMoves == t.splitMoves + StealMoves(t, r, p, bbStarts)
  {
  }

  lemma NewMove(T: Scan, t: Scan, r: Reg, p: nat, bbStarts: set<nat>, m: (Value, nat)) returns (it: Interval)
    requires Current(T, p) && t.active == T.active && t.inactive == T.inactive && StealDefined(t, r, p)
    requires m in StealMoves(t, r, p, bbStarts)
    ensures it in Holders(T.active + T.inactive, r) && it.val == m.0 && m.1 in it.s && m.1 !in bbStarts && m.1 >= p
    ensures forall y :: y in it.s && p <= y ==> m.1 <= y
  {
    if m in SegmentMoves(Holders(t.inactive, r), p, bbStarts) {
      it :| it in Holders(t.inactive, r) && it.SegmentFrom(p).Some? && m == (it.val, it.SegmentFrom(p).value)
            && m.1 !in bbStarts;
      assert !it.Cover(p);
    } else {
      it :| it in Holders(t.active, r) && m == (it.val, p) && p !in bbStarts;
      assert it.Cover(p);
    }
  }

  lemma BusyFits(T: Scan, t: Scan, cur: Interval, r: Reg, orig: map<Value, Interval>, bbStarts: set<nat>, o: Outcome)
    requires cur.s != {} && Inv(T, orig, bbStarts, cur.Start()) && Current(T, cur.Start()) && cur in T.unhandled
    requires t == T.(unhandled := T.unhandled - {cur}, freeKeys := t.freeKeys)
    requires MovesFit(T, orig, bbStarts) && BusyRound(t, cur, r, bbStarts, o)
    ensures o.Go? ==> MovesFit(o.next, orig, bbStarts)
  {
    hide NextUse, UseRows, StackWhole, StackPrefix, Steal, MovesFit;
    var p := cur.Start();
    var t1 := t.(useKeys := UseRows(t, p, cur.val.isFloat));
    CurrentFits(T, cur, orig, bbStarts);
    assert cur in Pieces(T) && Partition(Pieces(T), orig) && Sorted(T);
    hide Inv, Current, Pieces, ResumeAt, StealDefined;
    if cur.uses == {} {
      WholeStackFits(T, t1, cur, orig, bbStarts);
    } else if Min(cur.uses) >= NextUse(t, p, r) {
      PrefixStackFits(T, t1, cur, p, NextUse(t, p, r), orig, bbStarts);
    } else if StealDefined(t1, r, p) {
      StealFits(T, t1, cur, r, orig, bbStarts);
    }
  }

  lemma KeptFit(T: Scan, n: Scan, orig: map<Value, Interval>, bbStarts: set<nat>, more: set<(Value, nat)>)
    requires MovesFit(T, orig, bbStarts) && Refines(T, n) && n.splitMoves == T.splitMoves + more
    requires forall m :: m in more ==> MoveFits(n, orig, bbStarts, m)
    ensures MovesFit(n, orig, bbStarts)
  {
    hide MoveFits, Refines;
    forall m | m in n.splitMoves ensures MoveFits(n, orig, bbStarts, m) {
      if m in T.splitMoves { OldMoveFits(T, n, orig, bbStarts, m); }
    }
  }

  lemma WholeStackFits(T: Scan, t: Scan, cur: Interval, orig: map<Value, Interval>, bbStarts: set<nat>)
    requires Sorted(T) && cur in T.unhandled && MovesFit(T, orig, bbStarts) && cur in Pieces(T)
    requires t == T.(unhandled := T.unhandled - {cur}, freeKeys := t.freeKeys, useKeys := t.useKeys)
    ensures MovesFit(StackWhole(t, cur), orig, bbStarts)
  {
    StackCuts(T, t, cur, 0, bbStarts);
    CutsRefine(T, StackWhole(t, cur), cur, 0);
    hide MovesFit, Refines, Pieces, CutsCur;
    KeptFit(T, StackWhole(t, cur), orig, bbStarts, {});
  }

  lemma PrefixStackFits(T: Scan, t: Scan, cur: Interval, p: nat, u: nat, orig: map<Value, Interval>,
      bbStarts: set<nat>)
    requires Partition(Pieces(T), orig) && Sorted(T) && cur in T.unhandled && MovesFit(T, orig, bbStarts)
    requires cur in Pieces(T) && cur.uses != {} && cur.uses <= cur.s && forall x :: x in cur.s ==> x + 1 < SIZE_MAX
    requires t == T.(unhandled := T.unhandled - {cur}, freeKeys := t.freeKeys, useKeys := t.useKeys)
    ensures MovesFit(StackPrefix(t, cur, ResumeAt(cur, p, u), bbStarts), orig, bbStarts)
  {
    hide MovesFit, Refines, Pieces, CutsCur, ResumeAt, Partition, Sorted, NonEmpty;
    var pos := ResumeAt(cur, p, u);
    var n := StackPrefix(t, cur, pos, bbStarts);
    StackCuts(T, t, cur, pos, bbStarts);
    CutsRefine(T, n, cur, pos);
    ResumeInside(cur, p, u);
    var more := if cur.Tail(pos).s == {} then {} else Moves(cur.val, pos, bbStarts);
    if more != {} { CutMoveFits(T, n, cur, pos, orig, bbStarts); }
    KeptFit(T, n, orig, bbStarts, more);
  }

  lemma ResumeInside(cur: Interval, p: nat, u: nat)
    requires cur.uses != {} && cur.uses <= cur.s && forall x :: x in cur.s ==> x + 1 < SIZE_MAX
    ensures var pos := ResumeAt(cur, p, u); pos in cur.s || cur.Tail(pos).s == {}
  {
  }

  lemma TakeFits(T: Scan, t: Scan, cur: Interval, r: Reg, pos: nat, orig: map<Value, Interval>, bbStarts: set<nat>)
    requires Partition(Pieces(T), orig) && Sorted(T) && cur in T.unhandled && MovesFit(T, orig, bbStarts)
    requires cur in Pieces(T) && t == T.(unhandled := T.unhandled - {cur}, freeKeys := t.freeKeys)
    ensures MovesFit(TakeWhole(t, cur, r), orig, bbStarts)
    ensures pos in cur.s ==> MovesFit(TakePrefix(t, cur, r, pos, bbStarts), orig, bbStarts)
  {
    TakeCuts(T, t, cur, r, pos, bbStarts);
    var w, n := TakeWhole(t, cur, r), TakePrefix(t, cur, r, pos, bbStarts);
    CutsRefine(T, w, cur, 0);
    CutsRefine(T, n, cur, pos);
    hide MovesFit, Refines, Pieces, CutsCur, Partition, Sorted;
    KeptFit(T, w, orig, bbStarts, {});
    if pos in cur.s {
      if pos !in bbStarts { CutMoveFits(T, n, cur, pos, orig, bbStarts); }
      KeptFit(T, n, orig, bbStarts, Moves(cur.val, pos, bbStarts));
    }
  }

  /** Every round keeps: each recorded move is at a position of its value where a piece begins, and not at the
      beginning of a block. */
  lemma RoundKeepsMoves(s: Scan, cur: Interval, orig: map<Value, Interval>, bbStarts: set<nat>, lo: nat, o: Outcome)
    requires Inv(s, orig, bbStarts, lo) && Pickable(s, cur) && Round(s, cur, bbStarts, o)
    requires MovesFit(s, orig, bbStarts)
    ensures o.Go? ==> MovesFit(o.next, orig, bbStarts)
  {
    AdvanceKeeps(s, cur, orig, bbStarts, lo);
    var T := Advance(s, cur.Start());
    assert cur.reg.None? by { assert Sorted(s); }
    AdvanceMoves(s, cur.Start(), orig, bbStarts);
    var t := Advance(s.(unhandled := s.unhandled - {cur}), cur.Start());
    assert t == T.(unhandled := T.unhandled - {cur});
    hide Advance, FreeRound, BestFree, Inv, Current, MovesFit;
    var r :| BestFree(t, cur, r) && FreeRound(t, cur, r, bbStarts, o);
    FreeFits(T, t, cur, r, orig, bbStarts, o);
  }

  lemma AdvanceMoves(s: Scan, p: nat, orig: map<Value, Interval>, bbStarts: set<nat>)
    requires MovesFit(s, orig, bbStarts)
    ensures MovesFit(Advance(s, p), orig, bbStarts)
  {
    var T := Advance(s, p);
    assert Pieces(T) <= Pieces(s);
    hide Advance, Pieces;
    forall m | m in T.splitMoves ensures MoveFits(T, orig, bbStarts, m) {
      assert MoveFits(s, orig, bbStarts, m);
    }
  }

  lemma InvGives(T: Scan, cur: Interval, orig: map<Value, Interval>, bbStarts: set<nat>)
    requires cur.s != {} && Inv(T, orig, bbStarts, cur.Start()) && cur in T.unhandled
    ensures cur in Pieces(T) && Partition(Pieces(T), orig) && Sorted(T)
  {
  }

  lemma FreeFits(T: Scan, t: Scan, cur: Interval, r: Reg, orig: map<Value, Interval>, bbStarts: set<nat>, o: Outcome)
    requires cur.s != {} && Inv(T, orig, bbStarts, cur.Start()) && Current(T, cur.Start()) && cur in T.unhandled
    requires t == T.(unhandled := T.unhandled - {cur})
    requires MovesFit(T, orig, bbStarts) && FreeRound(t, cur, r, bbStarts, o)
    ensures o.Go? ==> MovesFit(o.next, orig, bbStarts)
  {
    hide FreeRows, BestUse, BusyRound, Inv, Current, MovesFit, Pieces, Partition, Sorted, Held, Meetings, MinOr,
        TakeWhole, TakePrefix;
    var t1 := t.(freeKeys := FreeRows(t, cur));
    var pos := FreeUntil(t, cur, r);
    assert pos == FreeUntil(T, cur, r);
    InvGives(T, cur, orig, bbStarts);
    CurrentFits(T, cur, orig, bbStarts);
    if pos == 0 {
      var q :| BestUse(t1, cur.Start(), cur.val.isFloat, q) && BusyRound(t1, cur, q, bbStarts, o);
      BusyFits(T, t1, cur, q, orig, bbStarts, o);
    } else {
      FreePosition(T, cur, r);
      TakeFits(T, t1, cur, r, pos, orig, bbStarts);
    }
  }
}
