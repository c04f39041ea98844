/** What every round of the linear scan keeps. */
module ScanInvariant {
  import opened Basis
  import opened Intervals
  import opened LinearScan

  // ---------- pieces of one value ----------

  ghost predicate Apart(P: set<Interval>) {
    forall a, b, x :: a in P && b in P && a.val == b.val && x in a.s && x in b.s ==> a == b
  }

  // The pieces lie inside the original lifetimes, with exactly the uses that fall into them,
  // and no position of a lifetime is lost.
  ghost predicate Covers(P: set<Interval>, orig: map<Value, Interval>) {
    && (forall a :: a in P ==> a.val in orig && a.s <= orig[a.val].s && a.uses == orig[a.val].uses * a.s)
    && (forall v, x :: v in orig && x in orig[v].s ==> Covered(P, v, x))
  }

  ghost predicate Covered(P: set<Interval>, v: Value, x: nat) {
    exists a :: a in P && a.val == v && x in a.s
  }

  ghost predicate Within(b: Interval, a: Interval) {
    b.val == a.val && b.s <= a.s && b.uses == a.uses * b.s
  }

  ghost predicate FromSome(b: Interval, D: set<Interval>) {
    exists a :: a in D && Within(b, a)
  }

  ghost predicate CutFrom(D: set<Interval>, Q: set<Interval>) {
    forall b :: b in Q ==> FromSome(b, D) && b.s != {}
  }

  ghost predicate Fills(D: set<Interval>, Q: set<Interval>) {
    forall a, x :: a in D && x in a.s ==> Covered(Q, a.val, x)
  }

  // Replacing the pieces D by the pieces Q cut out of them.
  ghost predicate Recut(D: set<Interval>, Q: set<Interval>) {
    CutFrom(D, Q) && Fills(D, Q) && Apart(Q)
  }

  lemma RecutSeparate(P: set<Interval>, D: set<Interval>, Q: set<Interval>, a: Interval, b: Interval, x: nat)
    requires Apart(P) && D <= P && Recut(D, Q)
    requires a in P - D && b in Q && a.val == b.val && x in b.s
    ensures x !in a.s
  {
    var d :| d in D && Within(b, d);
  }

  // The pieces partition the lifetimes.
  ghost predicate Partition(P: set<Interval>, orig: map<Value, Interval>) {
    (forall a :: a in P ==> a.s != {}) && Apart(P) && Covers(P, orig)
  }

  lemma RecutKeepsPartition(P: set<Interval>, D: set<Interval>, Q: set<Interval>, orig: map<Value, Interval>)
    requires Partition(P, orig) && D <= P && Recut(D, Q)
    ensures Partition(P - D + Q, orig)
    ensures (P - D) !! Q
  {
    hide Apart, Covered, Within, FromSome;
    var R := P - D + Q;
    RecutApart(P, D, Q);
    forall b | b in Q ensures b !in P - D && b.val in orig && b.s <= orig[b.val].s && b.uses == orig[b.val].uses * b.s {
      RecutInside(P, D, Q, orig, b);
    }
    forall v, x | v in orig && x in orig[v].s ensures Covered(R, v, x) {
      RecutCovers(P, D, Q, v, x);
    }
  }

  lemma RecutApart(P: set<Interval>, D: set<Interval>, Q: set<Interval>)
    requires Apart(P) && D <= P && Recut(D, Q)
    ensures Apart(P - D + Q)
  {
    hide CutFrom, Fills;
    var R := P - D + Q;
    forall a, b, x | a in R && b in R && a.val == b.val && x in a.s && x in b.s ensures a == b {
      if a in P - D && b in Q { RecutSeparate(P, D, Q, a, b, x); }
      if b in P - D && a in Q { RecutSeparate(P, D, Q, b, a, x); }
    }
  }

  lemma RecutInside(P: set<Interval>, D: set<Interval>, Q: set<Interval>, orig: map<Value, Interval>, b: Interval)
    requires Partition(P, orig) && D <= P && Recut(D, Q) && b in Q
    ensures b !in P - D && b.s != {} && b.val in orig && b.s <= orig[b.val].s && b.uses == orig[b.val].uses * b.s
  {
    hide Covered, Fills, Apart;
    var a :| a in D && Within(b, a);
    var x :| x in b.s;
    if b in P - D { RecutSeparate(P, D, Q, b, b, x); }
  }

  lemma RecutCovers(P: set<Interval>, D: set<Interval>, Q: set<Interval>, v: Value, x: nat)
    requires Covered(P, v, x) && D <= P && Fills(D, Q)
    ensures Covered(P - D + Q, v, x)
  {
    var a :| a in P && a.val == v && x in a.s;
    if a in D {
      assert Covered(Q, a.val, x);
      var b :| b in Q && b.val == v && x in b.s;
    }
  }

  ghost predicate CutOf(b: Interval, a: Interval, pos: nat) {
    b == a.Head(pos) || b == a.Tail(pos)
  }

  lemma CutOfWithin(b: Interval, a: Interval, pos: nat)
    requires CutOf(b, a, pos) && a.uses <= a.s
    ensures Within(b, a)
  {
  }

  lemma CutOrigin(D: set<Interval>, pos: nat, b: Interval) returns (a: Interval)
    requires b in Heads(D, pos) + Tails(D, pos)
    ensures a in D && CutOf(b, a, pos) && b.s != {}
  {
    if b in Heads(D, pos) {
      a :| a in D && a.Head(pos).s != {} && b == a.Head(pos);
    } else {
      a :| a in D && a.Tail(pos).s != {} && b == a.Tail(pos);
    }
  }

  // Cutting every piece of D at one position.
  lemma CutsRecut(D: set<Interval>, pos: nat)
    requires Apart(D) && forall a :: a in D ==> a.uses <= a.s
    ensures Recut(D, Heads(D, pos) + Tails(D, pos))
  {
    var Q := Heads(D, pos) + Tails(D, pos);
    forall b | b in Q ensures FromSome(b, D) && b.s != {} {
      var a := CutOrigin(D, pos, b);
      CutOfWithin(b, a, pos);
    }
    forall a, x | a in D && x in a.s ensures Covered(Q, a.val, x) {
      CutCovers(D, pos, a, x);
    }
    forall b, c, x | b in Q && c in Q && b.val == c.val && x in b.s && x in c.s ensures b == c {
      var a := CutOrigin(D, pos, b);
      var d := CutOrigin(D, pos, c);
      assert x in a.s && x in d.s;
    }
  }

  lemma CutCovers(D: set<Interval>, pos: nat, a: Interval, x: nat)
    requires a in D && x in a.s
    ensures Covered(Heads(D, pos) + Tails(D, pos), a.val, x)
  {
    var b := if x < pos then a.Head(pos) else a.Tail(pos);
    assert x in b.s;
    assert b in Heads(D, pos) + Tails(D, pos);
  }

  // ---------- the invariant ----------

  // Two different allocated pieces with one register share no position.
  ghost predicate NoClash(A: set<Interval>) {
    forall a, b, x :: a in A && b in A && a.reg == b.reg && x in a.s && x in b.s ==> a == b
  }

  ghost predicate Sorted(s: Scan) {
    && s.unhandled !! s.stacked
    && s.active !! s.inactive && s.active !! s.handled && s.inactive !! s.handled
    && (forall it :: it in Allocated(s) ==> it.reg.Some? && it.reg.value.isFloat == it.val.isFloat)
    && (forall it :: it in s.unhandled + s.stacked ==> it.reg.None?)
  }

  // p is the position the scan has reached.
  ghost predicate Frontier(s: Scan, p: nat) {
    && (forall it, x :: it in s.unhandled && x in it.s ==> p <= x)
    && (forall it, x :: it in s.handled && x in it.s ==> x < p)
    && (forall it :: it in s.active + s.inactive ==> it.s != {} && it.Start() <= p)
  }

  // Every slot lies inside the frame and no two values share a byte.
  ghost predicate Slots(s: Scan) {
    (forall it :: it in s.stacked ==> it.val in s.slots) && SlotsApart(s.slots, s.stackSize)
  }

  ghost predicate SlotsApart(slots: map<Value, nat>, stackSize: nat) {
    && (forall v :: v in slots ==> slots[v] + SlotSize(v) <= stackSize)
    && (forall v, w :: v in slots && w in slots && v != w ==>
          slots[v] + SlotSize(v) <= slots[w] || slots[w] + SlotSize(w) <= slots[v])
  }

  // Wherever the location of a value may change between two positions, a move was recorded or
  // the later position begins a block.
  ghost predicate Linked(P: set<Interval>, moves: set<(Value, nat)>, bbStarts: set<nat>) {
    forall a, b, x: nat, y: nat ::
      (a in P && b in P && a.val == b.val && x in a.s && y in b.s && y == x + 1 && a != b) ==>
      Recorded(a.val, y, moves, bbStarts)
  }

  ghost predicate HasClass(keys: set<Reg>, isFloat: bool) { exists r :: r in keys && r.isFloat == isFloat }

  // The tables have a row for a register of each class.
  ghost predicate Rows(s: Scan) {
    HasClass(s.freeKeys, false) && HasClass(s.freeKeys, true) && HasClass(s.useKeys, false) && HasClass(s.useKeys, true)
  }

  ghost predicate Fits(orig: map<Value, Interval>) {
    && (forall v, x :: v in orig && x in orig[v].s ==> x + 1 < SIZE_MAX)
    && (forall v :: v in orig ==> orig[v].uses <= orig[v].s)
  }

  ghost predicate Inv(s: Scan, orig: map<Value, Interval>, bbStarts: set<nat>, p: nat) {
    && Fits(orig)
    && Partition(Pieces(s), orig)
    && Sorted(s) && NoClash(Allocated(s)) && Frontier(s, p) && Slots(s) && Rows(s)
    && Linked(Pieces(s), s.splitMoves, bbStarts)
  }

  // After lines 218-256: an interval is active exactly when it covers the position.
  ghost predicate Current(s: Scan, p: nat) {
    && (forall it :: it in s.active ==> p in it.s)
    && (forall it :: it in s.inactive ==> p !in it.s && !EndedBefore(it, p))
  }

  lemma AdvanceKeeps(s: Scan, cur: Interval, orig: map<Value, Interval>, bbStarts: set<nat>, lo: nat)
    requires Inv(s, orig, bbStarts, lo) && Pickable(s, cur)
    ensures Inv(Advance(s, cur.Start()), orig, bbStarts, cur.Start())
    ensures Current(Advance(s, cur.Start()), cur.Start())
    ensures Allocated(Advance(s, cur.Start())) == Allocated(s)
  {
    var p := cur.Start();
    hide Partition, NoClash, Linked;
    AdvanceSame(s, p);
    AdvanceFrontier(s, cur, lo);
  }

  lemma AdvanceSame(s: Scan, p: nat)
    requires Sorted(s)
    ensures var t := Advance(s, p);
            Allocated(t) == Allocated(s) && Pieces(t) == Pieces(s) && Sorted(t) && Current(t, p)
  {
    assert Allocated(Advance(s, p)) == Allocated(s);
  }

  lemma AdvanceFrontier(s: Scan, cur: Interval, lo: nat)
    requires Frontier(s, lo) && Pickable(s, cur)
    ensures Frontier(Advance(s, cur.Start()), cur.Start())
  {
    var p := cur.Start();
    var t := Advance(s, p);
    forall it, x | it in t.unhandled && x in it.s ensures p <= x {
      assert it.Start() <= x;
    }
    assert lo <= p;
  }

  // A register that is free until pos meets the current lifetime no earlier than pos.
  lemma FreeMeans(t: Scan, cur: Interval, orig: map<Value, Interval>, bbStarts: set<nat>, r: Reg, it: Interval, x: nat)
    requires cur.s != {} && Inv(t, orig, bbStarts, cur.Start()) && Current(t, cur.Start())
    requires FreeUntil(t, cur, r) > 0
    requires it in Allocated(t) && it.reg == Some(r) && x in it.s && x in cur.s
    ensures FreeUntil(t, cur, r) <= x
  {
    assert it !in t.active;
    assert it !in t.handled;
    assert x in Meetings(t.inactive, cur, r);
  }

  // ... and no later: unless nothing meets it, an inactive holder does so at pos.
  lemma FreeIsReached(t: Scan, cur: Interval, r: Reg)
    requires r in t.freeKeys && forall it :: it in t.active ==> it.reg != Some(r)
    ensures
      var pos := FreeUntil(t, cur, r);
      || (pos == SIZE_MAX
          && forall it, x :: it in t.inactive && it.reg == Some(r) && x in it.s && x in cur.s ==> pos <= x)
      || exists it :: it in t.inactive && it.reg == Some(r) && pos in it.s && pos in cur.s
  {
    var meet := Meetings(t.inactive, cur, r);
    forall it, x | it in t.inactive && it.reg == Some(r) && x in it.s && x in cur.s ensures x in meet {
    }
  }

  // x is a use, at or behind p, of an interval that holds r.
  ghost predicate UseOf(t: Scan, p: nat, r: Reg, x: int) {
    exists it :: (it in t.active || it in t.inactive) && it.reg == Some(r) && x in it.uses && x >= p
  }

  /** nextUsePos[r] is the first use at or behind p of an interval that holds r, SIZE_MAX without one. */
  lemma NextUseIsFirst(t: Scan, p: nat, r: Reg)
    requires r in t.useKeys && forall x :: UseOf(t, p, r, x) ==> x < SIZE_MAX
    ensures forall x :: UseOf(t, p, r, x) ==> NextUse(t, p, r) <= x
    ensures UseOf(t, p, r, NextUse(t, p, r)) || (NextUse(t, p, r) == SIZE_MAX && forall x :: !UseOf(t, p, r, x))
  {
    var uses := UsesFrom(t.active + t.inactive, r, p);
    forall x ensures x in uses <==> UseOf(t, p, r, x) {
      if UseOf(t, p, r, x) {
        var it :| (it in t.active || it in t.inactive) && it.reg == Some(r) && x in it.uses && x >= p;
        assert it in t.active + t.inactive;
      }
    }
    hide UseOf, UsesFrom;
  }

  // ---------- placing the current interval ----------

  ghost predicate Recorded(v: Value, x: nat, moves: set<(Value, nat)>, bbStarts: set<nat>) {
    x in bbStarts || (v, x) in moves
  }

  // Seams inside one cut piece are recorded.
  ghost predicate SeamsRecorded(D: set<Interval>, Q: set<Interval>, moves: set<(Value, nat)>, bbStarts: set<nat>) {
    forall a, b, c, x: nat, y: nat ::
      (a in D && b in Q && c in Q && Within(b, a) && Within(c, a) && b != c && x in b.s && y in c.s && y == x + 1) ==>
      Recorded(a.val, y, moves, bbStarts)
  }

  lemma RecutKeepsLinks(P: set<Interval>, D: set<Interval>, Q: set<Interval>,
                        moves: set<(Value, nat)>, moves': set<(Value, nat)>, bbStarts: set<nat>)
    requires D <= P && CutFrom(D, Q) && Linked(P, moves, bbStarts) && moves <= moves'
    requires SeamsRecorded(D, Q, moves', bbStarts)
    ensures Linked(P - D + Q, moves', bbStarts)
  {
    hide CutFrom, Linked, SeamsRecorded, Recorded;
    var R := P - D + Q;
    forall a, b, x: nat, y: nat | a in R && b in R && a.val == b.val && x in a.s && y in b.s && y == x + 1 && a != b
      ensures Recorded(a.val, y, moves', bbStarts)
    {
      SeamKept(P, D, Q, moves, moves', bbStarts, a, b, x, y);
    }
    LinkedBy(R, moves', bbStarts);
  }

  lemma LinkedBy(P: set<Interval>, moves: set<(Value, nat)>, bbStarts: set<nat>)
    requires forall a, b, x: nat, y: nat ::
      a in P && b in P && a.val == b.val && x in a.s && y in b.s && y == x + 1 && a != b ==>
          Recorded(a.val, y, moves, bbStarts)
    ensures Linked(P, moves, bbStarts)
  {
  }

  lemma SeamKept(P: set<Interval>, D: set<Interval>, Q: set<Interval>, moves: set<(Value, nat)>,
      moves': set<(Value, nat)>,
                 bbStarts: set<nat>, a: Interval, b: Interval, x: nat, y: nat)
    requires D <= P && CutFrom(D, Q) && Linked(P, moves, bbStarts) && moves <= moves'
        && SeamsRecorded(D, Q, moves', bbStarts)
    requires a in P - D + Q && b in P - D + Q && a.val == b.val && x in a.s && y in b.s && y == x + 1 && a != b
    ensures Recorded(a.val, y, moves', bbStarts)
  {
    var oa := Origin(P, D, Q, a);
    var ob := Origin(P, D, Q, b);
    if oa != ob {
      assert Recorded(oa.val, y, moves, bbStarts);
    }
  }

  lemma Origin(P: set<Interval>, D: set<Interval>, Q: set<Interval>, b: Interval) returns (o: Interval)
    requires D <= P && CutFrom(D, Q) && b in P - D + Q
    ensures o in P && o.val == b.val && b.s <= o.s
    ensures if b in Q then o in D && Within(b, o) else o == b && o !in D
  {
    if b in Q {
      o :| o in D && Within(b, o);
    } else {
      o := b;
    }
  }

  ghost function TwoCuts(cur: Interval, pos: nat, reg: Option<Reg>): set<Interval> {
    NonEmpty(cur.Head(pos).(reg := reg)) + NonEmpty(cur.Tail(pos))
  }

  lemma TwoCutsMember(cur: Interval, pos: nat, reg: Option<Reg>, b: Interval)
    requires b in TwoCuts(cur, pos, reg)
    ensures b.s != {} && (b == cur.Head(pos).(reg := reg) || b == cur.Tail(pos))
  {
  }

  lemma TwoCutsHas(cur: Interval, pos: nat, reg: Option<Reg>, x: nat)
    requires x in cur.s
    ensures x < pos ==> x in cur.Head(pos).s && cur.Head(pos).(reg := reg) in TwoCuts(cur, pos, reg)
    ensures x >= pos ==> x in cur.Tail(pos).s && cur.Tail(pos) in TwoCuts(cur, pos, reg)
  {
  }

  lemma CutWithin(cur: Interval, pos: nat, reg: Option<Reg>)
    requires cur.uses <= cur.s
    ensures Within(cur.Head(pos).(reg := reg), cur) && Within(cur.Tail(pos), cur)
  {
  }

  lemma TwoCutsRecut(cur: Interval, pos: nat, reg: Option<Reg>)
    requires cur.uses <= cur.s
    ensures Recut({cur}, TwoCuts(cur, pos, reg))
  {
    var Q := TwoCuts(cur, pos, reg);
    CutWithin(cur, pos, reg);
    forall b | b in Q ensures FromSome(b, {cur}) && b.s != {} {
      TwoCutsMember(cur, pos, reg, b);
      assert Within(b, cur);
    }
    forall a, x | a in {cur} && x in a.s ensures Covered(Q, a.val, x) {
      TwoCutsHas(cur, pos, reg, x);
    }
    forall b, c, x | b in Q && c in Q && b.val == c.val && x in b.s && x in c.s ensures b == c {
      TwoCutsMember(cur, pos, reg, b);
      TwoCutsMember(cur, pos, reg, c);
    }
  }

  lemma TwoCutsSeams(cur: Interval, pos: nat, reg: Option<Reg>, moves: set<(Value, nat)>, bbStarts: set<nat>)
    requires cur.Tail(pos).s != {} ==> Recorded(cur.val, pos, moves, bbStarts)
    ensures SeamsRecorded({cur}, TwoCuts(cur, pos, reg), moves, bbStarts)
  {
    var Q := TwoCuts(cur, pos, reg);
    forall b, c, x: nat, y: nat | b in Q && c in Q && b != c && x in b.s && y in c.s && y == x + 1
      ensures Recorded(cur.val, y, moves, bbStarts)
    {
      TwoCutsMember(cur, pos, reg, b);
      TwoCutsMember(cur, pos, reg, c);
      hide TwoCuts, Recorded;
      assert x < pos <= y;
      assert y in cur.Tail(pos).s;
    }
  }

  /** Everything about the pieces that a round must re-establish when one of them is cut in two. */
  lemma CutOne(P: set<Interval>, cur: Interval, pos: nat, reg: Option<Reg>, orig: map<Value, Interval>,
               moves: set<(Value, nat)>, moves': set<(Value, nat)>, bbStarts: set<nat>)
    requires cur in P && Partition(P, orig) && Fits(orig) && Linked(P, moves, bbStarts)
    requires moves <= moves'
    requires cur.Tail(pos).s != {} ==> Recorded(cur.val, pos, moves', bbStarts)
    ensures Partition(P - {cur} + TwoCuts(cur, pos, reg), orig)
    ensures Linked(P - {cur} + TwoCuts(cur, pos, reg), moves', bbStarts)
    ensures (P - {cur}) !! TwoCuts(cur, pos, reg)
  {
    var Q := TwoCuts(cur, pos, reg);
    assert Recut({cur}, Q) by { TwoCutsRecut(cur, pos, reg); }
    RecutKeepsPartition(P, {cur}, Q, orig);
    assert SeamsRecorded({cur}, Q, moves', bbStarts) by { TwoCutsSeams(cur, pos, reg, moves', bbStarts); }
    RecutKeepsLinks(P, {cur}, Q, moves, moves', bbStarts);
  }

  // n is t with cur gone from unhandled and its two halves placed: the head in register r, the
  // tail back in unhandled.
  ghost predicate Takes(t: Scan, n: Scan, cur: Interval, r: Reg, pos: nat) {
    && n.active == t.active + {cur.Head(pos).(reg := Some(r))}
    && n.unhandled == t.unhandled - {cur} + NonEmpty(cur.Tail(pos))
    && n.inactive == t.inactive && n.handled == t.handled && n.stacked == t.stacked
    && n.slots == t.slots && n.stackSize == t.stackSize
    && t.freeKeys <= n.freeKeys && t.useKeys <= n.useKeys && t.splitMoves <= n.splitMoves
  }

  lemma TakesPieces(t: Scan, n: Scan, cur: Interval, r: Reg, pos: nat)
    requires Sorted(t) && cur in t.unhandled && Takes(t, n, cur, r, pos) && cur.Head(pos).s != {}
    ensures Pieces(n) == Pieces(t) - {cur} + TwoCuts(cur, pos, Some(r))
  {
    assert cur !in Allocated(t) && cur !in t.stacked;
  }

  lemma TakeKeeps(t: Scan, n: Scan, cur: Interval, r: Reg, pos: nat, orig: map<Value, Interval>, bbStarts: set<nat>)
    requires cur.s != {} && Inv(t, orig, bbStarts, cur.Start()) && cur in t.unhandled
    requires Takes(t, n, cur, r, pos) && cur.Start() < pos && r.isFloat == cur.val.isFloat
    requires forall it, x :: it in Allocated(t) && it.reg == Some(r) && x in it.s && x in cur.s ==> pos <= x
    requires cur.Tail(pos).s != {} ==> Recorded(cur.val, pos, n.splitMoves, bbStarts)
    ensures Inv(n, orig, bbStarts, cur.Start())
  {
    assert t.splitMoves <= n.splitMoves;
    hide Partition, Linked, Sorted, NoClash, Frontier, Slots, Rows, Takes, Pieces, Allocated;
    assert cur in Pieces(t) by { PieceOf(t, cur); }
    assert cur.Start() in cur.Head(pos).s;
    CutOne(Pieces(t), cur, pos, Some(r), orig, t.splitMoves, n.splitMoves, bbStarts);
    TakesPieces(t, n, cur, r, pos);
    TakeSorted(t, n, cur, r, pos);
    TakeNoClash(t, n, cur, r, pos);
    TakeFrontier(t, n, cur, r, pos);
  }

  lemma PieceOf(t: Scan, it: Interval)
    ensures it in Pieces(t) <==> it in t.unhandled + t.active + t.inactive + t.handled + t.stacked
  {
  }

  lemma TakeSorted(t: Scan, n: Scan, cur: Interval, r: Reg, pos: nat)
    requires Sorted(t) && cur in t.unhandled && Takes(t, n, cur, r, pos) && r.isFloat == cur.val.isFloat
    requires cur.Head(pos).s != {} && (Pieces(t) - {cur}) !! TwoCuts(cur, pos, Some(r))
    ensures Sorted(n)
    ensures Rows(t) ==> Rows(n)
    ensures Slots(t) ==> Slots(n)
  {
    var h := cur.Head(pos).(reg := Some(r));
    assert h in TwoCuts(cur, pos, Some(r));
    assert Allocated(n) == Allocated(t) + {h};
  }

  lemma TakeFrontier(t: Scan, n: Scan, cur: Interval, r: Reg, pos: nat)
    requires cur.s != {} && cur in t.unhandled && Frontier(t, cur.Start()) && Takes(t, n, cur, r, pos)
    requires cur.Start() in cur.Head(pos).s
    ensures Frontier(n, cur.Start())
  {
    var h := cur.Head(pos).(reg := Some(r));
    assert h.Start() in cur.s;
  }

  lemma TakeNoClash(t: Scan, n: Scan, cur: Interval, r: Reg, pos: nat)
    requires NoClash(Allocated(t)) && Takes(t, n, cur, r, pos)
    requires forall it, x :: it in Allocated(t) && it.reg == Some(r) && x in it.s && x in cur.s ==> pos <= x
    ensures NoClash(Allocated(n))
  {
    var h := cur.Head(pos).(reg := Some(r));
    assert Allocated(n) == Allocated(t) + {h};
  }

  // n is t with cur gone from unhandled, its head on the stack and its tail back in unhandled.
  ghost predicate Stacks(t: Scan, n: Scan, cur: Interval, pos: nat) {
    && n.stacked == t.stacked + NonEmpty(cur.Head(pos))
    && n.unhandled == t.unhandled - {cur} + NonEmpty(cur.Tail(pos))
    && n.active == t.active && n.inactive == t.inactive && n.handled == t.handled
    && n.slots == Spill(t, cur.val).slots && n.stackSize == Spill(t, cur.val).stackSize
    && t.freeKeys <= n.freeKeys && t.useKeys <= n.useKeys && t.splitMoves <= n.splitMoves
  }

  lemma StackKeeps(t: Scan, n: Scan, cur: Interval, pos: nat, orig: map<Value, Interval>, bbStarts: set<nat>)
    requires cur.s != {} && Inv(t, orig, bbStarts, cur.Start()) && cur in t.unhandled
    requires Stacks(t, n, cur, pos)
    requires cur.Tail(pos).s != {} ==> Recorded(cur.val, pos, n.splitMoves, bbStarts)
    ensures Inv(n, orig, bbStarts, cur.Start())
  {
    assert t.splitMoves <= n.splitMoves;
    assert Allocated(n) == Allocated(t);
    hide Partition, Linked, Sorted, NoClash, Frontier, Slots, Rows, Stacks, Pieces, Allocated;
    assert cur in Pieces(t) by { PieceOf(t, cur); }
    CutOne(Pieces(t), cur, pos, None, orig, t.splitMoves, n.splitMoves, bbStarts);
    StackSorted(t, n, cur, pos);
    StackFrontier(t, n, cur, pos);
    SpillKeepsSlots(t, n, cur, pos);
  }

  lemma StackSorted(t: Scan, n: Scan, cur: Interval, pos: nat)
    requires Sorted(t) && cur in t.unhandled && Stacks(t, n, cur, pos)
    requires (Pieces(t) - {cur}) !! TwoCuts(cur, pos, None)
    ensures Sorted(n)
    ensures Pieces(n) == Pieces(t) - {cur} + TwoCuts(cur, pos, None)
    ensures Rows(t) ==> Rows(n)
  {
    var h := cur.Head(pos).(reg := None);
    assert h == cur.Head(pos);
    assert cur !in Allocated(t) && cur !in t.stacked;
    if h.s != {} {
      var x :| x in h.s;
      assert x !in cur.Tail(pos).s;
    }
    assert NonEmpty(h) <= TwoCuts(cur, pos, None) && NonEmpty(cur.Tail(pos)) <= TwoCuts(cur, pos, None);
  }

  lemma StackFrontier(t: Scan, n: Scan, cur: Interval, pos: nat)
    requires cur.s != {} && cur in t.unhandled && Frontier(t, cur.Start()) && Stacks(t, n, cur, pos)
    ensures Frontier(n, cur.Start())
  {
  }

  // A new slot starts where the frame ended.
  lemma SpillKeepsSlots(t: Scan, n: Scan, cur: Interval, pos: nat)
    requires Slots(t) && Stacks(t, n, cur, pos)
    ensures Slots(n)
  {
  }

  // ---------- splitting the holders of a register ----------

  // The intervals that hold r lose everything from p on.
  ghost predicate Evicts(t: Scan, m: Scan, r: Reg, p: nat) {
    && m.active == t.active - Holders(t.active, r) + Heads(Holders(t.active, r), p)
    && m.inactive == t.inactive - Holders(t.inactive, r) + Heads(Holders(t.inactive, r), p)
    && m.unhandled == t.unhandled + Tails(Holders(t.active + t.inactive, r), p)
    && m.handled == t.handled && m.stacked == t.stacked
    && m.slots == t.slots && m.stackSize == t.stackSize
    && t.freeKeys <= m.freeKeys && t.useKeys <= m.useKeys && t.splitMoves <= m.splitMoves
  }

  ghost function Cuts(D: set<Interval>, p: nat): set<Interval> { Heads(D, p) + Tails(D, p) }

  lemma HeadsUnion(A: set<Interval>, B: set<Interval>, p: nat)
    ensures Heads(A + B, p) == Heads(A, p) + Heads(B, p)
  {
  }

  lemma HoldersUnion(A: set<Interval>, B: set<Interval>, r: Reg)
    ensures Holders(A + B, r) == Holders(A, r) + Holders(B, r)
  {
  }

  lemma EvictPieces(t: Scan, m: Scan, r: Reg, p: nat)
    requires Sorted(t) && Evicts(t, m, r, p)
    ensures var D := Holders(t.active + t.inactive, r);
            Pieces(m) == Pieces(t) - D + Cuts(D, p) && D <= Pieces(t)
  {
    HoldersUnion(t.active, t.inactive, r);
    HeadsUnion(Holders(t.active, r), Holders(t.inactive, r), p);
    var D := Holders(t.active + t.inactive, r);
    assert forall it :: it in D ==> it in t.active + t.inactive && it !in t.unhandled + t.handled + t.stacked;
  }

  lemma EvictSorted(t: Scan, m: Scan, r: Reg, p: nat)
    requires Sorted(t) && Evicts(t, m, r, p)
    requires var D := Holders(t.active + t.inactive, r);
             (Pieces(t) - D) !! Cuts(D, p) && Apart(Cuts(D, p))
    requires Apart(Pieces(t))
    ensures Sorted(m)
    ensures Rows(t) ==> Rows(m)
    ensures Slots(t) ==> Slots(m)
  {
    var HA, HI := Holders(t.active, r), Holders(t.inactive, r);
    var D := Holders(t.active + t.inactive, r);
    HoldersUnion(t.active, t.inactive, r);
    HeadsUnion(HA, HI, p);
    forall b | b in Heads(HA, p) ensures b !in Heads(HI, p) {
      var a := CutOrigin(HA, p, b);
      var x :| x in b.s;
      assert a in Pieces(t) && x in a.s;
      assert forall c :: c in HI && c.val == b.val ==> c in Pieces(t) && x !in c.s;
    }
    forall b | b in Heads(D, p) ensures b.reg == Some(r) && r.isFloat == b.val.isFloat && b in Cuts(D, p) {
      var a := CutOrigin(D, p, b);
      assert a in Allocated(t);
    }
    forall b | b in Tails(D, p) ensures b.reg == None && b in Cuts(D, p) {
    }
  }

  lemma EvictFrontier(t: Scan, m: Scan, r: Reg, p: nat)
    requires Frontier(t, p) && Evicts(t, m, r, p)
    ensures Frontier(m, p)
  {
    var HA, HI := Holders(t.active, r), Holders(t.inactive, r);
    forall b | b in Heads(HA, p) + Heads(HI, p) ensures b.s != {} && b.Start() <= p {
      assert b.Start() in b.s;
    }
    var D := Holders(t.active + t.inactive, r);
    forall b, x | b in Tails(D, p) && x in b.s ensures p <= x {
    }
  }

  lemma EvictNoClash(t: Scan, m: Scan, r: Reg, p: nat)
    requires Sorted(t) && NoClash(Allocated(t)) && Evicts(t, m, r, p)
    ensures NoClash(Allocated(m))
  {
    var HA, HI := Holders(t.active, r), Holders(t.inactive, r);
    forall a, b, x | a in Allocated(m) && b in Allocated(m) && a.reg == b.reg && x in a.s && x in b.s ensures a == b {
      var oa := EvictOrigin(t, m, r, p, a);
      var ob := EvictOrigin(t, m, r, p, b);
    }
  }

  lemma EvictOrigin(t: Scan, m: Scan, r: Reg, p: nat, b: Interval) returns (o: Interval)
    requires Sorted(t) && Evicts(t, m, r, p) && b in Allocated(m)
    ensures o in Allocated(t) && b.reg == o.reg && b.s <= o.s
    ensures if o in Holders(t.active + t.inactive, r) then b == o.Head(p) else b == o
  {
    var HA, HI := Holders(t.active, r), Holders(t.inactive, r);
    if b in Heads(HA, p) {
      o := CutOrigin(HA, p, b);
    } else if b in Heads(HI, p) {
      o := CutOrigin(HI, p, b);
    } else {
      o := b;
    }
  }

  lemma SeamOf(a: Interval, b: Interval, c: Interval, p: nat, x: nat, y: nat)
    requires CutOf(b, a, p) && CutOf(c, a, p) && b != c && x in b.s && y in c.s && y == x + 1
    ensures y == p && p in a.s
  {
  }

  lemma CutsOwner(D: set<Interval>, p: nat, a: Interval, b: Interval, x: nat)
    requires Apart(D) && a in D && b in Cuts(D, p) && Within(b, a) && x in b.s
    ensures CutOf(b, a, p)
  {
    var o := CutOrigin(D, p, b);
    assert x in o.s && x in a.s;
  }

  lemma CutsSeam(D: set<Interval>, p: nat, a: Interval, b: Interval, c: Interval, x: nat, y: nat)
    requires Apart(D) && a in D && b in Cuts(D, p) && c in Cuts(D, p) && Within(b, a) && Within(c, a) && b != c
    requires x in b.s && y in c.s && y == x + 1
    ensures y == p && p in a.s
  {
    hide Cuts, Within, Apart, CutOf;
    CutsOwner(D, p, a, b, x);
    CutsOwner(D, p, a, c, y);
    SeamOf(a, b, c, p, x, y);
  }

  lemma CutsSeams(D: set<Interval>, p: nat, moves: set<(Value, nat)>, bbStarts: set<nat>)
    requires Apart(D) && forall a :: a in D && p in a.s ==> Recorded(a.val, p, moves, bbStarts)
    ensures SeamsRecorded(D, Cuts(D, p), moves, bbStarts)
  {
    hide Cuts, Within, Recorded, Apart;
    var Q := Cuts(D, p);
    forall a, b, c, x: nat, y: nat | a in D && b in Q && c in Q && Within(b, a) && Within(c, a) && b != c
                                     && x in b.s && y in c.s && y == x + 1
      ensures Recorded(a.val, y, moves, bbStarts)
    {
      CutsSeam(D, p, a, b, c, x, y);
    }
  }

  lemma EvictKeeps(t: Scan, m: Scan, r: Reg, p: nat, orig: map<Value, Interval>, bbStarts: set<nat>)
    requires Inv(t, orig, bbStarts, p) && Evicts(t, m, r, p)
    requires forall it :: it in Holders(t.active + t.inactive, r) && p in it.s ==>
        Recorded(it.val, p, m.splitMoves, bbStarts)
    ensures Inv(m, orig, bbStarts, p)
  {
    var D := Holders(t.active + t.inactive, r);
    var Q := Cuts(D, p);
    assert t.splitMoves <= m.splitMoves;
    EvictPieces(t, m, r, p);
    assert Apart(D) && forall a :: a in D ==> a.uses <= a.s by { PiecesUses(t, D, orig); }
    hide Partition, Linked, Sorted, NoClash, Frontier, Slots, Rows, Evicts, Pieces, Allocated;
    CutsRecut(D, p);
    CutsSeams(D, p, m.splitMoves, bbStarts);
    RecutKeepsPartition(Pieces(t), D, Q, orig);
    RecutKeepsLinks(Pieces(t), D, Q, t.splitMoves, m.splitMoves, bbStarts);
    assert Apart(Pieces(t)) by { PartitionApart(Pieces(t), orig); }
    EvictSorted(t, m, r, p);
    EvictFrontier(t, m, r, p);
    EvictNoClash(t, m, r, p);
  }

  lemma PartitionApart(P: set<Interval>, orig: map<Value, Interval>)
    requires Partition(P, orig)
    ensures Apart(P)
  {
  }

  lemma PiecesUses(t: Scan, D: set<Interval>, orig: map<Value, Interval>)
    requires Partition(Pieces(t), orig) && Fits(orig) && D <= Pieces(t)
    ensures Apart(D) && forall a :: a in D ==> a.uses <= a.s
  {
  }

  // ---------- one round ----------

  lemma WholeIsCut(cur: Interval)
    requires (forall x :: x in cur.s ==> x < SIZE_MAX) && cur.uses <= cur.s
    ensures cur.Head(SIZE_MAX) == cur && cur.Tail(SIZE_MAX).s == {}
  {
    assert cur.Head(SIZE_MAX).s == cur.s && cur.Head(SIZE_MAX).uses == cur.uses;
  }

  lemma PieceFits(s: Scan, it: Interval, orig: map<Value, Interval>)
    requires Partition(Pieces(s), orig) && Fits(orig) && it in s.unhandled + Allocated(s)
    ensures (forall x :: x in it.s ==> x + 1 < SIZE_MAX) && it.uses <= it.s && it.s != {}
  {
    assert it in Pieces(s);
  }

  /** Every round keeps the invariant: the pieces still partition the lifetimes, no register is
      given to two values at one position, spilled values own disjoint slots, and every seam has
      its move. */
  lemma RoundKeeps(s: Scan, cur: Interval, orig: map<Value, Interval>, bbStarts: set<nat>, lo: nat, o: Outcome)
    requires Inv(s, orig, bbStarts, lo) && Pickable(s, cur) && Round(s, cur, bbStarts, o)
    ensures o.Go? ==> Inv(o.next, orig, bbStarts, cur.Start())
  {
    AdvanceKeeps(s, cur, orig, bbStarts, lo);
    var T := Advance(s, cur.Start());
    PieceFits(s, cur, orig);
    assert cur.reg.None? by { assert Sorted(s); }
    var t := Advance(s.(unhandled := s.unhandled - {cur}), cur.Start());
    assert t == T.(unhandled := T.unhandled - {cur});
    var r :| BestFree(t, cur, r) && FreeRound(t, cur, r, bbStarts, o);
    FreeRoundKeeps(T, t, cur, r, orig, bbStarts, o);
  }

  lemma FreeRoundKeeps(T: Scan, t: Scan, cur: Interval, r: Reg, orig: map<Value, Interval>, bbStarts: set<nat>,
      o: Outcome)
    requires cur.s != {} && Inv(T, orig, bbStarts, cur.Start()) && Current(T, cur.Start()) && cur in T.unhandled
    requires t == T.(unhandled := T.unhandled - {cur})
    requires r.isFloat == cur.val.isFloat && FreeRound(t, cur, r, bbStarts, o)
    ensures o.Go? ==> Inv(o.next, orig, bbStarts, cur.Start())
  {
    hide Inv, Current, TakeWhole, TakePrefix;
    var t1 := t.(freeKeys := FreeRows(t, cur));
    assert FreeUntil(t, cur, r) == FreeUntil(T, cur, r);
    hide FreeUntil, FreeRows, Allocated, BestUse, BusyRound;
    if FreeUntil(t, cur, r) == 0 {
      var q :| BestUse(t1, cur.Start(), cur.val.isFloat, q) && BusyRound(t1, cur, q, bbStarts, o);
      assert q.isFloat == cur.val.isFloat by { BestUseClass(t1, cur.Start(), cur.val.isFloat, q); }
      BusyRoundKeeps(T, t1, cur, q, orig, bbStarts, o);
    } else {
      FreeGap(T, cur, orig, bbStarts, r);
      FreePosition(T, cur, r);
      CurrentFits(T, cur, orig, bbStarts);
      if cur.End() < FreeUntil(t, cur, r) {
        TakeWholeKeeps(T, t1, cur, r, orig, bbStarts);
      } else {
        TakePrefixKeeps(T, t1, cur, r, FreeUntil(t, cur, r), orig, bbStarts);
      }
    }
  }

  lemma BestUseClass(t: Scan, p: nat, isFloat: bool, q: Reg)
    requires BestUse(t, p, isFloat, q)
    ensures q.isFloat == isFloat
  {
  }

  lemma TakeWholeKeeps(T: Scan, t: Scan, cur: Interval, r: Reg, orig: map<Value, Interval>, bbStarts: set<nat>)
    requires cur.s != {} && Inv(T, orig, bbStarts, cur.Start()) && cur in T.unhandled
    requires T.freeKeys <= t.freeKeys && t == T.(unhandled := T.unhandled - {cur}, freeKeys := t.freeKeys)
    requires r.isFloat == cur.val.isFloat
    requires forall it, x :: it in Allocated(T) && it.reg == Some(r) && x in it.s ==> x !in cur.s
    ensures Inv(TakeWhole(t, cur, r), orig, bbStarts, cur.Start())
  {
    hide Inv, Allocated;
    CurrentFits(T, cur, orig, bbStarts);
    WholeIsCut(cur);
    assert Takes(T, TakeWhole(t, cur, r), cur, r, SIZE_MAX);
    TakeKeeps(T, TakeWhole(t, cur, r), cur, r, SIZE_MAX, orig, bbStarts);
  }

  lemma TakePrefixKeeps(T: Scan, t: Scan, cur: Interval, r: Reg, pos: nat, orig: map<Value, Interval>,
      bbStarts: set<nat>)
    requires cur.s != {} && Inv(T, orig, bbStarts, cur.Start()) && cur in T.unhandled
    requires T.freeKeys <= t.freeKeys && t == T.(unhandled := T.unhandled - {cur}, freeKeys := t.freeKeys)
    requires r.isFloat == cur.val.isFloat && pos in cur.s && cur.Start() < pos
    requires forall it, x :: it in Allocated(T) && it.reg == Some(r) && x in it.s && x in cur.s ==> pos <= x
    ensures Inv(TakePrefix(t, cur, r, pos, bbStarts), orig, bbStarts, cur.Start())
  {
    hide Inv, Allocated;
    assert pos in cur.Tail(pos).s;
    assert Takes(T, TakePrefix(t, cur, r, pos, bbStarts), cur, r, pos);
    TakeKeeps(T, TakePrefix(t, cur, r, pos, bbStarts), cur, r, pos, orig, bbStarts);
  }

  lemma CurrentFits(T: Scan, cur: Interval, orig: map<Value, Interval>, bbStarts: set<nat>)
    requires cur.s != {} && Inv(T, orig, bbStarts, cur.Start()) && cur in T.unhandled
    ensures (forall x :: x in cur.s ==> x + 1 < SIZE_MAX) && cur.uses <= cur.s
  {
    PieceFits(T, cur, orig);
  }

  lemma FreeGap(T: Scan, cur: Interval, orig: map<Value, Interval>, bbStarts: set<nat>, r: Reg)
    requires cur.s != {} && Inv(T, orig, bbStarts, cur.Start()) && Current(T, cur.Start())
    requires FreeUntil(T, cur, r) > 0
    ensures forall it, x :: it in Allocated(T) && it.reg == Some(r) && x in it.s && x in cur.s ==>
        FreeUntil(T, cur, r) <= x
  {
    forall it, x | it in Allocated(T) && it.reg == Some(r) && x in it.s
        && x in cur.s
      ensures FreeUntil(T, cur, r) <= x
    {
      FreeMeans(T, cur, orig, bbStarts, r, it, x);
    }
  }

  // The free position is SIZE_MAX or a position of the current lifetime behind its start.
  lemma FreePosition(t: Scan, cur: Interval, r: Reg)
    requires cur.s != {} && Current(t, cur.Start()) && FreeUntil(t, cur, r) > 0
    ensures FreeUntil(t, cur, r) == SIZE_MAX || (FreeUntil(t, cur, r) in cur.s && cur.Start() < FreeUntil(t, cur, r))
  {
    var M := Meetings(t.inactive, cur, r);
    if M != {} {
      var x := Min(M);
      assert x in M;
      assert x != cur.Start();
    }
  }

  lemma BusyRoundKeeps(T: Scan, t: Scan, cur: Interval, r: Reg, orig: map<Value, Interval>, bbStarts: set<nat>,
      o: Outcome)
    requires cur.s != {} && Inv(T, orig, bbStarts, cur.Start()) && Current(T, cur.Start()) && cur in T.unhandled
    requires T.freeKeys <= t.freeKeys && t == T.(unhandled := T.unhandled - {cur}, freeKeys := t.freeKeys)
    requires r.isFloat == cur.val.isFloat && BusyRound(t, cur, r, bbStarts, o)
    ensures o.Go? ==> Inv(o.next, orig, bbStarts, cur.Start())
  {
    hide Inv, Current, NextUse, ResumeAt, StackWhole, StackPrefix, Steal, StealDefined;
    var p := cur.Start();
    var t1 := t.(useKeys := UseRows(t, p, cur.val.isFloat));
    assert t.useKeys <= t1.useKeys;
    hide UseRows;
    if cur.uses == {} {
      StackWholeKeeps(T, t1, cur, orig, bbStarts);
    } else if Min(cur.uses) >= NextUse(t, p, r) {
      StackPrefixKeeps(T, t1, cur, ResumeAt(cur, p, NextUse(t, p, r)), orig, bbStarts);
    } else if StealDefined(t1, r, p) {
      StealKeeps(T, t1, cur, r, orig, bbStarts);
    }
  }

  lemma StackWholeKeeps(T: Scan, t: Scan, cur: Interval, orig: map<Value, Interval>, bbStarts: set<nat>)
    requires cur.s != {} && Inv(T, orig, bbStarts, cur.Start()) && cur in T.unhandled
    requires T.freeKeys <= t.freeKeys && T.useKeys <= t.useKeys
    requires t == T.(unhandled := T.unhandled - {cur}, freeKeys := t.freeKeys, useKeys := t.useKeys)
    ensures Inv(StackWhole(t, cur), orig, bbStarts, cur.Start())
  {
    PieceFits(T, cur, orig);
    hide Inv;
    WholeIsCut(cur);
    assert Stacks(T, StackWhole(t, cur), cur, SIZE_MAX);
    StackKeeps(T, StackWhole(t, cur), cur, SIZE_MAX, orig, bbStarts);
  }

  lemma StackPrefixKeeps(T: Scan, t: Scan, cur: Interval, pos: nat, orig: map<Value, Interval>, bbStarts: set<nat>)
    requires cur.s != {} && Inv(T, orig, bbStarts, cur.Start()) && cur in T.unhandled
    requires T.freeKeys <= t.freeKeys && T.useKeys <= t.useKeys
    requires t == T.(unhandled := T.unhandled - {cur}, freeKeys := t.freeKeys, useKeys := t.useKeys)
    ensures Inv(StackPrefix(t, cur, pos, bbStarts), orig, bbStarts, cur.Start())
  {
    hide Inv;
    assert Stacks(T, StackPrefix(t, cur, pos, bbStarts), cur, pos);
    StackKeeps(T, StackPrefix(t, cur, pos, bbStarts), cur, pos, orig, bbStarts);
  }

  // The state between evicting the holders of r and giving r to cur.
  ghost function Evicted(T: Scan, n: Scan, r: Reg, p: nat): Scan {
    n.(active := T.active - Holders(T.active, r) + Heads(Holders(T.active, r), p),
       unhandled := T.unhandled + Tails(Holders(T.active + T.inactive, r), p))
  }

  lemma StealKeeps(T: Scan, t: Scan, cur: Interval, r: Reg, orig: map<Value, Interval>, bbStarts: set<nat>)
    requires cur.s != {} && Inv(T, orig, bbStarts, cur.Start()) && Current(T, cur.Start()) && cur in T.unhandled
    requires T.freeKeys <= t.freeKeys && T.useKeys <= t.useKeys
    requires t == T.(unhandled := T.unhandled - {cur}, freeKeys := t.freeKeys, useKeys := t.useKeys)
    requires r.isFloat == cur.val.isFloat
    ensures Inv(Steal(t, cur, r, cur.Start(), bbStarts), orig, bbStarts, cur.Start())
  {
    var p := cur.Start();
    var n := Steal(t, cur, r, p, bbStarts);
    var m := Evicted(T, n, r, p);
    assert Evicts(T, m, r, p);
    forall it | it in Holders(T.active + T.inactive, r) && p in it.s
      ensures Recorded(it.val, p, m.splitMoves, bbStarts)
    {
      assert it in Holders(t.active, r);
    }
    EvictKeeps(T, m, r, p, orig, bbStarts);
    EvictHolders(T, m, r, p, cur);
    PieceFits(T, cur, orig);
    WholeIsCut(cur);
    StealTakes(T, t, cur, r, p, bbStarts, orig);
    TakeKeeps(m, n, cur, r, SIZE_MAX, orig, bbStarts);
  }

  lemma StealTakes(T: Scan, t: Scan, cur: Interval, r: Reg, p: nat, bbStarts: set<nat>, orig: map<Value, Interval>)
    requires t == T.(unhandled := T.unhandled - {cur}, freeKeys := t.freeKeys, useKeys := t.useKeys)
    requires cur.Head(SIZE_MAX) == cur && cur.Tail(SIZE_MAX).s == {}
    requires cur !in Tails(Holders(T.active + T.inactive, r), p)
    ensures var n := Steal(t, cur, r, p, bbStarts);
            Takes(Evicted(T, n, r, p), n, cur, r, SIZE_MAX)
  {
    var HA, HI := Holders(T.active, r), Holders(T.inactive, r);
    HoldersUnion(T.active, T.inactive, r);
    assert Tails(HA + HI, p) == Tails(HA, p) + Tails(HI, p);
  }

  // After the eviction no allocated piece in r reaches p, and no evicted tail is cur itself.
  lemma EvictHolders(T: Scan, m: Scan, r: Reg, p: nat, cur: Interval)
    requires Sorted(T) && Frontier(T, p) && Apart(Pieces(T)) && Evicts(T, m, r, p)
    requires cur in T.unhandled && cur.s != {} && p in cur.s
    ensures forall it, x :: it in Allocated(m) && it.reg == Some(r) && x in it.s ==> x < p
    ensures cur !in Tails(Holders(T.active + T.inactive, r), p)
  {
    forall it, x | it in Allocated(m) && it.reg == Some(r) && x in it.s ensures x < p {
      var o := EvictOrigin(T, m, r, p, it);
    }
    var D := Holders(T.active + T.inactive, r);
    forall b | b in Tails(D, p) ensures b != cur {
      var a :| a in D && a.Tail(p).s != {} && b == a.Tail(p);
      assert a in Pieces(T) && cur in Pieces(T) && a != cur;
      assert p in b.s ==> p in a.s;
    }
  }

  // ---------- the first state ----------

  // What build_intervals hands over: one nonempty interval a value with its uses inside, none for
  // allocas; arguments carry distinct registers of their class and start no later than any other
  // interval.
  ghost predicate Input(intervals: set<Interval>, orig: map<Value, Interval>, lo: nat) {
    && Fits(orig)
    && intervals == orig.Values && (forall v :: v in orig ==> orig[v].val == v && orig[v].s != {} && !v.isAlloca)
    && (forall it :: it in intervals && it.reg.Some? ==> it.reg.value.isFloat == it.val.isFloat && it.Start() <= lo)
    && (forall it :: it in intervals && it.reg.None? ==> lo <= it.Start())
    && (forall a, b :: a in intervals && b in intervals && a.reg.Some? && a.reg == b.reg ==> a == b)
  }

  lemma InputInv(s: Scan, intervals: set<Interval>, orig: map<Value, Interval>, bbStarts: set<nat>, lo: nat)
    requires Input(intervals, orig, lo) && Rows(s)
    requires s.active == (set it | it in intervals && it.reg.Some?)
        && s.unhandled == (set it | it in intervals && it.reg.None?)
    requires s.inactive == s.handled == s.stacked == {} && Slots(s)
    ensures Inv(s, orig, bbStarts, lo)
  {
    assert Pieces(s) == intervals;
    InputPartition(intervals, orig, lo, bbStarts);
    assert Allocated(s) == s.active;
    hide Partition, Linked;
    assert Frontier(s, lo) by {
      forall it, x | it in s.unhandled && x in it.s ensures lo <= x {
        assert it.Start() <= x;
      }
    }
  }

  lemma InputPartition(intervals: set<Interval>, orig: map<Value, Interval>, lo: nat, bbStarts: set<nat>)
    requires Input(intervals, orig, lo)
    ensures Partition(intervals, orig) && Linked(intervals, {}, bbStarts)
  {
    forall a | a in intervals ensures a.val in orig && orig[a.val] == a && a.uses == a.uses * a.s {
      var v :| v in orig && orig[v] == a;
      assert a.uses <= a.s;
    }
    forall v, x | v in orig && x in orig[v].s ensures Covered(intervals, v, x) {
      assert orig[v] in intervals;
    }
  }
}
