/** One round of linear_scan_ssa (src/codegen_new/regalloc.cc, lines 205-445) as a function on the
    allocator's state, the invariants of the scan, and the measure that makes it end. */
module LinearScan {
  import opened Basis
  import opened Intervals

  /** The four interval sets, the pieces left to the stack, the registers that the two tables
      freeUntilPosition and nextUsePos have a row for, the stack slots, and the recorded
      split positions. */
  datatype Scan = Scan(
    unhandled: set<Interval>,
    active: set<Interval>,
    inactive: set<Interval>,
    handled: set<Interval>,
    stacked: set<Interval>,
    freeKeys: set<Reg>,
    useKeys: set<Reg>,
    slots: map<Value, nat>,
    stackSize: nat,
    splitMoves: set<(Value, nat)>)

  // Undefined: line 422 dereferences the end iterator of an interval set.
  datatype Outcome = Go(next: Scan) | Undefined

  ghost function Allocated(s: Scan): set<Interval> { s.active + s.inactive + s.handled }

  ghost function Pieces(s: Scan): set<Interval> { s.unhandled + Allocated(s) + s.stacked }

  // ---------- retiring and reviving intervals (lines 218-256) ----------

  ghost predicate Ended(it: Interval, p: nat) { forall x :: x in it.s ==> x < p }

  // The inactive test is `end < position`, so an interval that ends exactly at the position stays.
  ghost predicate EndedBefore(it: Interval, p: nat) { forall x :: x in it.s ==> x + 1 < p }

  ghost function Advance(s: Scan, p: nat): Scan {
    s.(active := (set it | it in s.active && !Ended(it, p) && it.Cover(p))
                 + (set it | it in s.inactive && !EndedBefore(it, p) && it.Cover(p)),
       inactive := (set it | it in s.inactive && !EndedBefore(it, p) && !it.Cover(p))
                   + (set it | it in s.active && !Ended(it, p) && !it.Cover(p)),
       handled := s.handled + (set it | it in s.active && Ended(it, p))
                  + (set it | it in s.inactive && EndedBefore(it, p)))
  }

  // ---------- the two register tables ----------

  ghost predicate Held(P: set<Interval>, r: Reg) { exists it :: it in P && it.reg == Some(r) }

  ghost function MinOr(s: set<nat>, default: nat): nat {
    if s == {} || default < Min(s) then default else Min(s)
  }

  // Where inactive intervals in register r meet the lifetime of cur.
  ghost function Meetings(inactive: set<Interval>, cur: Interval, r: Reg): set<nat> {
    set it, x | it in inactive && it.reg == Some(r) && x in it.s && x in cur.s :: x
  }

  ghost function FreeRows(s: Scan, cur: Interval): set<Reg> {
    s.freeKeys + (set it | it in s.active && it.reg.Some? :: it.reg.value)
    + (set it | it in s.inactive && it.reg.Some? && !(it.s !! cur.s) :: it.reg.value)
  }

  // freeUntilPosition[r] after lines 274-301. A row created in this round starts at zero.
  ghost function FreeUntil(s: Scan, cur: Interval, r: Reg): nat {
    if Held(s.active, r) || r !in s.freeKeys then 0
    else MinOr(Meetings(s.inactive, cur, r), SIZE_MAX)
  }

  // Uses at or behind p of the intervals that hold r.
  ghost function UsesFrom(P: set<Interval>, r: Reg, p: nat): set<nat> {
    set it, x | it in P && it.reg == Some(r) && x in it.uses && x >= p :: x
  }

  ghost function UseRows(s: Scan, p: nat, isFloat: bool): set<Reg> {
    s.useKeys + (set it | it in s.active + s.inactive && it.reg.Some? && it.reg.value.isFloat == isFloat
                          && it.UseFrom(p).Some? :: it.reg.value)
  }

  // nextUsePos[r] after lines 339-353.
  ghost function NextUse(s: Scan, p: nat, r: Reg): nat {
    if r in s.useKeys then MinOr(UsesFrom(s.active + s.inactive, r, p), SIZE_MAX) else 0
  }

  // A row with the largest entry among the rows of one register class.
  ghost predicate BestFree(s: Scan, cur: Interval, r: Reg) {
    && r in FreeRows(s, cur) && r.isFloat == cur.val.isFloat
    && forall q :: q in FreeRows(s, cur) && q.isFloat == r.isFloat ==> FreeUntil(s, cur, q) <= FreeUntil(s, cur, r)
  }

  ghost predicate BestUse(s: Scan, p: nat, isFloat: bool, r: Reg) {
    && r in UseRows(s, p, isFloat) && r.isFloat == isFloat
    && forall q :: q in UseRows(s, p, isFloat) && q.isFloat == isFloat ==> NextUse(s, p, q) <= NextUse(s, p, r)
  }

  // ---------- what a round does with the current interval ----------

  // spill gives a value at least eight bytes, because it is stored and loaded eight bytes at a time; an alloca
  // has the size of its array (line 83 of build_intervals).
  function SlotSize(v: Value): (n: nat)
    ensures n >= v.size && (v.isAlloca || n >= 8)
    ensures n == v.size || (!v.isAlloca && n == 8)
  {
    if v.size < 8 && !v.isAlloca then 8 else v.size
  }

  // RegAlloc::spill: a value gets its slot once.
  ghost function Spill(s: Scan, v: Value): Scan {
    if v in s.slots then s
    else s.(slots := s.slots[v := s.stackSize], stackSize := s.stackSize + SlotSize(v))
  }

  ghost function Moves(v: Value, pos: nat, bbStarts: set<nat>): set<(Value, nat)> {
    if pos in bbStarts then {} else {(v, pos)}
  }

  ghost function NonEmpty(it: Interval): set<Interval> { if it.s == {} then {} else {it} }

  // Lines 323-326.
  ghost function TakeWhole(s: Scan, cur: Interval, r: Reg): Scan {
    s.(active := s.active + {cur.(reg := Some(r))})
  }

  // Lines 327-336.
  ghost function TakePrefix(s: Scan, cur: Interval, r: Reg, pos: nat, bbStarts: set<nat>): Scan {
    s.(active := s.active + {cur.Head(pos).(reg := Some(r))},
       unhandled := s.unhandled + {cur.Tail(pos)},
       splitMoves := s.splitMoves + Moves(cur.val, pos, bbStarts))
  }

  // Lines 361-369.
  ghost function StackWhole(s: Scan, cur: Interval): Scan {
    Spill(s, cur.val).(stacked := s.stacked + {cur})
  }

  // Lines 371-379: where the next register piece of cur begins.
  function ResumeAt(cur: Interval, p: nat, u: nat): nat
    requires cur.uses != {}
  {
    var first := Min(cur.uses);
    if first == u && first == p then
      if cur.uses == {first} then SIZE_MAX else Min(cur.uses - {first})
    else first
  }

  // Lines 380-392.
  ghost function StackPrefix(s: Scan, cur: Interval, pos: nat, bbStarts: set<nat>): Scan {
    Spill(s, cur.val).(
      stacked := s.stacked + NonEmpty(cur.Head(pos)),
      unhandled := s.unhandled + NonEmpty(cur.Tail(pos)),
      splitMoves := s.splitMoves + if cur.Tail(pos).s == {} then {} else Moves(cur.val, pos, bbStarts))
  }

  ghost function Holders(P: set<Interval>, r: Reg): set<Interval> {
    set it | it in P && it.reg == Some(r)
  }

  ghost function Heads(P: set<Interval>, pos: nat): set<Interval> {
    set it | it in P && it.Head(pos).s != {} :: it.Head(pos)
  }

  ghost function Tails(P: set<Interval>, pos: nat): set<Interval> {
    set it | it in P && it.Tail(pos).s != {} :: it.Tail(pos)
  }

  // Where the inactive holders resume.
  ghost function SegmentMoves(P: set<Interval>, p: nat, bbStarts: set<nat>): set<(Value, nat)> {
    set it | it in P && it.SegmentFrom(p).Some?
        && it.SegmentFrom(p).value !in bbStarts :: (it.val, it.SegmentFrom(p).value)
  }

  ghost function StealMoves(s: Scan, r: Reg, p: nat, bbStarts: set<nat>): set<(Value, nat)> {
    (set it | it in Holders(s.active, r) && p !in bbStarts :: (it.val, p))
    + SegmentMoves(Holders(s.inactive, r), p, bbStarts)
  }

  // Lines 393-440. No holder covers a position between p and its next segment, so splitting an
  // inactive holder at that segment is splitting it at p.
  ghost function Steal(s: Scan, cur: Interval, r: Reg, p: nat, bbStarts: set<nat>): Scan {
    s.(active := s.active - Holders(s.active, r) + Heads(Holders(s.active, r), p) + {cur.(reg := Some(r))},
       inactive := s.inactive - Holders(s.inactive, r) + Heads(Holders(s.inactive, r), p),
       unhandled := s.unhandled + Tails(Holders(s.active, r), p) + Tails(Holders(s.inactive, r), p),
       splitMoves := s.splitMoves + StealMoves(s, r, p, bbStarts))
  }

  // Line 422 is defined when every inactive holder has a segment at or behind p.
  ghost predicate StealDefined(s: Scan, r: Reg, p: nat) {
    forall it :: it in Holders(s.inactive, r) ==> it.SegmentFrom(p).Some?
  }

  // std::set keeps unhandled ordered by its segments, so the first element starts first.
  ghost predicate Pickable(s: Scan, cur: Interval) {
    && cur in s.unhandled && cur.s != {}
    && forall it :: it in s.unhandled ==> it.s != {} && cur.Start() <= it.Start()
  }

  /** What one round of the main loop may do. Ties between equally good registers are left open. */
  ghost predicate Round(s: Scan, cur: Interval, bbStarts: set<nat>, o: Outcome)
    requires Pickable(s, cur)
  {
    var s0 := s.(unhandled := s.unhandled - {cur});
    if cur.reg.Some? then o == Go(s0.(active := s0.active + {cur}))
    else
      var t := Advance(s0, cur.Start());
      exists r :: BestFree(t, cur, r) && FreeRound(t, cur, r, bbStarts, o)
  }

  // Lines 319-336.
  ghost predicate FreeRound(t: Scan, cur: Interval, r: Reg, bbStarts: set<nat>, o: Outcome)
    requires cur.s != {}
  {
    var t1 := t.(freeKeys := FreeRows(t, cur));
    var pos := FreeUntil(t, cur, r);
    if pos == 0 then exists q :: BestUse(t1, cur.Start(), cur.val.isFloat, q) && BusyRound(t1, cur, q, bbStarts, o)
    else if cur.End() < pos then o == Go(TakeWhole(t1, cur, r))
    else o == Go(TakePrefix(t1, cur, r, pos, bbStarts))
  }

  // Lines 338-441: every register of the class is busy.
  ghost predicate BusyRound(t: Scan, cur: Interval, r: Reg, bbStarts: set<nat>, o: Outcome)
    requires cur.s != {}
  {
    var p := cur.Start();
    var t1 := t.(useKeys := UseRows(t, p, cur.val.isFloat));
    var u := NextUse(t, p, r);
    if cur.uses == {} then o == Go(StackWhole(t1, cur))
    else if Min(cur.uses) >= u then o == Go(StackPrefix(t1, cur, ResumeAt(cur, p, u), bbStarts))
    else if StealDefined(t1, r, p) then o == Go(Steal(t1, cur, r, p, bbStarts))
    else o == Undefined
  }
}
