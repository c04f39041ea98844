/** The linear scan as the source runs it: sets and tables that loops update in place
    (src/codegen_new/regalloc.cc). Every round is proved to be a Round of LinearScan. */
module RegAllocation {
  import opened Basis
  import opened Intervals
  import opened LinearScan
  import opened ScanInvariant
  import opened ScanTermination
  import opened Locations
  import opened ScanMoves
  import opened ScanRuns
  import opened Sums

  lemma MinOrUnion(a: set<nat>, b: set<nat>, d: nat)
    requires b != {}
    ensures MinOr(a + b, d) == if Min(b) < MinOr(a, d) then Min(b) else MinOr(a, d)
  {
    var m := Min(a + b);
    if m in a { assert a != {} && Min(a) == m; } else { assert Min(b) == m; }
  }

  lemma MeetingsGrow(P: set<Interval>, it: Interval, cur: Interval, r: Reg)
    ensures it.reg == Some(r) ==> Meetings(P + {it}, cur, r) == Meetings(P, cur, r) + it.s * cur.s
    ensures it.reg != Some(r) || it.s * cur.s == {} ==> Meetings(P + {it}, cur, r) == Meetings(P, cur, r)
  {
  }

  lemma UsesGrow(P: set<Interval>, it: Interval, r: Reg, p: nat)
    ensures it.reg == Some(r) ==> UsesFrom(P + {it}, r, p) == UsesFrom(P, r, p) + From(it.uses, p)
    ensures it.reg != Some(r) || From(it.uses, p) == {} ==> UsesFrom(P + {it}, r, p) == UsesFrom(P, r, p)
  {
  }

  // The row of r after std::min with x, as table operator[] creates a missing row with zero.
  function Lower(table: map<Reg, nat>, r: Reg, x: nat): map<Reg, nat> {
    var row := if r in table then table[r] else 0;
    table[r := if row < x then row else x]
  }

  ghost function MeetingRows(P: set<Interval>, cur: Interval): set<Reg> {
    set it | it in P && it.reg.Some? && !(it.s !! cur.s) :: it.reg.value
  }

  // freeUntilPosition once the intervals in done have been met; keys are the rows it began with.
  ghost predicate LimitedBy(table: map<Reg, nat>, keys: set<Reg>, done: set<Interval>, cur: Interval, isFloat: bool) {
    && table.Keys == keys + MeetingRows(done, cur)
    && forall r :: r in table && r.isFloat == isFloat ==>
         table[r] == if r in keys then MinOr(Meetings(done, cur, r), SIZE_MAX) else 0
  }

  lemma LimitedStep(table: map<Reg, nat>, keys: set<Reg>, done: set<Interval>, cur: Interval, isFloat: bool,
      it: Interval)
    requires LimitedBy(table, keys, done, cur, isFloat) && it.reg.Some?
    ensures LimitedBy(if it.Intersect(cur).Some? then Lower(table, it.reg.value, it.Intersect(cur).value) else table,
                      keys, done + {it}, cur, isFloat)
  {
    var r := it.reg.value;
    var S := it.s * cur.s;
    var meet := it.Intersect(cur);
    MeetingRowsGrow(done, it, cur);
    assert meet.Some? ==> S != {} && Min(S) == meet.value;
    assert meet.None? ==> S == {};
    var after := if meet.Some? then Lower(table, r, meet.value) else table;
    assert after.Keys == keys + MeetingRows(done + {it}, cur);
    forall q | q in after && q.isFloat == isFloat
      ensures after[q] == if q in keys then MinOr(Meetings(done + {it}, cur, q), SIZE_MAX) else 0
    {
      MeetingsGrow(done, it, cur, q);
      if S != {} { MinOrUnion(Meetings(done, cur, q), S, SIZE_MAX); }
      hide MeetingRows, Meetings, MinOr;
    }
  }

  lemma MeetingRowsGrow(P: set<Interval>, it: Interval, cur: Interval)
    requires it.reg.Some?
    ensures MeetingRows(P + {it}, cur) == MeetingRows(P, cur) + (if it.Intersect(cur).Some? then {it.reg.value} else {})
  {
  }

  ghost function UseKeys(P: set<Interval>, p: nat, isFloat: bool): set<Reg> {
    set it | it in P && it.reg.Some? && it.reg.value.isFloat == isFloat && it.UseFrom(p).Some? :: it.reg.value
  }

  // nextUsePos once the uses of the intervals in done have been entered.
  ghost predicate UsedBy(table: map<Reg, nat>, keys: set<Reg>, done: set<Interval>, p: nat, isFloat: bool) {
    && table.Keys == keys + UseKeys(done, p, isFloat)
    && forall r :: r in table && r.isFloat == isFloat ==>
         table[r] == if r in keys then MinOr(UsesFrom(done, r, p), SIZE_MAX) else 0
  }

  lemma UsedBegins(table: map<Reg, nat>, p: nat, isFloat: bool)
    requires forall r :: r in table && r.isFloat == isFloat ==> table[r] == SIZE_MAX
    ensures UsedBy(table, table.Keys, {}, p, isFloat)
  {
    forall r | r in table && r.isFloat == isFloat ensures UsesFrom({}, r, p) == {} {
    }
  }

  lemma UsedMeans(table: map<Reg, nat>, s: Scan, p: nat, isFloat: bool)
    requires UsedBy(table, s.useKeys, s.active + s.inactive, p, isFloat)
    ensures table.Keys == UseRows(s, p, isFloat)
    ensures forall r :: r in table && r.isFloat == isFloat ==> table[r] == NextUse(s, p, r)
  {
    hide UsesFrom, MinOr;
  }

  lemma UsedStep(table: map<Reg, nat>, keys: set<Reg>, done: set<Interval>, p: nat, isFloat: bool, it: Interval)
    requires UsedBy(table, keys, done, p, isFloat) && it.reg.Some?
    ensures UsedBy(if it.UseFrom(p).Some? && it.reg.value.isFloat == isFloat
                   then Lower(table, it.reg.value, it.UseFrom(p).value) else table,
                   keys, done + {it}, p, isFloat)
  {
    var r := it.reg.value;
    var S := From(it.uses, p);
    var use := it.UseFrom(p);
    UseKeysGrow(done, it, p, isFloat);
    assert use.Some? ==> S != {} && Min(S) == use.value;
    assert use.None? ==> S == {};
    var after := if use.Some? && r.isFloat == isFloat then Lower(table, r, use.value) else table;
    assert after.Keys == keys + UseKeys(done + {it}, p, isFloat);
    forall q | q in after && q.isFloat == isFloat
      ensures after[q] == if q in keys then MinOr(UsesFrom(done + {it}, q, p), SIZE_MAX) else 0
    {
      UsesGrow(done, it, q, p);
      if S != {} { MinOrUnion(UsesFrom(done, q, p), S, SIZE_MAX); }
      hide UseKeys, UsesFrom, MinOr;
    }
  }

  lemma UseKeysGrow(P: set<Interval>, it: Interval, p: nat, isFloat: bool)
    requires it.reg.Some?
    ensures UseKeys(P + {it}, p, isFloat) == UseKeys(P, p, isFloat)
              + (if it.UseFrom(p).Some? && it.reg.value.isFloat == isFloat then {it.reg.value} else {})
  {
  }

  lemma HeldGrow(P: set<Interval>, it: Interval)
    ensures forall r :: Held(P + {it}, r) <==> Held(P, r) || it.reg == Some(r)
  {
    forall r ensures Held(P + {it}, r) <==> Held(P, r) || it.reg == Some(r) {
      if it.reg == Some(r) { assert it in P + {it}; }
      if Held(P, r) { var a :| a in P && a.reg == Some(r); assert a in P + {it}; }
    }
  }

  class RegAlloc {
    var unhandled: set<Interval>
    var active: set<Interval>
    var inactive: set<Interval>
    var handled: set<Interval>
    ghost var stacked: set<Interval>
    // One table for both register classes: a register knows its class.
    var freeUntilPosition: map<Reg, nat>
    var nextUsePos: map<Reg, nat>
    var spOffset: map<Value, nat>
    var stackSize: nat
    var splitMoves: set<(Value, nat)>
    const bbStarts: set<nat>

    ghost function State(): Scan
      reads this
    {
      Scan(unhandled, active, inactive, handled, stacked, freeUntilPosition.Keys, nextUsePos.Keys,
           spOffset, stackSize, splitMoves)
    }

    // Lines 218-237.
    method ScanActive(position: nat)
      requires forall it :: it in active ==> it.s != {}
      modifies this`active, this`inactive, this`handled
      ensures active == set it | it in old(active) && !Ended(it, position) && it.Cover(position)
      ensures inactive == old(inactive) + set it | it in old(active) && !Ended(it, position) && !it.Cover(position)
      ensures handled == old(handled) + set it | it in old(active) && Ended(it, position)
    {
      var todo := active;
      while todo != {}
        invariant todo <= active
        invariant forall it :: it in active <==>
                    it in old(active) && (it in todo || (!Ended(it, position) && it.Cover(position)))
        invariant forall it :: it in inactive <==>
                    it in old(inactive) || (it in old(active) - todo && !Ended(it, position) && !it.Cover(position))
        invariant forall it :: it in handled <==>
                    it in old(handled) || (it in old(active) - todo && Ended(it, position))
        decreases todo
      {
        var it :| it in todo;
        todo := todo - {it};
        if it.End() <= position {
          assert Ended(it, position);
          active, handled := active - {it}, handled + {it};
        } else if !it.Cover(position) {
          active, inactive := active - {it}, inactive + {it};
        }
      }
    }

    // Lines 239-256.
    method ScanInactive(position: nat)
      requires forall it :: it in inactive ==> it.s != {}
      modifies this`active, this`inactive, this`handled
      ensures inactive == set it | it in old(inactive) && !EndedBefore(it, position) && !it.Cover(position)
      ensures active == old(active) + set it | it in old(inactive) && !EndedBefore(it, position) && it.Cover(position)
      ensures handled == old(handled) + set it | it in old(inactive) && EndedBefore(it, position)
    {
      var todo := inactive;
      while todo != {}
        invariant todo <= inactive
        invariant forall it :: it in inactive <==>
                    it in old(inactive) && (it in todo || (!EndedBefore(it, position) && !it.Cover(position)))
        invariant forall it :: it in active <==>
                    it in old(active) || (it in old(inactive) - todo && !EndedBefore(it, position)
                        && it.Cover(position))
        invariant forall it :: it in handled <==>
                    it in old(handled) || (it in old(inactive) - todo && EndedBefore(it, position))
        decreases todo
      {
        var it :| it in todo;
        todo := todo - {it};
        if it.End() < position {
          assert EndedBefore(it, position);
          inactive, handled := inactive - {it}, handled + {it};
        } else if it.Cover(position) {
          inactive, active := inactive - {it}, active + {it};
        }
      }
    }

    // Lines 274-293: every register is free until it meets an inactive interval.
    method LimitByInactive(cur: Interval, isFloat: bool)
      requires forall it :: it in inactive ==> it.reg.Some?
      modifies this`freeUntilPosition
      ensures LimitedBy(freeUntilPosition, old(freeUntilPosition).Keys, inactive, cur, isFloat)
    {
      ghost var keys := freeUntilPosition.Keys;
      freeUntilPosition := map r | r in freeUntilPosition ::
          if r.isFloat == isFloat then SIZE_MAX else freeUntilPosition[r];
      var todo := inactive;
      ghost var done: set<Interval> := {};
      while todo != {}
        invariant done + todo == inactive && done !! todo
        invariant LimitedBy(freeUntilPosition, keys, done, cur, isFloat)
        decreases todo
      {
        var it :| it in todo;
        todo := todo - {it};
        LimitedStep(freeUntilPosition, keys, done, cur, isFloat, it);
        hide LimitedBy;
        var meet := it.Intersect(cur);
        if meet.Some? {
          freeUntilPosition := Lower(freeUntilPosition, it.reg.value, meet.value);
        }
        done := done + {it};
      }
      assert done == inactive;
    }

    // Lines 295-301: a register that is in use now is not free at all.
    method BlockActive()
      requires forall it :: it in active ==> it.reg.Some?
      modifies this`freeUntilPosition
      ensures freeUntilPosition.Keys ==
              old(freeUntilPosition).Keys + set it | it in active && it.reg.Some? :: it.reg.value
      ensures forall r :: r in freeUntilPosition ==>
                freeUntilPosition[r] ==
                if Held(active, r) || r !in old(freeUntilPosition) then 0 else old(freeUntilPosition)[r]
    {
      var todo := active;
      ghost var done: set<Interval> := {};
      while todo != {}
        invariant done + todo == active && done !! todo
        invariant freeUntilPosition.Keys ==
                  old(freeUntilPosition).Keys + set it | it in done && it.reg.Some? :: it.reg.value
        invariant forall r :: r in freeUntilPosition ==>
                    freeUntilPosition[r] ==
                    if Held(done, r) || r !in old(freeUntilPosition) then 0 else old(freeUntilPosition)[r]
        decreases todo
      {
        var it :| it in todo;
        todo := todo - {it};
        HeldGrow(done, it);
        done := done + {it};
        freeUntilPosition := freeUntilPosition[it.reg.value := 0];
      }
    }

    method FillFreeUntil(cur: Interval, isFloat: bool)
      requires forall it :: it in active + inactive ==> it.reg.Some?
      modifies this`freeUntilPosition
      ensures freeUntilPosition.Keys == FreeRows(old(State()), cur)
      ensures forall r :: r in freeUntilPosition && r.isFloat == isFloat ==>
                freeUntilPosition[r] == FreeUntil(old(State()), cur, r)
    {
      LimitByInactive(cur, isFloat);
      BlockActive();
    }

    // Lines 342-353, the loop body that is run over active and then over inactive.
    method LimitByUses(P: set<Interval>, ghost before: set<Interval>, ghost keys: set<Reg>, position: nat,
        isFloat: bool)
      requires forall it :: it in P ==> it.reg.Some?
      requires UsedBy(nextUsePos, keys, before, position, isFloat)
      modifies this`nextUsePos
      ensures UsedBy(nextUsePos, keys, before + P, position, isFloat)
    {
      var todo := P;
      ghost var done := before;
      while todo != {}
        invariant done + todo == before + P && todo <= P
        invariant UsedBy(nextUsePos, keys, done, position, isFloat)
        decreases todo
      {
        var it :| it in todo;
        todo := todo - {it};
        UsedStep(nextUsePos, keys, done, position, isFloat, it);
        hide UsedBy;
        var use := it.UseFrom(position);
        if use.Some? && it.reg.value.isFloat == isFloat {
          nextUsePos := Lower(nextUsePos, it.reg.value, use.value);
        }
        done := done + {it};
      }
      assert done == before + P;
    }

    method FillNextUse(position: nat, isFloat: bool)
      requires forall it :: it in active + inactive ==> it.reg.Some?
      modifies this`nextUsePos
      ensures nextUsePos.Keys == UseRows(old(State()), position, isFloat)
      ensures forall r :: r in nextUsePos && r.isFloat == isFloat ==>
                nextUsePos[r] == NextUse(old(State()), position, r)
    {
      hide UsedBy, UseRows, NextUse;
      ghost var keys := nextUsePos.Keys;
      nextUsePos := map r | r in nextUsePos :: if r.isFloat == isFloat then SIZE_MAX else nextUsePos[r];
      assert nextUsePos.Keys == keys;
      UsedBegins(nextUsePos, position, isFloat);
      LimitByUses(active, {}, keys, position, isFloat);
      assert {} + active == active;
      LimitByUses(inactive, active, keys, position, isFloat);
      UsedMeans(nextUsePos, old(State()), position, isFloat);
    }

    // std::max_element over the rows of one class.
    method BestRow(table: map<Reg, nat>, isFloat: bool) returns (reg: Reg, pos: nat)
      requires HasClass(table.Keys, isFloat)
      ensures reg in table && reg.isFloat == isFloat && pos == table[reg]
      ensures forall q :: q in table && q.isFloat == isFloat ==> table[q] <= pos
    {
      var todo := set r | r in table && r.isFloat == isFloat;
      reg :| reg in table && reg.isFloat == isFloat;
      todo := todo - {reg};
      while todo != {}
        invariant reg in table && reg.isFloat == isFloat
        invariant forall q :: q in table && q.isFloat == isFloat && q !in todo ==> table[q] <= table[reg]
        decreases todo
      {
        var q :| q in todo;
        todo := todo - {q};
        if table[reg] < table[q] {
          reg := q;
        }
      }
      pos := table[reg];
    }

    // RegAlloc::spill.
    method SpillValue(v: Value)
      modifies this`spOffset, this`stackSize
      ensures spOffset == Spill(old(State()), v).slots && stackSize == Spill(old(State()), v).stackSize
      ensures if v in old(spOffset) then spOffset == old(spOffset) && stackSize == old(stackSize)
              else
                && spOffset == old(spOffset)[v := old(stackSize)]
                && stackSize >= old(stackSize) + v.size && (v.isAlloca || stackSize >= old(stackSize) + 8)
                && (stackSize == old(stackSize) + v.size || (!v.isAlloca && stackSize == old(stackSize) + 8))
    {
      if v !in spOffset {
        spOffset := spOffset[v := stackSize];
        stackSize := stackSize + SlotSize(v);
      }
    }

    // Lines 398-415.
    method EvictActive(reg: Reg, position: nat)
      requires forall it :: it in active ==> position in it.s
      modifies this`active, this`unhandled, this`splitMoves
      ensures active == old(active) - Holders(old(active), reg) + Heads(Holders(old(active), reg), position)
      ensures unhandled == old(unhandled) + Tails(Holders(old(active), reg), position)
      ensures splitMoves == old(splitMoves)
                + set it | it in Holders(old(active), reg) && position !in bbStarts :: (it.val, position)
    {
      var todo := active;
      var tempActive: set<Interval>, tempUnhandled: set<Interval> := {}, {};
      ghost var done: set<Interval> := {};
      while todo != {}
        invariant done + todo == old(active) && done !! todo
        invariant active == old(active) - Holders(done, reg) && unhandled == old(unhandled)
        invariant tempActive == Heads(Holders(done, reg), position)
        invariant tempUnhandled == Tails(Holders(done, reg), position)
        invariant splitMoves == old(splitMoves)
                    + set it | it in Holders(done, reg) && position !in bbStarts :: (it.val, position)
        decreases todo
      {
        var it :| it in todo;
        todo := todo - {it};
        if it.reg == Some(reg) {
          active := active - {it};
          HoldersGrow(done, it, reg, position);
          assert position in it.Tail(position).s;
          if it.Head(position).s != {} {
            tempActive := tempActive + {it.Head(position)};
          }
          tempUnhandled := tempUnhandled + {it.Tail(position)};
          if position !in bbStarts {
            splitMoves := splitMoves + {(it.val, position)};
          }
        }
        assert it.reg != Some(reg) ==> Holders(done + {it}, reg) == Holders(done, reg);
        done := done + {it};
      }
      assert done == old(active);
      active, unhandled := active + tempActive, unhandled + tempUnhandled;
    }

    // Lines 418-439. The result is false where the source dereferences an end iterator.
    method EvictInactive(reg: Reg, position: nat) returns (ok: bool)
      requires forall it :: it in inactive ==> position !in it.s && it.uses <= it.s && it.Head(position).s != {}
      modifies this`inactive, this`unhandled, this`splitMoves
      ensures ok <==> forall it :: it in Holders(old(inactive), reg) ==> it.SegmentFrom(position).Some?
      ensures ok ==> inactive == old(inactive) - Holders(old(inactive), reg) + Heads(Holders(old(inactive), reg),
          position)
      ensures ok ==> unhandled == old(unhandled) + Tails(Holders(old(inactive), reg), position)
      ensures ok ==> splitMoves == old(splitMoves) + SegmentMoves(Holders(old(inactive), reg), position, bbStarts)
    {
      hide Heads, Tails, SegmentMoves;
      NoHolders(reg, position, bbStarts);
      var todo := inactive;
      var tempInactive: set<Interval>, tempUnhandled: set<Interval> := {}, {};
      ghost var done: set<Interval> := {};
      while todo != {}
        invariant done + todo == old(inactive) && done !! todo
        invariant inactive == old(inactive) - Holders(done, reg) && unhandled == old(unhandled)
        invariant tempInactive == Heads(Holders(done, reg), position)
        invariant tempUnhandled == Tails(Holders(done, reg), position)
        invariant forall it :: it in Holders(done, reg) ==> it.SegmentFrom(position).Some?
        invariant splitMoves == old(splitMoves) + SegmentMoves(Holders(done, reg), position, bbStarts)
        decreases todo
      {
        var it :| it in todo;
        todo := todo - {it};
        if it.reg == Some(reg) {
          inactive := inactive - {it};
          var j := it.SegmentFrom(position);
          if j.None? {
            assert it in Holders(old(inactive), reg);
            return false;
          }
          SegmentSplit(it, position);
          HoldersGrow(done, it, reg, position);
          SegmentMovesGrow(Holders(done, reg), it, position, bbStarts);
          assert NonEmpty(it.Head(position)) == {it.Head(j.value)} && NonEmpty(it.Tail(position)) == {it.Tail(j.value)};
          tempInactive := tempInactive + {it.Head(j.value)};
          tempUnhandled := tempUnhandled + {it.Tail(j.value)};
          if j.value !in bbStarts {
            splitMoves := splitMoves + {(it.val, j.value)};
          }
        }
        assert it.reg != Some(reg) ==> Holders(done + {it}, reg) == Holders(done, reg);
        done := done + {it};
      }
      assert done == old(inactive);
      inactive, unhandled := inactive + tempInactive, unhandled + tempUnhandled;
      return true;
    }

    // Lines 338-441.
    method AllocateBusy(cur: Interval) returns (ok: bool)
      requires cur.s != {} && cur.reg.None? && Ready(State(), cur.Start()) && HasClass(nextUsePos.Keys, cur.val.isFloat)
      modifies this
      ensures var o := if ok then Go(State()) else Undefined;
              exists q :: BestUse(old(State()), cur.Start(), cur.val.isFloat, q)
                          && BusyRound(old(State()), cur, q, bbStarts, o)
    {
      var position := cur.Start();
      var isFloat := cur.val.isFloat;
      FillNextUse(position, isFloat);
      ghost var t1 := State();
      var reg, pos := BestRow(nextUsePos, isFloat);
      assert BestUse(old(State()), position, isFloat, reg) && pos == NextUse(old(State()), position, reg);
      hide BestUse, NextUse, UseRows, HasClass;
      if cur.uses == {} {
        SpillValue(cur.val);
        stacked := stacked + {cur};
        ok := true;
      } else if Min(cur.uses) >= pos {
        SpillPrefix(cur, ResumeAt(cur, position, pos));
        ok := true;
      } else {
        ok := StealFor(cur, reg, position);
      }
      assert BusyRound(old(State()), cur, reg, bbStarts, if ok then Go(State()) else Undefined);
    }

    // Lines 393-440 and 442-444.
    method StealFor(cur: Interval, reg: Reg, position: nat) returns (ok: bool)
      requires Ready(State(), position)
      modifies this`active, this`inactive, this`unhandled, this`splitMoves
      ensures ok <==> StealDefined(old(State()), reg, position)
      ensures ok ==> State() == Steal(old(State()), cur, reg, position, bbStarts)
    {
      hide Holders, Heads, Tails, SegmentMoves;
      EvictActive(reg, position);
      ok := EvictInactive(reg, position);
      active := active + {cur.(reg := Some(reg))};
    }

    // Lines 380-392.
    method SpillPrefix(cur: Interval, pos: nat)
      requires cur.reg.None?
      modifies this`spOffset, this`stackSize, this`stacked, this`unhandled, this`splitMoves
      ensures State() == StackPrefix(old(State()), cur, pos, bbStarts)
    {
      SpillValue(cur.val);
      assert cur.Head(pos).reg == None;
      stacked := stacked + NonEmpty(cur.Head(pos));
      var split := cur.Tail(pos);
      if split.s != {} {
        unhandled := unhandled + {split};
        if pos !in bbStarts {
          splitMoves := splitMoves + {(cur.val, pos)};
        }
      }
    }

    // One pass through the main loop, lines 207-444.
    method OneRound(cur: Interval, ghost orig: map<Value, Interval>, ghost lo: nat) returns (ok: bool)
      requires Inv(State(), orig, bbStarts, lo) && Pickable(State(), cur)
      modifies this
      ensures Round(old(State()), cur, bbStarts, if ok then Go(State()) else Undefined)
    {
      ghost var s := State();
      RoundReady(s, cur, orig, bbStarts, lo);
      hide Inv, Pickable, Ready, Rows;
      // Lines 210-214 never run: RoundReady says that cur has no register yet.
      unhandled := unhandled - {cur};
      Refresh(cur.Start());
      hide Advance;
      ok := Allocate(cur);
      assert Round(s, cur, bbStarts, if ok then Go(State()) else Undefined);
    }

    // Lines 218-256.
    method Refresh(position: nat)
      requires forall it :: it in active + inactive ==> it.s != {}
      modifies this`active, this`inactive, this`handled
      ensures State() == Advance(old(State()), position)
    {
      ScanActive(position);
      ScanInactive(position);
    }

    // Lines 323-336 and 442-444.
    method AllocateFree(cur: Interval, reg: Reg, pos: nat)
      requires cur.s != {}
      modifies this`active, this`unhandled, this`splitMoves
      ensures State() == if cur.End() < pos then TakeWhole(old(State()), cur, reg)
                         else TakePrefix(old(State()), cur, reg, pos, bbStarts)
    {
      if cur.End() < pos {
        active := active + {cur.(reg := Some(reg))};
      } else {
        active, unhandled := active + {cur.Head(pos).(reg := Some(reg))}, unhandled + {cur.Tail(pos)};
        if pos !in bbStarts {
          splitMoves := splitMoves + {(cur.val, pos)};
        }
      }
    }

    // Lines 260-444.
    method Allocate(cur: Interval) returns (ok: bool)
      requires cur.s != {} && cur.reg.None? && Ready(State(), cur.Start()) && Rows(State())
      modifies this
      ensures exists r :: BestFree(old(State()), cur, r)
                          && FreeRound(old(State()), cur, r, bbStarts, if ok then Go(State()) else Undefined)
    {
      ghost var t := State();
      var isFloat := cur.val.isFloat;
      FillFreeUntil(cur, isFloat);
      var reg, pos := BestRow(freeUntilPosition, isFloat);
      assert BestFree(t, cur, reg) && pos == FreeUntil(t, cur, reg);
      ghost var t1 := State();
      hide BestFree, FreeUntil, FreeRows;
      if pos == 0 {
        ok := AllocateBusy(cur);
      } else {
        AllocateFree(cur, reg, pos);
        ok := true;
      }
      assert FreeRound(t, cur, reg, bbStarts, if ok then Go(State()) else Undefined);
    }

    // Lines 196-203: pre-coloured arguments start out active.
    method Begin(intervals: set<Interval>)
      modifies this`unhandled, this`active, this`inactive, this`handled, this`stacked
      ensures active == set it | it in intervals && it.reg.Some?
      ensures unhandled == set it | it in intervals && it.reg.None?
      ensures inactive == {} && handled == {} && stacked == {}
    {
      unhandled, active, inactive, handled, stacked := {}, {}, {}, {}, {};
      var todo := intervals;
      while todo != {}
        invariant todo <= intervals && inactive == {} && handled == {} && stacked == {}
        invariant active == set it | it in intervals - todo && it.reg.Some?
        invariant unhandled == set it | it in intervals - todo && it.reg.None?
        decreases todo
      {
        var it :| it in todo;
        todo := todo - {it};
        if it.reg.Some? {
          active := active + {it};
        } else {
          unhandled := unhandled + {it};
        }
      }
    }

    // The first element of the ordered set unhandled.
    method First() returns (cur: Interval)
      requires unhandled != {} && forall it :: it in unhandled ==> it.s != {}
      ensures Pickable(State(), cur)
    {
      cur :| cur in unhandled;
      var todo := unhandled - {cur};
      while todo != {}
        invariant cur in unhandled && todo <= unhandled
        invariant forall it :: it in unhandled - todo ==> cur.Start() <= it.Start()
        decreases todo
      {
        var it :| it in todo;
        todo := todo - {it};
        if it.Start() < cur.Start() {
          cur := it;
        }
      }
    }

    /** Lines 192-456. The scan ends on every input; run is the states it went through, from the input on. If
        every round had a defined outcome, nothing is left unhandled and the last state keeps the invariant;
        otherwise the last state of the run is one where the next round has none. Without holes in the
        lifetimes it never happens. Slots given before, such as those of allocas, stay where they are, and moves
        are recorded only where a piece begins inside a block. */
    method LinearScanSsa(intervals: set<Interval>, ghost orig: map<Value, Interval>, ghost lo: nat, ghost R: set<Reg>)
      returns (ok: bool, ghost run: seq<Scan>, ghost picks: seq<Interval>)
      requires Input(intervals, orig, lo) && Rows(State()) && SlotsApart(spOffset, stackSize)
      requires freeUntilPosition.Keys <= R && nextUsePos.Keys <= R
      requires forall it :: it in intervals && it.reg.Some? ==> it.reg.value in R
      modifies this
      ensures Rounds(run, picks, bbStarts) && Begins(run[0], intervals) && run[0].slots == old(spOffset)
      ensures if ok then run[|picks|] == State() && Done(State(), orig, bbStarts) else Fails(run[|picks|], bbStarts)
      ensures NoHoles(intervals) ==> ok
      ensures ok ==> forall v :: v in old(spOffset) ==> v in spOffset && spOffset[v] == old(spOffset)[v]
      ensures ok && old(splitMoves) == {} ==> MovesFit(State(), orig, bbStarts)
    {
      Begin(intervals);
      InputInv(State(), intervals, orig, bbStarts, lo);
      ghost var p := lo;
      run, picks := [State()], [];
      RunsOne(bbStarts, intervals, State());
      while unhandled != {}
        invariant Inv(State(), orig, bbStarts, p) && Known(State(), R)
        invariant RunsTo(run, picks, bbStarts, intervals, old(spOffset), State())
        invariant old(splitMoves) == {} ==> MovesFit(State(), orig, bbStarts)
        decreases Distance(State()), HeldSum(State(), R), Waiting(State())
      {
        UnhandledNonempty(State(), orig, bbStarts, p);
        var cur := First();
        ghost var s := State();
        hide Inv, Round, Known, Distance, HeldSum, Waiting, RunsTo, Pickable, MovesFit;
        ok := OneRound(cur, orig, p);
        if !ok {
          RunsFail(run, picks, bbStarts, intervals, old(spOffset), s, orig, p, cur);
          RunsMeans(run, picks, bbStarts, intervals, old(spOffset), s);
          return false, run, picks;
        }
        RunsOn(run, picks, bbStarts, intervals, old(spOffset), s, orig, p, cur, State());
        run, picks := run + [State()], picks + [cur];
        RoundKeeps(s, cur, orig, bbStarts, p, Go(State()));
        RoundShrinks(s, cur, orig, bbStarts, p, Go(State()), R);
        if MovesFit(s, orig, bbStarts) { RoundKeepsMoves(s, cur, orig, bbStarts, p, Go(State())); }
        p := cur.Start();
        MeasureShrinks(s, cur, State(), R, orig, bbStarts, p);
      }
      RunsMeans(run, picks, bbStarts, intervals, old(spOffset), State());
      return true, run, picks;
    }

    // Lines 598-627, over the pieces that lines 446-457 record for the value.
    method GetLoc(val: Value, index: nat) returns (loc: Location)
      requires forall it :: it in handled + active + inactive ==> it.reg.Some?
      ensures LocatedAt(State(), val, index, loc)
    {
      var todo := set it | it in handled + active + inactive && it.val == val;
      ghost var mapping := todo;
      while todo != {}
        invariant todo <= mapping
        invariant forall it :: it in mapping - todo ==> !it.Cover(index)
        decreases todo
      {
        var it :| it in todo;
        todo := todo - {it};
        if it.Cover(index) {
          return InRegister(it.reg.value);
        }
      }
      assert forall it :: it in Allocated(State()) && it.val == val ==> it in mapping - todo;
      if val in spOffset {
        return OnStack(spOffset[val]);
      }
      return NoLocation;
    }
  }

  lemma RoundReady(s: Scan, cur: Interval, orig: map<Value, Interval>, bbStarts: set<nat>, lo: nat)
    requires Inv(s, orig, bbStarts, lo) && Pickable(s, cur)
    ensures var t := Advance(s.(unhandled := s.unhandled - {cur}), cur.Start()); Ready(t, cur.Start()) && Rows(t)
    ensures cur.reg.None? && forall it :: it in s.active + s.inactive ==> it.s != {}
  {
    AdvanceKeeps(s, cur, orig, bbStarts, lo);
    var T := Advance(s, cur.Start());
    forall it | it in T.inactive ensures it.uses <= it.s && it.Head(cur.Start()).s != {} {
      InactiveReady(T, it, orig, bbStarts, cur.Start());
    }
    hide Partition, NoClash, Linked, Slots, Advance;
    assert Ready(T, cur.Start());
  }

  lemma InactiveReady(T: Scan, it: Interval, orig: map<Value, Interval>, bbStarts: set<nat>, p: nat)
    requires Inv(T, orig, bbStarts, p) && Current(T, p) && it in T.inactive
    ensures it.uses <= it.s && it.Head(p).s != {}
  {
    PieceFits(T, it, orig);
    assert it.Start() in it.Head(p).s;
  }

  // What the eviction loops need to know about the intervals they split.
  ghost predicate Ready(t: Scan, p: nat) {
    && (forall it :: it in t.active + t.inactive ==> it.reg.Some?)
    && (forall it :: it in t.active ==> p in it.s)
    && (forall it :: it in t.inactive ==> p !in it.s && it.uses <= it.s && it.Head(p).s != {})
  }

  lemma NoHolders(r: Reg, pos: nat, bbStarts: set<nat>)
    ensures Holders({}, r) == {} && Heads({}, pos) == {} && Tails({}, pos) == {}
        && SegmentMoves({}, pos, bbStarts) == {}
  {
  }

  lemma HoldersGrow(P: set<Interval>, it: Interval, r: Reg, pos: nat)
    requires it.reg == Some(r)
    ensures Holders(P + {it}, r) == Holders(P, r) + {it}
    ensures Heads(Holders(P, r) + {it}, pos) == Heads(Holders(P, r), pos) + NonEmpty(it.Head(pos))
    ensures Tails(Holders(P, r) + {it}, pos) == Tails(Holders(P, r), pos) + NonEmpty(it.Tail(pos))
  {
  }

  // Splitting at the next segment is splitting at a position inside the hole before it.
  lemma SegmentSplit(it: Interval, p: nat)
    requires p !in it.s && it.uses <= it.s && it.SegmentFrom(p).Some?
    ensures var j := it.SegmentFrom(p).value;
            it.Head(p) == it.Head(j) && it.Tail(p) == it.Tail(j) && it.Tail(p).s != {}
  {
    var j := it.SegmentFrom(p).value;
    assert j in it.Tail(p).s;
    assert it.Head(p).s == it.Head(j).s && it.Head(p).uses == it.Head(j).uses;
    assert it.Tail(p).s == it.Tail(j).s && it.Tail(p).uses == it.Tail(j).uses;
  }

  lemma SegmentMovesGrow(P: set<Interval>, it: Interval, p: nat, bbStarts: set<nat>)
    requires it.SegmentFrom(p).Some?
    ensures SegmentMoves(P + {it}, p, bbStarts) == SegmentMoves(P, p, bbStarts)
              + if it.SegmentFrom(p).value in bbStarts then {} else {(it.val, it.SegmentFrom(p).value)}
  {
  }
}
