/** The one place where the source's own behaviour is undefined: line 422 of regalloc.cc looks up the
    next segment of an inactive interval that may have none. */
module ScanHazard {
  import opened Basis
  import opened Intervals
  import opened LinearScan
  import opened ScanInvariant
  import opened ScanRuns

  /** Taking register r over at p is undefined exactly when an inactive interval that holds r ends
      right at p: line 241 retires an inactive interval only when its end lies strictly before p. */
  lemma StealUndefinedIff(T: Scan, r: Reg, orig: map<Value, Interval>, bbStarts: set<nat>, p: nat)
    requires Inv(T, orig, bbStarts, p) && Current(T, p)
    ensures !StealDefined(T, r, p) <==>
        exists it :: it in T.inactive && it.reg == Some(r) && it.s != {} && it.End() == p
  {
    forall it | it in T.inactive ensures it.s != {} && (it.SegmentFrom(p).None? <==> it.End() == p) {
      PieceFits(T, it, orig);
      EndsAt(it, p);
    }
    hide Partition, Linked, Sorted, NoClash, Frontier, Slots, Current;
    if !StealDefined(T, r, p) {
      var it :| it in Holders(T.inactive, r) && it.SegmentFrom(p).None?;
      assert it.End() == p;
    }
    forall it | it in T.inactive && it.reg == Some(r) && it.s != {} && it.End() == p ensures !StealDefined(T, r, p) {
      assert it in Holders(T.inactive, r);
    }
  }

  lemma EndsAt(it: Interval, p: nat)
    requires it.s != {} && !EndedBefore(it, p)
    ensures it.SegmentFrom(p).None? <==> it.End() == p
  {
    var x :| x in it.s && x + 1 >= p;
    assert x < it.End();
  }

  // ---------- a run that gets there ----------

  const R0 := Reg(0, false)

  function Arg(i: nat): Value { Value(i, false, 4, false) }

  // Arguments in registers 1 to 4.
  function ArgInterval(i: nat): Interval { Interval({0, 2, 6}, {0, 6}, Arg(i), Some(Reg(i, false))) }

  const Args: set<Interval> := {ArgInterval(1), ArgInterval(2), ArgInterval(3), ArgInterval(4)}

  const A := Interval({0, 5}, {0, 5}, Value(10, false, 4, false), None)
  const D := Interval({2, 6, 7}, {2, 7}, Value(11, false, 4, false), None)
  const C := Interval({6, 7}, {6}, Value(12, false, 4, false), None)
  const A0 := A.(reg := Some(R0))
  const D0 := D.(reg := Some(R0))

  // The rows that init_func creates: five integer and thirty float registers.
  const Table: set<Reg> := (set i | 0 <= i < 5 :: Reg(i, false)) + (set i | 0 <= i < 30 :: Reg(i, true))

  ghost const S0 := Scan({A, D, C}, Args, {}, {}, {}, Table, Table, map[], 16, {})
  ghost const S1 := Scan({D, C}, Args + {A0}, {}, {}, {}, Table, Table, map[], 16, {})
  ghost const S2 := Scan({C}, Args + {D0}, {A0}, {}, {}, Table, Table, map[], 16, {})

  lemma StartIs(it: Interval, p: nat)
    requires p in it.s && forall x :: x in it.s ==> p <= x
    ensures it.Start() == p
  {
  }

  lemma Starts()
    ensures A.Start() == 0 && D.Start() == 2 && C.Start() == 6
    ensures Pickable(S0, A) && Pickable(S1, D) && Pickable(S2, C)
  {
    StartIs(A, 0);
    StartIs(D, 2);
    StartIs(C, 6);
  }

  // Nothing that holds a listed register adds a row.
  lemma RowsStay(t: Scan, cur: Interval)
    requires t.freeKeys == Table && t.active + t.inactive <= Args + {A0, D0}
    ensures FreeRows(t, cur) == Table
  {
  }

  // R0 is unused and meets nothing: it is free for ever.
  lemma TakesR0(t: Scan, cur: Interval)
    requires t.freeKeys == Table && t.active == Args && t.inactive <= {A0}
    requires forall it :: it in t.inactive ==> it.s !! cur.s
    requires cur.s != {} && cur.End() < SIZE_MAX && !cur.val.isFloat
    ensures BestFree(t, cur, R0) && FreeRound(t, cur, R0, {}, Go(TakeWhole(t, cur, R0)))
  {
    RowsStay(t, cur);
    assert Meetings(t.inactive, cur, R0) == {};
    assert !Held(t.active, R0);
  }

  lemma FirstRound()
    ensures A.s != {} && Pickable(S0, A) && Round(S0, A, {}, Go(S1))
  {
    Starts();
    FirstAdvance();
    var t := S0.(unhandled := {D, C});
    assert S0.unhandled - {A} == {D, C};
    hide Advance;
    TakesR0(t, A);
    assert TakeWhole(t, A, R0) == S1;
  }

  lemma FirstAdvance()
    ensures Advance(S0.(unhandled := {D, C}), 0) == S0.(unhandled := {D, C})
  {
    var t := Advance(S0.(unhandled := {D, C}), 0);
    assert t.active == Args && t.inactive == {} && t.handled == {};
  }

  lemma SecondAdvance()
    ensures var t := Advance(S1.(unhandled := {C}), 2); t == S2.(active := Args)
  {
    var t := Advance(S1.(unhandled := {C}), 2);
    assert forall it :: it in Args ==> it.Cover(2);
    assert 5 in A0.s && !Ended(A0, 2) && !A0.Cover(2);
    assert t.active == Args;
    assert t.inactive == {A0};
    assert t.handled == {};
  }

  lemma SecondRound()
    ensures D.s != {} && Pickable(S1, D) && Round(S1, D, {}, Go(S2))
  {
    hide Advance, BestFree, FreeRound, Pickable;
    Starts();
    SecondAdvance();
    var t := S2.(active := Args);
    assert S1.unhandled - {D} == {C};
    ApartFromA();
    TakesR0(t, D);
    assert TakeWhole(t, D, R0) == S2;
  }

  lemma ApartFromA()
    ensures A0.s !! D.s && D.End() < SIZE_MAX
  {
  }

  lemma ThirdAdvance()
    ensures Advance(S2.(unhandled := {}), 6) == S2.(unhandled := {})
  {
    var t := Advance(S2.(unhandled := {}), 6);
    assert forall it :: it in Args + {D0} ==> it.Cover(6);
    assert 5 in A0.s && !EndedBefore(A0, 6) && !A0.Cover(6);
    assert t.active == Args + {D0};
    assert t.inactive == {A0};
    assert t.handled == {};
  }

  // At position 6 every integer register is held.
  lemma ThirdIsBusy(t: Scan)
    requires t == S2.(unhandled := {})
    ensures BestFree(t, C, R0) && FreeUntil(t, C, R0) == 0 && FreeRows(t, C) == Table
  {
    RowsStay(t, C);
    forall q | q in Table && !q.isFloat ensures Held(t.active, q) {
      var holder := if q.id == 0 then D0 else ArgInterval(q.id);
      assert holder in t.active && holder.reg == Some(q);
    }
  }

  lemma NextUseAtMost(t: Scan, p: nat, q: Reg, it: Interval, x: nat)
    requires it in t.active && it.reg == Some(q) && x in it.uses && x >= p
    ensures NextUse(t, p, q) <= x
  {
    assert x in UsesFrom(t.active + t.inactive, q, p);
  }

  // Register 0 is next used at 7, the others at 6.
  lemma ThirdUses(t: Scan)
    requires t == S2.(unhandled := {})
    ensures BestUse(t, 6, false, R0) && NextUse(t, 6, R0) == 7
  {
    assert UsesFrom(t.active + t.inactive, R0, 6) == {7};
    assert NextUse(t, 6, R0) == 7;
    assert R0 in UseRows(t, 6, false);
    forall q | q in UseRows(t, 6, false) && !q.isFloat ensures NextUse(t, 6, q) <= 7 {
      assert q in Table;
      hide NextUse, UseRows, UsesFrom;
      if q.id == 0 {
        NextUseAtMost(t, 6, q, D0, 7);
      } else {
        NextUseAtMost(t, 6, q, ArgInterval(q.id), 6);
      }
    }
  }

  lemma ThirdIsUndefined(t: Scan)
    requires t == S2.(unhandled := {}) && C.s != {} && C.Start() == 6
    ensures FreeRound(t, C, R0, {}, Undefined)
  {
    ThirdIsBusy(t);
    ThirdUses(t);
    assert A0 in Holders(t.inactive, R0) && A0.SegmentFrom(6).None?;
    hide BestFree, FreeUntil, FreeRows, BestUse, NextUse, UseRows, Steal;
    assert Min(C.uses) == 6;
    assert t.(freeKeys := Table) == t;
    assert BusyRound(t, C, R0, {}, Undefined);
  }

  lemma ThirdRound()
    ensures C.s != {} && Pickable(S2, C) && Round(S2, C, {}, Undefined)
  {
    Starts();
    ThirdAdvance();
    var t := S2.(unhandled := {});
    assert S2.unhandled - {C} == {};
    ThirdIsUndefined(t);
    ThirdIsBusy(t);
    hide Advance, BestFree, FreeUntil, FreeRows, FreeRound;
  }

  ghost const Lifetimes: map<Value, Interval> :=
    map[Arg(1) := ArgInterval(1), Arg(2) := ArgInterval(2), Arg(3) := ArgInterval(3), Arg(4) := ArgInterval(4),
        A.val := A, D.val := D, C.val := C]

  lemma Lives()
    ensures Input(Inputs, Lifetimes, 0)
  {
    hide Fits;
    Starts();
    ArgsStart();
    LifetimesAre();
  }

  lemma ArgsStart()
    ensures forall it :: it in Args ==>
        it.s != {} && it.Start() == 0 && it.reg.Some? && 1 <= it.reg.value.id == it.val.id && !it.val.isFloat
  {
    forall i | 1 <= i <= 4 { StartIs(ArgInterval(i), 0); }
  }

  lemma LifetimesAre()
    ensures Lifetimes.Values == Args + {A, D, C} && Fits(Lifetimes)
    ensures forall v :: v in Lifetimes ==> Lifetimes[v].val == v && Lifetimes[v].s != {}
  {
    assert Lifetimes[Arg(1)] == ArgInterval(1) && Lifetimes[Arg(2)] == ArgInterval(2);
    assert Lifetimes[Arg(3)] == ArgInterval(3) && Lifetimes[Arg(4)] == ArgInterval(4);
    assert Lifetimes[A.val] == A && Lifetimes[D.val] == D && Lifetimes[C.val] == C;
  }

  ghost const Inputs: set<Interval> := Args + {A, D, C}

  /** With the register tables of init_func and lawful intervals there is a run of two rounds after which the
      next round has no defined outcome. */
  lemma UndefinedIsReachable()
    ensures Input(Inputs, Lifetimes, 0) && Rows(S0) && Slots(S0) && Begins(S0, Inputs)
    ensures Rounds([S0, S1, S2], [A, D], {}) && Fails(S2, {})
  {
    hide Round, Pickable, Rows, Input, Begins, Slots;
    Lives();
    StartLawful();
    FirstRound();
    SecondRound();
    ThirdRound();
    TwoRounds();
  }

  lemma StartLawful()
    ensures Rows(S0) && Slots(S0) && Begins(S0, Inputs)
  {
    assert Reg(0, false) in Table && Reg(0, true) in Table;
    hide ArgInterval;
    assert forall i: nat :: ArgInterval(i).reg.Some? by { ArgsHaveRegisters(); }
  }

  lemma ArgsHaveRegisters()
    ensures forall i: nat :: ArgInterval(i).reg.Some?
  {
  }

  lemma TwoRounds()
    requires A.s != {} && D.s != {} && Pickable(S0, A) && Round(S0, A, {}, Go(S1)) && Pickable(S1, D)
        && Round(S1, D, {}, Go(S2))
    ensures Rounds([S0, S1, S2], [A, D], {})
  {
    assert Leads(S0, A, {}, S1) && Leads(S1, D, {}, S2);
    hide Leads;
    var run, picks := [S0, S1, S2], [A, D];
    assert run[0] == S0 && run[1] == S1 && run[2] == S2 && picks[0] == A && picks[1] == D;
    forall k, m | 0 <= k < |picks| && m == k + 1 ensures Leads(run[k], picks[k], {}, run[m]) {
      assert k == 0 || k == 1;
    }
  }
}
