/** Where topo_sort does not come to an end (src/codegen_new/codegen.cc, lines 1454-1508): with three registers
    numbered 10 or above two of them can take turns as the temporary of each other for ever. */
module MoveForever {
  import opened MoveGraph
  import opened MoveInvariant
  import opened MoveRounds
  import opened TopologicalSort
  import opened MoveHazard

  ghost predicate Trio(x: int, y: int, z: int) { 10 <= x < y < z < 22 }

  // y and z change places, and x takes the value of z as well.
  ghost function TrioTask(x: int, y: int, z: int): Task { TaskOf(map[x := z, y := z, z := y], {x, y, z}, true) }

  function TrioEdges(x: int, y: int, z: int): map<int, seq<int>> { map[z := [x, y], y := [z]] }

  // The cycle of y and z is broken by overwriting x, which is finished but has not got its value yet.
  function Q1(x: int, y: int, z: int): State {
    State({x, y, z}, map[x := [x, y], y := [z]], map[x := 0, y := 0, z := 0], TempPool(true), [(z, x)])
  }

  function Q2(x: int, y: int, z: int): State {
    State({x, y}, map[x := [x, y], y := [z]], map[x := 0, y := 0, z := 2], TempPool(true) + {z}, [(z, x)])
  }

  function Q3(x: int, y: int, z: int): State {
    State({x}, map[x := [x, y], y := [z]], map[x := 0, y := 2, z := 2], TempPool(true) + {z} + {y}, [(z, x), (y, z)])
  }

  // From here on x is broken by y, y by x, and so on.
  function Q4(x: int, y: int, z: int, ret: seq<Move>): State {
    State({x, y}, map[y := [x, y]], map[x := 0, y := 0, z := 2], TempPool(true) + {z}, ret)
  }

  function Q5(x: int, y: int, z: int, ret: seq<Move>): State {
    State({x, y}, map[x := [x, y]], map[x := 0, y := 0, z := 2], TempPool(true) + {z}, ret)
  }

  function Q6(x: int, y: int, z: int, ret: seq<Move>): State {
    State({x}, map[x := [x, y]], map[x := 0, y := 2, z := 2], TempPool(true) + {z} + {y}, ret)
  }

  // The state after i rounds.
  ghost function At(x: int, y: int, z: int, i: nat): State {
    if i == 0 then Start(TrioEdges(x, y, z), {x, y, z}, TempPool(true))
    else if i == 1 then Q1(x, y, z)
    else if i == 2 then Q2(x, y, z)
    else if i == 3 then Q3(x, y, z)
    else
      var ret := At(x, y, z, i - 1).nret;
      if i % 3 == 1 then Q4(x, y, z, ret + [(x, y)])
      else if i % 3 == 2 then Q5(x, y, z, ret + [(y, x)])
      else Q6(x, y, z, ret)
  }

  // After i rounds registers are left, and there is a next round.
  ghost predicate Onward(x: int, y: int, z: int, i: nat) {
    var k := TrioTask(x, y, z);
    At(x, y, z, i).nodes != {} && Round(k.All(), k.lo, At(x, y, z, i), At(x, y, z, i + 1))
  }

  // ---------- searches ----------

  // The first edge leads to a cycle.
  lemma DfsFirst(U: set<int>, lo: int, st: State, n: int, a: int, b: int, s: State, r: int)
    requires st.Within(U) && n in U && a in U && st.Mark(n) == 0 && Outs(st.edges, n) == [a, b]
    requires Dfs(U, lo, st.Set(n, 1), a) == (s, r) && r != -1
    ensures Dfs(U, lo, st, n) == (s.Set(n, 0), r)
  {
    hide Inside;
    assert Dfs(U, lo, st, n) == Kids(U, lo, st.Set(n, 1), n, 0);
  }

  // The second does.
  lemma DfsSecond(U: set<int>, lo: int, st: State, n: int, a: int, b: int, s: State, t: State, r: int)
    requires st.Within(U) && n in U && a in U && b in U && st.Mark(n) == 0 && Outs(st.edges, n) == [a, b]
    requires Dfs(U, lo, st.Set(n, 1), a) == (s, -1)
    requires s.Within(U) && Dfs(U, lo, s, b) == (t, r) && r != -1
    ensures Dfs(U, lo, st, n) == (t.Set(n, 0), r)
  {
    hide Inside;
    assert n !in st.Set(n, 1).Fresh(U);
    assert Dfs(U, lo, st, n) == Kids(U, lo, st.Set(n, 1), n, 0);
    assert Kids(U, lo, st.Set(n, 1), n, 0) == Kids(U, lo, s, n, 1);
    assert Outs(s.edges, n) == [a, b];
  }

  lemma TrioInside(x: int, y: int, z: int, ret: seq<Move>)
    requires Trio(x, y, z)
    ensures var U := TrioTask(x, y, z).All();
            && Inside(TrioEdges(x, y, z), U) && Inside(Q1(x, y, z).edges, U) && Inside(Q4(x, y, z, ret).edges, U)
            && Inside(Q5(x, y, z, ret).edges, U)
  {
  }

  // ---------- rounds ----------

  lemma Round0(x: int, y: int, z: int)
    requires Trio(x, y, z)
    ensures var k := TrioTask(x, y, z); Round(k.All(), k.lo, At(x, y, z, 0), Q1(x, y, z))
  {
    hide Inside, Dfs, Kids;
    var k, st := TrioTask(x, y, z), At(x, y, z, 0);
    TrioInside(x, y, z, []);
    var one := st.Set(z, 1);
    DfsLeaf(k.All(), k.lo, one, x);
    var two := Finish(k.lo, one.Set(x, 1), x);
    var three := two.Set(y, 1);
    DfsMet(k.All(), k.lo, three, z);
    DfsOnly(k.All(), k.lo, two, y, z, three.Set(z, 0), z);
    var four := three.Set(z, 0).Set(y, 0);
    DfsSecond(k.All(), k.lo, st, z, x, y, two, four, z);
    Break0(x, y, z);
    assert IsMax(st.nodes, z) && RoundFrom(k.All(), k.lo, st, z, Q1(x, y, z));
  }

  lemma Break0(x: int, y: int, z: int)
    requires Trio(x, y, z)
    ensures var s := Finish(10, At(x, y, z, 0).Set(z, 1).Set(x, 1), x).Set(y, 1).Set(z, 0).Set(y, 0).Set(z, 0);
            IsMin(s.pool, x) && Break(s, z, x) == Q1(x, y, z)
  {
    assert Moves(x, []) == [];
    assert (TrioEdges(x, y, z) - {x} - {z})[x := [x, y]] == map[x := [x, y], y := [z]];
    assert {x, y, z} - {x} + {x} == {x, y, z};
    assert TempPool(true) + {x} - {x} == TempPool(true);
    assert map[z := 1][x := 1][x := 2][y := 1][z := 0][y := 0][z := 0][x := 0] == map[x := 0, y := 0, z := 0];
  }

  lemma Round1(x: int, y: int, z: int)
    requires Trio(x, y, z)
    ensures var k := TrioTask(x, y, z); Round(k.All(), k.lo, Q1(x, y, z), Q2(x, y, z))
  {
    hide Inside, Dfs;
    var k, st := TrioTask(x, y, z), Q1(x, y, z);
    TrioInside(x, y, z, []);
    DfsLeaf(k.All(), k.lo, st, z);
    assert Finish(k.lo, st.Set(z, 1), z) == Q2(x, y, z) by {
      assert Moves(z, []) == [];
      assert {x, y, z} - {z} == {x, y};
      assert map[x := 0, y := 0, z := 0][z := 1][z := 2] == map[x := 0, y := 0, z := 2];
    }
    assert IsMax(st.nodes, z) && RoundFrom(k.All(), k.lo, st, z, Q2(x, y, z));
  }

  lemma Round2(x: int, y: int, z: int)
    requires Trio(x, y, z)
    ensures var k := TrioTask(x, y, z); Round(k.All(), k.lo, Q2(x, y, z), Q3(x, y, z))
  {
    hide Inside, Kids;
    var k, st := TrioTask(x, y, z), Q2(x, y, z);
    TrioInside(x, y, z, []);
    var mid := st.Set(y, 1);
    assert Dfs(k.All(), k.lo, mid, z) == (mid, -1);
    hide Dfs;
    DfsOnly(k.All(), k.lo, st, y, z, mid, -1);
    Finish2(x, y, z);
    assert IsMax(st.nodes, y) && RoundFrom(k.All(), k.lo, st, y, Q3(x, y, z));
  }

  lemma Finish2(x: int, y: int, z: int)
    requires Trio(x, y, z)
    ensures Finish(10, Q2(x, y, z).Set(y, 1), y) == Q3(x, y, z)
  {
    assert Moves(y, [z]) == [(y, z)];
    assert {x, y} - {y} == {x};
    assert Q2(x, y, z).Set(y, 1).visited[y := 2] == map[x := 0, y := 2, z := 2];
  }

  // x feeds itself and is broken by y, whether or not y fed z before.
  lemma RoundX(x: int, y: int, z: int, st: State)
    requires Trio(x, y, z) && (st == Q3(x, y, z) || st == Q6(x, y, z, st.nret))
    ensures var k := TrioTask(x, y, z); Round(k.All(), k.lo, st, Q4(x, y, z, st.nret + [(x, y)]))
  {
    hide Inside, Dfs;
    var k := TrioTask(x, y, z);
    TrioInside(x, y, z, st.nret);
    var one := st.Set(x, 1);
    DfsMet(k.All(), k.lo, one, x);
    DfsFirst(k.All(), k.lo, st, x, x, y, one.Set(x, 0), x);
    BreakX(x, y, z, st);
    assert IsMax(st.nodes, x) && RoundFrom(k.All(), k.lo, st, x, Q4(x, y, z, st.nret + [(x, y)]));
  }

  lemma BreakX(x: int, y: int, z: int, st: State)
    requires Trio(x, y, z) && (st == Q3(x, y, z) || st == Q6(x, y, z, st.nret))
    ensures var s := st.Set(x, 1).Set(x, 0).Set(x, 0);
            IsMin(s.pool, y) && Break(s, x, y) == Q4(x, y, z, st.nret + [(x, y)])
  {
    assert (st.edges - {y} - {x})[y := [x, y]] == map[y := [x, y]];
    assert {x} + {y} == {x, y};
    assert TempPool(true) + {z} + {y} - {y} == TempPool(true) + {z};
    assert st.visited[x := 1][x := 0][x := 0][y := 0] == map[x := 0, y := 0, z := 2];
  }

  lemma RoundY(x: int, y: int, z: int, ret: seq<Move>)
    requires Trio(x, y, z)
    ensures var k := TrioTask(x, y, z); Round(k.All(), k.lo, Q4(x, y, z, ret), Q5(x, y, z, ret + [(y, x)]))
  {
    hide Inside, Dfs, Kids;
    var k, st := TrioTask(x, y, z), Q4(x, y, z, ret);
    TrioInside(x, y, z, ret);
    var one := st.Set(y, 1);
    DfsLeaf(k.All(), k.lo, one, x);
    var two := Finish(k.lo, one.Set(x, 1), x);
    DfsMet(k.All(), k.lo, two, y);
    DfsSecond(k.All(), k.lo, st, y, x, y, two, two.Set(y, 0), y);
    BreakY(x, y, z, ret);
    assert IsMax(st.nodes, y) && RoundFrom(k.All(), k.lo, st, y, Q5(x, y, z, ret + [(y, x)]));
  }

  lemma BreakY(x: int, y: int, z: int, ret: seq<Move>)
    requires Trio(x, y, z)
    ensures var s := Finish(10, Q4(x, y, z, ret).Set(y, 1).Set(x, 1), x).Set(y, 0).Set(y, 0);
            IsMin(s.pool, x) && Break(s, y, x) == Q5(x, y, z, ret + [(y, x)])
  {
    assert Moves(x, []) == [];
    assert (map[y := [x, y]] - {x} - {y})[x := [x, y]] == map[x := [x, y]];
    assert {x, y} - {x} + {x} == {x, y};
    assert TempPool(true) + {z} + {x} - {x} == TempPool(true) + {z};
    assert map[x := 0, y := 0, z := 2][y := 1][x := 1][x := 2][y := 0][y := 0][x := 0] == map[x := 0, y := 0, z := 2];
  }

  lemma RoundLeaf(x: int, y: int, z: int, ret: seq<Move>)
    requires Trio(x, y, z)
    ensures var k := TrioTask(x, y, z); Round(k.All(), k.lo, Q5(x, y, z, ret), Q6(x, y, z, ret))
  {
    hide Inside, Dfs;
    var k, st := TrioTask(x, y, z), Q5(x, y, z, ret);
    TrioInside(x, y, z, ret);
    DfsLeaf(k.All(), k.lo, st, y);
    FinishLeaf(x, y, z, ret);
    assert IsMax(st.nodes, y) && RoundFrom(k.All(), k.lo, st, y, Q6(x, y, z, ret));
  }

  lemma FinishLeaf(x: int, y: int, z: int, ret: seq<Move>)
    requires Trio(x, y, z)
    ensures Finish(10, Q5(x, y, z, ret).Set(y, 1), y) == Q6(x, y, z, ret)
  {
    assert Moves(y, []) == [];
    assert {x, y} - {y} == {x};
    assert map[x := 0, y := 0, z := 2][y := 1][y := 2] == map[x := 0, y := 2, z := 2];
  }

  lemma GoesOn(x: int, y: int, z: int, i: nat)
    requires Trio(x, y, z)
    ensures Onward(x, y, z, i)
  {
    hide Round, TrioTask;
    var st := At(x, y, z, i);
    assert x in st.nodes;
    if i == 0 {
      Round0(x, y, z);
    } else if i == 1 {
      Round1(x, y, z);
    } else if i == 2 {
      Round2(x, y, z);
    } else if i % 3 == 0 {
      RoundX(x, y, z, st);
    } else if i % 3 == 1 {
      RoundY(x, y, z, st.nret);
    } else {
      RoundLeaf(x, y, z, st.nret);
    }
  }

  lemma {:induction false} OnlyRun(x: int, y: int, z: int, run: seq<State>)
    requires Trio(x, y, z) && Rounds(TrioTask(x, y, z).All(), 10, run) && run[0] == At(x, y, z, 0)
    ensures run[|run| - 1] == At(x, y, z, |run| - 1)
    decreases |run|
  {
    hide Round, At;
    var n := |run| - 1;
    if n > 0 {
      var k := TrioTask(x, y, z);
      OnlyRun(x, y, z, run[..n]);
      assert Round(k.All(), 10, run[n - 1], run[n]);
      GoesOn(x, y, z, n - 1);
      RoundUnique(k.All(), 10, At(x, y, z, n - 1), run[n], At(x, y, z, n));
    }
  }

  /** For any three registers from 10 to 21 there are moves, none of a register to itself, on which topo_sort does
      not end: after i rounds it is in the state At(i), where registers are left and the next round is defined;
      there is no run that completes. */
  lemma NeverEnds(x: int, y: int, z: int)
    requires Trio(x, y, z)
    ensures Describes(TrioTask(x, y, z), TrioEdges(x, y, z))
    ensures At(x, y, z, 0) == Start(TrioEdges(x, y, z), {x, y, z}, TempPool(true))
    ensures forall i: nat :: Onward(x, y, z, i)
    ensures forall run: seq<State> {:trigger Complete(TrioTask(x, y, z), TrioEdges(x, y, z), run)} ::
              !Complete(TrioTask(x, y, z), TrioEdges(x, y, z), run)
  {
    hide Describes, Round, Rounds, At, TrioTask, TrioEdges;
    TrioDescribed(x, y, z);
    StartsAt(x, y, z);
    forall i: nat ensures Onward(x, y, z, i) {
      GoesOn(x, y, z, i);
    }
    forall run: seq<State> | Complete(TrioTask(x, y, z), TrioEdges(x, y, z), run) ensures false {
      RunStarts(TrioTask(x, y, z), run);
      OnlyRun(x, y, z, run);
      GoesOn(x, y, z, |run| - 1);
    }
  }

  lemma StartsAt(x: int, y: int, z: int)
    ensures At(x, y, z, 0) == Start(TrioEdges(x, y, z), {x, y, z}, TempPool(true))
    ensures var k := TrioTask(x, y, z); k.regs == {x, y, z} && k.temps == TempPool(true) && k.lo == 10
  {
  }

  lemma RunStarts(k: Task, run: seq<State>)
    requires Rounds(k.All(), k.lo, run)
    ensures |run| > 0
  {
  }

  lemma TrioDescribed(x: int, y: int, z: int)
    requires Trio(x, y, z)
    ensures Describes(TrioTask(x, y, z), TrioEdges(x, y, z))
  {
  }
}
