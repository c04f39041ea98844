/** Where topo_sort goes wrong: a register numbered 10 or above that is finished joins the temporaries
    (src/codegen_new/codegen.cc, lines 1479-1480) and is overwritten when a cycle is met later. */
module MoveHazard {
  import opened Basis
  import opened MoveGraph
  import opened MoveInvariant
  import opened MoveSearch
  import opened MoveRounds
  import opened TopologicalSort

  // A run of topo_sort from its start to the point where no register is left.
  ghost predicate Complete(k: Task, edges: map<int, seq<int>>, run: seq<State>) {
    Rounds(k.All(), k.lo, run) && run[0] == Start(edges, k.regs, k.temps) && run[|run| - 1].nodes == {}
  }

  // It comes to an end, and every way it may end is right.
  ghost predicate SortsRight(k: Task, edges: map<int, seq<int>>) { Ends(k, edges) && NeverWrong(k, edges) }

  ghost predicate Ends(k: Task, edges: map<int, seq<int>>) { exists run: seq<State> :: Complete(k, edges, run) }

  ghost predicate NeverWrong(k: Task, edges: map<int, seq<int>>) {
    forall run: seq<State> {:trigger Complete(k, edges, run)} :: Complete(k, edges, run) ==>
        Carries(k, run[|run| - 1].nret)
  }

  lemma RoundKeeps(k: Task, st: State, next: State)
    requires Calm(k, st) && Round(k.All(), k.lo, st, next)
    ensures Calm(k, next)
  {
    hide Good, Searched, Dfs, Break, Breakable, Calm;
    var n :| IsMax(st.nodes, n) && n in k.All() && st.Mark(n) == 0 && RoundFrom(k.All(), k.lo, st, n, next);
    CalmSearch(k, st, n);
    var (s, r) := Dfs(k.All(), k.lo, st, n);
    if r == -1 {
      RoundFinishes(k, st, n, s);
    } else {
      RoundMeetsTop(k, st, n, s, r);
      var t :| IsMin(s.pool, t) && next == Break(s, r, t);
      RoundBreaks(k, st, s, n, t);
    }
  }

  lemma {:induction false} RunKeeps(k: Task, run: seq<State>)
    requires Rounds(k.All(), k.lo, run) && Calm(k, run[0])
    ensures Calm(k, run[|run| - 1])
    decreases |run|
  {
    hide Calm, Round;
    if |run| > 1 {
      RunKeeps(k, run[..|run| - 1]);
      assert Round(k.All(), k.lo, run[|run| - 2], run[|run| - 1]);
      RoundKeeps(k, run[|run| - 2], run[|run| - 1]);
    }
  }

  // Rounds can be made until no register is left.
  lemma {:induction false} RunExists(k: Task, st: State) returns (run: seq<State>)
    requires Calm(k, st)
    ensures Rounds(k.All(), k.lo, run) && run[0] == st && run[|run| - 1].nodes == {}
    decreases Left(k, st), st.nodes
  {
    hide Left, Good, Searched, Dfs, Break, Breakable, Calm;
    if st.nodes == {} {
      run := [st];
    } else {
      var next := NextExists(k, st);
      var rest := RunExists(k, next);
      run := [st] + rest;
      RunBefore(k.All(), k.lo, st, rest);
    }
  }

  lemma NextExists(k: Task, st: State) returns (next: State)
    requires Calm(k, st) && st.nodes != {}
    ensures Round(k.All(), k.lo, st, next) && Calm(k, next)
    ensures Left(k, next) < Left(k, st) || (Left(k, next) == Left(k, st) && next.nodes < st.nodes)
  {
    hide Left, Good, Searched, Dfs, Break, Breakable, Calm;
    var n := GreatestOf(st.nodes);
    CalmSearch(k, st, n);
    var (s, r) := Dfs(k.All(), k.lo, st, n);
    if r == -1 {
      next := s;
      RoundFinishes(k, st, n, s);
    } else {
      RoundMeetsTop(k, st, n, s, r);
      TempsApart(k, s, n);
      var t := SmallestOf(s.pool);
      next := Break(s, r, t);
      RoundBreaks(k, st, s, n, t);
    }
    assert RoundFrom(k.All(), k.lo, st, n, next);
  }

  lemma RunBefore(U: set<int>, lo: int, st: State, rest: seq<State>)
    requires Rounds(U, lo, rest) && Round(U, lo, st, rest[0])
    ensures Rounds(U, lo, [st] + rest)
  {
    hide Round;
    var run := [st] + rest;
    forall i, j | 0 <= i < j < |run| && j == i + 1 ensures Round(U, lo, run[i], run[j]) {
      assert run[j] == rest[i];
      if i > 0 { assert run[i] == rest[i - 1]; }
    }
  }

  /** Every run on a problem without cycles, or with small register numbers only, is right, and there is one. */
  lemma OkIsRight(k: Task, edges: map<int, seq<int>>)
    requires k.Ok() && Describes(k, edges)
    ensures SortsRight(k, edges)
  {
    hide Good, Describes, Carries, Round;
    StartCalm(k, edges);
    var ending := RunExists(k, Start(edges, k.regs, k.temps));
    assert Complete(k, edges, ending);
    forall run: seq<State> | Complete(k, edges, run) ensures Carries(k, run[|run| - 1].nret) {
      RunKeeps(k, run);
      Finale(k, run[|run| - 1]);
    }
  }

  // ---------- the failing family ----------

  lemma DfsLeaf(U: set<int>, lo: int, st: State, n: int)
    requires st.Within(U) && n in U && st.Mark(n) == 0 && Outs(st.edges, n) == []
    ensures Dfs(U, lo, st, n) == (Finish(lo, st.Set(n, 1), n), -1)
  {
  }

  // n feeds b only.
  lemma DfsOnly(U: set<int>, lo: int, st: State, n: int, b: int, s: State, r: int)
    requires st.Within(U) && n in U && st.Mark(n) == 0 && Outs(st.edges, n) == [b] && b in U
    requires Dfs(U, lo, st.Set(n, 1), b) == (s, r)
    ensures Dfs(U, lo, st, n) == if r != -1 then (s.Set(n, 0), r) else (Finish(lo, s, n), -1)
  {
    hide Inside;
    assert n !in st.Set(n, 1).Fresh(U);
    assert Dfs(U, lo, st, n) == Kids(U, lo, st.Set(n, 1), n, 0);
    assert Outs(s.edges, n) == [b];
    if r == -1 {
      assert Kids(U, lo, st.Set(n, 1), n, 0) == Kids(U, lo, s, n, 1);
    }
  }

  // m takes the value of x, while y and z change places.
  ghost function BadTask(m: int, x: int, y: int, z: int): Task {
    TaskOf(map[m := x, z := y, y := z], {m, x, y, z}, true)
  }

  function BadEdges(m: int, x: int, y: int, z: int): map<int, seq<int>> { map[x := [m], y := [z], z := [y]] }

  ghost predicate Bad(m: int, x: int, y: int, z: int) { 22 > m >= 10 && m > x > y > z >= 0 }

  // The temporary the cycle gets: x if it is one of those that joined, else m.
  function Taken(m: int, x: int): int { if x >= 10 then x else m }

  function PoolThen(m: int, x: int): set<int> { TempPool(true) + {m} + if x >= 10 then {x} else {} }

  // The states after the rounds that start at m, x, y and the temporary.
  function S1(m: int, x: int, y: int, z: int): State {
    State({x, y, z}, BadEdges(m, x, y, z), map[m := 2], TempPool(true) + {m}, [])
  }

  function S2(m: int, x: int, y: int, z: int): State {
    State({y, z}, BadEdges(m, x, y, z), map[m := 2, x := 2], PoolThen(m, x), [(x, m)])
  }

  function S3(m: int, x: int, y: int, z: int): State {
    Break(S2(m, x, y, z).(visited := map[m := 2, x := 2, y := 0, z := 0]), y, Taken(m, x))
  }

  lemma InsideBad(m: int, x: int, y: int, z: int)
    requires Bad(m, x, y, z)
    ensures Inside(BadEdges(m, x, y, z), BadTask(m, x, y, z).All())
  {
  }

  lemma S1Is(m: int, x: int, y: int, z: int)
    requires Bad(m, x, y, z)
    ensures var k := BadTask(m, x, y, z);
            Finish(k.lo, Start(BadEdges(m, x, y, z), k.regs, k.temps).Set(m, 1), m) == S1(m, x, y, z)
  {
    assert Moves(m, []) == [];
    assert {m, x, y, z} - {m} == {x, y, z};
    assert map[m := 1][m := 2] == map[m := 2];
  }

  lemma FirstRound(m: int, x: int, y: int, z: int)
    requires Bad(m, x, y, z)
    ensures var k := BadTask(m, x, y, z);
            Round(k.All(), k.lo, Start(BadEdges(m, x, y, z), k.regs, k.temps), S1(m, x, y, z))
  {
    hide Inside, Dfs, Kids, S1, Finish;
    var k := BadTask(m, x, y, z);
    var st := Start(BadEdges(m, x, y, z), k.regs, k.temps);
    InsideBad(m, x, y, z);
    DfsLeaf(k.All(), k.lo, st, m);
    S1Is(m, x, y, z);
    assert IsMax(st.nodes, m) && RoundFrom(k.All(), k.lo, st, m, S1(m, x, y, z));
  }

  lemma SecondRound(m: int, x: int, y: int, z: int)
    requires Bad(m, x, y, z)
    ensures var k := BadTask(m, x, y, z); Round(k.All(), k.lo, S1(m, x, y, z), S2(m, x, y, z))
  {
    var k, st := BadTask(m, x, y, z), S1(m, x, y, z);
    InsideBad(m, x, y, z);
    var mid := st.Set(x, 1);
    assert Dfs(k.All(), k.lo, mid, m) == (mid, -1);
    DfsOnly(k.All(), k.lo, st, x, m, mid, -1);
    assert Finish(k.lo, mid, x) == S2(m, x, y, z) by {
      assert Moves(x, [m]) == [(x, m)];
      assert mid.nodes - {x} == {y, z};
      assert mid.visited[x := 2] == map[m := 2, x := 2];
      assert (if x >= 10 then mid.pool + {x} else mid.pool) == PoolThen(m, x);
    }
    assert IsMax(st.nodes, x) && RoundFrom(k.All(), k.lo, st, x, S2(m, x, y, z));
  }

  lemma S3Is(m: int, x: int, y: int, z: int)
    requires Bad(m, x, y, z)
    ensures var st := S2(m, x, y, z);
            var back := st.Set(y, 1).Set(z, 1).Set(y, 0).Set(z, 0).Set(y, 0);
            IsMax(st.nodes, y) && IsMin(back.pool, Taken(m, x)) && S3(m, x, y, z) == Break(back, y, Taken(m, x))
  {
    hide Break;
    assert S2(m, x, y, z).Set(y, 1).Set(z, 1).Set(y, 0).Set(z, 0).Set(y, 0).visited == map[m := 2, x := 2, y := 0,
        z := 0];
  }

  lemma DfsMet(U: set<int>, lo: int, st: State, n: int)
    requires st.Within(U) && n in U && st.Mark(n) == 1
    ensures Dfs(U, lo, st, n) == (st.Set(n, 0), n)
  {
  }

  lemma ThirdRound(m: int, x: int, y: int, z: int)
    requires Bad(m, x, y, z)
    ensures var k := BadTask(m, x, y, z); Round(k.All(), k.lo, S2(m, x, y, z), S3(m, x, y, z))
  {
    hide Inside, Dfs, Kids, S3, Finish;
    var k, st := BadTask(m, x, y, z), S2(m, x, y, z);
    InsideBad(m, x, y, z);
    var one, two := st.Set(y, 1), st.Set(y, 1).Set(z, 1);
    DfsMet(k.All(), k.lo, two, y);
    DfsOnly(k.All(), k.lo, one, z, y, two.Set(y, 0), y);
    var back := two.Set(y, 0).Set(z, 0);
    DfsOnly(k.All(), k.lo, st, y, z, back, y);
    S3Is(m, x, y, z);
    assert RoundFrom(k.All(), k.lo, st, y, S3(m, x, y, z));
  }

  lemma ThenFree(m: int, x: int, y: int, z: int)
    requires Bad(m, x, y, z)
    ensures var st, t := S3(m, x, y, z), Taken(m, x);
            && Inside(st.edges, BadTask(m, x, y, z).All()) && IsMax(st.nodes, t) && st.nodes == {y, z, t}
            && Outs(st.edges, t) == [z] && Outs(st.edges, z) == [y] && Outs(st.edges, y) == []
            && st.Mark(t) == 0 && st.Mark(z) == 0 && st.Mark(y) == 0 && st.nret == [(x, m), (y, t)]
  {
    hide Inside;
    ThenInside(m, x, y, z);
  }

  lemma ThenInside(m: int, x: int, y: int, z: int)
    requires Bad(m, x, y, z)
    ensures Inside(S3(m, x, y, z).edges, BadTask(m, x, y, z).All())
  {
    hide Inside, S3, Break;
    var st, t := S2(m, x, y, z).(visited := map[m := 2, x := 2, y := 0, z := 0]), Taken(m, x);
    InsideBad(m, x, y, z);
    BreakInside(st, y, t, BadTask(m, x, y, z).All());
    ThenIs(m, x, y, z);
  }

  lemma ThenIs(m: int, x: int, y: int, z: int)
    ensures S3(m, x, y, z) == Break(S2(m, x, y, z).(visited := map[m := 2, x := 2, y := 0, z := 0]), y, Taken(m, x))
  {
  }

  lemma BreakInside(st: State, n: int, t: int, U: set<int>)
    requires Inside(st.edges, U)
    ensures Inside(Break(st, n, t).edges, U)
  {
    var e := Break(st, n, t).edges;
    forall u, i | 0 <= i < |Outs(e, u)| ensures Outs(e, u)[i] in U {
      assert u != t ==> Outs(e, u) == [] || Outs(e, u) == Outs(st.edges, u);
      assert u == t ==> Outs(e, u) == [] || Outs(e, u) == Outs(st.edges, n);
    }
  }

  // The last round searches from the temporary t over z to y.
  lemma LastRound(m: int, x: int, y: int, z: int) returns (last: State)
    requires Bad(m, x, y, z)
    ensures var k := BadTask(m, x, y, z); Round(k.All(), k.lo, S3(m, x, y, z), last)
    ensures last.nodes == {} && last.nret == [(x, m), (y, Taken(m, x)), (z, y), (Taken(m, x), z)]
  {
    hide S3, Inside, IsMax, Dfs, Kids, BadEdges;
    var k, st, t := BadTask(m, x, y, z), S3(m, x, y, z), Taken(m, x);
    ThenFree(m, x, y, z);
    var U := k.All();
    var one := st.Set(t, 1);
    var two := one.Set(z, 1);
    DfsLeaf(U, k.lo, two, y);
    var three := Finish(k.lo, two.Set(y, 1), y);
    assert Moves(y, []) == [] && Moves(z, [y]) == [(z, y)] && Moves(t, [z]) == [(t, z)];
    DfsOnly(U, k.lo, one, z, y, three, -1);
    var four := Finish(k.lo, three, z);
    DfsOnly(U, k.lo, st, t, z, four, -1);
    last := Finish(k.lo, four, t);
    assert RoundFrom(U, k.lo, st, t, last);
  }

  lemma BadOrigin(m: int, x: int, y: int, z: int)
    requires Bad(m, x, y, z)
    ensures Origin([(x, m), (y, Taken(m, x)), (z, y), (Taken(m, x), z)], Taken(m, x)) == y
  {
    var t := Taken(m, x);
    assert [(x, m), (y, t), (z, y), (t, z)] == [] + [(x, m)] + [(y, t)] + [(z, y)] + [(t, z)];
    OriginLast([] + [(x, m)] + [(y, t)] + [(z, y)], t, z, t);
    OriginLast([] + [(x, m)] + [(y, t)], z, y, t);
    OriginLast([] + [(x, m)], y, t, t);
    OriginLast([], x, m, y);
  }

  lemma BadDescribed(m: int, x: int, y: int, z: int)
    requires Bad(m, x, y, z)
    ensures Describes(BadTask(m, x, y, z), BadEdges(m, x, y, z))
  {
  }

  /** With m at 10 or above, the value that arrived in m (or stayed in x) is lost. */
  lemma BadIsWrong(m: int, x: int, y: int, z: int)
    requires Bad(m, x, y, z)
    ensures Describes(BadTask(m, x, y, z), BadEdges(m, x, y, z))
    ensures !NeverWrong(BadTask(m, x, y, z), BadEdges(m, x, y, z))
  {
    hide Round, Describes, S1, S2, S3;
    var k, edges := BadTask(m, x, y, z), BadEdges(m, x, y, z);
    BadDescribed(m, x, y, z);
    FirstRound(m, x, y, z);
    SecondRound(m, x, y, z);
    ThirdRound(m, x, y, z);
    var last := LastRound(m, x, y, z);
    var run := [Start(edges, k.regs, k.temps), S1(m, x, y, z), S2(m, x, y, z), S3(m, x, y, z), last];
    assert Complete(k, edges, run);
    BadOrigin(m, x, y, z);
    assert Origin(last.nret, Taken(m, x)) == y;
  }

  // ---------- two registers that keep their values ----------

  // m and y are to stay as they are: two moves of a register to itself.
  ghost function SelfTask(m: int, y: int): Task { TaskOf(map[m := m, y := y], {m, y}, true) }

  function SelfEdges(m: int, y: int): map<int, seq<int>> { map[m := [m], y := [y]] }

  ghost predicate SelfBad(m: int, y: int) { 22 > m >= 10 && m > y >= 0 }

  // The states after the rounds that start at m, the temporary 22 and y.
  function P1(m: int, y: int): State {
    State({m, y, 22}, map[y := [y], 22 := [m]], map[m := 0, 22 := 0], TempPool(true) - {22}, [(m, 22)])
  }

  function P2(m: int, y: int): State {
    State({y}, map[y := [y], 22 := [m]], map[m := 2, 22 := 2], TempPool(true) + {m}, [(m, 22), (22, m)])
  }

  function P3(m: int, y: int): State {
    State({y, m}, map[22 := [m], m := [y]], map[m := 0, 22 := 2, y := 0], TempPool(true), [(m, 22), (22, m), (y, m)])
  }

  lemma InsideSelf(m: int, y: int)
    requires SelfBad(m, y)
    ensures Inside(SelfEdges(m, y), SelfTask(m, y).All()) && Inside(P1(m, y).edges, SelfTask(m, y).All())
    ensures Inside(P2(m, y).edges, SelfTask(m, y).All()) && Inside(P3(m, y).edges, SelfTask(m, y).All())
  {
  }

  // A register that feeds only itself is met again at once.
  lemma DfsSelf(U: set<int>, lo: int, st: State, n: int)
    requires st.Within(U) && n in U && 0 <= n && st.Mark(n) == 0 && Outs(st.edges, n) == [n]
    ensures Dfs(U, lo, st, n) == (st.Set(n, 0), n)
  {
    hide Inside;
    var one := st.Set(n, 1);
    DfsMet(U, lo, one, n);
    DfsOnly(U, lo, st, n, n, one.Set(n, 0), n);
    assert one.Set(n, 0).Set(n, 0).visited == st.visited[n := 0];
  }

  lemma SelfFirst(m: int, y: int)
    requires SelfBad(m, y)
    ensures var k := SelfTask(m, y); Round(k.All(), k.lo, Start(SelfEdges(m, y), k.regs, k.temps), P1(m, y))
  {
    hide Inside, Dfs;
    var k := SelfTask(m, y);
    var st := Start(SelfEdges(m, y), k.regs, k.temps);
    InsideSelf(m, y);
    DfsSelf(k.All(), k.lo, st, m);
    assert Break(st.Set(m, 0), m, 22) == P1(m, y) by {
      assert (SelfEdges(m, y) - {22} - {m})[22 := [m]] == map[y := [y], 22 := [m]];
      assert map[m := 0][22 := 0] == map[m := 0, 22 := 0];
      assert {m, y} + {22} == {m, y, 22};
    }
    assert IsMin(st.Set(m, 0).pool, 22);
    assert IsMax(st.nodes, m) && RoundFrom(k.All(), k.lo, st, m, P1(m, y));
  }

  lemma SelfSecond(m: int, y: int)
    requires SelfBad(m, y)
    ensures var k := SelfTask(m, y); Round(k.All(), k.lo, P1(m, y), P2(m, y))
  {
    hide Inside, Dfs;
    var k, st := SelfTask(m, y), P1(m, y);
    InsideSelf(m, y);
    var one := st.Set(22, 1);
    DfsLeaf(k.All(), k.lo, one, m);
    var two := Finish(k.lo, one.Set(m, 1), m);
    DfsOnly(k.All(), k.lo, st, 22, m, two, -1);
    assert Finish(k.lo, two, 22) == P2(m, y) by {
      assert Moves(m, []) == [] && Moves(22, [m]) == [(22, m)];
      assert {m, y, 22} - {m} - {22} == {y};
      assert two.visited[22 := 2] == map[m := 2, 22 := 2];
      assert TempPool(true) - {22} + {m} + {22} == TempPool(true) + {m};
    }
    assert IsMax(st.nodes, 22) && RoundFrom(k.All(), k.lo, st, 22, P2(m, y));
  }

  // m has joined the temporaries and is the smallest: the cycle of y is broken by overwriting m.
  lemma SelfThird(m: int, y: int)
    requires SelfBad(m, y)
    ensures var k := SelfTask(m, y); Round(k.All(), k.lo, P2(m, y), P3(m, y))
  {
    hide Inside, Dfs, P3, Break, IsMin, TempPool;
    var k, st := SelfTask(m, y), P2(m, y);
    InsideSelf(m, y);
    DfsSelf(k.All(), k.lo, st, y);
    SelfBreak(m, y);
    assert IsMax(st.nodes, y) && RoundFrom(k.All(), k.lo, st, y, P3(m, y));
  }

  lemma SelfBreak(m: int, y: int)
    requires SelfBad(m, y)
    ensures var s := P2(m, y).Set(y, 0); IsMin(s.pool, m) && Break(s, y, m) == P3(m, y)
  {
    assert (map[y := [y], 22 := [m]] - {m} - {y})[m := [y]] == map[22 := [m], m := [y]];
    assert map[m := 2, 22 := 2][y := 0][m := 0] == map[m := 0, 22 := 2, y := 0];
    assert TempPool(true) + {m} - {m} == TempPool(true);
  }

  lemma SelfLast(m: int, y: int) returns (last: State)
    requires SelfBad(m, y)
    ensures var k := SelfTask(m, y); Round(k.All(), k.lo, P3(m, y), last)
    ensures last.nodes == {} && last.nret == [(m, 22), (22, m), (y, m), (m, y)]
  {
    hide Inside, Dfs;
    var k, st := SelfTask(m, y), P3(m, y);
    InsideSelf(m, y);
    var one := st.Set(m, 1);
    DfsLeaf(k.All(), k.lo, one, y);
    var two := Finish(k.lo, one.Set(y, 1), y);
    assert Moves(y, []) == [] && Moves(m, [y]) == [(m, y)];
    DfsOnly(k.All(), k.lo, st, m, y, two, -1);
    last := Finish(k.lo, two, m);
    assert IsMax(st.nodes, m) && RoundFrom(k.All(), k.lo, st, m, last);
  }

  lemma SelfOrigin(m: int, y: int)
    requires SelfBad(m, y)
    ensures Origin([(m, 22), (22, m), (y, m), (m, y)], m) == y
  {
    assert [(m, 22), (22, m), (y, m), (m, y)] == [] + [(m, 22)] + [(22, m)] + [(y, m)] + [(m, y)];
    OriginLast([] + [(m, 22)] + [(22, m)] + [(y, m)], m, y, m);
    OriginLast([] + [(m, 22)] + [(22, m)], y, m, m);
    OriginLast([] + [(m, 22)], 22, m, y);
    OriginLast([], m, 22, y);
  }

  lemma SelfDescribed(m: int, y: int)
    requires SelfBad(m, y)
    ensures Describes(SelfTask(m, y), SelfEdges(m, y))
  {
  }

  /** With m at 10 or above, m ends up with the value of y. */
  lemma SelfIsWrong(m: int, y: int)
    requires SelfBad(m, y)
    ensures Describes(SelfTask(m, y), SelfEdges(m, y)) && !NeverWrong(SelfTask(m, y), SelfEdges(m, y))
  {
    hide Round, Describes, P1, P2, P3;
    var k, edges := SelfTask(m, y), SelfEdges(m, y);
    SelfDescribed(m, y);
    SelfFirst(m, y);
    SelfSecond(m, y);
    SelfThird(m, y);
    var last := SelfLast(m, y);
    var run := [Start(edges, k.regs, k.temps), P1(m, y), P2(m, y), P3(m, y), last];
    assert Complete(k, edges, run);
    SelfOrigin(m, y);
    assert Origin(last.nret, m) == y;
  }

  // ---------- one register ----------

  lemma RoundUnique(U: set<int>, lo: int, st: State, a: State, b: State)
    requires Round(U, lo, st, a) && Round(U, lo, st, b)
    ensures a == b
  {
    hide Dfs, Break, Inside;
  }

  // The only run that keeps a single register: over the temporary 22 and back.
  lemma OneIsRight(m: int, edges: map<int, seq<int>>)
    requires 10 <= m < 22 && Describes(TaskOf(map[m := m], {m}, true), edges)
    ensures SortsRight(TaskOf(map[m := m], {m}, true), edges)
  {
    hide Round, Describes, Break, Start, Finish, Carries;
    var k := TaskOf(map[m := m], {m}, true);
    var st := Start(edges, {m}, k.temps);
    var one := OneFirst(m, edges);
    var two := OneSecond(m, edges, one);
    OneCarries(m);
    OneStarts(m, edges);
    assert Complete(k, edges, [st, one, two]);
    forall run: seq<State> | Complete(k, edges, run) ensures Carries(k, run[|run| - 1].nret) {
      assert |run| > 1 && Round(k.All(), k.lo, run[0], run[1]);
      RoundUnique(k.All(), k.lo, st, run[1], one);
      assert |run| > 2 && Round(k.All(), k.lo, run[1], run[2]);
      RoundUnique(k.All(), k.lo, one, run[2], two);
      assert |run| == 3 by {
        if |run| > 3 {
          assert Round(k.All(), k.lo, run[2], run[3]);
          NothingLeft(k.All(), k.lo, two, run[3]);
        }
      }
    }
  }

  lemma OneStarts(m: int, edges: map<int, seq<int>>)
    ensures Start(edges, {m}, TempPool(true)).nodes == {m} && m in {m}
  {
  }

  lemma NothingLeft(U: set<int>, lo: int, st: State, next: State)
    requires st.nodes == {}
    ensures !Round(U, lo, st, next)
  {
    hide Dfs, Break, Inside;
  }

  // No register but m feeds anything, and m feeds itself.
  lemma OneOuts(m: int, edges: map<int, seq<int>>)
    requires 10 <= m < 22 && Describes(TaskOf(map[m := m], {m}, true), edges)
    ensures Outs(edges, m) == [m] && (forall u :: u != m ==> Outs(edges, u) == [])
    ensures Inside(edges, TaskOf(map[m := m], {m}, true).All())
  {
    var k := TaskOf(map[m := m], {m}, true);
    var outs := Outs(edges, m);
    assert k.src[m] == m && m in outs;
    forall u, i | 0 <= i < |Outs(edges, u)| ensures u == m && Outs(edges, u)[i] == m {
      assert Outs(edges, u)[i] in Outs(edges, u);
    }
    assert outs[|outs| - 1] == outs[0];
    forall u | u != m ensures Outs(edges, u) == [] {
    }
  }

  lemma OneFirst(m: int, edges: map<int, seq<int>>) returns (one: State)
    requires 10 <= m < 22 && Describes(TaskOf(map[m := m], {m}, true), edges)
    ensures var k := TaskOf(map[m := m], {m}, true); Round(k.All(), k.lo, Start(edges, {m}, k.temps), one)
    ensures 22 in one.nodes && one.nodes == {m, 22} && one.nret == [(m, 22)] && one.Mark(m) == 0 && one.Mark(22) == 0
    ensures Outs(one.edges, 22) == [m] && Outs(one.edges, m) == [] && Inside(one.edges, {m} + TempPool(true))
  {
    hide Inside, Dfs, Describes;
    var k := TaskOf(map[m := m], {m}, true);
    var st := Start(edges, {m}, k.temps);
    OneOuts(m, edges);
    DfsSelf(k.All(), k.lo, st, m);
    one := Break(st.Set(m, 0), m, 22);
    assert IsMin(st.Set(m, 0).pool, 22) && IsMax(st.nodes, m) && RoundFrom(k.All(), k.lo, st, m, one);
    OneInside(m, edges);
  }

  lemma OneInside(m: int, edges: map<int, seq<int>>)
    requires 10 <= m < 22 && Outs(edges, m) == [m] && forall u :: u != m ==> Outs(edges, u) == []
    ensures Inside((edges - {22} - {m})[22 := [m]], {m} + TempPool(true))
  {
    var e := (edges - {22} - {m})[22 := [m]];
    forall u ensures Outs(e, u) == if u == 22 then [m] else [] {
      assert u != m ==> Outs(edges, u) == [];
    }
  }

  lemma OneSecond(m: int, edges: map<int, seq<int>>, one: State) returns (two: State)
    requires 10 <= m < 22 && one.nodes == {m, 22} && one.nret == [(m, 22)] && one.Mark(m) == 0 && one.Mark(22) == 0
    requires Outs(one.edges, 22) == [m] && Outs(one.edges, m) == [] && Inside(one.edges, {m} + TempPool(true))
    ensures var k := TaskOf(map[m := m], {m}, true); Round(k.All(), k.lo, one, two)
    ensures two.nodes == {} && two.nret == [(m, 22), (22, m)]
  {
    hide Inside, Dfs;
    var k := TaskOf(map[m := m], {m}, true);
    assert k.All() == {m} + TempPool(true);
    var mid := one.Set(22, 1);
    DfsLeaf(k.All(), k.lo, mid, m);
    var next := Finish(k.lo, mid.Set(m, 1), m);
    assert Moves(m, []) == [] && Moves(22, [m]) == [(22, m)];
    DfsOnly(k.All(), k.lo, one, 22, m, next, -1);
    two := Finish(k.lo, next, 22);
    assert IsMax(one.nodes, 22) && RoundFrom(k.All(), k.lo, one, 22, two);
  }

  lemma OneCarries(m: int)
    requires 10 <= m < 22
    ensures Carries(TaskOf(map[m := m], {m}, true), [(m, 22), (22, m)])
  {
    forall x | x != 22 ensures Origin([(m, 22), (22, m)], x) == x {
      assert [(m, 22), (22, m)] == [] + [(m, 22)] + [(22, m)];
      OriginLast([] + [(m, 22)], 22, m, x);
      OriginLast([], m, 22, if x == m then 22 else x);
    }
  }

  // ---------- the exact condition ----------

  // topo_sort ends and is right on every move graph over these registers.
  ghost predicate AlwaysRight(regs: set<int>, ireg: bool) {
    forall src: map<int, int>, edges: map<int, seq<int>>
      {:trigger Describes(TaskOf(src, Endpoints(src), ireg), edges)} ::
      Endpoints(src) <= regs && Describes(TaskOf(src, Endpoints(src), ireg), edges) ==>
        SortsRight(TaskOf(src, Endpoints(src), ireg), edges)
  }

  lemma LowIsRight(regs: set<int>, ireg: bool)
    requires forall n :: n in regs ==> 0 <= n < PoolBound(ireg)
    ensures AlwaysRight(regs, ireg)
  {
    hide Describes, SortsRight, Acyclic;
    forall src: map<int, int>, edges: map<int, seq<int>>
      | Endpoints(src) <= regs && Describes(TaskOf(src, Endpoints(src), ireg), edges)
      ensures SortsRight(TaskOf(src, Endpoints(src), ireg), edges)
    {
      var k := TaskOf(src, Endpoints(src), ireg);
      assert 31 in TempPool(ireg) || 22 in TempPool(ireg);
      OkIsRight(k, edges);
    }
  }

  lemma {:induction false} GreatestOf(s: set<int>) returns (n: int)
    requires s != {}
    ensures IsMax(s, n)
    decreases |s|
  {
    SomeElement(s);
    var x :| x in s;
    assert forall y :: y in s ==> y in s - {x} || y == x;
    if |s| == 1 {
      assert |s - {x}| == 0;
      n := x;
    } else {
      var m := GreatestOf(s - {x});
      n := if m > x then m else x;
    }
  }

  lemma {:induction false} SmallestOf(s: set<int>) returns (n: int)
    requires s != {}
    ensures IsMin(s, n)
    decreases |s|
  {
    SomeElement(s);
    var x :| x in s;
    assert forall y :: y in s ==> y in s - {x} || y == x;
    if s - {x} == {} {
      n := x;
    } else {
      var m := SmallestOf(s - {x});
      n := if m < x then m else x;
    }
  }

  // With a single register there is nothing to overwrite.
  lemma SingleIsRight(m: int)
    requires 0 <= m < 22
    ensures AlwaysRight({m}, true)
  {
    hide Describes, SortsRight;
    forall src: map<int, int>, edges: map<int, seq<int>>
      | Endpoints(src) <= {m} && Describes(TaskOf(src, Endpoints(src), true), edges)
      ensures SortsRight(TaskOf(src, Endpoints(src), true), edges)
    {
      SingleSource(src, m);
      if src == map[] {
        NoMoves();
        OkIsRight(TaskOf(src, Endpoints(src), true), edges);
      } else if m < 10 {
        LowIsRight({m}, true);
      } else {
        OneIsRight(m, edges);
      }
    }
  }

  lemma SingleSource(src: map<int, int>, m: int)
    requires Endpoints(src) <= {m}
    ensures (src == map[] && Endpoints(src) == {}) || (src == map[m := m] && Endpoints(src) == {m})
  {
    forall b | b in src ensures b == m && src[b] == m {
      assert b in Endpoints(src) && src[b] in Endpoints(src);
    }
    if m in src {
      assert src == map[m := m];
    } else {
      assert src == map[];
    }
  }

  lemma NoMoves()
    ensures TaskOf(map[], {}, true).Ok()
  {
    forall p {:trigger Cycle(map[], p)} ensures !Cycle(map[], p) {
    }
  }

  lemma NoneIsRight()
    ensures AlwaysRight({}, true)
  {
    hide Describes, SortsRight;
    forall src: map<int, int>, edges: map<int, seq<int>>
      | Endpoints(src) <= {} && Describes(TaskOf(src, Endpoints(src), true), edges)
      ensures SortsRight(TaskOf(src, Endpoints(src), true), edges)
    {
      SingleSource(src, 0);
      NoMoves();
      OkIsRight(TaskOf(src, Endpoints(src), true), edges);
    }
  }

  /** The integer registers below the temporaries on which topo_sort can be relied on, whatever the moves,
      are exactly those below 10, as soon as there are two. */
  lemma RightExactlyBelowTen(regs: set<int>)
    requires forall n :: n in regs ==> 0 <= n < 22
    ensures AlwaysRight(regs, true) <==> |regs| <= 1 || forall n :: n in regs ==> n < 10
  {
    hide Describes, SortsRight, AlwaysRight;
    if |regs| == 0 {
      NoneIsRight();
    } else {
      var m := GreatestOf(regs);
      if |regs| == 1 {
        assert |regs - {m}| == 0;
        assert regs == {m};
        SingleIsRight(m);
      } else if m < 10 {
        LowIsRight(regs, true);
      } else {
        assert |regs - {m}| > 0;
        var y := GreatestOf(regs - {m});
        SelfIsWrong(m, y);
        NotAlways(regs, m, y);
      }
    }
  }

  /** For floats there is no such limit: all registers below the temporaries 30 and 31 are right. */
  lemma FloatsAreRight(regs: set<int>)
    requires forall n :: n in regs ==> 0 <= n < 30
    ensures AlwaysRight(regs, false)
    ensures forall t :: t in TempPool(false) <==> t == 30 || t == 31
    ensures forall t :: t in TempPool(true) <==> 22 <= t <= 27
  {
    LowIsRight(regs, false);
  }

  lemma NotAlways(regs: set<int>, m: int, y: int)
    requires m in regs && y in regs && m != y
    requires Describes(SelfTask(m, y), SelfEdges(m, y)) && !NeverWrong(SelfTask(m, y), SelfEdges(m, y))
    ensures !AlwaysRight(regs, true)
  {
    hide Describes, Ends, NeverWrong;
    var src := map[m := m, y := y];
    assert src[m] == m && src[y] == y;
    assert Endpoints(src) == {m, y};
  }
}
