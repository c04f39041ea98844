/** topo_sort (src/codegen_new/codegen.cc, lines 1427-1518) as it runs, on sets and maps updated in place. */
module TopologicalSort {
  import opened Basis
  import opened MoveGraph
  import opened MoveInvariant
  import opened MoveSearch
  import opened MoveRounds

  // Lines 1442-1450 and 1479: the temporaries of a register class, and the bound from which a finished
  // register joins them.
  function TempPool(ireg: bool): set<int> { if ireg then {22, 23, 24, 25, 26, 27} else {30, 31} }

  function PoolBound(ireg: bool): int { if ireg then 10 else 30 }

  function Endpoints(src: map<int, int>): set<int> { src.Keys + set b | b in src :: src[b] }

  ghost function TaskOf(src: map<int, int>, nodes: set<int>, ireg: bool): Task {
    Task(src, nodes, TempPool(ireg), PoolBound(ireg))
  }

  class TopoSort {
    var nodes: set<int>
    var edges: map<int, seq<int>>
    var visited: map<int, int>
    var tempPool: set<int>
    var nret: seq<Move>
    const ireg: bool

    constructor (nodes: set<int>, edges: map<int, seq<int>>, ireg: bool)
      ensures Here() == Start(edges, nodes, TempPool(ireg)) && this.ireg == ireg
    {
      this.nodes, this.edges, visited, tempPool, nret, this.ireg := nodes, edges, map[], TempPool(ireg), [], ireg;
    }

    function Here(): State
      reads this`nodes, this`edges, this`visited, this`tempPool, this`nret
    {
      State(nodes, edges, visited, tempPool, nret)
    }

    /** The recursive search, lines 1461-1488. */
    method Dfs(n: int, ghost U: set<int>) returns (r: int)
      requires Here().Within(U) && n in U
      modifies this`visited, this`nodes, this`tempPool, this`nret
      ensures (Here(), r) == MoveGraph.Dfs(U, PoolBound(ireg), old(Here()), n)
      decreases Here().Fresh(U)
    {
      ghost var before := Here();
      if Here().Mark(n) == 2 {
        return -1;
      }
      if Here().Mark(n) == 1 {
        visited := visited[n := 0];
        return n;
      }
      visited := visited[n := 1];
      assert Here() == before.Set(n, 1);
      assert Here().Fresh(U) <= before.Fresh(U) && n in before.Fresh(U) && n !in Here().Fresh(U);
      var to := Outs(edges, n);
      var i := 0;
      while i < |to|
        invariant 0 <= i <= |to| && edges == before.edges && n !in Here().Fresh(U) && Here().Fresh(U) < before.Fresh(U)
        invariant Kids(U, PoolBound(ireg), before.Set(n, 1), n, 0) == Kids(U, PoolBound(ireg), Here(), n, i)
      {
        r := Dfs(to[i], U);
        if r != -1 {
          visited := visited[n := 0];
          return r;
        }
        i := i + 1;
      }
      visited := visited[n := 2];
      if n >= PoolBound(ireg) {
        tempPool := tempPool + {n};
      }
      Emit(n, to);
      nodes := nodes - {n};
      r := -1;
    }

    // Lines 1481-1484.
    method Emit(n: int, to: seq<int>)
      modifies this`nret
      ensures nret == old(nret) + Moves(n, to)
    {
      var i := 0;
      while i < |to|
        invariant 0 <= i <= |to| && nret == old(nret) + Moves(n, to)[..i]
      {
        nret := nret + [(n, to[i])];
        i := i + 1;
      }
    }

    // Lines 1493-1506: register n was reached again; a temporary takes over what it feeds.
    method BreakCycle(n: int) returns (temp: int)
      requires tempPool != {} && n !in tempPool
      modifies this
      ensures IsMin(old(tempPool), temp) && Here() == Break(old(Here()), n, temp)
    {
      temp := Least(tempPool);
      nodes := nodes + {temp};
      visited := visited[temp := 0];
      edges := edges - {temp};
      tempPool := tempPool - {temp};
      var taken := Outs(edges, n);
      edges := edges - {n};
      edges := edges[temp := taken];
      nret := nret + [(n, temp)];
    }

    /** The loop of lines 1454-1508. It ends, never asks an empty pool for a temporary, and leaves a list
        of moves that carries out the whole assignment when made one by one; each edge of the move graph
        gives one move, and each cycle one more, made at its greatest register. */
    method Sort(ghost src: map<int, int>) returns (ret: seq<Move>)
      requires TaskOf(src, nodes, ireg).Ok() && Describes(TaskOf(src, nodes, ireg), edges)
      requires Here() == Start(edges, nodes, TempPool(ireg))
      modifies this
      ensures nodes == {}
      ensures var k := TaskOf(src, old(nodes), ireg);
              && Carries(k, ret) && Distinct(ret) && |ret| == |src| + |CycleTops(k)|
              && forall n :: n in k.regs ==> ((exists t :: t in k.temps && (n, t) in ret) <==> Top(src, n))
    {
      ghost var k := TaskOf(src, nodes, ireg);
      hide Good, Carries, Searched, Describes, Top, MoveGraph.Dfs, Break, Breakable;
      StartCalm(k, edges);
      while nodes != {}
        invariant Calm(k, Here())
        decreases Left(k, Here()), nodes
      {
        ghost var st := Here();
        var n := Greatest(nodes);
        CalmSearch(k, st, n);
        var r := Dfs(n, k.All());
        if r == -1 {
          RoundFinishes(k, st, n, Here());
        } else {
          ghost var s := Here();
          RoundMeetsTop(k, st, n, s, r);
          TempsApart(k, s, r);
          var t := BreakCycle(r);
          RoundBreaks(k, st, s, r, t);
        }
      }
      Finale(k, Here());
      ret := nret;
    }
  }

  lemma TempsApart(k: Task, st: State, n: int)
    requires Good(k, st) && k.Low() && n in k.regs
    ensures k.temps != {} && n !in k.temps
  {
    hide Lists, Whole, Open, Closed, Placed, Unbroken, Counted, Tops;
  }

  method Greatest(s: set<int>) returns (n: int)
    requires s != {}
    ensures IsMax(s, n)
  {
    SomeElement(s);
    n :| n in s;
    var rest := s - {n};
    while rest != {}
      invariant rest <= s && n in s && n !in rest && forall x :: x in s && x !in rest ==> x <= n
    {
      SomeElement(rest);
      var m :| m in rest;
      rest := rest - {m};
      if m > n { n := m; }
    }
  }

  method Least(s: set<int>) returns (n: int)
    requires s != {}
    ensures IsMin(s, n)
  {
    SomeElement(s);
    n :| n in s;
    var rest := s - {n};
    while rest != {}
      invariant rest <= s && n in s && n !in rest && forall x :: x in s && x !in rest ==> n <= x
    {
      SomeElement(rest);
      var m :| m in rest;
      rest := rest - {m};
      if m < n { n := m; }
    }
  }

  /** Made one by one, the moves give every destination what its source held at the start, and change no
      other register but the temporaries. */
  lemma MovesAssign<V>(k: Task, moves: seq<Move>, regs: int -> V)
    requires Carries(k, moves)
    ensures forall b :: b in k.src ==> Run(moves, regs)(b) == regs(k.src[b])
    ensures forall x :: x !in k.src && x !in k.temps ==> Run(moves, regs)(x) == regs(x)
  {
    forall x ensures Run(moves, regs)(x) == regs(Origin(moves, x)) {
      RunIsOrigin(moves, regs, x);
    }
  }
}
