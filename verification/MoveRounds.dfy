/** The rounds of topo_sort: each keeps the invariant and brings the end nearer, and at the end the list
    of moves is a simultaneous assignment. */
module MoveRounds {
  import opened MoveGraph
  import opened MoveInvariant
  import opened MoveSearch

  // ---------- cycles ----------

  lemma {:induction false} Down(src: map<int, int>, p: seq<int>, q: seq<int>, i: nat)
    requires Chain(src, p) && Cycle(src, q) && i < |p| && p[i] in q
    ensures forall j :: 0 <= j <= i ==> p[j] in q
  {
    if i > 0 {
      SourceInside(src, q, p[i]);
      assert src[p[i]] == p[i - 1];
      Down(src, p, q, i - 1);
    }
  }

  lemma SourceInside(src: map<int, int>, q: seq<int>, x: int)
    requires Cycle(src, q) && x in q
    ensures x in src && src[x] in q
  {
    var i :| 0 <= i < |q| && q[i] == x;
    if i > 0 {
      assert q[i - 1] in q && q[i] in src && src[q[i]] == q[i - 1];
    }
  }

  /** Cycles that share a register are the same cycle. */
  lemma SameCycle(src: map<int, int>, p: seq<int>, q: seq<int>, x: int)
    requires Cycle(src, p) && Cycle(src, q) && x in p && x in q
    ensures forall y :: y in p ==> y in q
  {
    var i :| 0 <= i < |p| && p[i] == x;
    Down(src, p, q, i);
    SourceInside(src, q, p[0]);
    Down(src, p, q, |p| - 1);
  }

  lemma OneTop(src: map<int, int>, m: int, n: int, c: seq<int>)
    requires Cycle(src, c) && TopOf(c, n) && m in c && Top(src, m)
    ensures m == n
  {
    var d :| Cycle(src, d) && TopOf(d, m);
    SameCycle(src, c, d, m);
  }

  // A loop of pending moves is a cycle of the problem.
  lemma LoopIsCycle(k: Task, st: State, c: seq<int>)
    requires k.Ok() && Lists(k, st.edges) && Loop(st.edges, st.nodes, c)
    ensures Cycle(k.src, c) && forall i :: 0 <= i < |c| ==> c[i] in k.regs
  {
    forall i | 0 <= i < |c| ensures c[i] in k.src {
      var u := c[if i == 0 then |c| - 1 else i - 1];
      assert c[i] in Outs(st.edges, u);
      Listed(k, st.edges, u, c[i]);
    }
    forall i, j | 0 <= i < |c| && 0 <= j < |c| && c[j] in Outs(st.edges, c[i]) ensures k.src[c[j]] == c[i] {
      Listed(k, st.edges, c[i], c[j]);
    }
  }

  lemma Listed(k: Task, edges: map<int, seq<int>>, u: int, b: int)
    requires k.Ok() && Lists(k, edges) && b in Outs(edges, u)
    ensures b in k.src && b in k.regs && (u in k.regs ==> k.src[b] == u)
  {
    var i :| 0 <= i < |Outs(edges, u)| && Outs(edges, u)[i] == b;
  }

  // ---------- breaking a cycle ----------

  // The search came back to n; t is a free temporary.
  ghost predicate Breakable(k: Task, st: State, n: int, t: int) {
    && Good(k, st) && n in k.regs && n in st.nodes && t in k.temps && t !in st.nodes
    && Outs(st.edges, n) != [] && Top(k.src, n)
  }

  lemma BreakOuts(st: State, n: int, t: int, u: int)
    requires n != t
    ensures Outs(Break(st, n, t).edges, u) ==
            if u == t then Outs(st.edges, n) else if u == n then [] else Outs(st.edges, u)
  {
  }

  lemma BreakLists(k: Task, st: State, n: int, t: int)
    requires k.Ok() && Lists(k, st.edges) && n in k.regs && t in k.temps
    ensures Lists(k, Break(st, n, t).edges)
  {
    var e, s := st.edges, Break(st, n, t).edges;
    forall u ensures Outs(s, u) == if u == t then Outs(e, n) else if u == n then [] else Outs(e, u) {
      BreakOuts(st, n, t, u);
    }
    forall u, i, v, j {:trigger Outs(s, u)[i], Outs(s, v)[j]}
      | 0 <= i < |Outs(s, u)| && 0 <= j < |Outs(s, v)| && Outs(s, u)[i] == Outs(s, v)[j] ensures u == v && i == j
    {
      assert Outs(e, if u == t then n else u)[i] == Outs(e, if v == t then n else v)[j];
    }
    forall u, i {:trigger Outs(s, u)[i]} | 0 <= i < |Outs(s, u)|
      ensures Names(k, u, Outs(s, u)[i]) && Outs(s, u)[i] in k.All()
    {
      assert Names(k, if u == t then n else u, Outs(e, if u == t then n else u)[i]);
    }
    assert Inside(s, k.All());
    assert Once(s);
  }

  lemma BreakBroken(k: Task, st: State, n: int, t: int, m: int)
    requires t in k.temps
    ensures Broken(k, Break(st, n, t), m) <==> Broken(k, st, m) || m == n
  {
    var s := Break(st, n, t);
    assert s.nret[|s.nret| - 1] == (n, t);
    if Broken(k, st, m) {
      var q :| q in k.temps && (m, q) in st.nret;
      assert (m, q) in s.nret;
    }
    if Broken(k, s, m) {
      var q :| q in k.temps && (m, q) in s.nret;
    }
  }

  lemma BreakWhole(k: Task, st: State, n: int, t: int)
    requires Breakable(k, st, n, t)
    ensures Whole(k, Break(st, n, t)) && Tops(k, Break(st, n, t))
  {
    hide Broken, Top, Placed, Unbroken, Counted, Closed, Open;
    var s := Break(st, n, t);
    forall b | b in k.src && !Broken(k, s, k.src[b]) ensures b in Outs(s.edges, k.src[b]) {
      BreakBroken(k, st, n, t, k.src[b]);
      BreakOuts(st, n, t, k.src[b]);
    }
    forall m | Broken(k, s, m) ensures Top(k.src, m) {
      BreakBroken(k, st, n, t, m);
    }
  }

  lemma BreakOpen(k: Task, st: State, n: int, t: int)
    requires Breakable(k, st, n, t)
    ensures Open(k, Break(st, n, t)) && Closed(k, Break(st, n, t))
  {
    hide Broken, Top, Placed, Unbroken, Counted, Whole, Once;
    var s := Break(st, n, t);
    assert forall x :: s.Mark(x) == if x == t then 0 else st.Mark(x);
    forall m | m in k.regs && m !in s.nodes ensures s.Mark(m) == 2 {
      assert st.Mark(m) == 2;
    }
    forall u | u !in s.nodes && Outs(s.edges, u) != [] ensures s.Mark(u) == 2 {
      BreakOuts(st, n, t, u);
      assert st.Mark(u) == 2;
    }
    forall u, i {:trigger Outs(s.edges, u)[i]} | s.Mark(u) == 2
        && 0 <= i < |Outs(s.edges, u)|
      ensures s.Mark(Outs(s.edges, u)[i]) == 2
    {
      BreakOuts(st, n, t, u);
      assert Outs(st.edges, u)[i] in k.src;
      assert st.Mark(Outs(st.edges, u)[i]) == 2;
    }
  }

  lemma BreakPending(k: Task, st: State, n: int, t: int, b: int)
    requires Breakable(k, st, n, t)
    ensures Pending(Break(st, n, t), b) <==> Pending(st, b)
  {
    hide Broken, Top, Placed, Unbroken, Counted, Whole, Once, Closed;
    var s := Break(st, n, t);
    if Pending(st, b) {
      var u :| st.Mark(u) != 2 && b in Outs(st.edges, u);
      var v := if u == n then t else u;
      BreakOuts(st, n, t, v);
      assert s.Mark(v) != 2 && b in Outs(s.edges, v);
    }
    if Pending(s, b) {
      var u :| s.Mark(u) != 2 && b in Outs(s.edges, u);
      var v := if u == t then n else u;
      BreakOuts(st, n, t, u);
      assert st.Mark(v) != 2 && b in Outs(st.edges, v);
    }
  }

  lemma BreakPlaced(k: Task, st: State, n: int, t: int)
    requires Breakable(k, st, n, t)
    ensures Placed(k, Break(st, n, t))
  {
    hide Broken, Top, Unbroken, Counted, Whole, Once, Closed, Pending;
    var s := Break(st, n, t);
    forall x ensures Origin(s.nret, x) == Origin(st.nret, if x == t then n else x) {
      OriginLast(st.nret, n, t, x);
    }
    forall u, i {:trigger Outs(s.edges, u)[i]} | s.Mark(u) != 2 && 0 <= i < |Outs(s.edges, u)|
      ensures Outs(s.edges, u)[i] in k.src && Origin(s.nret, u) == k.src[Outs(s.edges, u)[i]]
    {
      BreakOuts(st, n, t, u);
      var v := if u == t then n else u;
      assert st.Mark(v) != 2 && Outs(st.edges, v)[i] in k.src;
    }
    forall b | b in k.src && !Pending(s, b) ensures Origin(s.nret, b) == k.src[b] {
      BreakPending(k, st, n, t, b);
    }
  }

  lemma BreakSets(k: Task, st: State, n: int, t: int)
    requires Breakable(k, st, n, t)
    ensures Sent(k, Break(st, n, t)) == Sent(k, st)
    ensures Stashed(k, Break(st, n, t)) == Stashed(k, st) + {n} && n !in Stashed(k, st)
  {
    hide Unbroken, Broken, Top, Whole, Closed, Pending, Placed, Lists, Open, Break, Acyclic;
    forall b ensures Pending(Break(st, n, t), b) <==> Pending(st, b) {
      BreakPending(k, st, n, t, b);
    }
    forall m ensures Broken(k, Break(st, n, t), m) <==> Broken(k, st, m) || m == n {
      BreakBroken(k, st, n, t, m);
    }
  }

  lemma BreakCounted(k: Task, st: State, n: int, t: int)
    requires Breakable(k, st, n, t)
    ensures Counted(k, Break(st, n, t))
  {
    hide Unbroken, Broken, Top, Whole, Closed, Pending, Placed, Lists, Open, Origin, Acyclic, Sent, Stashed, Distinct;
    var s := Break(st, n, t);
    BreakDistinct(k, st, n, t);
    BreakSets(k, st, n, t);
    forall m | m in s.nret ensures (m.1 in k.src && !Pending(s, m.1)) || (m.0 in k.regs && m.1 in k.temps) {
      BreakPending(k, st, n, t, m.1);
      assert m in st.nret || m == (n, t);
    }
    forall m | Broken(k, s, m) ensures Outs(s.edges, m) == [] {
      BreakBroken(k, st, n, t, m);
      BreakOuts(st, n, t, m);
      InRegs(k, st, m);
    }
  }

  lemma BreakUnbroken(k: Task, st: State, n: int, t: int)
    requires Breakable(k, st, n, t)
    ensures Unbroken(k, Break(st, n, t))
  {
    hide Broken, Top, Whole, Closed, Placed, Counted, Cycle, Lists, Open;
    var s := Break(st, n, t);
    forall p: seq<int>, i | Cycle(k.src, p) && 0 <= i < |p|
        && s.Mark(p[i]) == 2
      ensures exists j :: 0 <= j < |p| && Broken(k, s, p[j])
    {
      assert st.Mark(p[i]) == 2;
      var j :| 0 <= j < |p| && Broken(k, st, p[j]);
      BreakBroken(k, st, n, t, p[j]);
    }
  }

  lemma BreakDistinct(k: Task, st: State, n: int, t: int)
    requires Breakable(k, st, n, t)
    ensures Distinct(Break(st, n, t).nret)
  {
    hide Unbroken, Broken, Top, Whole, Closed, Pending, Placed, Lists, Open;
    BrokenBy(k, st, n, t);
    assert (n, t) !in st.nret;
  }

  lemma BrokenBy(k: Task, st: State, n: int, t: int)
    requires t in k.temps
    ensures (n, t) in st.nret ==> Broken(k, st, n)
  {
  }

  lemma InRegs(k: Task, st: State, m: int)
    requires k.Ok() && Tops(k, st)
    ensures Broken(k, st, m) ==> m in k.regs
  {
    if Broken(k, st, m) {
      var c :| Cycle(k.src, c) && TopOf(c, m);
      SourceInside(k.src, c, m);
    }
  }

  lemma BreakGood(k: Task, st: State, n: int, t: int)
    requires Breakable(k, st, n, t)
    ensures Good(k, Break(st, n, t))
  {
    hide Lists, Whole, Open, Closed, Placed, Unbroken, Counted, Tops, Top, Break;
    BreakLists(k, st, n, t);
    BreakWhole(k, st, n, t);
    BreakOpen(k, st, n, t);
    BreakPlaced(k, st, n, t);
    BreakCounted(k, st, n, t);
    BreakUnbroken(k, st, n, t);
  }

  // ---------- rounds ----------

  // Between rounds no search is under way.
  ghost predicate Calm(k: Task, st: State) { Good(k, st) && forall x :: st.Mark(x) != 1 }

  // Registers that still feed others.
  ghost function Left(k: Task, st: State): set<int> { set u | u in k.regs && Outs(st.edges, u) != [] }

  lemma CalmSearch(k: Task, st: State, n: int)
    requires Calm(k, st) && n in st.nodes
    ensures st.Within(k.All()) && n in k.All() && st.Mark(n) == 0
    ensures var (s, r) := Dfs(k.All(), k.lo, st, n); Searched(k, st, [], n, s, r)
  {
    hide Closed, Placed, Unbroken, Whole, Broken, Once, Counted, Tops, Dfs, Searched, Lists;
    assert OnPath(k, st, []);
    assert Comes(st, [], n);
    DfsKeeps(k, st, [], n);
  }

  /** A round without a cycle finishes the register it started from. */
  lemma RoundFinishes(k: Task, st: State, n: int, s: State)
    requires Calm(k, st) && n in st.nodes && Searched(k, st, [], n, s, -1)
    ensures Calm(k, s) && Left(k, s) == Left(k, st) && s.nodes < st.nodes
  {
    hide Closed, Placed, Unbroken, Whole, Broken, Once, Counted, Tops, Lists;
    assert n !in s.nodes;
  }

  /** A round that met a cycle met it at the greatest register of the cycle, with all temporaries free. */
  lemma RoundMeetsTop(k: Task, st: State, n: int, s: State, r: int)
    requires Calm(k, st) && IsMax(st.nodes, n) && Searched(k, st, [], n, s, r) && r != -1
    ensures Good(k, s) && r == n && n in k.regs && k.Low() && s.pool == k.temps
        && forall t :: t in k.temps ==> Breakable(k, s, n, t)
    ensures s.edges == st.edges && forall x :: s.Mark(x) != 1
  {
    hide Closed, Placed, Unbroken, Whole, Broken, Once, Counted, Tops;
    var c :| Loop(st.edges, st.nodes, c) && c[0] == n;
    LoopIsCycle(k, st, c);
    assert TopOf(c, n);
    assert Top(k.src, n);
    assert !Acyclic(k.src);
    assert c[0] in Outs(st.edges, c[|c| - 1]);
    assert Outs(st.edges, n) != [] by { LoopFeeds(st.edges, st.nodes, c); }
    assert n in s.nodes by { assert n in k.regs; }
    forall t | t in k.temps ensures t !in s.nodes && t in s.pool {
      assert t !in st.nodes;
    }
    assert forall t :: t in s.pool <==> t in k.temps;
  }

  lemma LoopFeeds(edges: map<int, seq<int>>, nodes: set<int>, c: seq<int>)
    requires Loop(edges, nodes, c)
    ensures Outs(edges, c[0]) != []
  {
    if |c| > 1 {
      assert c[1] in Outs(edges, c[0]);
    }
  }

  lemma RoundBreaks(k: Task, st: State, s: State, n: int, t: int)
    requires Breakable(k, s, n, t) && s.edges == st.edges && forall x :: s.Mark(x) != 1
    ensures Calm(k, Break(s, n, t)) && Left(k, Break(s, n, t)) < Left(k, st)
  {
    hide Good, Top;
    BreakGood(k, s, n, t);
    RegsApart(k, s, t);
    forall u | u in k.regs ensures Outs(Break(s, n, t).edges, u) == if u == n then [] else Outs(s.edges, u) {
      BreakOuts(s, n, t, u);
    }
    assert n in Left(k, st) && n !in Left(k, Break(s, n, t));
    forall x ensures Break(s, n, t).Mark(x) != 1 {
      assert Break(s, n, t).Mark(x) == if x == t then 0 else s.Mark(x);
    }
  }

  lemma RegsApart(k: Task, st: State, t: int)
    requires Good(k, st) && t in k.temps
    ensures t !in k.regs
  {
    hide Lists, Whole, Open, Closed, Placed, Unbroken, Counted, Tops;
  }

  // ---------- the end ----------

  // A list of moves that solves the problem: every destination gets what its source held at the start
  // and only temporaries change besides; each edge is one move and each cycle one more, at its top.
  ghost predicate Carries(k: Task, moves: seq<Move>) {
    && (forall b :: b in k.src ==> Origin(moves, b) == k.src[b])
    && (forall x :: x !in k.src && x !in k.temps ==> Origin(moves, x) == x)
  }

  ghost function CycleTops(k: Task): set<int> { set n | n in k.regs && Top(k.src, n) }

  lemma AllSent(k: Task, st: State, b: int)
    requires Good(k, st) && st.nodes == {}
    ensures !Pending(st, b)
  {
    hide Lists, Whole, Closed, Placed, Unbroken, Counted, Tops;
    forall u | b in Outs(st.edges, u) ensures st.Mark(u) == 2 {
      assert Outs(st.edges, u) != [];
    }
  }

  lemma TopIsBroken(k: Task, st: State, n: int)
    requires Good(k, st) && st.nodes == {} && n in k.regs
    ensures Broken(k, st, n) <==> Top(k.src, n)
  {
    hide Lists, Whole, Closed, Placed, Counted;
    if Top(k.src, n) {
      var c :| Cycle(k.src, c) && TopOf(c, n);
      SourceInside(k.src, c, c[0]);
      assert st.Mark(c[0]) == 2;
      var j :| 0 <= j < |c| && Broken(k, st, c[j]);
      OneTop(k.src, c[j], n, c);
    }
  }

  /** When nothing is left the moves are the simultaneous assignment. */
  lemma Finale(k: Task, st: State)
    requires Good(k, st) && st.nodes == {}
    ensures Carries(k, st.nret) && Distinct(st.nret) && |st.nret| == |k.src| + |CycleTops(k)|
    ensures forall n :: n in k.regs ==> ((exists t :: t in k.temps && (n, t) in st.nret) <==> Top(k.src, n))
  {
    hide Lists, Whole, Open, Closed, Unbroken, Tops, Top, Pending;
    forall b ensures !Pending(st, b) {
      AllSent(k, st, b);
    }
    forall n | n in k.regs ensures Broken(k, st, n) <==> Top(k.src, n) {
      TopIsBroken(k, st, n);
    }
    assert Sent(k, st) == k.src.Keys;
    assert Stashed(k, st) == CycleTops(k);
  }

  // ---------- the beginning ----------

  // edges lists exactly the moves of the problem.
  ghost predicate Describes(k: Task, edges: map<int, seq<int>>) {
    && Once(edges)
    && (forall u, b {:trigger b in Outs(edges, u)} :: b in Outs(edges, u) <==> b in k.src && k.src[b] == u)
  }

  function Start(edges: map<int, seq<int>>, nodes: set<int>, pool: set<int>): State {
    State(nodes, edges, map[], pool, [])
  }

  lemma StartListed(k: Task, edges: map<int, seq<int>>, u: int)
    requires k.Ok() && Describes(k, edges)
    ensures forall i {:trigger Outs(edges, u)[i]} :: 0 <= i < |Outs(edges, u)| ==>
              Outs(edges, u)[i] in k.src && k.src[Outs(edges, u)[i]] == u && u in k.regs && Outs(edges, u)[i] in k.regs
    ensures Outs(edges, u) != [] ==> u in k.regs
  {
    hide Once, Acyclic;
    forall i | 0 <= i < |Outs(edges, u)|
      ensures Outs(edges, u)[i] in k.src && k.src[Outs(edges, u)[i]] == u && u in k.regs && Outs(edges, u)[i] in k.regs
    {
      var b := Outs(edges, u)[i];
      assert b in Outs(edges, u);
      assert b in k.src && k.src[b] == u;
    }
    if Outs(edges, u) != [] {
      assert Outs(edges, u)[0] in k.src;
    }
  }

  lemma StartLists(k: Task, edges: map<int, seq<int>>)
    requires k.Ok() && Describes(k, edges)
    ensures Lists(k, edges) && Whole(k, Start(edges, k.regs, k.temps)) && Open(k, Start(edges, k.regs, k.temps))
  {
    hide Acyclic, Broken;
    var st := Start(edges, k.regs, k.temps);
    forall u, i {:trigger Outs(edges, u)[i]} | 0 <= i < |Outs(edges, u)|
      ensures Names(k, u, Outs(edges, u)[i]) && Outs(edges, u)[i] in k.All()
    {
      StartListed(k, edges, u);
    }
    forall u ensures Outs(st.edges, u) == [] || u in st.nodes {
      StartListed(k, edges, u);
    }
  }

  lemma StartCounted(k: Task, edges: map<int, seq<int>>)
    requires k.Ok() && Describes(k, edges)
    ensures var st := Start(edges, k.regs, k.temps); Placed(k, st) && Counted(k, st) && Tops(k, st)
  {
    hide Acyclic, Once, Top;
    var st := Start(edges, k.regs, k.temps);
    forall b | b in k.src ensures Pending(st, b) {
      assert st.Mark(k.src[b]) != 2 && b in Outs(st.edges, k.src[b]);
    }
    forall u, i {:trigger Outs(st.edges, u)[i]} | st.Mark(u) != 2 && 0 <= i < |Outs(st.edges, u)|
      ensures Outs(st.edges, u)[i] in k.src && Origin(st.nret, u) == k.src[Outs(st.edges, u)[i]]
    {
      StartListed(k, edges, u);
    }
    assert Sent(k, st) == {} && Stashed(k, st) == {};
  }

  lemma StartCalm(k: Task, edges: map<int, seq<int>>)
    requires k.Ok() && Describes(k, edges)
    ensures Calm(k, Start(edges, k.regs, k.temps))
  {
    hide Placed, Counted, Tops, Lists, Whole, Open, Describes, Broken;
    StartLists(k, edges);
    StartCounted(k, edges);
  }
}
