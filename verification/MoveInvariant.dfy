/** What topo_sort's search keeps: pending moves still find their source, finished ones are in place. */
module MoveInvariant {
  import opened MoveGraph

  /** The problem: src gives each destination its source, temps are the registers set aside. */
  datatype Task = Task(src: map<int, int>, regs: set<int>, temps: set<int>, lo: int) {
    // Registers are known by id; only destinations and sources take part; temporaries do not.
    ghost predicate Ok() {
      && (forall b {:trigger b in src} :: b in src ==> b in regs && src[b] in regs)
      && (forall n :: n in regs ==> 0 <= n && n !in temps)
      && (forall t :: t in temps ==> 0 <= t)
      && (Acyclic(src) || Low())
    }

    // All registers are below the bound from which topo_sort takes finished registers for temporaries.
    ghost predicate Low() {
      && temps != {} && (forall n :: n in regs ==> n < lo)
      && (forall t :: t in temps ==> lo <= t)
    }

    ghost function All(): set<int> { regs + temps }
  }

  // p goes around: each member feeds the next and the last feeds the first.
  ghost predicate Cycle(src: map<int, int>, p: seq<int>) {
    && |p| > 0 && Chain(src, p) && p[0] in src && src[p[0]] == p[|p| - 1]
  }

  ghost predicate Chain(src: map<int, int>, p: seq<int>) {
    forall i, j {:trigger p[i], p[j]} :: 0 <= i < j < |p| && j == i + 1 ==> p[j] in src && src[p[j]] == p[i]
  }

  ghost predicate Acyclic(src: map<int, int>) { forall p {:trigger Cycle(src, p)} :: !Cycle(src, p) }

  // Each pending edge (u, b) belongs to one register only and only once.
  ghost predicate Once(edges: map<int, seq<int>>) {
    forall u, i, v, j {:trigger Outs(edges, u)[i], Outs(edges, v)[j]} ::
      0 <= i < |Outs(edges, u)| && 0 <= j < |Outs(edges, v)| && Outs(edges, u)[i] == Outs(edges, v)[j] ==>
          u == v && i == j
  }

  // The registers whose moves went to a temporary.
  ghost predicate Broken(k: Task, st: State, n: int) { exists t :: t in k.temps && (n, t) in st.nret }

  // Lists name destinations; those of the registers themselves are the original ones, or gone.
  ghost predicate Lists(k: Task, edges: map<int, seq<int>>) {
    && Inside(edges, k.All()) && Once(edges)
    && (forall u, i {:trigger Outs(edges, u)[i]} :: 0 <= i < |Outs(edges, u)| ==> Names(k, u, Outs(edges, u)[i]))
  }

  ghost predicate Names(k: Task, u: int, b: int) { b in k.src && u in k.All() && (u in k.regs ==> k.src[b] == u) }

  // A list is gone only where a cycle was broken.
  ghost predicate Whole(k: Task, st: State) {
    forall b {:trigger k.src[b]} :: b in k.src && !Broken(k, st, k.src[b]) ==> b in Outs(st.edges, k.src[b])
  }

  ghost predicate Open(k: Task, st: State) {
    && (forall n {:trigger st.Mark(n)} :: 0 <= st.Mark(n) <= 2)
    && (forall n :: n in st.nodes ==> n in k.All() && st.Mark(n) != 2)
    && (forall n {:trigger st.Mark(n)} :: n in k.regs && n !in st.nodes ==> st.Mark(n) == 2)
    && (k.Low() ==> forall t :: t in k.temps ==> (t in st.pool <==> t !in st.nodes))
    && (k.Low() ==> forall t :: t in st.pool ==> t in k.temps)
    && (forall u {:trigger Outs(st.edges, u)} :: u !in st.nodes && Outs(st.edges, u) != [] ==> st.Mark(u) == 2)
  }

  // Finished registers feed finished registers only.
  ghost predicate Closed(k: Task, st: State) {
    forall u, i {:trigger Outs(st.edges, u)[i]} :: st.Mark(u) == 2 && 0 <= i < |Outs(st.edges, u)| ==>
        st.Mark(Outs(st.edges, u)[i]) == 2
  }

  ghost predicate Pending(st: State, b: int) { exists u :: st.Mark(u) != 2 && b in Outs(st.edges, u) }

  // Where contents are: pending moves find their source, made moves have arrived, the rest is untouched.
  ghost predicate Placed(k: Task, st: State) {
    && (forall u, i {:trigger Outs(st.edges, u)[i]} :: st.Mark(u) != 2 && 0 <= i < |Outs(st.edges, u)| ==>
          Outs(st.edges, u)[i] in k.src && Origin(st.nret, u) == k.src[Outs(st.edges, u)[i]])
    && (forall b {:trigger Pending(st, b)} :: b in k.src && !Pending(st, b) ==> Origin(st.nret, b) == k.src[b])
    && (forall x {:trigger Origin(st.nret, x)} :: x !in k.src && x !in k.temps ==> Origin(st.nret, x) == x)
  }

  // A cycle nobody has broken has no finished member.
  ghost predicate Unbroken(k: Task, st: State) {
    forall p, i {:trigger Cycle(k.src, p), p[i]} :: Cycle(k.src, p) && 0 <= i < |p| && st.Mark(p[i]) == 2 ==>
      exists j :: 0 <= j < |p| && Broken(k, st, p[j])
  }

  // The search path: marked 1, each feeding the next.
  ghost predicate OnPath(k: Task, st: State, path: seq<int>) {
    && (forall x :: st.Mark(x) == 1 <==> x in path)
    && Linked(st, path)
  }

  ghost predicate Linked(st: State, path: seq<int>) {
    && (forall x :: x in path ==> x in st.nodes)
    && (forall i, j {:trigger path[i], path[j]} :: 0 <= i < j < |path| && j == i + 1 ==>
      path[j] in Outs(st.edges, path[i]))
    && (forall i, j :: 0 <= i < j < |path| ==> path[i] != path[j])
  }

  // Destinations whose move has been made, and registers whose contents went to a temporary.
  ghost function Sent(k: Task, st: State): set<int> { set b | b in k.src && !Pending(st, b) }

  ghost function Stashed(k: Task, st: State): set<int> { set n | n in k.regs && Broken(k, st, n) }

  ghost predicate Distinct<T>(s: seq<T>) { forall i, j :: 0 <= i < j < |s| ==> s[i] != s[j] }

  // Each move is made once, each cycle broken once.
  ghost predicate Counted(k: Task, st: State) {
    && |st.nret| == |Sent(k, st)| + |Stashed(k, st)| && Distinct(st.nret)
    && (forall m {:trigger m in st.nret} :: m in st.nret ==>
      (m.1 in k.src && !Pending(st, m.1)) || (m.0 in k.regs && m.1 in k.temps))
    && (forall n {:trigger Broken(k, st, n)} :: Broken(k, st, n) ==> Outs(st.edges, n) == [])
  }

  // n is the greatest register of a cycle.
  ghost predicate Top(src: map<int, int>, n: int) { exists c :: Cycle(src, c) && TopOf(c, n) }

  ghost predicate TopOf(c: seq<int>, n: int) { n in c && forall x :: x in c ==> x <= n }

  ghost predicate Tops(k: Task, st: State) {
    forall n {:trigger Broken(k, st, n)} :: Broken(k, st, n) ==> Top(k.src, n)
  }

  ghost predicate Good(k: Task, st: State) {
    && k.Ok() && Lists(k, st.edges) && Whole(k, st) && Open(k, st) && Closed(k, st)
    && Placed(k, st) && Unbroken(k, st) && Counted(k, st) && Tops(k, st)
  }

  // ---------- finishing a register ----------

  lemma FinishBroken(k: Task, st: State, n: int, m: int)
    requires k.Ok() && Lists(k, st.edges)
    ensures Broken(k, Finish(k.lo, st, n), m) <==> Broken(k, st, m)
  {
    var s, more := Finish(k.lo, st, n), Moves(n, Outs(st.edges, n));
    assert forall i :: 0 <= i < |more| ==> more[i].1 == Outs(st.edges, n)[i];
    forall t | t in k.temps ensures (m, t) in s.nret <==> (m, t) in st.nret {
      assert (m, t) !in more;
    }
  }

  lemma FinishOpen(k: Task, st: State, n: int)
    requires k.Ok() && Open(k, st) && n in st.nodes
    ensures Open(k, Finish(k.lo, st, n))
  {
    var s := Finish(k.lo, st, n);
    forall m | m in k.regs && m !in s.nodes ensures s.Mark(m) == 2 {
      assert m == n || st.Mark(m) == 2;
    }
    forall u | u !in s.nodes && Outs(s.edges, u) != [] ensures s.Mark(u) == 2 {
      assert Outs(st.edges, u) == Outs(s.edges, u);
    }
  }

  // All that n feeds is finished, and n itself is not.
  ghost predicate Ready(st: State, n: int) {
    st.Mark(n) == 1 && forall i {:trigger Outs(st.edges, n)[i]} :: 0 <= i < |Outs(st.edges, n)| ==>
        st.Mark(Outs(st.edges, n)[i]) == 2
  }

  lemma FinishOrigin(k: Task, st: State, n: int, x: int)
    requires Ready(st, n)
    ensures Origin(Finish(k.lo, st, n).nret, x) == Origin(st.nret, if x in Outs(st.edges, n) then n else x)
  {
    OriginMoves(st.nret, n, Outs(st.edges, n), x);
  }

  lemma FinishPending(k: Task, st: State, n: int, b: int)
    requires Lists(k, st.edges) && Ready(st, n)
    ensures Pending(Finish(k.lo, st, n), b) <==> Pending(st, b) && b !in Outs(st.edges, n)
  {
    var s := Finish(k.lo, st, n);
    if Pending(s, b) {
      var u :| s.Mark(u) != 2 && b in Outs(s.edges, u);
      assert st.Mark(u) != 2 && b in Outs(st.edges, u);
      var i :| 0 <= i < |Outs(st.edges, u)| && Outs(st.edges, u)[i] == b;
      assert forall j :: 0 <= j < |Outs(st.edges, n)| ==> Outs(st.edges, n)[j] != b;
    }
    if Pending(st, b) && b !in Outs(st.edges, n) {
      var u :| st.Mark(u) != 2 && b in Outs(st.edges, u);
      assert s.Mark(u) != 2 && b in Outs(s.edges, u);
    }
  }

  lemma FinishPlaced(k: Task, st: State, n: int)
    requires k.Ok() && Lists(k, st.edges) && Placed(k, st) && Ready(st, n)
    ensures Placed(k, Finish(k.lo, st, n))
  {
    var s, out := Finish(k.lo, st, n), Outs(st.edges, n);
    forall u, i | s.Mark(u) != 2 && 0 <= i < |Outs(s.edges, u)|
      ensures Outs(s.edges, u)[i] in k.src && Origin(s.nret, u) == k.src[Outs(s.edges, u)[i]]
    {
      assert st.Mark(u) != 2 && Outs(st.edges, u)[i] in k.src;
      assert u !in out;
      FinishOrigin(k, st, n, u);
    }
    forall b | b in k.src && !Pending(s, b) ensures Origin(s.nret, b) == k.src[b] {
      FinishPending(k, st, n, b);
      FinishOrigin(k, st, n, b);
      if b in out {
        var i :| 0 <= i < |out| && out[i] == b;
        assert Origin(st.nret, n) == k.src[out[i]];
      }
    }
    forall x | x !in k.src && x !in k.temps ensures Origin(s.nret, x) == x {
      FinishOrigin(k, st, n, x);
      assert forall i :: 0 <= i < |out| ==> out[i] in k.src;
    }
  }

  lemma FinishUnbroken(k: Task, st: State, n: int)
    requires k.Ok() && Lists(k, st.edges) && Whole(k, st) && Unbroken(k, st) && Ready(st, n)
    ensures Unbroken(k, Finish(k.lo, st, n))
  {
    var s := Finish(k.lo, st, n);
    forall p, i | Cycle(k.src, p) && 0 <= i < |p| && s.Mark(p[i]) == 2
      ensures exists j :: 0 <= j < |p| && Broken(k, s, p[j])
    {
      var j := SomeBroken(k, st, n, p, i);
      FinishBroken(k, st, n, p[j]);
    }
  }

  // n is about to finish: what it feeds on the cycle is finished, so the cycle has been broken before.
  lemma SomeBroken(k: Task, st: State, n: int, p: seq<int>, i: int) returns (j: int)
    requires k.Ok() && Lists(k, st.edges) && Whole(k, st) && Unbroken(k, st) && Ready(st, n)
    requires Cycle(k.src, p) && 0 <= i < |p| && (p[i] == n || st.Mark(p[i]) == 2)
    ensures 0 <= j < |p| && Broken(k, st, p[j])
  {
    if Broken(k, st, p[i]) {
      j := i;
    } else if st.Mark(p[i]) == 2 {
      j :| 0 <= j < |p| && Broken(k, st, p[j]);
    } else {
      var m := if i + 1 < |p| then i + 1 else 0;
      assert m != 0 ==> p[m] in k.src && k.src[p[m]] == p[i];
      assert p[m] in Outs(st.edges, n);
      assert st.Mark(p[m]) == 2;
      j :| 0 <= j < |p| && Broken(k, st, p[j]);
    }
  }

  lemma FinishGood(k: Task, st: State, n: int)
    requires Good(k, st) && Ready(st, n) && n in st.nodes
    ensures Good(k, Finish(k.lo, st, n))
  {
    hide Lists, Whole, Open, Closed, Placed, Unbroken, Ready, Broken, Counted, Top;
    FinishWhole(k, st, n);
    FinishCounted(k, st, n);
    FinishTops(k, st, n);
    FinishOpen(k, st, n);
    FinishClosed(k, st, n);
    FinishPlaced(k, st, n);
    FinishUnbroken(k, st, n);
  }

  lemma FinishClosed(k: Task, st: State, n: int)
    requires Closed(k, st) && Ready(st, n)
    ensures Closed(k, Finish(k.lo, st, n))
  {
  }

  lemma FinishWhole(k: Task, st: State, n: int)
    requires k.Ok() && Lists(k, st.edges) && Whole(k, st)
    ensures Whole(k, Finish(k.lo, st, n))
  {
    hide Broken;
    forall b | b in k.src && !Broken(k, Finish(k.lo, st, n), k.src[b]) ensures b in Outs(st.edges, k.src[b]) {
      FinishBroken(k, st, n, k.src[b]);
    }
  }

  lemma FinishTops(k: Task, st: State, n: int)
    requires k.Ok() && Lists(k, st.edges) && Tops(k, st)
    ensures Tops(k, Finish(k.lo, st, n))
  {
    hide Broken, Top;
    forall m | Broken(k, Finish(k.lo, st, n), m) ensures Top(k.src, m) {
      FinishBroken(k, st, n, m);
    }
  }

  lemma FinishCounted(k: Task, st: State, n: int)
    requires k.Ok() && Lists(k, st.edges) && Counted(k, st) && Ready(st, n)
    ensures Counted(k, Finish(k.lo, st, n))
  {
    hide Broken, Pending;
    var s, out := Finish(k.lo, st, n), Outs(st.edges, n);
    forall m ensures Broken(k, s, m) <==> Broken(k, st, m) {
      FinishBroken(k, st, n, m);
    }
    assert Stashed(k, s) == Stashed(k, st);
    forall b ensures Pending(s, b) <==> Pending(st, b) && b !in out {
      FinishPending(k, st, n, b);
    }
    FeedsPending(k, st, n);
    assert Sent(k, s) == Sent(k, st) + Elements(out);
    assert |Elements(out)| == |out| by { OutsDistinct(st.edges, n); ElementsSize(out); }
    DistinctMoves(k, st, n);
    forall m | m in s.nret ensures (m.1 in k.src && !Pending(s, m.1)) || (m.0 in k.regs && m.1 in k.temps) {
      if m !in st.nret {
        MoveOf(n, out, m);
      }
    }
  }

  ghost function Elements(s: seq<int>): set<int> { set x | x in s }

  lemma {:induction false} ElementsSize(s: seq<int>)
    requires Distinct(s)
    ensures |Elements(s)| == |s|
  {
    if |s| > 0 {
      var k := |s| - 1;
      ElementsSize(s[..k]);
      assert s == s[..k] + [s[k]];
      assert Elements(s) == Elements(s[..k]) + {s[k]} && s[k] !in s[..k];
    }
  }

  lemma OutsDistinct(edges: map<int, seq<int>>, n: int)
    requires Once(edges)
    ensures Distinct(Outs(edges, n))
  {
  }

  lemma MoveOf(n: int, to: seq<int>, m: Move)
    requires m in Moves(n, to)
    ensures m.0 == n && m.1 in to
  {
    var i :| 0 <= i < |to| && Moves(n, to)[i] == m;
    assert to[i] in to;
  }

  lemma FeedsPending(k: Task, st: State, n: int)
    requires Lists(k, st.edges) && Ready(st, n)
    ensures forall b :: b in Outs(st.edges, n) ==> Pending(st, b) && b in k.src
  {
    forall b | b in Outs(st.edges, n) ensures Pending(st, b) && b in k.src {
      var i :| 0 <= i < |Outs(st.edges, n)| && Outs(st.edges, n)[i] == b;
      assert st.Mark(n) != 2;
    }
  }

  lemma DistinctMoves(k: Task, st: State, n: int)
    requires Lists(k, st.edges) && Counted(k, st) && Ready(st, n) && k.Ok()
    ensures Distinct(Finish(k.lo, st, n).nret)
  {
    hide Pending, Broken;
    var out := Outs(st.edges, n);
    FeedsPending(k, st, n);
    OutsDistinct(st.edges, n);
    var s, more := Finish(k.lo, st, n), Moves(n, out);
    forall i, j | 0 <= i < j < |s.nret| ensures s.nret[i] != s.nret[j] {
      if j >= |st.nret| {
        assert s.nret[j] == more[j - |st.nret|];
        MoveOf(n, out, s.nret[j]);
        if i < |st.nret| {
          assert s.nret[i] in st.nret;
        } else {
          assert s.nret[i] == more[i - |st.nret|];
        }
      }
    }
  }
}
