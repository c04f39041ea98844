/** The search of topo_sort keeps the invariant and meets a cycle only at the register it started from. */
module MoveSearch {
  import opened MoveGraph
  import opened MoveInvariant

  // A loop of pending moves through n among these registers.
  ghost predicate Loop(edges: map<int, seq<int>>, nodes: set<int>, c: seq<int>) {
    && |c| > 0 && (forall i :: 0 <= i < |c| ==> c[i] in nodes)
    && (forall i, j {:trigger c[i], c[j]} :: 0 <= i < j < |c| && j == i + 1 ==> c[j] in Outs(edges, c[i]))
    && c[0] in Outs(edges, c[|c| - 1])
  }

  ghost predicate LoopsAt(edges: map<int, seq<int>>, nodes: set<int>, n: int) {
    exists c :: Loop(edges, nodes, c) && c[0] == n
  }

  lemma LoopsMore(edges: map<int, seq<int>>, fewer: set<int>, nodes: set<int>, n: int)
    requires fewer <= nodes && LoopsAt(edges, fewer, n)
    ensures LoopsAt(edges, nodes, n)
  {
    var c :| Loop(edges, fewer, c) && c[0] == n;
    assert Loop(edges, nodes, c);
  }

  // Marking an unfinished register changes nothing the invariant speaks of.
  lemma SetGood(k: Task, st: State, n: int, mark: int)
    requires Good(k, st) && st.Mark(n) != 2 && 0 <= mark <= 1
    ensures Good(k, st.Set(n, mark))
  {
    hide Lists, Open, Placed, Counted, Unbroken, Closed;
    SetOpen(k, st, n, mark);
    SetPlaced(k, st, n, mark);
    SetCounted(k, st, n, mark);
    SetUnbroken(k, st, n, mark);
  }

  lemma SetPlaced(k: Task, st: State, n: int, mark: int)
    requires Placed(k, st) && st.Mark(n) != 2 && 0 <= mark <= 1
    ensures Placed(k, st.Set(n, mark))
  {
    hide Pending, Origin;
    forall b ensures Pending(st.Set(n, mark), b) <==> Pending(st, b) {
      SetPending(st, n, mark, b);
    }
  }

  lemma SetCounted(k: Task, st: State, n: int, mark: int)
    requires Counted(k, st) && Tops(k, st) && Whole(k, st) && st.Mark(n) != 2 && 0 <= mark <= 1
    ensures Counted(k, st.Set(n, mark)) && Tops(k, st.Set(n, mark)) && Whole(k, st.Set(n, mark))
  {
    hide Pending, Broken, Distinct, Top;
    var s := st.Set(n, mark);
    forall b ensures Pending(s, b) <==> Pending(st, b) {
      SetPending(st, n, mark, b);
    }
    forall m ensures Broken(k, s, m) <==> Broken(k, st, m) {
      SetBroken(k, st, n, mark, m);
    }
    assert Sent(k, s) == Sent(k, st) && Stashed(k, s) == Stashed(k, st);
  }

  lemma SetUnbroken(k: Task, st: State, n: int, mark: int)
    requires Unbroken(k, st) && Closed(k, st) && st.Mark(n) != 2 && 0 <= mark <= 1
    ensures Unbroken(k, st.Set(n, mark)) && Closed(k, st.Set(n, mark))
  {
    hide Broken, Cycle;
    var s := st.Set(n, mark);
    assert forall x :: s.Mark(x) == 2 <==> st.Mark(x) == 2;
    forall m ensures Broken(k, s, m) <==> Broken(k, st, m) {
      SetBroken(k, st, n, mark, m);
    }
  }

  lemma SetOpen(k: Task, st: State, n: int, mark: int)
    requires Open(k, st) && st.Mark(n) != 2 && 0 <= mark <= 1
    ensures Open(k, st.Set(n, mark))
  {
    var s := st.Set(n, mark);
    assert forall x :: s.Mark(x) == if x == n then mark else st.Mark(x);
    forall u | u !in s.nodes && Outs(s.edges, u) != [] ensures s.Mark(u) == 2 {
      assert Outs(st.edges, u) == Outs(s.edges, u);
    }
    forall m | m in k.regs && m !in s.nodes ensures s.Mark(m) == 2 {
      assert st.Mark(m) == 2;
    }
  }

  lemma SetPending(st: State, n: int, mark: int, b: int)
    requires st.Mark(n) != 2 && 0 <= mark <= 1
    ensures Pending(st.Set(n, mark), b) <==> Pending(st, b)
  {
    var s := st.Set(n, mark);
    if Pending(st, b) {
      var u :| st.Mark(u) != 2 && b in Outs(st.edges, u);
      assert s.Mark(u) != 2;
    }
    if Pending(s, b) {
      var u :| s.Mark(u) != 2 && b in Outs(s.edges, u);
      assert st.Mark(u) != 2;
    }
  }

  lemma SetBroken(k: Task, st: State, n: int, mark: int, m: int)
    ensures Broken(k, st.Set(n, mark), m) <==> Broken(k, st, m)
  {
  }

  // What is finished stays finished.
  ghost predicate Later(st: State, s: State) {
    && s.edges == st.edges && s.nodes <= st.nodes
    && forall x {:trigger s.Mark(x)} :: st.Mark(x) == 2 ==> s.Mark(x) == 2
  }

  // The search gave up at the start of the path and cleared its marks from the end of the path on.
  ghost predicate GaveUp(k: Task, st: State, s: State, rest: seq<int>, root: int) {
    && Good(k, s) && Later(st, s) && LoopsAt(st.edges, st.nodes, root)
    && s.Mark(root) != 2 && forall x :: s.Mark(x) == 1 <==> x in rest && x != root
  }

  lemma OneFeeder(edges: map<int, seq<int>>, u: int, v: int, b: int)
    requires Once(edges) && b in Outs(edges, u) && b in Outs(edges, v)
    ensures u == v
  {
    var i :| 0 <= i < |Outs(edges, u)| && Outs(edges, u)[i] == b;
    var j :| 0 <= j < |Outs(edges, v)| && Outs(edges, v)[j] == b;
  }

  // The only marked register a search can meet is its start.
  lemma MeetsRoot(k: Task, st: State, path: seq<int>, n: int)
    requires Lists(k, st.edges) && OnPath(k, st, path) && st.Mark(n) == 1 && |path| > 0
        && n in Outs(st.edges, path[|path| - 1])
    ensures n == path[0] && LoopsAt(st.edges, st.nodes, n)
  {
    var j :| 0 <= j < |path| && path[j] == n;
    var i := if j > 0 then j - 1 else |path| - 1;
    assert j > 0 ==> path[j] in Outs(st.edges, path[i]);
    OneFeeder(st.edges, path[i], path[|path| - 1], n);
    assert Loop(st.edges, st.nodes, path);
  }

  lemma Detected(k: Task, st: State, path: seq<int>, n: int)
    requires Good(k, st) && OnPath(k, st, path) && Comes(st, path, n) && st.Mark(n) == 1
    ensures 0 <= n && Searched(k, st, path, n, st.Set(n, 0), n)
  {
    hide Closed, Placed, Unbroken, Whole, Broken, Once, Loop;
    InAll(k, st, path, n);
    MeetsRoot(k, st, path, n);
    SetGood(k, st, n, 0);
  }

  ghost predicate Comes(st: State, path: seq<int>, n: int) {
    if |path| == 0 then n in st.nodes && st.Mark(n) == 0 else n in Outs(st.edges, path[|path| - 1])
  }

  ghost function Root(path: seq<int>, n: int): int { if |path| == 0 then n else path[0] }

  // The search comes back: to a finished n, or giving up at the start.
  ghost predicate Searched(k: Task, st: State, path: seq<int>, n: int, s: State, r: int) {
    if r == -1 then Good(k, s) && Later(st, s) && OnPath(k, s, path) && s.Mark(n) == 2
    else r == Root(path, n) && GaveUp(k, st, s, path, r)
  }

  lemma {:induction false} DfsKeeps(k: Task, st: State, path: seq<int>, n: int)
    requires Good(k, st) && OnPath(k, st, path) && Comes(st, path, n)
    ensures st.Within(k.All()) && n in k.All()
    ensures var (s, r) := Dfs(k.All(), k.lo, st, n); Searched(k, st, path, n, s, r)
    decreases st.Fresh(k.All()), 0
  {
    hide Good, OnPath, Comes, Searched, Kids;
    InAll(k, st, path, n);
    if st.Mark(n) == 1 {
      Detected(k, st, path, n);
    } else if st.Mark(n) == 0 {
      SetGood(k, st, n, 1);
      Deeper(k, st, path, n);
      var s := st.Set(n, 1);
      assert s.Fresh(k.All()) <= st.Fresh(k.All()) && n in st.Fresh(k.All()) && n !in s.Fresh(k.All());
      KidsKeeps(k, s, path + [n], 0);
      var (s', r) := Kids(k.All(), k.lo, s, n, 0);
      Resumed(k, st, path, n, s', r);
    } else {
      Arrived(k, st, path, n);
    }
  }

  lemma Resumed(k: Task, st: State, path: seq<int>, n: int, s: State, r: int)
    requires st.Mark(n) == 0 && Searched(k, st.Set(n, 1), (path + [n])[..|path + [n]| - 1], n, s, r)
    requires r != -1 ==> r == (path + [n])[0]
    ensures Searched(k, st, path, n, s, r)
  {
    hide Good, LoopsAt, OnPath;
    assert (path + [n])[..|path + [n]| - 1] == path;
    assert forall x :: st.Mark(x) == 2 ==> st.Set(n, 1).Mark(x) == 2;
  }

  lemma Arrived(k: Task, st: State, path: seq<int>, n: int)
    requires Good(k, st) && OnPath(k, st, path) && st.Mark(n) == 2
    ensures Searched(k, st, path, n, st, -1)
  {
  }

  lemma InAll(k: Task, st: State, path: seq<int>, n: int)
    requires Good(k, st) && OnPath(k, st, path) && Comes(st, path, n)
    ensures st.Within(k.All()) && n in k.All() && 0 <= n && (n in st.nodes || st.Mark(n) == 2) && 0 <= st.Mark(n) <= 2
  {
    hide Closed, Placed, Unbroken, Whole, Broken, Once;
    if |path| > 0 {
      var out := Outs(st.edges, path[|path| - 1]);
      var i :| 0 <= i < |out| && out[i] == n;
      assert out[i] in k.src;
    }
  }

  lemma Deeper(k: Task, st: State, path: seq<int>, n: int)
    requires OnPath(k, st, path) && Comes(st, path, n) && st.Mark(n) == 0 && n in st.nodes
    ensures OnPath(k, st.Set(n, 1), path + [n])
  {
    assert n !in path;
  }

  lemma Shallower(k: Task, st: State, s: State, path: seq<int>)
    requires |path| > 0 && OnPath(k, st, path) && s.edges == st.edges
    requires forall x :: s.Mark(x) == 1 <==> x in path && x != path[|path| - 1]
    requires forall x :: x in st.nodes && x != path[|path| - 1] ==> x in s.nodes
    ensures OnPath(k, s, path[..|path| - 1])
  {
    var p := path[..|path| - 1];
    assert path == p + [path[|path| - 1]];
    assert forall x :: x in p ==> x in path && x != path[|path| - 1];
  }

  // The first i registers that n feeds are finished.
  ghost predicate Fed(st: State, n: int, i: nat) {
    i <= |Outs(st.edges, n)| && forall j {:trigger Outs(st.edges, n)[j]} :: 0 <= j < i ==>
        st.Mark(Outs(st.edges, n)[j]) == 2
  }

  lemma {:induction false} KidsKeeps(k: Task, st: State, path: seq<int>, i: nat)
    requires Good(k, st) && |path| > 0 && OnPath(k, st, path) && Fed(st, path[|path| - 1], i)
    ensures st.Within(k.All()) && path[|path| - 1] in k.All() && st.Mark(path[|path| - 1]) == 1
    ensures var n := path[|path| - 1];
            var (s, r) := Kids(k.All(), k.lo, st, n, i);
            Searched(k, st, path[..|path| - 1], n, s, r) && (r != -1 ==> r == path[0])
    decreases st.Fresh(k.All()), 1 + |Outs(st.edges, path[|path| - 1])| - i
  {
    hide Good, OnPath, Searched, Dfs;
    var n := path[|path| - 1];
    AtEnd(k, st, path);
    if i == |Outs(st.edges, n)| {
      Finished(k, st, path);
    } else {
      var b := Outs(st.edges, n)[i];
      DfsKeeps(k, st, path, b);
      var (s, r) := Dfs(k.All(), k.lo, st, b);
      if r != -1 {
        KidsGiveUp(k, st, s, path, b, r);
      } else {
        KidFinished(k, st, s, path, i);
        KidsKeeps(k, s, path, i + 1);
        var (s', r') := Kids(k.All(), k.lo, s, n, i + 1);
        KidsGoOn(k, st, s, s', path[..|path| - 1], n, r');
      }
    }
  }

  lemma AtEnd(k: Task, st: State, path: seq<int>)
    requires Good(k, st) && |path| > 0 && OnPath(k, st, path)
    ensures st.Within(k.All()) && path[|path| - 1] in k.All() && path[|path| - 1] in st.nodes
        && st.Mark(path[|path| - 1]) == 1
  {
    hide Closed, Placed, Unbroken, Whole, Broken, Once;
    var n := path[|path| - 1];
    assert n in path;
    assert n in st.nodes;
    assert n in k.All();
  }

  lemma Finished(k: Task, st: State, path: seq<int>)
    requires Good(k, st) && |path| > 0 && OnPath(k, st, path)
        && Fed(st, path[|path| - 1], |Outs(st.edges, path[|path| - 1])|)
    ensures Searched(k, st, path[..|path| - 1], path[|path| - 1], Finish(k.lo, st, path[|path| - 1]), -1)
  {
    hide Good;
    AtEnd(k, st, path);
    FinishGood(k, st, path[|path| - 1]);
    Shallower(k, st, Finish(k.lo, st, path[|path| - 1]), path);
  }

  lemma KidFinished(k: Task, st: State, s: State, path: seq<int>, i: nat)
    requires |path| > 0 && Fed(st, path[|path| - 1], i) && i < |Outs(st.edges, path[|path| - 1])|
    requires Searched(k, st, path, Outs(st.edges, path[|path| - 1])[i], s, -1)
    ensures Good(k, s) && OnPath(k, s, path) && Fed(s, path[|path| - 1], i + 1) && Later(st, s)
  {
  }

  lemma KidsGoOn(k: Task, st: State, s: State, s': State, up: seq<int>, n: int, r: int)
    requires Later(st, s) && Searched(k, s, up, n, s', r)
    ensures Searched(k, st, up, n, s', r)
  {
    hide Good, OnPath;
    if r != -1 {
      LoopsMore(st.edges, s.nodes, st.nodes, r);
    }
  }

  lemma KidsGiveUp(k: Task, st: State, s: State, path: seq<int>, b: int, r: int)
    requires |path| > 0 && OnPath(k, st, path) && Searched(k, st, path, b, s, r) && r != -1
    ensures r == path[0] && Searched(k, st, path[..|path| - 1], path[|path| - 1], s.Set(path[|path| - 1], 0), r)
  {
    hide Good, LoopsAt, OnPath;
    var n, up := path[|path| - 1], path[..|path| - 1];
    LastMark(k, st, path);
    assert s.Mark(n) != 2;
    SetGood(k, s, n, 0);
    assert forall x :: s.Set(n, 0).Mark(x) == if x == n then 0 else s.Mark(x);
  }

  lemma LastMark(k: Task, st: State, path: seq<int>)
    requires |path| > 0 && OnPath(k, st, path)
    ensures var n, up := path[|path| - 1], path[..|path| - 1];
            st.Mark(n) == 1 && n in path && n !in up && forall x :: x != n ==> (x in path <==> x in up)
  {
    var n, up := path[|path| - 1], path[..|path| - 1];
    assert path == up + [n];
  }
}
