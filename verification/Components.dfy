/** Strongly connected components, and why Tarjan's search (src/Optimize/LoopSearch.cc, lines 43-81) finds
    exactly them. */
module Components {
  import opened Graphs

  // ---------- reachability ----------

  lemma ReachSelf(g: Graph, a: Node)
    requires a in g.nodes
    ensures Reaches(g, a, a)
  {
    SinglePath(g, a);
  }

  lemma ReachTrans(g: Graph, a: Node, b: Node, c: Node)
    requires Reaches(g, a, b) && Reaches(g, b, c)
    ensures Reaches(g, a, c)
  {
    var p :| Joins(g, p, a, b);
    var q :| Joins(g, q, b, c);
    JoinPaths(g, p, q, a, b, c);
  }

  lemma ReachEdge(g: Graph, a: Node, b: Node)
    requires a in g.nodes && g.Edge(a, b)
    ensures Reaches(g, a, b)
  {
    SinglePath(g, a);
    ExtendPath(g, [a], a, a, b);
  }

  ghost predicate ClosedSet(g: Graph, s: set<Node>) {
    forall x, y {:trigger g.Edge(x, y)} :: x in s && g.Edge(x, y) ==> y in s
  }

  lemma {:induction false} PathStays(g: Graph, s: set<Node>, p: seq<Node>, a: Node, b: Node)
    requires ClosedSet(g, s) && a in s && Joins(g, p, a, b)
    ensures b in s
    decreases |p|
  {
    if |p| > 1 {
      PathStays(g, s, p[..|p| - 1], a, p[|p| - 2]);
    }
  }

  lemma ReachStays(g: Graph, s: set<Node>, a: Node, b: Node)
    requires ClosedSet(g, s) && a in s && Reaches(g, a, b)
    ensures b in s
  {
    var p :| Joins(g, p, a, b);
    PathStays(g, s, p, a, b);
  }

  ghost predicate Mutual(g: Graph, a: Node, b: Node) { Reaches(g, a, b) && Reaches(g, b, a) }

  /** s is a component: whatever is mutually reachable with one member, and nothing else. */
  ghost predicate IsScc(g: Graph, s: set<Node>) {
    && s != {} && (forall x :: x in s ==> x in g.nodes)
    && forall x, y {:trigger Mutual(g, x, y)} :: x in s && y in g.nodes ==> (y in s <==> Mutual(g, x, y))
  }

  // More than one node, or a node that is its own successor.
  ghost predicate Cyclic(g: Graph, s: set<Node>) { |s| > 1 || exists x :: x in s && g.Edge(x, x) }

  lemma SameScc(g: Graph, s: set<Node>, t: set<Node>, x: Node)
    requires IsScc(g, s) && IsScc(g, t) && x in s && x in t
    ensures s == t
  {
    forall y ensures y in s <==> y in t {
      if y in g.nodes {
        assert Mutual(g, x, y) || !Mutual(g, x, y);
      }
    }
  }

  // ---------- the state of the search ----------

  /** A node without an entry in dfn has not been reached (dfn == -1). */
  datatype Search = Search(dfn: map<Node, int>, inStack: set<Node>, stack: seq<Node>, count: int,
      result: set<set<Node>>) {
    // Reached and assigned to a component.
    ghost function Done(): set<Node> { dfn.Keys - inStack }
  }

  ghost predicate Stacked(st: Search) {
    && 0 <= st.count
    && (forall x :: x in st.inStack <==> x in st.stack)
    && (forall x :: x in st.inStack ==> x in st.dfn)
    && (forall x {:trigger st.dfn[x]} :: x in st.dfn ==> 0 <= st.dfn[x] < st.count)
    && (forall i, j {:trigger st.stack[i], st.stack[j]} :: 0 <= i < j < |st.stack| ==>
      st.dfn[st.stack[i]] < st.dfn[st.stack[j]])
  }

  // Nodes that are reached but no longer being searched lead to reached nodes; finished ones to finished ones.
  ghost predicate Explored(g: Graph, st: Search, gray: set<Node>) {
    && (forall x :: x in st.dfn ==> x in g.nodes)
    && (forall x, y {:trigger g.Edge(x, y)} :: x in st.dfn && x !in gray && g.Edge(x, y) ==> y in st.dfn)
    && ClosedSet(g, st.Done())
  }

  // The stack is a chain of reachability, and everything on it leads back to a node being searched.
  ghost predicate Threaded(g: Graph, st: Search, gray: set<Node>) {
    && (forall x :: x in gray ==> x in st.inStack)
    && (forall x, y {:trigger Reaches(g, x, y)} ::
      x in st.inStack && y in st.inStack && x in st.dfn && y in st.dfn && st.dfn[x] <= st.dfn[y] ==> Reaches(g, x, y))
    && (forall y {:trigger LeadsBack(g, st, gray, y)} :: y in st.inStack ==> LeadsBack(g, st, gray, y))
  }

  ghost predicate LeadsBack(g: Graph, st: Search, gray: set<Node>, y: Node) {
    exists x :: x in gray && x in st.dfn && y in st.dfn && st.dfn[x] <= st.dfn[y] && Reaches(g, y, x)
  }

  // The components found are those of the finished nodes.
  ghost predicate Found(g: Graph, st: Search) {
    && (forall s {:trigger s in st.result} :: s in st.result <==> IsScc(g, s) && Cyclic(g, s) && s <= st.Done())
    && (forall x, y {:trigger Mutual(g, x, y)} :: x in st.Done() && Mutual(g, x, y) ==> y in st.Done())
  }

  ghost predicate Inv(g: Graph, st: Search, gray: set<Node>) {
    g.Valid() && Stacked(st) && Explored(g, st, gray) && Threaded(g, st, gray) && Found(g, st)
  }

  // st continues old_: numbers stay, the old stack is still there.
  ghost predicate Continues(old_: Search, st: Search) {
    && (forall x :: x in old_.dfn ==> x in st.dfn && st.dfn[x] == old_.dfn[x])
    && old_.count <= st.count
    && (forall x :: x in st.dfn && x !in old_.dfn ==> old_.count <= st.dfn[x])
    && old_.stack <= st.stack
    && (forall x :: x in old_.dfn ==> (x in st.inStack <==> x in old_.inStack))
  }

  // low is the least number that new nodes on the stack lead to among the old stack, or that of now itself.
  ghost predicate LowIs(g: Graph, old_: Search, st: Search, now: Node, low: int) {
    && now in st.dfn && low <= st.dfn[now]
    && (low < st.dfn[now] ==> exists y :: y in old_.inStack && y in st.dfn && st.dfn[y] == low && Reaches(g, now, y))
    && (forall x, y {:trigger g.Edge(x, y)} ::
      x in st.inStack && x !in old_.inStack && y in old_.inStack && y in st.dfn && g.Edge(x, y) ==> low <= st.dfn[y])
  }

  /** What one call of traverse achieves. */
  ghost predicate Traversed(g: Graph, old_: Search, gray: set<Node>, st: Search, now: Node, low: int) {
    Inv(g, st, gray) && Continues(old_, st) && LowIs(g, old_, st, now, low) && (now in st.inStack ==> low < st.dfn[now])
  }

  ghost predicate Entered(g: Graph, st: Search, gray: set<Node>, now: Node) {
    Inv(g, st, gray) && now in g.nodes && now !in st.dfn
        && forall x {:trigger Reaches(g, x, now)} :: x in gray ==> Reaches(g, x, now)
  }

  // In the middle of traverse(now): its successors in seen have been looked at.
  ghost predicate Underway(g: Graph, old_: Search, gray: set<Node>, st: Search, now: Node, low: int, seen: set<Node>) {
    && Entered(g, old_, gray, now) && Inv(g, st, gray + {now}) && Continues(old_, st)
    && now in st.inStack && now in st.dfn && st.dfn[now] == old_.count
    && |st.stack| > |old_.stack| && st.stack[|old_.stack|] == now
    && LowSoFar(g, old_, st, now, low, seen) && forall y :: y in seen ==> y in st.dfn
  }

  ghost predicate LowSoFar(g: Graph, old_: Search, st: Search, now: Node, low: int, seen: set<Node>) {
    && now in st.dfn && low <= st.dfn[now]
    && (low < st.dfn[now] ==> LowReached(g, old_, st, now, low))
    && (forall x, y {:trigger g.Edge(x, y)} ::
          (x in st.inStack && x !in old_.inStack && (x == now ==> y in seen) && y in old_.inStack && y in st.dfn
           && g.Edge(x, y)) ==> low <= st.dfn[y])
  }

  ghost predicate LowReached(g: Graph, old_: Search, st: Search, now: Node, low: int) {
    exists y :: y in old_.inStack && y in st.dfn && st.dfn[y] == low && Reaches(g, now, y)
  }

  // ---------- entering a node ----------

  function Push(st: Search, now: Node): Search {
    Search(st.dfn[now := st.count], st.inStack + {now}, st.stack + [now], st.count + 1, st.result)
  }

  lemma PushThreaded(g: Graph, st: Search, gray: set<Node>, now: Node)
    requires Entered(g, st, gray, now)
    ensures Threaded(g, Push(st, now), gray + {now})
  {
    hide Path, ClosedSet, Found, Reaches;
    var s := Push(st, now);
    ReachSelf(g, now);
    forall x | x in st.inStack ensures Reaches(g, x, now) {
      assert LeadsBack(g, st, gray, x);
      var z :| z in gray && z in st.dfn && x in st.dfn && st.dfn[z] <= st.dfn[x] && Reaches(g, x, z);
      ReachTrans(g, x, z, now);
    }
    forall y | y in s.inStack ensures LeadsBack(g, s, gray + {now}, y) {
      if y != now {
        assert LeadsBack(g, st, gray, y);
        var z :| z in gray && z in st.dfn && y in st.dfn && st.dfn[z] <= st.dfn[y] && Reaches(g, y, z);
        assert z in gray + {now} && s.dfn[z] <= s.dfn[y];
      } else {
        assert now in gray + {now} && s.dfn[now] <= s.dfn[now];
      }
    }
  }

  lemma PushUnderway(g: Graph, st: Search, gray: set<Node>, now: Node)
    requires Entered(g, st, gray, now)
    ensures Underway(g, st, gray, Push(st, now), now, st.count, {})
  {
    hide Path, Reaches, IsScc, Cyclic, Threaded, Found, Explored;
    var s := Push(st, now);
    PushThreaded(g, st, gray, now);
    PushExplored(g, st, gray, now);
    assert s.stack[|st.stack|] == now;
  }

  lemma PushExplored(g: Graph, st: Search, gray: set<Node>, now: Node)
    requires Entered(g, st, gray, now)
    ensures Stacked(Push(st, now)) && Explored(g, Push(st, now), gray + {now}) && Found(g, Push(st, now))
  {
    hide Path, Reaches, IsScc, Cyclic, Threaded;
    assert now !in st.inStack;
    var s := Push(st, now);
    assert s.Done() == st.Done();
    forall i, j | 0 <= i < j < |s.stack|
      ensures s.stack[i] in s.dfn && s.stack[j] in s.dfn && s.dfn[s.stack[i]] < s.dfn[s.stack[j]]
    {
      assert s.stack[i] == st.stack[i] && st.stack[i] in st.stack;
      assert j < |st.stack| ==> s.stack[j] == st.stack[j] && st.stack[j] in st.stack;
    }
  }

  // ---------- looking at a successor ----------

  lemma EntersChild(g: Graph, old_: Search, gray: set<Node>, st: Search, now: Node, low: int, seen: set<Node>,
      next: Node)
    requires Underway(g, old_, gray, st, now, low, seen) && g.Edge(now, next) && next !in st.dfn
    ensures Entered(g, st, gray + {now}, next)
  {
    hide Path, Reaches, IsScc, Cyclic, Found, ClosedSet, LeadsBack;
    ReachEdge(g, now, next);
    forall x | x in gray + {now} ensures Reaches(g, x, next) {
      if x != now {
        assert x in old_.inStack && x in st.inStack && st.dfn[x] <= st.dfn[now];
        assert Reaches(g, x, now);
        ReachTrans(g, x, now, next);
      }
    }
  }

  lemma ChildContinues(old_: Search, st: Search, s: Search)
    requires Continues(old_, st) && Continues(st, s)
    ensures Continues(old_, s)
  {
  }

  function Min(a: int, b: int): int { if a < b then a else b }

  lemma LowLess(g: Graph, old_: Search, st: Search, now: Node, low: int, y: Node)
    requires Continues(old_, st) && y in old_.inStack && y in st.dfn && Reaches(g, now, y)
    ensures LowReached(g, old_, st, now, st.dfn[y])
  {
  }

  // ---------- the cases of the loop ----------

  // y on the stack is either old, or numbered at least like now.
  lemma OldOrLater(g: Graph, old_: Search, gray: set<Node>, st: Search, now: Node, low: int, seen: set<Node>, y: Node)
    requires Underway(g, old_, gray, st, now, low, seen) && y in st.inStack
    ensures y in st.dfn && (y in old_.inStack || st.dfn[now] <= st.dfn[y])
  {
  }

  lemma OldNumbered(g: Graph, old_: Search, gray: set<Node>, st: Search, now: Node, low: int, seen: set<Node>)
    requires Underway(g, old_, gray, st, now, low, seen)
    ensures forall y :: y in old_.inStack ==> y in old_.dfn
  {
  }

  lemma SeesFinished(g: Graph, old_: Search, gray: set<Node>, st: Search, now: Node, low: int, seen: set<Node>,
      next: Node)
    requires Underway(g, old_, gray, st, now, low, seen) && next in st.dfn && next !in st.inStack
    ensures Underway(g, old_, gray, st, now, low, seen + {next})
  {
    hide Inv, Entered, LowReached;
  }

  lemma SeesStacked(g: Graph, old_: Search, gray: set<Node>, st: Search, now: Node, low: int, seen: set<Node>,
      next: Node)
    requires Underway(g, old_, gray, st, now, low, seen) && next in st.dfn && next in st.inStack && g.Edge(now, next)
    requires now in g.nodes
    ensures Underway(g, old_, gray, st, now, Min(st.dfn[next], low), seen + {next})
  {
    hide Inv, Entered, Reaches, LowReached;
    OldOrLater(g, old_, gray, st, now, low, seen, next);
    ReachEdge(g, now, next);
    if st.dfn[next] < low {
      assert next in old_.inStack;
      LowLess(g, old_, st, now, low, next);
    }
  }

  lemma SeesChild(g: Graph, old_: Search, gray: set<Node>, st: Search, now: Node, low: int, seen: set<Node>,
                  s: Search, next: Node, childLow: int)
    requires Underway(g, old_, gray, st, now, low, seen) && g.Edge(now, next) && next !in st.dfn && now in g.nodes
    requires Traversed(g, st, gray + {now}, s, next, childLow)
    ensures Underway(g, old_, gray, s, now, Min(childLow, low), seen + {next})
  {
    hide Inv, Entered, Reaches, Traversed;
    assert Inv(g, s, gray + {now}) && Continues(st, s)
        && LowIs(g, st, s, next, childLow) by { TraversedGives(g, st, gray + {now}, s, next, childLow); }
    ChildContinues(old_, st, s);
    ChildLow(g, old_, gray, st, now, low, seen, s, next, childLow);
  }

  lemma TraversedGives(g: Graph, old_: Search, gray: set<Node>, st: Search, now: Node, low: int)
    requires Traversed(g, old_, gray, st, now, low)
    ensures Inv(g, st, gray) && Continues(old_, st) && LowIs(g, old_, st, now, low)
  {
    hide Inv;
  }

  lemma ChildLow(g: Graph, old_: Search, gray: set<Node>, st: Search, now: Node, low: int, seen: set<Node>,
                 s: Search, next: Node, childLow: int)
    requires Underway(g, old_, gray, st, now, low, seen) && g.Edge(now, next) && next !in st.dfn && now in g.nodes
    requires Continues(st, s) && Continues(old_, s) && LowIs(g, st, s, next, childLow)
    ensures LowSoFar(g, old_, s, now, Min(childLow, low), seen + {next})
  {
    hide Inv, Entered, Reaches, LowReached;
    OldNumbered(g, old_, gray, st, now, low, seen);
    ReachEdge(g, now, next);
    if Min(childLow, low) < s.dfn[now] {
      if childLow < low {
        var y :| y in st.inStack && y in s.dfn && s.dfn[y] == childLow && Reaches(g, next, y);
        OldOrLater(g, old_, gray, st, now, low, seen, y);
        ReachTrans(g, now, next, y);
        LowLess(g, old_, s, now, childLow, y);
      } else {
        LowKept(g, old_, st, s, now, low);
      }
    }
    forall x, y {:trigger g.Edge(x, y)}
      | x in s.inStack && x !in old_.inStack && (x == now ==> y in seen + {next}) && y in old_.inStack && y in s.dfn
          && g.Edge(x, y)
      ensures Min(childLow, low) <= s.dfn[y]
    {
      assert y in st.dfn && y in st.inStack && s.dfn[y] == st.dfn[y];
      assert x in st.inStack || x !in st.dfn;
    }
  }

  lemma LowKept(g: Graph, old_: Search, st: Search, s: Search, now: Node, low: int)
    requires Continues(st, s) && LowReached(g, old_, st, now, low)
    ensures LowReached(g, old_, s, now, low)
  {
    var y :| y in old_.inStack && y in st.dfn && st.dfn[y] == low && Reaches(g, now, y);
    assert s.dfn[y] == low;
  }

  // ---------- leaving a node ----------

  ghost predicate AllSeen(g: Graph, now: Node, seen: set<Node>) {
    forall y {:trigger g.Edge(now, y)} :: g.Edge(now, y) ==> y in seen
  }

  // Everything on the stack leads back to a node still being searched, even without now.
  lemma LeadsOn(g: Graph, old_: Search, gray: set<Node>, st: Search, now: Node, low: int, seen: set<Node>, y: Node)
    requires Underway(g, old_, gray, st, now, low, seen) && low < st.dfn[now] && y in st.inStack
    ensures LeadsBack(g, st, gray, y)
  {
    hide Found, Explored, Reaches, ClosedSet;
    assert LeadsBack(g, st, gray + {now}, y);
    var x :| x in gray + {now} && x in st.dfn && y in st.dfn && st.dfn[x] <= st.dfn[y] && Reaches(g, y, x);
    if x == now {
      var z :| z in old_.inStack && z in st.dfn && st.dfn[z] == low && Reaches(g, now, z);
      assert LeadsBack(g, old_, gray, z);
      var w :| w in gray && w in old_.dfn && z in old_.dfn && old_.dfn[w] <= old_.dfn[z] && Reaches(g, z, w);
      ReachTrans(g, y, now, z);
      ReachTrans(g, y, z, w);
    }
  }

  lemma LeavesOpen(g: Graph, old_: Search, gray: set<Node>, st: Search, now: Node, low: int, seen: set<Node>)
    requires Underway(g, old_, gray, st, now, low, seen) && AllSeen(g, now, seen) && low < st.dfn[now]
    ensures Traversed(g, old_, gray, st, now, low)
  {
    hide Reaches, Found, LeadsBack, LowReached, ClosedSet;
    forall y | y in st.inStack ensures LeadsBack(g, st, gray, y) {
      LeadsOn(g, old_, gray, st, now, low, seen, y);
    }
    LowFrom(g, old_, st, now, low, seen);
    OldInStack(g, old_, gray, st, now, low, seen);
  }

  lemma LowFrom(g: Graph, old_: Search, st: Search, now: Node, low: int, seen: set<Node>)
    requires LowSoFar(g, old_, st, now, low, seen) && AllSeen(g, now, seen)
    ensures LowIs(g, old_, st, now, low)
  {
    hide Reaches;
  }

  lemma OldInStack(g: Graph, old_: Search, gray: set<Node>, st: Search, now: Node, low: int, seen: set<Node>)
    requires Underway(g, old_, gray, st, now, low, seen)
    ensures forall x :: x in gray ==> x in st.inStack && x != now
    ensures now !in old_.inStack && now !in old_.dfn && now in g.nodes
  {
    hide Found, Explored, LeadsBack;
  }

  // The top of the stack down to now.
  ghost function Top(old_: Search, st: Search): set<Node>
    requires |old_.stack| <= |st.stack|
  {
    set i | |old_.stack| <= i < |st.stack| :: st.stack[i]
  }

  ghost function Pop(g: Graph, old_: Search, st: Search): Search
    requires |old_.stack| <= |st.stack|
  {
    var s := Top(old_, st);
    Search(st.dfn, st.inStack - s, st.stack[..|old_.stack|], st.count,
        if Cyclic(g, s) then st.result + {s} else st.result)
  }

  // Of the stack, the old part and no more is old.
  lemma StackSplit(old_: Search, st: Search)
    requires Stacked(old_) && Stacked(st) && Continues(old_, st)
    ensures forall i {:trigger st.stack[i]} :: 0 <= i < |st.stack| ==>
              st.stack[i] in st.inStack && st.stack[i] in st.dfn && (i < |old_.stack| <==> st.stack[i] in old_.inStack)
  {
    forall i {:trigger st.stack[i]} | 0 <= i < |st.stack|
      ensures st.stack[i] in st.inStack && st.stack[i] in st.dfn && (i < |old_.stack| <==> st.stack[i] in old_.inStack)
    {
      var x := st.stack[i];
      assert x in st.stack;
      assert x in st.inStack;
      if i < |old_.stack| {
        assert old_.stack[i] == x && x in old_.stack;
      } else {
        forall j | 0 <= j < |old_.stack| ensures old_.stack[j] != x {
          var y := st.stack[j];
          assert y in st.stack && old_.stack[j] == y;
          assert y in st.inStack && st.dfn[y] < st.dfn[x];
        }
        assert x !in old_.stack;
      }
    }
  }

  // The top of the stack is what was pushed since, and it is strongly connected.
  lemma TopIs(g: Graph, old_: Search, gray: set<Node>, st: Search, now: Node, low: int, seen: set<Node>)
    requires Underway(g, old_, gray, st, now, low, seen)
    ensures forall x :: x in Top(old_, st) <==> x in st.inStack && x !in old_.inStack
    ensures now in Top(old_, st) && st.stack[..|old_.stack|] == old_.stack
    ensures forall x :: x in Top(old_, st) ==> x in st.dfn && st.dfn[now] <= st.dfn[x]
  {
    hide Found, Explored, Threaded, LowSoFar, Reaches;
    var k := |old_.stack|;
    assert old_.stack == st.stack[..k];
    StackSplit(old_, st);
    forall x ensures x in Top(old_, st) <==> x in st.inStack && x !in old_.inStack {
      if x in st.inStack {
        var i :| 0 <= i < |st.stack| && st.stack[i] == x;
        assert i >= k ==> x in Top(old_, st);
      }
    }
    forall x | x in Top(old_, st) ensures x in st.dfn && st.dfn[now] <= st.dfn[x] {
      OldOrLater(g, old_, gray, st, now, low, seen, x);
    }
  }

  lemma TopConnected(g: Graph, old_: Search, gray: set<Node>, st: Search, now: Node, low: int, seen: set<Node>, x: Node)
    requires Underway(g, old_, gray, st, now, low, seen) && x in Top(old_, st)
    ensures Mutual(g, now, x)
  {
    hide Found, Explored, Reaches, LowSoFar, Top;
    TopIs(g, old_, gray, st, now, low, seen);
    assert Reaches(g, now, x);
    assert LeadsBack(g, st, gray + {now}, x);
    var z :| z in gray + {now} && z in st.dfn && x in st.dfn && st.dfn[z] <= st.dfn[x] && Reaches(g, x, z);
    if z != now {
      ReachTrans(g, x, z, now);
    }
  }

  // When low never got below now, nothing leads from the top of the stack to the part under it.
  lemma TopCloses(g: Graph, old_: Search, gray: set<Node>, st: Search, now: Node, low: int, seen: set<Node>)
    requires Underway(g, old_, gray, st, now, low, seen) && AllSeen(g, now, seen) && low == st.dfn[now]
    ensures ClosedSet(g, st.Done() + Top(old_, st))
  {
    hide Found, Threaded, Reaches, Top, LeadsBack;
    TopIs(g, old_, gray, st, now, low, seen);
    OldInStack(g, old_, gray, st, now, low, seen);
    OldNumbered(g, old_, gray, st, now, low, seen);
    assert forall z :: z in old_.inStack ==> old_.dfn[z] < old_.count;
    forall x, y | x in st.Done() + Top(old_, st) && g.Edge(x, y) ensures y in st.Done() + Top(old_, st) {
      if x in Top(old_, st) {
        assert y in st.dfn by { TopLeads(g, old_, gray, st, now, low, seen, x, y); }
        assert y !in old_.inStack;
      }
    }
  }

  lemma TopLeads(g: Graph, old_: Search, gray: set<Node>, st: Search, now: Node, low: int, seen: set<Node>, x: Node,
      y: Node)
    requires Underway(g, old_, gray, st, now, low, seen) && AllSeen(g, now, seen) && x in Top(old_, st) && g.Edge(x, y)
    ensures y in st.dfn
  {
    hide Found, Threaded, Reaches, Top, LeadsBack, LowSoFar;
    TopIs(g, old_, gray, st, now, low, seen);
    OldInStack(g, old_, gray, st, now, low, seen);
    if x != now {
      assert x !in gray + {now} by { GrayOld(g, old_, gray, now, x); }
    }
  }

  lemma GrayOld(g: Graph, old_: Search, gray: set<Node>, now: Node, x: Node)
    requires Entered(g, old_, gray, now)
    ensures x in gray ==> x in old_.inStack
  {
    hide Found, Explored, LeadsBack;
  }

  /** The top of the stack is a component. */
  lemma TopIsScc(g: Graph, old_: Search, gray: set<Node>, st: Search, now: Node, low: int, seen: set<Node>)
    requires Underway(g, old_, gray, st, now, low, seen) && AllSeen(g, now, seen) && low == st.dfn[now]
    ensures IsScc(g, Top(old_, st))
  {
    hide Inv, Entered, Reaches, Top, LowSoFar, Continues, Mutual, ClosedSet;
    var s := Top(old_, st);
    TopIs(g, old_, gray, st, now, low, seen);
    TopNodes(g, old_, gray, st, now, low, seen);
    TopCloses(g, old_, gray, st, now, low, seen);
    assert now in s;
    forall x, y | x in s && y in g.nodes ensures y in s <==> Mutual(g, x, y) {
      TopConnected(g, old_, gray, st, now, low, seen, x);
      if y in s {
        TopConnected(g, old_, gray, st, now, low, seen, y);
        MutualTrans(g, x, now, y);
      }
      if Mutual(g, x, y) {
        MutualInside(g, old_, gray, st, now, low, seen, x, y);
      }
    }
  }

  lemma MutualTrans(g: Graph, x: Node, now: Node, y: Node)
    requires Mutual(g, now, x) && Mutual(g, now, y)
    ensures Mutual(g, x, y)
  {
    hide Reaches;
    ReachTrans(g, x, now, y);
    ReachTrans(g, y, now, x);
  }

  lemma TopNodes(g: Graph, old_: Search, gray: set<Node>, st: Search, now: Node, low: int, seen: set<Node>)
    requires Underway(g, old_, gray, st, now, low, seen)
    ensures forall x :: x in Top(old_, st) ==> x in g.nodes
  {
    hide Found, Threaded, Reaches, Top, LowSoFar, ClosedSet;
    TopIs(g, old_, gray, st, now, low, seen);
  }

  lemma MutualInside(g: Graph, old_: Search, gray: set<Node>, st: Search, now: Node, low: int, seen: set<Node>,
      x: Node, y: Node)
    requires Underway(g, old_, gray, st, now, low, seen) && ClosedSet(g, st.Done() + Top(old_, st))
    requires x in Top(old_, st) && Mutual(g, x, y)
    ensures y in Top(old_, st)
  {
    hide Threaded, Reaches, Top, LowSoFar, Found;
    TopIs(g, old_, gray, st, now, low, seen);
    ReachStays(g, st.Done() + Top(old_, st), x, y);
    assert ClosedSet(g, st.Done());
    hide ClosedSet;
    if y in st.Done() {
      ReachStays(g, st.Done(), y, x);
    }
  }

  lemma PopDone(g: Graph, old_: Search, gray: set<Node>, st: Search, now: Node, low: int, seen: set<Node>)
    requires Underway(g, old_, gray, st, now, low, seen) && AllSeen(g, now, seen) && low == st.dfn[now]
    ensures Pop(g, old_, st).Done() == st.Done() + Top(old_, st)
    ensures forall x :: x in Pop(g, old_, st).inStack <==> x in old_.inStack
  {
    hide Found, Threaded, Explored, Reaches, Top, LowSoFar;
    TopIs(g, old_, gray, st, now, low, seen);
    OldNumbered(g, old_, gray, st, now, low, seen);
    var s, done := Pop(g, old_, st), st.Done() + Top(old_, st);
    forall x ensures x in s.inStack <==> x in old_.inStack {
    }
    forall x ensures x in s.Done() <==> x in done {
    }
  }

  lemma PopFound(g: Graph, old_: Search, gray: set<Node>, st: Search, now: Node, low: int, seen: set<Node>)
    requires Underway(g, old_, gray, st, now, low, seen) && AllSeen(g, now, seen) && low == st.dfn[now]
    ensures Found(g, Pop(g, old_, st))
  {
    hide Threaded, Explored, Reaches, Top, LowSoFar, IsScc, Cyclic, Stacked, Continues, ClosedSet, Mutual;
    var s, top := Pop(g, old_, st), Top(old_, st);
    PopDone(g, old_, gray, st, now, low, seen);
    TopIs(g, old_, gray, st, now, low, seen);
    TopIsScc(g, old_, gray, st, now, low, seen);
    TopCloses(g, old_, gray, st, now, low, seen);
    forall t ensures t in s.result <==> IsScc(g, t) && Cyclic(g, t) && t <= s.Done() {
      TopOrDone(g, st, top, t);
    }
    forall x, y | x in s.Done() && Mutual(g, x, y) ensures y in s.Done() {
      if x in top {
        MutualInside(g, old_, gray, st, now, low, seen, x, y);
      }
    }
  }

  // A component among the finished nodes and the top of the stack is one of the finished ones or the top.
  lemma TopOrDone(g: Graph, st: Search, top: set<Node>, t: set<Node>)
    requires IsScc(g, top)
    ensures IsScc(g, t) && t <= st.Done() + top ==> t == top || t <= st.Done()
  {
    hide Cyclic;
    if IsScc(g, t) && t <= st.Done() + top {
      if x :| x in t && x in top {
        SameScc(g, t, top, x);
      } else {
        assert forall x :: x in t ==> x in st.Done();
      }
    }
  }

  lemma PopStacked(g: Graph, old_: Search, gray: set<Node>, st: Search, now: Node, low: int, seen: set<Node>)
    requires Underway(g, old_, gray, st, now, low, seen) && AllSeen(g, now, seen) && low == st.dfn[now]
    ensures Stacked(Pop(g, old_, st))
  {
    hide Threaded, Explored, Reaches, Top, LowSoFar, Found;
    var s := Pop(g, old_, st);
    TopIs(g, old_, gray, st, now, low, seen);
    PopDone(g, old_, gray, st, now, low, seen);
    assert s.stack == old_.stack;
  }

  lemma PopExplored(g: Graph, old_: Search, gray: set<Node>, st: Search, now: Node, low: int, seen: set<Node>)
    requires Underway(g, old_, gray, st, now, low, seen) && AllSeen(g, now, seen) && low == st.dfn[now]
    ensures Explored(g, Pop(g, old_, st), gray)
  {
    hide Threaded, Reaches, Top, LowSoFar, Found, Stacked, Continues;
    TopCloses(g, old_, gray, st, now, low, seen);
    PopDone(g, old_, gray, st, now, low, seen);
    forall x, y | x in st.dfn && x !in gray && g.Edge(x, y) ensures y in st.dfn {
      assert x == now ==> y in seen;
    }
  }

  lemma PopThreaded(g: Graph, old_: Search, gray: set<Node>, st: Search, now: Node, low: int, seen: set<Node>)
    requires Underway(g, old_, gray, st, now, low, seen) && AllSeen(g, now, seen) && low == st.dfn[now]
    ensures Threaded(g, Pop(g, old_, st), gray)
  {
    hide Explored, Reaches, Top, LowSoFar, Found;
    var s := Pop(g, old_, st);
    PopDone(g, old_, gray, st, now, low, seen);
    OldNumbered(g, old_, gray, st, now, low, seen);
    forall y | y in s.inStack ensures LeadsBack(g, s, gray, y) {
      assert LeadsBack(g, old_, gray, y);
      var x :| x in gray && x in old_.dfn && y in old_.dfn && old_.dfn[x] <= old_.dfn[y] && Reaches(g, y, x);
      assert s.dfn[x] <= s.dfn[y];
    }
    hide LeadsBack;
    forall x | x in gray ensures x in s.inStack {
      GrayOld(g, old_, gray, now, x);
    }
  }

  lemma PopGives(g: Graph, old_: Search, gray: set<Node>, st: Search, now: Node, low: int, seen: set<Node>)
    requires Underway(g, old_, gray, st, now, low, seen) && AllSeen(g, now, seen) && low == st.dfn[now]
    ensures Continues(old_, Pop(g, old_, st)) && LowIs(g, old_, Pop(g, old_, st), now, low)
        && now !in Pop(g, old_, st).inStack
  {
    hide Explored, Reaches, Top, Found, Threaded;
    PopDone(g, old_, gray, st, now, low, seen);
    TopIs(g, old_, gray, st, now, low, seen);
    OldInStack(g, old_, gray, st, now, low, seen);
    OldNumbered(g, old_, gray, st, now, low, seen);
  }

  lemma LeavesClosed(g: Graph, old_: Search, gray: set<Node>, st: Search, now: Node, low: int, seen: set<Node>)
    requires Underway(g, old_, gray, st, now, low, seen) && AllSeen(g, now, seen) && low == st.dfn[now]
    ensures Traversed(g, old_, gray, Pop(g, old_, st), now, low)
  {
    hide Reaches, Top, LowSoFar, ClosedSet, Found, Explored, Threaded, IsScc, Stacked, Entered, Pop;
    PopFound(g, old_, gray, st, now, low, seen);
    PopStacked(g, old_, gray, st, now, low, seen);
    PopExplored(g, old_, gray, st, now, low, seen);
    PopThreaded(g, old_, gray, st, now, low, seen);
    PopGives(g, old_, gray, st, now, low, seen);
  }
}
