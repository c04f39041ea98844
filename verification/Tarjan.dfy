/** Tarjan's search as loop_search runs it (src/Optimize/LoopSearch.cc, lines 30-81). */
module TarjanSearch {
  import opened Basis
  import opened Graphs
  import opened Components

  class Tarjan {
    var g: Graph
    var dfn: map<Node, int>
    var low: map<Node, int>
    var inStack: set<Node>
    var stack: seq<Node>
    var indexCount: int
    var result: set<set<Node>>

    constructor (graph: Graph)
      ensures g == graph && Fresh()
    {
      g, dfn, low, inStack, stack, indexCount, result := graph, map[], map[], {}, [], 0, {};
    }

    // No node has been reached.
    ghost predicate Fresh()
      reads this
    {
      dfn == map[] && inStack == {} && result == {}
    }

    ghost function St(): Search
      reads this`dfn, this`inStack, this`stack, this`indexCount, this`result
    {
      Search(dfn, inStack, stack, indexCount, result)
    }

    /** scc, lines 30-38: the components found are exactly those with more than one node or a self-loop. */
    method Scc() returns (some: bool)
      requires g.Valid() && Fresh()
      modifies this`dfn, this`low, this`inStack, this`stack, this`indexCount, this`result
      ensures forall s :: s in result <==> IsScc(g, s) && Cyclic(g, s)
      ensures some <==> result != {}
    {
      hide Reaches, IsScc, Cyclic, Traversed, Inv, Entered;
      indexCount, stack := 0, [];
      StartInv(g, St());
      var todo := g.nodes;
      while todo != {}
        invariant todo <= g.nodes && Inv(g, St(), {})
        invariant forall x :: x in g.nodes && x !in todo ==> x in dfn
      {
        SomeElement(todo);
        var node :| node in todo;
        if node !in dfn {
          ghost var before := St();
          EnterRoot(g, before, node);
          Traverse(node, {});
          TraversedGives(g, before, {}, St(), node, low[node]);
        }
        todo := todo - {node};
      }
      AllFound(g, St());
      some := result != {};
    }

    /** traverse, lines 43-81. */
    method Traverse(now: Node, ghost gray: set<Node>)
      requires Entered(g, St(), gray, now)
      modifies this`dfn, this`low, this`inStack, this`stack, this`indexCount, this`result
      ensures now in low && Traversed(g, old(St()), gray, St(), now, low[now])
      ensures forall x :: x in old(dfn) ==> (x in low <==> x in old(low)) && (x in low ==> low[x] == old(low[x]))
      decreases g.nodes - dfn.Keys
    {
      hide Reaches, IsScc, Cyclic, Inv, Entered, Underway, Traversed;
      ghost var start := St();
      PushUnderway(g, start, gray, now);
      EnteredFacts(g, start, gray, now);
      low := low[now := indexCount];
      dfn := dfn[now := indexCount];
      indexCount := indexCount + 1;
      stack := stack + [now];
      inStack := inStack + {now};
      assert St() == Push(start, now);
      ghost var seen: set<Node> := {};
      var i := 0;
      while i < |g.succ[now]|
        invariant 0 <= i <= |g.succ[now]| && now in low
        invariant Underway(g, start, gray, St(), now, low[now], seen)
        invariant forall y :: y in g.succ[now][..i] ==> y in seen
        invariant forall x :: x in start.dfn || x == now ==> x in dfn
        invariant forall x :: x in start.dfn ==> (x in low <==> x in old(low)) && (x in low ==> low[x] == old(low[x]))
      {
        var next := g.succ[now][i];
        assert g.Edge(now, next);
        ghost var st, mid, lowNow := St(), dfn.Keys, low[now];
        UnderwayFacts(g, start, gray, st, now, lowNow, seen);
        if next !in dfn {
          EntersChild(g, start, gray, st, now, lowNow, seen, next);
          EdgeInside(g, now, next);
          Shrunk(g, start.dfn, dfn, now);
          Traverse(next, gray + {now});
          SeesChild(g, start, gray, st, now, lowNow, seen, St(), next, low[next]);
          TraversedGives(g, st, gray + {now}, St(), next, low[next]);
          low := low[now := Min(low[next], low[now])];
        } else if next in inStack {
          SeesStacked(g, start, gray, st, now, lowNow, seen, next);
          low := low[now := Min(dfn[next], low[now])];
        } else {
          SeesFinished(g, start, gray, st, now, lowNow, seen, next);
        }
        seen := seen + {next};
        assert g.succ[now][..i + 1] == g.succ[now][..i] + [next];
        i := i + 1;
      }
      assert g.succ[now][..i] == g.succ[now];
      assert AllSeen(g, now, seen);
      Close(now, start, gray, seen);
    }

    // Lines 58-80: a node that leads to nothing older closes its component.
    method Close(now: Node, ghost start: Search, ghost gray: set<Node>, ghost seen: set<Node>)
      requires now in low && Underway(g, start, gray, St(), now, low[now], seen) && AllSeen(g, now, seen)
      modifies this`inStack, this`stack, this`result
      ensures Traversed(g, start, gray, St(), now, low[now])
    {
      hide Reaches, IsScc, Cyclic, Inv, Entered, Underway, Traversed, AllSeen;
      UnderwayFacts(g, start, gray, St(), now, low[now], seen);
      if dfn[now] == low[now] {
        LeavesClosed(g, start, gray, St(), now, low[now], seen);
        PopComponent(now, start, gray, low[now], seen);
      } else {
        LeavesOpen(g, start, gray, St(), now, low[now], seen);
      }
    }

    // Lines 58-80: the component on the top of the stack.
    method PopComponent(now: Node, ghost start: Search, ghost gray: set<Node>, ghost lowNow: int, ghost seen: set<Node>)
      requires Underway(g, start, gray, St(), now, lowNow, seen)
      modifies this`inStack, this`stack, this`result
      ensures |start.stack| <= |old(St()).stack| && St() == Pop(g, start, old(St()))
    {
      hide Reaches, IsScc, Inv, Entered, LowSoFar, Continues;
      ghost var st := St();
      ghost var k := |start.stack|;
      StackDistinct(g, start, gray, st, now, lowNow, seen);
      var set_: set<Node> := {};
      var tmp := stack[|stack| - 1];
      inStack, set_, stack := inStack - {tmp}, set_ + {tmp}, stack[..|stack| - 1];
      while tmp != now
        invariant k <= |stack| < |st.stack| && stack == st.stack[..|stack|] && tmp == st.stack[|stack|]
        invariant forall x :: x in set_ <==> exists i :: |stack| <= i < |st.stack| && st.stack[i] == x
        invariant inStack == st.inStack - set_ && result == st.result
        decreases |stack|
      {
        assert |stack| != k;
        tmp := stack[|stack| - 1];
        inStack, set_, stack := inStack - {tmp}, set_ + {tmp}, stack[..|stack| - 1];
      }
      assert |stack| == k;
      assert forall x :: x in set_ <==> x in Top(start, st);
      assert set_ == Top(start, st);
      assert stack == st.stack[..k] && inStack == st.inStack - Top(start, st);
      if |set_| > 1 {
        result := result + {set_};
      } else {
        var loop := SelfLoop(now);
        SingleTop(g, set_, now);
        if loop {
          result := result + {set_};
        }
      }
    }

    // Lines 73-78.
    method SelfLoop(node: Node) returns (r: bool)
      requires node in g.succ
      ensures r <==> g.Edge(node, node)
    {
      r := false;
      var i := 0;
      while i < |g.succ[node]| && !r
        invariant 0 <= i <= |g.succ[node]|
        invariant if r then node in g.succ[node] else node !in g.succ[node][..i]
      {
        assert g.succ[node][..i + 1] == g.succ[node][..i] + [g.succ[node][i]];
        r := g.succ[node][i] == node;
        i := i + 1;
      }
      assert !r ==> g.succ[node][..i] == g.succ[node];
    }
  }

  lemma Shrunk(g: Graph, before: map<Node, int>, after: map<Node, int>, now: Node)
    requires now in g.nodes && now !in before && forall x :: x in before || x == now ==> x in after
    ensures g.nodes - after.Keys < g.nodes - before.Keys
  {
    assert now in g.nodes - before.Keys && now !in g.nodes - after.Keys;
    assert forall x :: x in g.nodes - after.Keys ==> x in g.nodes - before.Keys;
  }

  lemma StartInv(g: Graph, st: Search)
    requires g.Valid() && st.dfn == map[] && st.inStack == {} && st.stack == [] && st.count == 0 && st.result == {}
    ensures Inv(g, st, {})
  {
    hide Reaches;
    assert st.Done() == {};
    forall s ensures !(IsScc(g, s) && s <= st.Done()) {
      if s <= st.Done() {
        assert s == {};
      }
    }
  }

  lemma EnterRoot(g: Graph, st: Search, node: Node)
    requires Inv(g, st, {}) && node in g.nodes && node !in st.dfn
    ensures Entered(g, st, {}, node)
  {
  }

  lemma EnteredFacts(g: Graph, st: Search, gray: set<Node>, now: Node)
    requires Entered(g, st, gray, now)
    ensures g.Valid() && now in g.nodes && now in g.succ && now !in st.dfn && forall x :: x in st.dfn ==> x in g.nodes
  {
    hide Stacked, Threaded, Found, Reaches;
  }

  lemma UnderwayFacts(g: Graph, old_: Search, gray: set<Node>, st: Search, now: Node, low: int, seen: set<Node>)
    requires Underway(g, old_, gray, st, now, low, seen)
    ensures now in st.dfn && low <= st.dfn[now] && now in g.nodes && forall x :: x in st.dfn ==> x in g.nodes
  {
    hide Stacked, Threaded, Found, Reaches;
  }

  lemma EdgeInside(g: Graph, a: Node, b: Node)
    requires g.Valid() && g.Edge(a, b)
    ensures b in g.nodes
  {
  }

  lemma StackDistinct(g: Graph, old_: Search, gray: set<Node>, st: Search, now: Node, low: int, seen: set<Node>)
    requires Underway(g, old_, gray, st, now, low, seen)
    ensures |old_.stack| < |st.stack| && st.stack[|old_.stack|] == now && now in g.succ
    ensures forall i, j :: 0 <= i < j < |st.stack| ==> st.stack[i] != st.stack[j]
    ensures forall x :: x in st.stack <==> x in st.inStack
  {
    hide Threaded, Found, Reaches, Explored;
    assert forall i :: 0 <= i < |st.stack| ==> st.stack[i] in st.stack;
  }

  lemma SingleTop(g: Graph, s: set<Node>, now: Node)
    requires now in s
    ensures |s| <= 1 ==> (Cyclic(g, s) <==> g.Edge(now, now))
  {
    if |s| <= 1 {
      assert |s - {now}| == 0;
      assert forall x :: x in s ==> x in s - {now} || x == now;
    }
  }

  // With every node reached and none being searched, nothing is left on the stack.
  lemma AllFound(g: Graph, st: Search)
    requires Inv(g, st, {}) && forall x :: x in g.nodes ==> x in st.dfn
    ensures forall s :: s in st.result <==> IsScc(g, s) && Cyclic(g, s)
  {
    hide Reaches, Cyclic, Mutual;
    forall x | x in g.nodes ensures x in st.Done() {
      assert x in st.inStack ==> LeadsBack(g, st, {}, x);
    }
    forall s, x | IsScc(g, s) && x in s ensures x in st.Done() {
    }
    forall s | IsScc(g, s) ensures s <= st.Done() {
      assert forall x :: x in s ==> x in st.Done();
    }
  }
}
