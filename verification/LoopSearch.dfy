/** loop_search (src/Optimize/LoopSearch.cc, lines 83-223): rounds of Tarjan's search, each of which takes
    the base of every component found out of the graph, until no cycle is left. */
module LoopSearches {
  import opened Basis
  import opened Graphs
  import opened Components
  import opened LoopNest
  import opened TarjanSearch

  class LoopSearch {
    const func: Graph
    const entry: Node
    var g: Graph
    var reserved: map<Node, seq<Node>>
    var base2loop: map<Node, set<Node>>
    var loop2base: map<set<Node>, Node>
    var bb2base: map<Node, Node>
    // what was left at the beginning of each round, and the round each base was taken out in
    ghost var rounds: seq<Graph>
    ghost var stage: map<Node, int>

    constructor (graph: Graph, entry: Node)
      ensures func == graph && this.entry == entry && g == graph
      ensures reserved == map[] && base2loop == map[] && loop2base == map[] && bb2base == map[] && rounds == []
          && stage == map[]
    {
      func, this.entry, g, rounds, stage := graph, entry, graph, [], map[];
      reserved, base2loop, loop2base, bb2base := map[], map[], map[], map[];
    }

    // What is recorded so far is a loop nest of the function.
    ghost predicate Valid()
      reads this
    {
      && Rooted(func, entry) && Nest(func, g, base2loop) && Innermost(base2loop, bb2base)
        && Remembered(func, g, reserved)
      && Inverse(base2loop, loop2base)
    }

    /** run, lines 124-166, for one function. It ends, because every round takes a block out; every round
        records the components with a cycle of what is left, each with one base; together they are a nest
        of loops, and what is left without the bases has no cycle. */
    method Run()
      requires Rooted(func, entry) && g == func
      requires reserved == map[] && base2loop == map[] && loop2base == map[] && bb2base == map[] && rounds == []
          && stage == map[]
      modifies this
      ensures Valid() && NoCycles(g) && Staged(func, base2loop, rounds, stage, {})
    {
      hide Staged, Reaches, IsScc, Cyclic, Nest, Innermost, Remembered, NoCycles, Waiting;
      NothingYet(func, g);
      while true
        invariant Valid() && Staged(func, base2loop, rounds, stage, {})
        decreases g.nodes
      {
        PartValid(func, g, base2loop);
        var tarjan := new Tarjan(g);
        var some := tarjan.Scc();
        if !some {
          forall s ensures !(IsScc(g, s) && Cyclic(g, s)) {
            assert s !in tarjan.result;
          }
          NoSccNoCycle(g);
          break;
        }
        SomeSet(tarjan.result);
        RecordAll(tarjan.result);
      }
    }

    // Lines 126-163: one round.
    method RecordAll(sccs: set<set<Node>>)
      requires Valid() && sccs != {} && forall s :: s in sccs <==> IsScc(g, s) && Cyclic(g, s)
      requires Staged(func, base2loop, rounds, stage, {})
      modifies this
      ensures Valid() && g.nodes < old(g.nodes) && Staged(func, base2loop, rounds, stage, {})
    {
      hide Staged, Reaches, IsScc, Cyclic, Nest, Innermost, Remembered, Waiting;
      ghost var first := g;
      RoundBegins(func, g, base2loop, sccs);
      StageBegins(func, g, base2loop, rounds, stage, sccs);
      rounds := rounds + [g];
      var todo := sccs;
      while todo != {}
        invariant Valid() && todo <= sccs && Waiting(func, first, g, base2loop, todo)
        invariant g.nodes <= first.nodes && (todo != sccs ==> g.nodes < first.nodes)
        invariant |rounds| > 0 && rounds[|rounds| - 1] == first && Staged(func, base2loop, rounds, stage, todo)
      {
        SomeSet(todo);
        var s :| s in todo;
        RecordOne(s, first, todo);
        todo := todo - {s};
      }
    }

    // Lines 127-157 for one component.
    method RecordOne(s: set<Node>, ghost first: Graph, ghost todo: set<set<Node>>)
      requires Valid() && Waiting(func, first, g, base2loop, todo) && s in todo
      requires |rounds| > 0 && rounds[|rounds| - 1] == first && Staged(func, base2loop, rounds, stage, todo)
      modifies this
      ensures Valid() && Waiting(func, first, g, base2loop, todo - {s}) && g.nodes < old(g.nodes)
      ensures rounds == old(rounds) && Staged(func, base2loop, rounds, stage, todo - {s})
    {
      hide Staged, Reaches, IsScc, Cyclic, Nest, Innermost, Remembered, Waiting, Inverse, Restrict, Rooted;
      var base := FindLoopBase(s, first, todo);
      PartValid(func, g, base2loop);
      ghost var h := Restrict(g, g.nodes - {base});
      TakenOut(func, g, reserved, base2loop, base);
      Recorded(func, first, g, base2loop, todo, s, base, h);
      InverseMore(base2loop, loop2base, base, s);
      StageRecords(func, base2loop, rounds, stage, todo, s, base);
      ghost var inner, wasLoops := bb2base, base2loop;
      stage := stage[base := |rounds| - 1];
      base2loop, loop2base := base2loop[base := s], loop2base[s := base];
      PointTo(s, base);
      RecordInnermost(func, first, g, wasLoops, todo, s, base, h, inner, bb2base);
      // Lines 149-157: the base goes out of the graph.
      reserved := reserved[base := g.succ[base]];
      g := Restrict(g, g.nodes - {base});
    }

    // Lines 141-146: the blocks of the loop point to its base.
    method PointTo(bbSet: set<Node>, base: Node)
      modifies this`bb2base
      ensures Repointed(old(bb2base), bb2base, bbSet, base)
    {
      var todo := bbSet;
      while todo != {}
        invariant todo <= bbSet
        invariant forall x :: x in bb2base <==> x in old(bb2base) || (x in bbSet && x !in todo)
        invariant forall x :: x in bb2base ==> bb2base[x] == if x in bbSet && x !in todo then base else old(bb2base)[x]
      {
        SomeElement(todo);
        var bb :| bb in todo;
        bb2base := bb2base[bb := base];
        todo := todo - {bb};
      }
    }

    /** find_loop_base, lines 83-105: a block of the component that can be entered from outside. A base is
        always found. */
    method FindLoopBase(scc: set<Node>, ghost first: Graph, ghost sccs: set<set<Node>>) returns (base: Node)
      requires Valid() && Waiting(func, first, g, base2loop, sccs) && scc in sccs
      ensures Header(func, base, scc) && base in g.nodes
    {
      hide Reaches, IsScc, Cyclic, Nest, Innermost;
      SccFacts(func, first, g, base2loop, sccs, scc);
      PartValid(func, g, base2loop);
      ghost var u, v := HasBorder(func, entry, scc);
      var found := FromPre(scc);
      if found.None? {
        found := FromReserved(scc);
        BorderSeen(func, g, reserved, scc, u, v);
      }
      base := found.value;
    }

    // Lines 86-93.
    method FromPre(scc: set<Node>) returns (base: Option<Node>)
      requires Part(func, g) && forall x :: x in scc ==> x in g.nodes
      ensures base.Some? ==> Header(func, base.value, scc) && base.value in g.nodes
      ensures base.None? ==> forall x, p :: x in scc && p in g.pred[x] ==> p in scc
    {
      base := None;
      var todo := scc;
      while todo != {}
        invariant todo <= scc
        invariant base.Some? ==> Header(func, base.value, scc) && base.value in g.nodes
        invariant base.None? ==> forall x, p :: x in scc && x !in todo && p in g.pred[x] ==> p in scc
      {
        SomeElement(todo);
        var now :| now in todo;
        var i := 0;
        while i < |g.pred[now]|
          invariant 0 <= i <= |g.pred[now]|
          invariant base.Some? ==> Header(func, base.value, scc) && base.value in g.nodes
          invariant base.None? ==> forall p :: p in g.pred[now][..i] ==> p in scc
          invariant base.None? ==> forall x, p :: x in scc && x !in todo && p in g.pred[x] ==> p in scc
        {
          var pre := g.pred[now][i];
          assert g.pred[now][..i + 1] == g.pred[now][..i] + [pre];
          if pre !in scc {
            assert g.Edge(pre, now);
            base := Some(now);
          }
          i := i + 1;
        }
        assert g.pred[now][..i] == g.pred[now];
        todo := todo - {now};
      }
    }

    // Lines 96-104: the edge from outside may come from a base that has been taken out.
    method FromReserved(scc: set<Node>) returns (base: Option<Node>)
      requires Remembered(func, g, reserved) && forall x :: x in scc ==> x in g.nodes
      ensures base.Some? ==> Header(func, base.value, scc) && base.value in g.nodes
      ensures base.None? ==> forall u, v :: u in reserved && v in reserved[u] ==> v !in scc
    {
      base := None;
      var todo := reserved.Keys;
      while todo != {}
        invariant todo <= reserved.Keys
        invariant base.Some? ==> Header(func, base.value, scc) && base.value in g.nodes
        invariant base.None? ==> forall u, v :: u in reserved && u !in todo && v in reserved[u] ==> v !in scc
      {
        SomeElement(todo);
        var now :| now in todo;
        var i := 0;
        while i < |reserved[now]|
          invariant 0 <= i <= |reserved[now]|
          invariant base.Some? ==> Header(func, base.value, scc) && base.value in g.nodes
          invariant base.None? ==> forall v :: v in reserved[now][..i] ==> v !in scc
          invariant base.None? ==> forall u, v :: u in reserved && u !in todo && v in reserved[u] ==> v !in scc
        {
          var next := reserved[now][i];
          assert reserved[now][..i + 1] == reserved[now][..i] + [next];
          if next in scc {
            assert next in reserved[now];
            assert func.Edge(now, next) && now !in scc;
            base := Some(next);
          }
          i := i + 1;
        }
        assert reserved[now][..i] == reserved[now];
        todo := todo - {now};
      }
    }

    // get_inner_loop.
    function GetInnerLoop(bb: Node): (r: Option<set<Node>>)
      requires Valid()
      reads this
      ensures r.None? ==> forall b :: b in base2loop ==> bb !in base2loop[b]
      ensures r.Some? ==>
        && r.value in loop2base && bb in r.value
        && forall b :: b in base2loop && bb in base2loop[b] ==> Inside(r.value, base2loop[b])
    {
      if bb in bb2base then
        InnerKnown(base2loop, bb2base, bb);
        InverseAt(base2loop, loop2base, bb2base[bb]);
        Some(base2loop[bb2base[bb]])
      else None
    }

    /** get_parent_loop, lines 210-223. What is returned is a recorded loop that properly encloses the given
        one. It is the smallest such loop, or nothing when there is none, exactly when there is none or the
        first predecessor of the base outside the loop lies in the enclosing loops only. */
    method GetParentLoop(loop: set<Node>) returns (outer: Option<set<Node>>)
      requires Valid() && loop in loop2base
      ensures outer.Some? ==> Inside(loop, outer.value) && !Inside(outer.value, loop) && outer.value in loop2base
      ensures exists i: nat :: FirstOutside(func, loop2base[loop], loop, i)
                && (Parent(base2loop, loop2base[loop], if outer.Some? then outer.value else {}, outer.Some?) <==>
                      (forall b :: !Encloses(base2loop, loop2base[loop], b))
                      || Beside(base2loop, loop2base[loop], func.pred[loop2base[loop]][i]))
    {
      hide Nest, Innermost, Remembered, Rooted, Encloses, Parent, Beside;
      var base := loop2base[loop];
      Known(func, g, base2loop, base);
      var i: nat := 0;
      while i < |func.pred[base]|
        invariant i <= |func.pred[base]|
        invariant forall j :: 0 <= j < i ==> func.pred[base][j] in loop
      {
        var pre := func.pred[base][i];
        if pre !in loop {
          assert FirstOutside(func, base, loop, i);
          ParentIff(func, g, base2loop, bb2base, base, pre);
          if pre in bb2base {
            InnerKnown(base2loop, bb2base, pre);
            var candidate := base2loop[bb2base[pre]];
            if base in candidate {
              ParentEncloses(func, g, base2loop, bb2base, base, pre);
              InverseAt(base2loop, loop2base, bb2base[pre]);
              return Some(candidate);
            }
          }
          return None;
        }
        i := i + 1;
      }
      EnteredFromOutside(func, g, base2loop, entry, base);
      outer := None;
      assert false;
    }
  }

  // The predecessor of base that get_parent_loop asks.
  ghost predicate FirstOutside(func: Graph, base: Node, loop: set<Node>, i: nat) {
    && base in func.pred && i < |func.pred[base]| && func.pred[base][i] !in loop
    && forall j :: 0 <= j < i ==> func.pred[base][j] in loop
  }

  lemma EnteredFromOutside(func: Graph, g: Graph, loops: map<Node, set<Node>>, entry: Node, base: Node)
    requires Rooted(func, entry) && Nest(func, g, loops) && base in loops && base in func.pred
    ensures exists p :: p in func.pred[base] && p !in loops[base]
  {
    hide Reaches, Mutual, Around, Nested;
    assert Header(func, base, loops[base]);
  }

  ghost predicate Inverse(loops: map<Node, set<Node>>, bases: map<set<Node>, Node>) {
    && (forall b :: b in loops ==> loops[b] in bases && bases[loops[b]] == b)
    && (forall s :: s in bases ==> bases[s] in loops && loops[bases[s]] == s)
  }

  lemma InverseAt(loops: map<Node, set<Node>>, bases: map<set<Node>, Node>, b: Node)
    requires Inverse(loops, bases) && b in loops
    ensures loops[b] in bases && bases[loops[b]] == b
  {
  }

  lemma InverseMore(loops: map<Node, set<Node>>, bases: map<set<Node>, Node>, base: Node, s: set<Node>)
    requires Inverse(loops, bases) && base !in loops && forall b :: b in loops ==> loops[b] != s
    ensures Inverse(loops[base := s], bases[s := base])
  {
  }

  lemma SomeSet(s: set<set<Node>>)
    ensures s == {} || exists x :: x in s
  {
    if forall x :: x !in s {
      assert s == {};
    }
  }

  lemma NothingYet(func: Graph, g: Graph)
    requires func.Valid() && g == func
    ensures Nest(func, g, map[]) && Innermost(map[], map[]) && Remembered(func, g, map[]) && Inverse(map[], map[])
    ensures Staged(func, map[], [], map[], {})
  {
  }

  lemma PartValid(func: Graph, g: Graph, loops: map<Node, set<Node>>)
    requires Nest(func, g, loops)
    ensures Part(func, g) && g.Valid()
  {
    hide Reaches, Mutual, Header, Around, Nested;
  }

  lemma Known(func: Graph, g: Graph, loops: map<Node, set<Node>>, base: Node)
    requires Nest(func, g, loops) && base in loops
    ensures base in func.nodes && base in func.pred && base in loops[base]
  {
    hide Reaches, Mutual, Around, Nested;
  }

  lemma InnerKnown(loops: map<Node, set<Node>>, inner: map<Node, Node>, x: Node)
    requires Innermost(loops, inner) && x in inner
    ensures inner[x] in loops && x in loops[inner[x]]
  {
  }

  lemma SccFacts(func: Graph, first: Graph, g: Graph, loops: map<Node, set<Node>>, sccs: set<set<Node>>, s: set<Node>)
    requires Waiting(func, first, g, loops, sccs) && s in sccs
    ensures Around(func, s) && s != {} && forall x :: x in s ==> x in g.nodes
  {
    hide Reaches, Cyclic, Around, Part;
    SccAround(func, first, s);
  }

  lemma Recorded(func: Graph, first: Graph, g: Graph, loops: map<Node, set<Node>>, sccs: set<set<Node>>,
                 s: set<Node>, base: Node, h: Graph)
    requires Nest(func, g, loops) && Waiting(func, first, g, loops, sccs) && s in sccs && Header(func, base, s)
        && Without(func, g, h, base)
    ensures Recordable(func, first, g, loops, sccs, s, base, h)
    ensures Nest(func, h, loops[base := s]) && Waiting(func, first, h, loops[base := s], sccs - {s})
    ensures base !in loops && forall b :: b in loops ==> loops[b] != s
    ensures IsScc(first, s) && Cyclic(first, s)
  {
    hide Nest, Waiting, Header, Without, IsScc, Cyclic;
    RecordNest(func, first, g, loops, sccs, s, base, h);
    RecordWaiting(func, first, g, loops, sccs, s, base, h);
    BaseFresh(func, first, g, loops, sccs, s, base, h);
    StillScc(func, first, g, loops, sccs, s);
  }

  lemma StillScc(func: Graph, first: Graph, g: Graph, loops: map<Node, set<Node>>, sccs: set<set<Node>>, s: set<Node>)
    requires Waiting(func, first, g, loops, sccs) && s in sccs
    ensures IsScc(first, s) && Cyclic(first, s)
  {
    hide IsScc, Cyclic, Part;
  }

  lemma BorderSeen(func: Graph, g: Graph, reserved: map<Node, seq<Node>>, s: set<Node>, u: Node, v: Node)
    requires Part(func, g) && Remembered(func, g, reserved) && func.Edge(u, v) && u !in s && v in s && v in g.nodes
    ensures (u in g.pred[v]) || (u in reserved && v in reserved[u])
  {
    if u in g.nodes {
      assert g.Edge(u, v);
    } else {
      assert u in func.nodes;
    }
  }

  lemma TakenOut(func: Graph, g: Graph, reserved: map<Node, seq<Node>>, loops: map<Node, set<Node>>, base: Node)
    requires Nest(func, g, loops) && Remembered(func, g, reserved) && base in g.nodes
    ensures var h := Restrict(g, g.nodes - {base});
            Without(func, g, h, base) && base in g.succ && Remembered(func, h, reserved[base := g.succ[base]])
                && h.nodes < g.nodes
  {
    hide Nest;
    PartValid(func, g, loops);
    WithoutOne(func, g, base);
    RememberedMore(func, g, Restrict(g, g.nodes - {base}), reserved, base);
  }

  lemma WithoutOne(func: Graph, g: Graph, base: Node)
    requires Part(func, g) && base in g.nodes
    ensures var h := Restrict(g, g.nodes - {base}); Without(func, g, h, base) && base in g.succ && h.nodes < g.nodes
  {
    RestrictValid(g, g.nodes - {base});
    hide Keep;
    var h := Restrict(g, g.nodes - {base});
    assert base in g.nodes && base !in h.nodes;
  }

  lemma RememberedMore(func: Graph, g: Graph, h: Graph, reserved: map<Node, seq<Node>>, base: Node)
    requires Without(func, g, h, base) && base in g.nodes && base in g.succ && Remembered(func, g, reserved)
    ensures Remembered(func, h, reserved[base := g.succ[base]])
  {
    var after := reserved[base := g.succ[base]];
    forall u, v | u in after && v in after[u] ensures func.Edge(u, v) {
      assert u == base ==> g.Edge(u, v);
    }
    forall u, v | u in after && func.Edge(u, v) && v in h.nodes ensures v in after[u] {
      assert u == base ==> g.Edge(u, v);
    }
  }

  lemma BaseFresh(func: Graph, first: Graph, g: Graph, loops: map<Node, set<Node>>, sccs: set<set<Node>>,
                  s: set<Node>, base: Node, h: Graph)
    requires Recordable(func, first, g, loops, sccs, s, base, h)
    ensures base !in loops && forall b :: b in loops ==> loops[b] != s
  {
    hide Nest, Waiting, Without;
    forall b | b in loops ensures base !in loops && loops[b] != s {
      RecordNew(func, first, g, loops, sccs, s, base, h, b);
    }
  }
}
