/** The loops that loop_search::run records (src/Optimize/LoopSearch.cc, lines 107-167): components of the
    part of the function that is left after the bases found so far have been taken out. */
module LoopNest {
  import opened Basis
  import opened Graphs
  import opened Components

  // g is what is left of func on some of its blocks.
  ghost predicate Part(func: Graph, g: Graph) {
    && func.Valid() && g.Valid() && (forall x :: x in g.nodes ==> x in func.nodes)
    && forall a, b {:trigger g.Edge(a, b)} {:trigger func.Edge(a, b)} :: g.Edge(a, b) <==>
      func.Edge(a, b) && a in g.nodes && b in g.nodes
  }

  lemma {:induction false} PartPath(func: Graph, g: Graph, h: Graph, p: seq<Node>, a: Node, b: Node)
    requires Part(func, g) && Part(func, h) && (forall x :: x in h.nodes ==> x in g.nodes) && Joins(h, p, a, b)
    ensures Joins(g, p, a, b)
    decreases |p|
  {
    if |p| > 1 {
      PartPath(func, g, h, p[..|p| - 1], a, p[|p| - 2]);
      assert h.Edge(p[|p| - 2], p[|p| - 1]);
    }
  }

  lemma PartReach(func: Graph, g: Graph, h: Graph, a: Node, b: Node)
    requires Part(func, g) && Part(func, h) && forall x :: x in h.nodes ==> x in g.nodes
    ensures Reaches(h, a, b) ==> Reaches(g, a, b)
    ensures Mutual(h, a, b) ==> Mutual(g, a, b)
  {
    hide Part, Path;
    if Reaches(h, a, b) {
      var p :| Joins(h, p, a, b);
      PartPath(func, g, h, p, a, b);
    }
    if Reaches(h, b, a) {
      var p :| Joins(h, p, b, a);
      PartPath(func, g, h, p, b, a);
    }
  }

  ghost predicate Inside(s: set<Node>, t: set<Node>) { forall x :: x in s ==> x in t }

  ghost predicate Apart(s: set<Node>, t: set<Node>) { forall x :: x in s ==> x !in t }

  ghost predicate Nested(s: set<Node>, t: set<Node>) { Inside(s, t) || Inside(t, s) || Apart(s, t) }

  // base lies in the loop and can be entered from outside it.
  ghost predicate Header(func: Graph, base: Node, loop: set<Node>) {
    base in loop && exists p :: func.Edge(p, base) && p !in loop
  }

  // Any block of the loop leads to any other, along at least one edge.
  ghost predicate Around(func: Graph, loop: set<Node>) {
    && (forall x :: x in loop ==> x in func.nodes) && Cyclic(func, loop)
    && forall x, y {:trigger Reaches(func, x, y)} :: x in loop && y in loop ==> Reaches(func, x, y)
  }

  /** The recorded loops, by base. */
  ghost predicate Nest(func: Graph, g: Graph, loops: map<Node, set<Node>>) {
    && Part(func, g)
    && (forall x :: x in func.nodes ==> (x in loops <==> x !in g.nodes))
    && (forall b :: b in loops ==> b in func.nodes && Header(func, b, loops[b]) && Around(func, loops[b]))
    && (forall b, c {:trigger loops[b], loops[c]} :: b in loops && c in loops ==> Nested(loops[b], loops[c]))
    && (forall b, c {:trigger loops[b], loops[c]} :: b in loops && c in loops && loops[b] == loops[c] ==> b == c)
    && Unsplit(g, loops)
  }

  // Blocks that still lead to each other are in the same loops.
  ghost predicate Unsplit(g: Graph, loops: map<Node, set<Node>>) {
    forall b, x, y {:trigger loops[b], Mutual(g, x, y)} :: b in loops && x in loops[b] && Mutual(g, x, y) ==>
        y in loops[b]
  }

  // inner gives each block of a loop the base of the smallest loop around it.
  ghost predicate Innermost(loops: map<Node, set<Node>>, inner: map<Node, Node>) {
    && (forall b, x {:trigger x in loops[b]} :: b in loops && x in loops[b] ==> x in inner)
    && (forall x {:trigger inner[x]} :: x in inner ==> inner[x] in loops && x in loops[inner[x]])
    && (forall x, b {:trigger inner[x], loops[b]} :: x in inner && b in loops && x in loops[b] ==>
      Inside(loops[inner[x]], loops[b]))
  }

  // Components of this round that are still to be recorded; first is what was left when the round began.
  ghost predicate Waiting(func: Graph, first: Graph, g: Graph, loops: map<Node, set<Node>>, sccs: set<set<Node>>) {
    && Part(func, first) && (forall x :: x in g.nodes ==> x in first.nodes)
    && (forall s :: s in sccs ==> IsScc(first, s) && Cyclic(first, s) && Inside(s, g.nodes))
    && (forall s, b {:trigger s in sccs, loops[b]} :: s in sccs && b in loops ==>
      Inside(s, loops[b]) || Apart(s, loops[b]))
  }

  lemma RoundBegins(func: Graph, g: Graph, loops: map<Node, set<Node>>, sccs: set<set<Node>>)
    requires Nest(func, g, loops) && forall s :: s in sccs ==> IsScc(g, s) && Cyclic(g, s)
    ensures Waiting(func, g, g, loops, sccs)
  {
    hide Reaches, Cyclic, Header, Around, Part;
    forall s, b | s in sccs && b in loops ensures Inside(s, loops[b]) || Apart(s, loops[b]) {
      if x :| x in s && x in loops[b] {
        forall y | y in s ensures y in loops[b] {
          assert Mutual(g, x, y);
        }
      }
    }
  }

  // ---------- recording one loop ----------

  // Taking block b out.
  ghost predicate Without(func: Graph, g: Graph, h: Graph, b: Node) {
    Part(func, g) && Part(func, h) && forall x :: x in h.nodes <==> x in g.nodes && x != b
  }

  ghost predicate Recordable(func: Graph, first: Graph, g: Graph, loops: map<Node, set<Node>>, sccs: set<set<Node>>,
                             s: set<Node>, base: Node, h: Graph) {
    && Nest(func, g, loops) && Waiting(func, first, g, loops, sccs) && s in sccs
    && Header(func, base, s) && Without(func, g, h, base)
  }

  lemma SccAround(func: Graph, g: Graph, s: set<Node>)
    requires Part(func, g) && IsScc(g, s) && Cyclic(g, s)
    ensures Around(func, s)
  {
    WholePart(func);
    forall x, y | x in s && y in s ensures Reaches(func, x, y) {
      assert Mutual(g, x, y);
      PartReach(func, func, g, x, y);
    }
    hide Reaches;
    assert forall x :: g.Edge(x, x) ==> func.Edge(x, x);
  }

  lemma WholePart(func: Graph)
    requires func.Valid()
    ensures Part(func, func)
  {
  }

  lemma RecordNew(func: Graph, first: Graph, g: Graph, loops: map<Node, set<Node>>, sccs: set<set<Node>>,
                  s: set<Node>, base: Node, h: Graph, b: Node)
    requires Recordable(func, first, g, loops, sccs, s, base, h) && b in loops
    ensures base !in loops && (Inside(s, loops[b]) || Apart(s, loops[b])) && loops[b] != s
  {
    hide Reaches, Cyclic, Around, IsScc, Part;
    assert base in g.nodes && b in loops[b] && b !in g.nodes;
    assert b !in s;
  }

  lemma RecordMutual(func: Graph, first: Graph, g: Graph, loops: map<Node, set<Node>>, sccs: set<set<Node>>,
                     s: set<Node>, base: Node, h: Graph, x: Node, y: Node)
    requires Recordable(func, first, g, loops, sccs, s, base, h) && Mutual(h, x, y)
    ensures x in s ==> y in s
    ensures Mutual(g, x, y)
  {
    hide Cyclic, Around, Nested, Header;
    PartReach(func, g, h, x, y);
    PartReach(func, first, h, x, y);
    ReachedNode(first, x, y);
    hide Reaches;
  }

  lemma ReachedNode(g: Graph, a: Node, b: Node)
    requires g.Valid() && Reaches(g, a, b)
    ensures a in g.nodes && b in g.nodes
  {
    var p :| Joins(g, p, a, b);
    PathNodes(g, p);
    assert b in p;
  }

  lemma RecordNest(func: Graph, first: Graph, g: Graph, loops: map<Node, set<Node>>, sccs: set<set<Node>>,
                   s: set<Node>, base: Node, h: Graph)
    requires Recordable(func, first, g, loops, sccs, s, base, h)
    ensures Nest(func, h, loops[base := s])
  {
    hide Reaches, Cyclic, Around, IsScc, Inside, Apart, Mutual, Unsplit, Header, Nested;
    var after := loops[base := s];
    SccAround(func, first, s);
    BaseKnown(func, first, g, loops, sccs, s, base, h);
    forall b | b in loops ensures base !in loops && Nested(s, loops[b]) && Nested(loops[b], s) && loops[b] != s {
      RecordNew(func, first, g, loops, sccs, s, base, h, b);
      ApartBoth(s, loops[b]);
    }
    NestedSelf(s);
    RecordUnsplit(func, first, g, loops, sccs, s, base, h);
  }

  lemma RecordUnsplit(func: Graph, first: Graph, g: Graph, loops: map<Node, set<Node>>, sccs: set<set<Node>>,
                      s: set<Node>, base: Node, h: Graph)
    requires Recordable(func, first, g, loops, sccs, s, base, h)
    ensures Unsplit(h, loops[base := s])
  {
    hide Reaches, Cyclic, Around, IsScc, Inside, Apart, Mutual, Nested, Header, Part;
    var after := loops[base := s];
    forall b, x, y | b in after && x in after[b] && Mutual(h, x, y) ensures y in after[b] {
      RecordMutual(func, first, g, loops, sccs, s, base, h, x, y);
    }
  }

  lemma BaseKnown(func: Graph, first: Graph, g: Graph, loops: map<Node, set<Node>>, sccs: set<set<Node>>,
                  s: set<Node>, base: Node, h: Graph)
    requires Recordable(func, first, g, loops, sccs, s, base, h)
    ensures base in func.nodes && base in g.nodes && Part(func, first) && IsScc(first, s) && Cyclic(first, s)
  {
    hide Reaches, Around, IsScc, Cyclic, Nested;
  }

  lemma NestedSelf(s: set<Node>)
    ensures Nested(s, s)
  {
  }

  lemma ApartBoth(s: set<Node>, t: set<Node>)
    requires Inside(s, t) || Apart(s, t)
    ensures Nested(s, t) && Nested(t, s)
  {
  }

  lemma RecordWaiting(func: Graph, first: Graph, g: Graph, loops: map<Node, set<Node>>, sccs: set<set<Node>>,
                      s: set<Node>, base: Node, h: Graph)
    requires Recordable(func, first, g, loops, sccs, s, base, h)
    ensures Waiting(func, first, h, loops[base := s], sccs - {s})
  {
    hide Reaches, Cyclic, Around, Nest;
    forall t | t in sccs && t != s ensures Apart(t, s) {
      if x :| x in t && x in s {
        SameScc(first, t, s, x);
      }
    }
    hide IsScc;
    assert Part(func, h);
  }

  // What bb2base becomes: the blocks of the new loop point to its base.
  ghost predicate Repointed(inner: map<Node, Node>, after: map<Node, Node>, s: set<Node>, base: Node) {
    && (forall x :: x in after <==> x in inner || x in s)
    && (forall x :: x in s ==> x in after && after[x] == base)
    && (forall x :: x in inner && x !in s ==> x in after && after[x] == inner[x])
  }

  lemma RecordInnermost(func: Graph, first: Graph, g: Graph, loops: map<Node, set<Node>>, sccs: set<set<Node>>,
                        s: set<Node>, base: Node, h: Graph, inner: map<Node, Node>, after: map<Node, Node>)
    requires Recordable(func, first, g, loops, sccs, s, base, h) && Innermost(loops, inner)
        && Repointed(inner, after, s, base)
    ensures Innermost(loops[base := s], after)
  {
    hide Reaches, Cyclic, Around, IsScc, Part, Nested, Nest, Header;
    var more := loops[base := s];
    forall b | b in loops ensures base !in loops && (Inside(s, loops[b]) || Apart(s, loops[b])) {
      RecordNew(func, first, g, loops, sccs, s, base, h, b);
    }
    forall x, b | x in after && b in more && x in more[b] ensures Inside(more[after[x]], more[b]) {
    }
  }

  // ---------- rounds ----------

  /** Round k looked at what was left without the bases of the rounds before it, and recorded its components
      (those with a cycle), each with one base; those in todo are still to come in the last round. */
  ghost predicate Staged(func: Graph, loops: map<Node, set<Node>>, rounds: seq<Graph>, stage: map<Node, int>,
      todo: set<set<Node>>) {
    && stage.Keys == loops.Keys
    && (forall b {:trigger stage[b]} :: b in loops ==>
      0 <= stage[b] < |rounds| && IsScc(rounds[stage[b]], loops[b]) && Cyclic(rounds[stage[b]], loops[b]))
    && (forall k {:trigger rounds[k]} :: 0 <= k < |rounds| ==>
      Part(func, rounds[k]) && LeftAt(func, loops, stage, k, rounds[k]))
    && (forall k, s {:trigger IsScc(rounds[k], s)} ::
      0 <= k < |rounds| && IsScc(rounds[k], s) && Cyclic(rounds[k], s) ==>
          (k == |rounds| - 1 && s in todo) || RecordedAt(loops, stage, k, s))
  }

  ghost predicate LeftAt(func: Graph, loops: map<Node, set<Node>>, stage: map<Node, int>, k: int, g: Graph) {
    forall x {:trigger x in g.nodes} :: x in g.nodes <==> x in func.nodes && !(x in loops && x in stage && stage[x] < k)
  }

  ghost predicate RecordedAt(loops: map<Node, set<Node>>, stage: map<Node, int>, k: int, s: set<Node>) {
    exists b :: b in loops && b in stage && stage[b] == k && loops[b] == s
  }

  lemma StageBegins(func: Graph, g: Graph, loops: map<Node, set<Node>>, rounds: seq<Graph>, stage: map<Node, int>,
      sccs: set<set<Node>>)
    requires Nest(func, g, loops) && Staged(func, loops, rounds, stage, {})
    requires forall s :: s in sccs <==> IsScc(g, s) && Cyclic(g, s)
    ensures Staged(func, loops, rounds + [g], stage, sccs)
  {
    hide IsScc, Cyclic, Header, Around, Nested, Unsplit, RecordedAt;
    var more := rounds + [g];
    forall k | 0 <= k < |more| ensures Part(func, more[k]) && LeftAt(func, loops, stage, k, more[k]) {
      assert k < |rounds| ==> more[k] == rounds[k];
    }
    hide Part, LeftAt;
    forall k, s | 0 <= k < |more| && IsScc(more[k], s) && Cyclic(more[k], s) ensures (k == |more| - 1 && s in sccs)
        || RecordedAt(loops, stage, k, s) {
      assert k < |rounds| ==> IsScc(rounds[k], s);
    }
  }

  lemma StageRecords(func: Graph, loops: map<Node, set<Node>>, rounds: seq<Graph>, stage: map<Node, int>,
      todo: set<set<Node>>, s: set<Node>, base: Node)
    requires Staged(func, loops, rounds, stage, todo) && |rounds| > 0 && base !in loops
    requires IsScc(rounds[|rounds| - 1], s) && Cyclic(rounds[|rounds| - 1], s)
    ensures Staged(func, loops[base := s], rounds, stage[base := |rounds| - 1], todo - {s})
  {
    hide IsScc, Cyclic, Part;
    var after, when := loops[base := s], stage[base := |rounds| - 1];
    forall k, t | 0 <= k < |rounds| && IsScc(rounds[k], t) && Cyclic(rounds[k], t)
      ensures (k == |rounds| - 1 && t in todo - {s}) || RecordedAt(after, when, k, t)
    {
      if RecordedAt(loops, stage, k, t) {
        var b :| b in loops && b in stage && stage[b] == k && loops[b] == t;
        assert after[b] == t && when[b] == k;
      } else if t == s {
        assert after[base] == t && when[base] == k;
      }
    }
  }

  // ---------- bases ----------

  // What the nodes already taken out led to (reserved and their next lists).
  ghost predicate Remembered(func: Graph, g: Graph, reserved: map<Node, seq<Node>>) {
    && (forall u :: u in reserved <==> u in func.nodes && u !in g.nodes)
    && (forall u, v {:trigger v in reserved[u]} :: u in reserved && v in reserved[u] ==> func.Edge(u, v))
    && (forall u, v {:trigger func.Edge(u, v)} :: u in reserved && func.Edge(u, v) && v in g.nodes ==> v in reserved[u])
  }

  /** All blocks are reachable and the entry lies on no cycle, which then means that nothing leads to it. */
  ghost predicate Rooted(func: Graph, entry: Node) {
    && func.Valid() && entry in func.nodes
    && (forall x {:trigger Reaches(func, entry, x)} :: x in func.nodes ==> Reaches(func, entry, x))
    && forall y :: !func.Edge(y, entry)
  }

  lemma EntryOutside(func: Graph, entry: Node, s: set<Node>)
    requires Rooted(func, entry) && Around(func, s)
    ensures entry !in s
  {
    hide Path;
    if y :| y in s && y != entry {
      NotReached(func, y, entry);
    } else {
      SingleSet(s, entry);
    }
  }

  lemma NotReached(func: Graph, y: Node, entry: Node)
    requires y != entry && forall x :: !func.Edge(x, entry)
    ensures !Reaches(func, y, entry)
  {
    forall p ensures !Joins(func, p, y, entry) {
      if |p| > 1 {
        assert !func.Edge(p[|p| - 2], entry);
      }
    }
  }

  lemma SingleSet(s: set<Node>, e: Node)
    requires forall y :: y in s ==> y == e
    ensures |s| <= 1
  {
    SomeElement(s - {e});
    assert |s| <= |s - {e}| + 1;
  }

  // A path into s crosses its border.
  lemma {:induction false} Border(func: Graph, s: set<Node>, p: seq<Node>, a: Node, b: Node) returns (u: Node, v: Node)
    requires Joins(func, p, a, b) && a !in s && b in s
    ensures func.Edge(u, v) && u !in s && v in s
    decreases |p|
  {
    var c := p[|p| - 2];
    if c in s {
      u, v := Border(func, s, p[..|p| - 1], a, c);
    } else {
      u, v := c, b;
    }
  }

  lemma HasBorder(func: Graph, entry: Node, s: set<Node>) returns (u: Node, v: Node)
    requires Rooted(func, entry) && Around(func, s) && s != {}
    ensures func.Edge(u, v) && u !in s && v in s
  {
    hide Path, Cyclic;
    EntryOutside(func, entry, s);
    SomeElement(s);
    var b :| b in s;
    assert Reaches(func, entry, b);
    var p :| Joins(func, p, entry, b);
    u, v := Border(func, s, p, entry, b);
  }

  // ---------- the end ----------

  ghost predicate NoCycles(g: Graph) { forall x, y {:trigger g.Edge(x, y)} :: g.Edge(x, y) ==> !Reaches(g, y, x) }

  ghost function SccOf(g: Graph, x: Node): set<Node> { set z | z in g.nodes && Mutual(g, x, z) }

  lemma SccOfIsScc(g: Graph, x: Node)
    requires x in g.nodes
    ensures IsScc(g, SccOf(g, x)) && x in SccOf(g, x)
  {
    hide Reaches;
    ReachSelf(g, x);
    assert x in SccOf(g, x);
    forall a, b | a in SccOf(g, x) && b in g.nodes ensures b in SccOf(g, x) <==> Mutual(g, a, b) {
      if Mutual(g, x, b) {
        ReachTrans(g, a, x, b);
        ReachTrans(g, b, x, a);
      }
      if Mutual(g, a, b) {
        ReachTrans(g, x, a, b);
        ReachTrans(g, b, a, x);
      }
    }
  }

  /** Without a component of its own kind left, what remains has no cycle. */
  lemma NoSccNoCycle(g: Graph)
    requires g.Valid() && forall s :: !(IsScc(g, s) && Cyclic(g, s))
    ensures NoCycles(g)
  {
    hide IsScc, Reaches;
    forall x, y | g.Edge(x, y) ensures !Reaches(g, y, x) {
      assert x in g.nodes && y in g.nodes;
      SccOfIsScc(g, x);
      ReachEdge(g, x, y);
      assert !Cyclic(g, SccOf(g, x));
      TwoOrSelf(g, x, y);
    }
  }

  lemma TwoOrSelf(g: Graph, x: Node, y: Node)
    requires x in g.nodes && y in g.nodes && g.Edge(x, y) && x in SccOf(g, x) && Reaches(g, x, y)
    ensures Reaches(g, y, x) ==> Cyclic(g, SccOf(g, x))
  {
    hide Reaches;
    var c := SccOf(g, x);
    if Reaches(g, y, x) && y != x {
      assert y in c;
      assert {x, y} <= c;
      TwoSmaller(x, y, c);
    }
  }

  lemma TwoSmaller(x: Node, y: Node, c: set<Node>)
    requires x != y && x in c && y in c
    ensures |c| > 1
  {
    var d := c - {x};
    assert y in d;
    assert |d| > 0;
    assert |c| == |d| + 1;
  }

  // ---------- the enclosing loop ----------

  /** The innermost loop of an outside predecessor of the base, if it contains the base, encloses the loop. */
  lemma ParentEncloses(func: Graph, g: Graph, loops: map<Node, set<Node>>, inner: map<Node, Node>, base: Node,
      pre: Node)
    requires Nest(func, g, loops) && Innermost(loops, inner) && base in loops && pre !in loops[base]
    requires pre in inner && base in loops[inner[pre]]
    ensures Inside(loops[base], loops[inner[pre]]) && !Inside(loops[inner[pre]], loops[base])
    // and it is the smallest such loop if the predecessor lies in all of them
    ensures (forall b :: b in loops && Inside(loops[base], loops[b]) && b != base ==> pre in loops[b]) ==>
              forall b :: b in loops && Inside(loops[base], loops[b]) && b != base ==>
                  Inside(loops[inner[pre]], loops[b])
  {
    hide Part, Reaches, Around, Unsplit;
    var outer := inner[pre];
    assert outer in loops && pre in loops[outer];
    assert Nested(loops[base], loops[outer]);
  }

  // The loop of b properly encloses that of base.
  ghost predicate Encloses(loops: map<Node, set<Node>>, base: Node, b: Node) {
    base in loops && b in loops && b != base && Inside(loops[base], loops[b])
  }

  // answer is the smallest loop around that of base, or nothing if there is none.
  ghost predicate Parent(loops: map<Node, set<Node>>, base: Node, answer: set<Node>, found: bool) {
    if found then
      && (exists b :: Encloses(loops, base, b) && loops[b] == answer)
      && (forall b :: Encloses(loops, base, b) ==> Inside(answer, loops[b]))
    else forall b :: !Encloses(loops, base, b)
  }

  // pre lies in the loops around that of base and in no others.
  ghost predicate Beside(loops: map<Node, set<Node>>, base: Node, pre: Node) {
    forall b :: b in loops ==> (pre in loops[b] <==> Encloses(loops, base, b))
  }

  /** Asking pre for the parent of the loop of base is right exactly when there is no parent or pre lies in
      just those loops that the loop of base lies in. */
  lemma ParentIff(func: Graph, g: Graph, loops: map<Node, set<Node>>, inner: map<Node, Node>, base: Node, pre: Node)
    requires Nest(func, g, loops) && Innermost(loops, inner) && base in loops && pre !in loops[base]
    ensures var found := pre in inner && inner[pre] in loops && base in loops[inner[pre]];
            Parent(loops, base, if found then loops[inner[pre]] else {}, found) <==>
            (forall b :: !Encloses(loops, base, b)) || Beside(loops, base, pre)
  {
    hide Nest, Innermost, Inside;
    if pre in inner && inner[pre] in loops && base in loops[inner[pre]] {
      AnswerEncloses(func, g, loops, inner, base, pre);
      if Parent(loops, base, loops[inner[pre]], true) {
        AnswerIsParent(func, g, loops, inner, base, pre);
      }
    } else {
      NoAnswer(func, g, loops, inner, base, pre);
    }
  }

  lemma AnswerEncloses(func: Graph, g: Graph, loops: map<Node, set<Node>>, inner: map<Node, Node>, base: Node,
      pre: Node)
    requires Nest(func, g, loops) && Innermost(loops, inner) && base in loops && pre !in loops[base]
    requires pre in inner && inner[pre] in loops && base in loops[inner[pre]]
    ensures Encloses(loops, base, inner[pre])
    ensures Beside(loops, base, pre) ==> forall b :: Encloses(loops, base, b) ==> Inside(loops[inner[pre]], loops[b])
  {
    hide Part, Reaches, Around, Unsplit;
    ParentEncloses(func, g, loops, inner, base, pre);
  }

  // The smallest enclosing loop being the innermost one of pre, pre lies in the enclosing loops and no others.
  lemma AnswerIsParent(func: Graph, g: Graph, loops: map<Node, set<Node>>, inner: map<Node, Node>, base: Node,
      pre: Node)
    requires Nest(func, g, loops) && Innermost(loops, inner) && base in loops && pre !in loops[base]
    requires pre in inner && inner[pre] in loops && Encloses(loops, base, inner[pre])
    requires forall b :: Encloses(loops, base, b) ==> Inside(loops[inner[pre]], loops[b])
    ensures Beside(loops, base, pre)
  {
    hide Part, Reaches, Around, Unsplit, Nested;
    assert pre in loops[inner[pre]];
    forall b | b in loops && pre in loops[b] ensures Encloses(loops, base, b) {
      assert Inside(loops[inner[pre]], loops[b]);
    }
  }

  // When pre has no loop with base in it, it lies in no loop around that of base at all, or in another one first.
  lemma NoAnswer(func: Graph, g: Graph, loops: map<Node, set<Node>>, inner: map<Node, Node>, base: Node, pre: Node)
    requires Nest(func, g, loops) && Innermost(loops, inner) && base in loops && pre !in loops[base]
    requires !(pre in inner && inner[pre] in loops && base in loops[inner[pre]])
    ensures Beside(loops, base, pre) ==> forall b :: !Encloses(loops, base, b)
  {
    hide Part, Reaches, Around, Unsplit, Nested;
    assert base in loops[base];
    forall b | Encloses(loops, base, b) ensures !Beside(loops, base, pre) {
      if pre in loops[b] {
        assert pre in loops[inner[pre]] && !Encloses(loops, base, inner[pre]);
      }
    }
  }

  // ---------- a loop whose enclosing loop is not found ----------

  // 0 enters the loop 1-2-3, in which 2 and 3 loop on themselves.
  function TwoInOne(): Graph {
    Graph({0, 1, 2, 3}, map[0 := [1], 1 := [2], 2 := [2, 3], 3 := [3, 1]],
        map[0 := [], 1 := [0, 3], 2 := [1, 2], 3 := [2, 3]])
  }

  function TwoInOneLoops(): map<Node, set<Node>> { map[1 := {1, 2, 3}, 2 := {2}, 3 := {3}] }

  lemma TwoInOneReach()
    ensures forall x, y :: x in {1, 2, 3} && y in {1, 2, 3} ==> Reaches(TwoInOne(), x, y)
  {
    hide Reaches;
    var g := TwoInOne();
    ReachEdge(g, 1, 2);
    ReachEdge(g, 2, 3);
    ReachEdge(g, 3, 1);
    ReachTrans(g, 1, 2, 3);
    ReachTrans(g, 2, 3, 1);
    ReachTrans(g, 3, 1, 2);
    ReachSelf(g, 1);
    ReachSelf(g, 2);
    ReachSelf(g, 3);
  }

  lemma TwoInOneRooted()
    ensures Rooted(TwoInOne(), 0)
  {
    hide Reaches;
    var func := TwoInOne();
    TwoInOneReach();
    ReachSelf(func, 0);
    ReachEdge(func, 0, 1);
    ReachTrans(func, 0, 1, 2);
    ReachTrans(func, 0, 1, 3);
  }

  lemma Outermost()
    ensures IsScc(TwoInOne(), {1, 2, 3}) && Cyclic(TwoInOne(), {1, 2, 3})
  {
    hide Reaches;
    TwoInOneReach();
    TwoSmaller(1, 2, {1, 2, 3});
    forall x | x in {1, 2, 3} ensures !Reaches(TwoInOne(), x, 0) {
      if Reaches(TwoInOne(), x, 0) { ReachStays(TwoInOne(), {1, 2, 3}, x, 0); }
    }
  }

  // Without block 1 the other two are components of their own.
  lemma Apart23(g: Graph, s: set<Node>, x: Node)
    requires Part(TwoInOne(), g) && 1 !in g.nodes && IsScc(g, s) && x in s && (x == 2 || x == 3)
    ensures s == {x}
  {
    hide Reaches, Part;
    Without1(g);
    forall y | y in s ensures y == x {
      assert Mutual(g, x, y);
      if x == 2 { ReachStays(g, {2, 3}, 2, y); } else { ReachStays(g, {3}, 3, y); }
      if y == 2 { ReachStays(g, {2, 3}, 2, x); } else if y == 3 { ReachStays(g, {3}, 3, x); }
    }
  }

  lemma Without1(g: Graph)
    requires Part(TwoInOne(), g) && 1 !in g.nodes
    ensures ClosedSet(g, {2, 3}) && ClosedSet(g, {3})
  {
    forall x, y | g.Edge(x, y) ensures TwoInOne().Edge(x, y) && y in g.nodes {
    }
  }

  lemma NestGives(func: Graph, g: Graph, loops: map<Node, set<Node>>)
    requires Nest(func, g, loops)
    ensures Part(func, g) && (forall x :: x in func.nodes ==> (x in loops <==> x !in g.nodes))
    ensures forall b :: b in loops ==> b in func.nodes && Header(func, b, loops[b])
  {
    hide Part, Around, Unsplit, Nested, Header;
  }

  // 2 and 3 are successors of themselves, so they have been taken out.
  lemma BothTaken(g: Graph, loops: map<Node, set<Node>>)
    requires Nest(TwoInOne(), g, loops) && NoCycles(g)
    ensures 2 in loops && 3 in loops && 2 in loops[2] && 3 in loops[3]
  {
    hide Nest;
    NestGives(TwoInOne(), g, loops);
    LoopTaken(g, 2);
    LoopTaken(g, 3);
  }

  lemma LoopTaken(g: Graph, x: Node)
    requires Part(TwoInOne(), g) && NoCycles(g) && (x == 2 || x == 3)
    ensures x !in g.nodes
  {
    hide Reaches;
    if x in g.nodes {
      assert TwoInOne().Edge(x, x) && g.Edge(x, x);
      ReachSelf(g, x);
    }
  }

  // The first round finds one component, and only block 1 of it can be entered from outside.
  lemma FirstRecorded(g: Graph, loops: map<Node, set<Node>>, rounds: seq<Graph>, stage: map<Node, int>)
    requires Nest(TwoInOne(), g, loops) && Staged(TwoInOne(), loops, rounds, stage, {}) && |rounds| > 0
    ensures 1 in loops && loops[1] == {1, 2, 3} && stage[1] == 0
  {
    hide Reaches, Around, Unsplit, Nested, IsScc, Cyclic;
    WholeFirst(loops, rounds, stage);
    Outermost();
    assert RecordedAt(loops, stage, 0, {1, 2, 3});
    var b :| b in loops && b in stage && stage[b] == 0 && loops[b] == {1, 2, 3};
    assert Header(TwoInOne(), b, {1, 2, 3});
  }

  lemma WholeFirst(loops: map<Node, set<Node>>, rounds: seq<Graph>, stage: map<Node, int>)
    requires Staged(TwoInOne(), loops, rounds, stage, {}) && |rounds| > 0
    ensures forall s :: IsScc(TwoInOne(), s) && Cyclic(TwoInOne(), s) ==> IsScc(rounds[0], s) && Cyclic(rounds[0], s)
  {
    hide IsScc, Cyclic;
    assert Part(TwoInOne(), rounds[0]) && LeftAt(TwoInOne(), loops, stage, 0, rounds[0]);
    assert forall b :: b in loops ==> stage[b] >= 0;
    assert forall x :: x in TwoInOne().nodes ==> x in rounds[0].nodes;
    forall s | IsScc(TwoInOne(), s) && Cyclic(TwoInOne(), s) ensures IsScc(rounds[0], s) && Cyclic(rounds[0], s) {
      SameComponents(TwoInOne(), rounds[0], s);
    }
  }

  lemma SameComponents(func: Graph, g: Graph, s: set<Node>)
    requires Part(func, g) && (forall x :: x in func.nodes ==> x in g.nodes) && IsScc(func, s) && Cyclic(func, s)
    ensures IsScc(g, s) && Cyclic(g, s)
  {
    hide Reaches;
    assert Part(func, func);
    forall x, y | x in s && y in g.nodes ensures y in s <==> Mutual(g, x, y) {
      PartReach(func, func, g, x, y);
      PartReach(func, g, func, x, y);
    }
  }

  // Later rounds look at what is left without block 1.
  lemma LaterRecorded(g: Graph, loops: map<Node, set<Node>>, rounds: seq<Graph>, stage: map<Node, int>, x: Node)
    requires Nest(TwoInOne(), g, loops) && Staged(TwoInOne(), loops, rounds, stage, {}) && |rounds| > 0
    requires (x == 2 || x == 3) && x in loops && x in loops[x] && 1 in loops && loops[1] == {1, 2, 3} && stage[1] == 0
    ensures loops[x] == {x}
  {
    hide Reaches, Around, Unsplit, Nested, Header;
    var k := stage[x];
    assert Part(TwoInOne(), rounds[k]) && LeftAt(TwoInOne(), loops, stage, k, rounds[k]);
    assert IsScc(rounds[k], loops[x]);
    if k == 0 {
      assert IsScc(rounds[0], loops[1]) by { assert stage[1] == 0; }
      SameScc(rounds[0], loops[x], loops[1], x);
    } else {
      Apart23(rounds[k], loops[x], x);
    }
  }

  /** Whatever run records for this function, get_parent_loop asks the first predecessor 2 of block 3 outside
      the loop of 3, whose own loop does not contain 3, and gives up: but the loop of 1 encloses both. */
  lemma ParentCanBeMissed(g: Graph, loops: map<Node, set<Node>>, inner: map<Node, Node>, rounds: seq<Graph>,
      stage: map<Node, int>)
    requires Nest(TwoInOne(), g, loops) && Innermost(loops, inner) && NoCycles(g)
        && Staged(TwoInOne(), loops, rounds, stage, {})
    ensures Rooted(TwoInOne(), 0) && loops == TwoInOneLoops()
    ensures TwoInOne().pred[3][0] == 2 && 2 !in loops[3] && 2 in inner && inner[2] in loops && 3 !in loops[inner[2]]
    ensures !Parent(loops, 3, {}, false)
  {
    hide Nest, Staged, NoCycles, Rooted, Innermost;
    TwoInOneRooted();
    AllThree(g, loops, rounds, stage);
    InnermostOfTwo(loops, inner);
    assert Encloses(loops, 3, 1);
  }

  lemma AllThree(g: Graph, loops: map<Node, set<Node>>, rounds: seq<Graph>, stage: map<Node, int>)
    requires Nest(TwoInOne(), g, loops) && NoCycles(g) && Staged(TwoInOne(), loops, rounds, stage, {})
    ensures loops == TwoInOneLoops()
  {
    hide Nest, NoCycles, IsScc, Cyclic, Part;
    BothTaken(g, loops);
    assert 0 <= stage[2] < |rounds|;
    FirstRecorded(g, loops, rounds, stage);
    LaterRecorded(g, loops, rounds, stage, 2);
    LaterRecorded(g, loops, rounds, stage, 3);
    EntryNotBase(g, loops);
    SameLoops(loops);
  }

  lemma SameLoops(loops: map<Node, set<Node>>)
    requires 1 in loops && 2 in loops && 3 in loops && forall b :: b in loops ==> b == 1 || b == 2 || b == 3
    requires loops[1] == {1, 2, 3} && loops[2] == {2} && loops[3] == {3}
    ensures loops == TwoInOneLoops()
  {
    forall b ensures b in loops <==> b in TwoInOneLoops() {
    }
    forall b | b in loops ensures loops[b] == TwoInOneLoops()[b] {
    }
  }

  lemma InnermostOfTwo(loops: map<Node, set<Node>>, inner: map<Node, Node>)
    requires loops == TwoInOneLoops() && Innermost(loops, inner)
    ensures 2 in inner && inner[2] in loops && 3 !in loops[inner[2]]
  {
    assert 2 in loops[2] && Inside(loops[inner[2]], loops[2]);
  }

  lemma EntryNotBase(g: Graph, loops: map<Node, set<Node>>)
    requires Nest(TwoInOne(), g, loops)
    ensures forall b :: b in loops ==> b == 1 || b == 2 || b == 3
  {
    hide Nest, Part, Header;
    NestGives(TwoInOne(), g, loops);
    forall b | b in loops ensures b != 0 {
      EntryNoHeader(loops[b]);
    }
  }

  lemma EntryNoHeader(loop: set<Node>)
    ensures !Header(TwoInOne(), 0, loop)
  {
    forall p ensures !TwoInOne().Edge(p, 0) {
    }
  }
}
