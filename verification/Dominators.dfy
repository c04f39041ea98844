/** The dominator pass (src/Optimize/Dominators.cc), run over block lists that loops update in place. */
module DominatorPass {
  import opened Basis
  import opened Graphs
  import opened IdomForest
  import opened DominatorTheory
  import opened FrontierTheory
  import opened Sums

  class Dominators {
    var g: Graph
    const root: Node
    var visited: set<Node>
    var visitOrder: seq<Node>
    var visitIndex: map<Node, int>
    var idom: map<Node, Node>
    var domFrontier: map<Node, set<Node>>

    constructor (graph: Graph, entry: Node)
      ensures g == graph && root == entry
      ensures visited == {} && visitOrder == [] && visitIndex == map[] && idom == map[] && domFrontier == map[]
    {
      g, root := graph, entry;
      visited, visitOrder, visitIndex, idom, domFrontier := {}, [], map[], map[], map[];
    }

    // visitIndex gives each finished block its place in visitOrder.
    ghost predicate Numbering()
      reads this`g, this`visited, this`visitOrder, this`visitIndex
    {
      && visitIndex.Keys <= visited <= g.nodes
      && (forall i {:trigger visitOrder[i]} :: 0 <= i < |visitOrder| ==>
            visitOrder[i] in visitIndex && visitIndex[visitOrder[i]] == i)
      && (forall b {:trigger visitIndex[b]} :: b in visitIndex ==>
            0 <= visitIndex[b] < |visitOrder| && visitOrder[visitIndex[b]] == b)
    }

    /** visit_block, lines 12-20: a depth-first search that numbers blocks as it leaves them. */
    method VisitBlock(b: Node)
      requires g.Valid() && b in g.nodes && b !in visited && Numbering()
      modifies this`visited, this`visitOrder, this`visitIndex
      ensures Numbering() && old(visited) <= visited
      ensures Grew(g, b, old(visitIndex), visitIndex, old(visited) + visitIndex.Keys)
      ensures visited == old(visited) + visitIndex.Keys && b in visitIndex
          && NoneOf(old(visited), old(visitIndex), visitIndex)
      ensures |old(visitOrder)| < |visitOrder| && visitOrder[|visitOrder| - 1] == b && old(visitOrder) <= visitOrder
      decreases g.nodes - visited
    {
      hide Joins, Reaches, NumberedParent;
      visited := visited + {b};
      var i := 0;
      while i < |g.succ[b]|
        invariant 0 <= i <= |g.succ[b]| && Numbering()
        invariant visited == old(visited) + {b} + visitIndex.Keys && b !in visitIndex
        invariant NoneOf(old(visited) + {b}, old(visitIndex), visitIndex)
        invariant old(visitOrder) <= visitOrder
        invariant forall j :: 0 <= j < i ==> g.succ[b][j] in visited
        invariant Open(g, b, old(visitIndex), visitIndex, visited)
      {
        var succ := g.succ[b][i];
        if succ !in visited {
          ghost var vis, idx := visited, visitIndex;
          EdgeInto(g, b, succ);
          VisitBlock(succ);
          OpenGrows(g, b, succ, old(visitIndex), idx, visitIndex, vis);
        }
        i := i + 1;
      }
      OpenIsGrown(g, b, old(visitIndex), visitIndex, visited, |visitOrder|);
      Leave(b);
      assert old(visited) + visitIndex.Keys == visited;
    }

    // Lines 18-19.
    method Leave(b: Node)
      requires Numbering() && b in visited && b !in visitIndex
      modifies this`visitOrder, this`visitIndex
      ensures Numbering()
      ensures visitIndex == old(visitIndex)[b := |old(visitOrder)|] && visitOrder == old(visitOrder) + [b]
    {
      visitIndex := visitIndex[b := |visitOrder|];
      visitOrder := visitOrder + [b];
    }

    function Tree(): Forest
      reads this`idom, this`visitOrder, this`visitIndex
    {
      Forest(root, idom, visitIndex, |visitOrder|)
    }

    /** visit_function, lines 22-44: number the reachable blocks and drop the others. */
    method VisitFunction()
      requires g.Valid() && root in g.nodes
      modifies this`g, this`visited, this`visitOrder, this`visitIndex, this`idom
      ensures g == Restrict(old(g), visited)
      ensures forall b :: b in visited <==> Reaches(old(g), root, b)
      ensures idom == map[root := root] && Numbering() && Setting(g, Tree())
    {
      hide Path, Setting, NumberedParent, Reaches, Restrict, Dominates;
      visited, visitOrder, visitIndex := {}, [], map[];
      VisitBlock(root);
      assert {} + visitIndex.Keys == visited;
      ghost var all := g;
      g := Restrict(g, visited);
      RestrictNodes(all, visited);
      idom := map[root := root];
      SearchSetting(all, Tree(), visited);
      VisitedIsReachable(all, visited, root);
    }

    // Lines 116-122: the first predecessor that has an idom; line 122 asserts that there is one.
    method FirstReached(preds: seq<Node>, ghost p: Node) returns (first: Node)
      requires p in preds && p in idom
      ensures first in preds && first in idom
    {
      var i := 0;
      while preds[i] !in idom
        invariant 0 <= i < |preds| && p in preds[i..]
        decreases |preds| - i
      {
        i := i + 1;
      }
      first := preds[i];
    }

    /** Lines 115-129: the nearest common ancestor of the predecessors that have an idom. */
    method MeetOfPreds(block: Node, ghost before: Forest) returns (newIdom: Node)
      requires Turn(g, before, Tree(), block)
      ensures IsMeet(g, Tree(), block, newIdom)
    {
      hide Turn, IsMeet, SharedBy;
      var f := Tree();
      TurnBasics(g, before, f, block);
      var preds := g.pred[block];
      ghost var p := ForwardPred(g, before, f, block);
      var first := FirstReached(preds, p);
      newIdom := first;
      SharedByNone(f, preds);
      var i := 0;
      while i < |preds|
        invariant 0 <= i <= |preds| && newIdom in idom
        invariant forall e :: e in f.Chain(newIdom) <==> e in f.Chain(first) && SharedBy(f, preds[..i], e)
      {
        if preds[i] in idom && preds[i] != first {
          newIdom := Intersect(f, newIdom, preds[i]);
        }
        SharedByMore(f, preds, i);
        i := i + 1;
      }
      assert preds[..i] == preds;
      SharedIsCommon(g, f, block, newIdom, first);
    }

    /** generate_idom, lines 101-137. It ends, and the chains it leaves are the dominators. */
    method GenerateIdom()
      requires Setting(g, Tree()) && Numbering() && idom == map[root := root]
      modifies this`idom
      ensures Fixed(g, Tree())
    {
      hide Good, Ready, Fixed, Slacks, Setting, Numbering;
      StartIsReady(g, Tree());
      var changed := true;
      while changed
        invariant Ready(g, Tree()) && Numbering()
        invariant !changed ==> Fixed(g, Tree())
        decreases Sum(Slacks(g, Tree())), changed
      {
        changed := OnePass();
      }
    }

    // Lines 109-135. visitOrder is walked from its end, which is the reversed order of line 43.
    method OnePass() returns (changed: bool)
      requires Ready(g, Tree()) && Numbering()
      modifies this`idom
      ensures Ready(g, Tree())
      ensures if changed then Sum(Slacks(g, Tree())) < Sum(Slacks(g, old(Tree()))) else
                (Tree() == old(Tree()) && Fixed(g, Tree()))
    {
      hide Ready, Passing, Fixed, MetAbove, Slacks;
      changed := false;
      var k := |visitOrder|;
      ghost var before := Tree();
      PassBegins(g, before);
      while k > 0
        invariant 0 <= k <= |visitOrder|
        invariant Passing(g, before, Tree(), k - 1)
        invariant changed ==> Sum(Slacks(g, Tree())) < Sum(Slacks(g, before))
        invariant !changed ==> Tree() == before && MetAbove(g, Tree(), k - 1)
      {
        k := k - 1;
        var updated := Evaluate(visitOrder[k], k, before);
        changed := changed || updated;
      }
      PassEnds(g, before, Tree());
    }

    // Lines 112-134 for one block.
    method Evaluate(block: Node, ghost k: int, ghost before: Forest) returns (updated: bool)
      requires Passing(g, before, Tree(), k)
      requires block in visitIndex && visitIndex[block] == k
      modifies this`idom
      ensures Passing(g, before, Tree(), k - 1)
      ensures updated ==> Sum(Slacks(g, Tree())) < Sum(Slacks(g, old(Tree())))
      ensures !updated ==> Tree() == old(Tree()) && (MetAbove(g, Tree(), k) ==> MetAbove(g, Tree(), k - 1))
    {
      hide Passing, Turn, IsMeet, MetAbove, Slacks;
      updated := false;
      ghost var f := Tree();
      if block == root {
        SkipRoot(g, before, f, k);
      } else {
        ItsTurn(g, before, f, k, block);
        var newIdom := MeetOfPreds(block, before);
        Updated(g, before, f, k, block, newIdom);
        if block !in idom || idom[block] != newIdom {
          UpdateShrinks(g, before, f, block, newIdom);
          idom, updated := idom[block := newIdom], true;
        } else {
          assert Redirect(f, block, newIdom) == f;
          MetMore(g, before, f, k, block);
        }
      }
    }

    /** Dominators::run for one function: afterwards the idom chains spell out the dominators of the
        function as it was given, and the frontiers those of what is left of it. */
    method Run()
      requires g.Valid() && root in g.nodes
      modifies this
      ensures g == Restrict(old(g), visited) && Fixed(g, Tree())
      ensures forall b :: b in g.nodes <==> Reaches(old(g), root, b)
      ensures forall b, d :: b in g.nodes ==> (d in Tree().Chain(b) <==> Dominates(old(g), root, d, b))
      ensures forall x, y :: y in g.nodes && y != root ==> (y in DomFrontier(x) <==> InFrontier(g, root, x, y))
    {
      hide Setting, Fixed, Walked, InFrontier, Path, Restrict, Reaches, Dominates;
      VisitFunction();
      GenerateIdom();
      GenerateDomFrontier();
      Basics(g, Tree());
      ghost var all := old(g);
      RunNodes(all, g, visited, root);
      forall b, d | b in g.nodes ensures d in Tree().Chain(b) <==> Dominates(all, root, d, b) {
        ChainIsDominators(g, Tree(), b, d);
        RestrictDominates(all, visited, root, d, b);
      }
      forall x, y | y in g.nodes && y != root ensures y in DomFrontier(x) <==> InFrontier(g, root, x, y) {
        WalkedIsFrontier(g, Tree(), x, y);
      }
    }

    /** is_dominator, lines 191-199: whether prev strictly dominates succ. */
    function IsDominator(succ: Node, prev: Node): (r: bool)
      requires Tree().Ok() && succ in idom
      reads this`idom, this`visitOrder, this`visitIndex
      ensures r <==> prev != succ && prev in Tree().Chain(succ)
      decreases |visitOrder| - visitIndex[succ]
    {
      if idom[succ] == succ then false
      else if idom[succ] == prev then true
      else IsDominator(idom[succ], prev)
    }

    function DomFrontier(x: Node): set<Node>
      reads this`domFrontier
    {
      if x in domFrontier then domFrontier[x] else {}
    }

    /** generate_dom_frontier, lines 140-149. */
    method GenerateDomFrontier()
      requires Fixed(g, Tree())
      modifies this`domFrontier
      ensures forall x, y :: y in DomFrontier(x) <==> Walked(g, Tree(), x, y)
    {
      hide Fixed, Walked, WalkedBy;
      domFrontier := map[];
      var todo := g.nodes;
      while todo != {}
        invariant todo <= g.nodes
        invariant forall x, y :: y in DomFrontier(x) <==> y in g.nodes && y !in todo && Walked(g, Tree(), x, y)
      {
        SomeElement(todo);
        var bb :| bb in todo;
        Basics(g, Tree());
        WalkedBySize(g, Tree(), bb);
        if |g.pred[bb]| >= 2 {
          AddToFrontiers(bb);
        }
        todo := todo - {bb};
      }
      NotWalked(g, Tree());
    }

    // Lines 143-147 for one block.
    method AddToFrontiers(bb: Node)
      requires Fixed(g, Tree()) && bb in g.nodes && bb in g.pred && |g.pred[bb]| >= 2
      modifies this`domFrontier
      ensures forall x, y :: y in DomFrontier(x) <==> y in old(DomFrontier(x)) || (y == bb && Walked(g, Tree(), x, y))
    {
      hide Fixed, Walked, WalkedBy;
      var preds := g.pred[bb];
      Basics(g, Tree());
      var i := 0;
      WalkedByNone(Tree(), preds, bb);
      while i < |preds|
        invariant 0 <= i <= |preds|
        invariant forall x, y :: y in DomFrontier(x) <==>
            y in old(DomFrontier(x)) || (y == bb && WalkedBy(Tree(), preds[..i], bb, x))
      {
        PredInside(g, Tree(), bb, preds[i]);
        TopIsAbove(g, Tree(), bb, preds[i]);
        WalkUp(bb, preds[i]);
        WalkedByMore(Tree(), preds, i, bb);
        i := i + 1;
      }
      assert preds[..i] == preds;
      WalkedByAll(g, Tree(), bb);
    }

    // Line 145.
    method WalkUp(bb: Node, pre: Node)
      requires Tree().Ok() && bb in idom && pre in idom && idom[bb] in Tree().Chain(pre)
      modifies this`domFrontier
      ensures forall x, y :: y in DomFrontier(x) <==>
          y in old(DomFrontier(x)) || (y == bb && Passed(Tree(), pre, idom[bb], x))
    {
      hide Forest.Chain;
      var f := Tree();
      var top, t := idom[bb], pre;
      while t != top
        invariant t in f.idom && top in f.Chain(t)
        invariant forall x, y :: y in DomFrontier(x) <==>
            y in old(DomFrontier(x)) || (y == bb && x in f.Chain(pre) && x !in f.Chain(t))
        invariant f.Chain(t) <= f.Chain(pre)
        decreases f.n - f.idx[t]
      {
        NotTheRoot(f, t, top);
        ChainStep(f, t);
        domFrontier := domFrontier[t := DomFrontier(t) + {bb}];
        t := idom[t];
      }
    }
  }

  lemma NotTheRoot(f: Forest, t: Node, top: Node)
    requires f.Ok() && t in f.idom && top in f.Chain(t) && t != top
    ensures t != f.root && t in f.idx && f.idx[t] < f.n
  {
  }

  // The state between two passes.
  ghost predicate Ready(g: Graph, f: Forest) { Good(g, f) && AllSettled(g, f) }

  // The state inside a pass when blocks numbered above k have been evaluated.
  ghost predicate Passing(g: Graph, before: Forest, f: Forest, k: int) {
    Good(g, f) && SettledAbove(g, f, k) && Since(g, before, f, k)
  }

  lemma ItsTurn(g: Graph, before: Forest, f: Forest, k: int, x: Node)
    requires Passing(g, before, f, k) && x in f.idx && f.idx[x] == k && x != f.root
    ensures Turn(g, before, f, x)
  {
    hide Over, Under, Ahead, SettledAbove, Since;
  }

  lemma Updated(g: Graph, before: Forest, f: Forest, k: int, x: Node, m: Node)
    requires Turn(g, before, f, x) && IsMeet(g, f, x, m) && x in f.idx && f.idx[x] == k
    ensures Passing(g, before, Redirect(f, x, m), k - 1)
  {
    UpdateKeeps(g, before, f, x, m);
    hide Turn, IsMeet, Good, SettledAbove, Since, Redirect;
  }

  lemma StartIsReady(g: Graph, f: Forest)
    requires Setting(g, f) && f.idom == map[f.root := f.root]
    ensures Ready(g, f)
  {
    SinglePath(g, f.root);
    forall d | Dom(g, f, d, f.root) ensures d == f.root {
      assert d in [f.root];
    }
    BelowSelf(g, f, f.root);
  }

  lemma PassBegins(g: Graph, f: Forest)
    requires Ready(g, f)
    ensures Passing(g, f, f, f.n - 1) && MetAbove(g, f, f.n - 1)
  {
    hide Over, Under, Ahead;
  }

  lemma SkipRoot(g: Graph, before: Forest, f: Forest, k: int)
    requires Passing(g, before, f, k) && f.root in f.idx && f.idx[f.root] == k
    ensures Passing(g, before, f, k - 1)
    ensures MetAbove(g, f, k) ==> MetAbove(g, f, k - 1)
  {
    forall y | y in f.idx && k - 1 < f.idx[y] && y != f.root ensures k < f.idx[y] {
      SameNumber(g, f, f.root, y);
    }
    hide Over, Under, Ahead, Setting, Settled, Met;
  }

  lemma MetMore(g: Graph, before: Forest, f: Forest, k: int, x: Node)
    requires Turn(g, before, f, x) && x in f.idom && x in f.idx && f.idx[x] == k && IsMeet(g, f, x, f.idom[x])
    ensures MetAbove(g, f, k) ==> MetAbove(g, f, k - 1)
  {
    if MetAbove(g, f, k) {
      hide Over, Under, Ahead, SettledAbove, Since;
      forall y | y in f.idx && y != f.root && k - 1 < f.idx[y] ensures Met(g, f, y) {
        SameNumber(g, f, x, y);
      }
    }
  }

  lemma PassEnds(g: Graph, before: Forest, f: Forest)
    requires Passing(g, before, f, -1)
    ensures Ready(g, f)
    ensures MetAbove(g, f, -1) ==> Fixed(g, f)
  {
    hide Over, Under, Ahead, Since, IsMeet, Forest.Chain;
    AllReached(g, before, f);
    if MetAbove(g, f, -1) {
      AllMet(g, f);
    }
  }

  lemma AllReached(g: Graph, before: Forest, f: Forest)
    requires Passing(g, before, f, -1)
    ensures Ready(g, f) && f.idom.Keys == g.nodes
  {
    hide Over, Under, Ahead, Since, IsMeet, Forest.Chain;
    forall y | y in g.nodes ensures y in f.idom {
      assert y == f.root || Settled(g, f, y);
    }
  }

  lemma AllMet(g: Graph, f: Forest)
    requires Good(g, f) && f.idom.Keys == g.nodes && MetAbove(g, f, -1)
    ensures Fixed(g, f)
  {
    hide Over, Under, Ahead, IsMeet, Forest.Chain;
    forall y | y in g.nodes && y != f.root ensures IsMeet(g, f, y, f.idom[y]) {
      assert Met(g, f, y);
    }
  }

  lemma TurnBasics(g: Graph, before: Forest, f: Forest, x: Node)
    requires Turn(g, before, f, x)
    ensures f.Ok() && f.Numbered() && x in g.pred
        && forall p {:trigger p in g.pred[x]} :: p in g.pred[x] ==> p in g.nodes
  {
    hide Over, Under, Ahead, Since, SettledAbove, HasForward, Reaches;
  }

  lemma SharedByNone(f: Forest, preds: seq<Node>)
    requires f.Ok()
    ensures forall e :: SharedBy(f, preds[..0], e)
  {
  }

  lemma SharedByMore(f: Forest, preds: seq<Node>, i: nat)
    requires f.Ok() && i < |preds|
    ensures forall e :: SharedBy(f, preds[..i + 1], e) <==>
              SharedBy(f, preds[..i], e) && (preds[i] in f.idom ==> e in f.Chain(preds[i]))
  {
    assert preds[..i + 1] == preds[..i] + [preds[i]];
  }

  ghost predicate AllSettled(g: Graph, f: Forest) {
    forall y {:trigger Settled(g, f, y)} :: y in f.idom && y != f.root ==> Settled(g, f, y)
  }

  // No block numbered above i needs a new idom.
  ghost predicate MetAbove(g: Graph, f: Forest, i: int) {
    forall y {:trigger Met(g, f, y)} :: y in f.idx && y != f.root && i < f.idx[y] ==> Met(g, f, y)
  }

  ghost predicate Met(g: Graph, f: Forest, y: Node) { y in f.idom && IsMeet(g, f, y, f.idom[y]) }

  ghost predicate SharedBy(f: Forest, preds: seq<Node>, e: Node)
    requires f.Ok()
  {
    forall p :: p in preds && p in f.idom ==> e in f.Chain(p)
  }

  lemma SharedIsCommon(g: Graph, f: Forest, x: Node, m: Node, first: Node)
    requires f.Ok() && x in g.pred && m in f.idom && first in g.pred[x] && first in f.idom
    requires forall e :: e in f.Chain(m) <==> e in f.Chain(first) && SharedBy(f, g.pred[x], e)
    ensures IsMeet(g, f, x, m)
  {
    forall e ensures SharedBy(f, g.pred[x], e) <==> Common(g, f, x, e) {
    }
  }

  // A finished search of the whole function is a setting for the dominator iteration.
  lemma SearchSetting(all: Graph, f: Forest, R: set<Node>)
    requires all.Valid() && f.root in all.nodes && R <= all.nodes && f.idx.Keys == R && f.root in R
    requires f.idom == map[f.root := f.root]
    requires forall b :: b in R ==> 0 <= f.idx[b] < f.n
    requires forall a, b :: a in R && b in R && f.idx[a] == f.idx[b] ==> a == b
    requires forall x, s :: x in R && s in all.succ[x] ==> s in R
    requires forall x :: x in R && x != f.root ==> NumberedParent(all, f.idx, x)
    requires forall x :: x in R ==> Reaches(all, f.root, x)
    ensures Setting(Restrict(all, R), f)
  {
    hide Path, HasForward, NumberedParent, Reaches, Restrict;
    var g := Restrict(all, R);
    RestrictValid(all, R);
    RestrictNodes(all, R);
    forall b | b in R && b != f.root ensures HasForward(g, f, b) {
      ForwardFromParent(all, f, R, b);
    }
    forall b | b in R ensures Reaches(g, f.root, b) {
      ReachesInside(all, R, f.root, b);
    }
  }

  lemma RestrictNodes(all: Graph, R: set<Node>)
    requires all.Valid() && R <= all.nodes
    ensures Restrict(all, R).nodes == R
  {
  }

  lemma ForwardFromParent(all: Graph, f: Forest, R: set<Node>, b: Node)
    requires all.Valid() && f.idx.Keys == R && b in R && b in all.nodes && NumberedParent(all, f.idx, b)
    ensures b in Restrict(all, R).pred && b in f.idx && HasForward(Restrict(all, R), f, b)
  {
    var p :| p in all.pred[b] && p in f.idx && f.idx[b] < f.idx[p];
    assert p in f.idx.Keys && p in Keep(all.pred[b], R);
  }

  lemma VisitedIsReachable(all: Graph, R: set<Node>, root: Node)
    requires all.Valid() && root in R && forall x, s :: x in all.nodes && x in R && s in all.succ[x] ==> s in R
    requires forall x :: x in R ==> Reaches(all, root, x)
    ensures forall b :: b in R <==> Reaches(all, root, b)
  {
    hide Path;
    forall b ensures b in R <==> Reaches(all, root, b) {
      if Reaches(all, root, b) {
        var p :| Joins(all, p, root, b);
        RestrictPath(all, R, p, root, b);
      }
    }
  }

  // Leaving out what cannot be reached changes no reachability inside.
  lemma ReachesInside(all: Graph, R: set<Node>, root: Node, b: Node)
    requires all.Valid() && root in R && forall x, s :: x in all.nodes && x in R && s in all.succ[x] ==> s in R
    requires Reaches(all, root, b)
    ensures Reaches(Restrict(all, R), root, b)
  {
    var p :| Joins(all, p, root, b);
    RestrictPath(all, R, p, root, b);
  }

  ghost predicate Extends(a: map<Node, int>, b: map<Node, int>) {
    a.Keys <= b.Keys && forall x :: x in a ==> b[x] == a[x]
  }

  ghost predicate NumberedParent(g: Graph, idx: map<Node, int>, x: Node) {
    x in g.pred && x in idx && exists p :: p in g.pred[x] && p in idx && idx[x] < idx[p]
  }

  // The blocks that b's search finished: closed under successors, reachable from b, and each but b
  // numbered below one of its predecessors.
  ghost predicate Grew(g: Graph, b: Node, before: map<Node, int>, idx: map<Node, int>, visited: set<Node>) {
    && Extends(before, idx)
    && (forall x, s :: x in idx && x !in before && x in g.succ && s in g.succ[x] ==> s in visited)
    && (forall x {:trigger NumberedParent(g, idx, x)} :: x in idx && x !in before && x != b ==>
      NumberedParent(g, idx, x))
    && (forall x {:trigger Reaches(g, b, x)} :: x in idx && x !in before ==> Reaches(g, b, x))
  }

  // The same while b is still open: its own number, which will be the greatest, is still to come.
  ghost predicate Open(g: Graph, b: Node, before: map<Node, int>, idx: map<Node, int>, visited: set<Node>) {
    && Extends(before, idx)
    && (forall x, s :: x in idx && x !in before && x in g.succ && s in g.succ[x] ==> s in visited)
    && (forall x {:trigger NumberedParent(g, idx, x)} :: x in idx && x !in before ==>
          (x in g.pred && b in g.pred[x]) || NumberedParent(g, idx, x))
    && (forall x {:trigger Reaches(g, b, x)} :: x in idx && x !in before ==> Reaches(g, b, x))
  }

  lemma EdgeInto(g: Graph, b: Node, s: Node)
    requires g.Valid() && b in g.nodes && b in g.succ && s in g.succ[b]
    ensures g.Edge(b, s) && s in g.nodes
  {
  }

  // No block that was visited before gets a number.
  ghost predicate NoneOf(visited: set<Node>, before: map<Node, int>, idx: map<Node, int>) {
    forall x :: x in idx && x in visited ==> x in before
  }

  lemma ParentStays(g: Graph, a: map<Node, int>, b: map<Node, int>, x: Node)
    requires NumberedParent(g, a, x) && Extends(a, b)
    ensures NumberedParent(g, b, x)
  {
    var p :| p in g.pred[x] && p in a && a[x] < a[p];
    assert p in b && b[x] < b[p];
  }

  // One more successor of b has been searched.
  lemma OpenGrows(g: Graph, b: Node, succ: Node, before: map<Node, int>, mid: map<Node, int>, idx: map<Node, int>,
                   vis: set<Node>)
    requires g.Valid() && b in g.nodes && g.Edge(b, succ)
    requires Open(g, b, before, mid, vis) && Grew(g, succ, mid, idx, vis + idx.Keys)
    ensures Open(g, b, before, idx, vis + idx.Keys)
  {
    forall x | x in idx && x !in before
      ensures (x in g.pred && b in g.pred[x]) || NumberedParent(g, idx, x)
      ensures Reaches(g, b, x)
    {
      if x in mid {
        assert (x in g.pred && b in g.pred[x]) || NumberedParent(g, mid, x);
        if NumberedParent(g, mid, x) { ParentStays(g, mid, idx, x); }
        assert Reaches(g, b, x);
      } else {
        assert x == succ || NumberedParent(g, idx, x);
        assert Reaches(g, succ, x);
        ReachesOver(g, b, succ, x);
      }
    }
  }

  lemma OpenIsGrown(g: Graph, b: Node, before: map<Node, int>, mid: map<Node, int>, vis: set<Node>, top: int)
    requires g.Valid() && b in g.nodes && b !in mid && Open(g, b, before, mid, vis)
    requires forall s :: s in g.succ[b] ==> s in vis
    requires forall x :: x in mid ==> mid[x] < top
    ensures Grew(g, b, before, mid[b := top], vis)
  {
    var idx := mid[b := top];
    SinglePath(g, b);
    assert Joins(g, [b], b, b);
    forall x | x in idx && x !in before ensures x == b || NumberedParent(g, idx, x) ensures Reaches(g, b, x) {
      if x != b {
        assert (x in g.pred && b in g.pred[x]) || NumberedParent(g, mid, x);
        if NumberedParent(g, mid, x) { ParentStays(g, mid, idx, x); }
      }
    }
  }

  lemma ReachesOver(g: Graph, a: Node, b: Node, c: Node)
    requires a in g.nodes && g.Edge(a, b) && Reaches(g, b, c)
    ensures Reaches(g, a, c)
  {
    var p :| Joins(g, p, b, c);
    SinglePath(g, a);
    ExtendPath(g, [a], a, a, b);
    JoinPaths(g, [a] + [b], p, a, b, c);
  }

  lemma RunNodes(all: Graph, g: Graph, R: set<Node>, root: Node)
    requires all.Valid() && g == Restrict(all, R) && forall b :: b in R <==> Reaches(all, root, b)
    ensures forall b :: b in g.nodes <==> Reaches(all, root, b)
  {
    forall b | Reaches(all, root, b) ensures b in all.nodes {
      var p :| Joins(all, p, root, b);
      PathNodes(all, p);
      assert b in p;
    }
  }

  // ---------- frontiers ----------

  // x is passed on the way up from one of these predecessors to the idom of bb.
  ghost predicate WalkedBy(f: Forest, preds: seq<Node>, bb: Node, x: Node) {
    bb in f.idom && exists p :: p in preds && Passed(f, p, f.idom[bb], x)
  }

  lemma WalkedByNone(f: Forest, preds: seq<Node>, bb: Node)
    ensures forall x :: !WalkedBy(f, preds[..0], bb, x)
  {
  }

  lemma WalkedByMore(f: Forest, preds: seq<Node>, i: nat, bb: Node)
    requires i < |preds| && bb in f.idom
    ensures forall x :: WalkedBy(f, preds[..i + 1], bb, x) <==>
        WalkedBy(f, preds[..i], bb, x) || Passed(f, preds[i], f.idom[bb], x)
  {
    hide Passed;
    assert preds[..i + 1] == preds[..i] + [preds[i]];
    forall x ensures WalkedBy(f, preds[..i + 1], bb, x) <==>
        WalkedBy(f, preds[..i], bb, x) || Passed(f, preds[i], f.idom[bb], x) {
      if Passed(f, preds[i], f.idom[bb], x) {
        assert preds[i] in preds[..i + 1];
      }
    }
  }

  lemma WalkedByAll(g: Graph, f: Forest, bb: Node)
    requires f.Ok() && bb in g.pred && bb in f.idom && |g.pred[bb]| >= 2
    ensures forall x :: WalkedBy(f, g.pred[bb], bb, x) <==> Walked(g, f, x, bb)
  {
    hide Passed;
  }

  lemma WalkedBySize(g: Graph, f: Forest, bb: Node)
    requires bb in g.pred
    ensures |g.pred[bb]| < 2 ==> forall x :: !Walked(g, f, x, bb)
  {
  }

  lemma NotWalked(g: Graph, f: Forest)
    requires Fixed(g, f)
    ensures forall x, y :: Walked(g, f, x, y) ==> y in g.nodes
  {
    hide Fixed, Passed;
    Basics(g, f);
  }

  lemma TopIsAbove(g: Graph, f: Forest, bb: Node, p: Node)
    requires Fixed(g, f) && bb in g.nodes && bb in g.pred && p in g.pred[bb]
    ensures f.Ok() && p in f.idom && bb in f.idom && f.idom[bb] in f.Chain(p)
  {
    hide Fixed;
    Basics(g, f);
    PredInside(g, f, bb, p);
    if bb != f.root {
      FixedMeet(g, f, bb);
      MeetUnderPred(g, f, bb, f.idom[bb], p);
    }
  }
}
