/** Dominance frontiers: what generate_dom_frontier (src/Optimize/Dominators.cc, lines 140-149) collects,
    set against the definition by paths. */
module FrontierTheory {
  import opened Graphs
  import opened IdomForest
  import opened DominatorTheory

  // y is just outside what x dominates: x dominates a predecessor of y but y only if y is x itself.
  ghost predicate InFrontier(g: Graph, root: Node, x: Node, y: Node) {
    && y in g.pred && (exists p :: p in g.pred[y] && Dominates(g, root, x, p))
    && (x == y || !Dominates(g, root, x, y))
  }

  // What the walks of generate_dom_frontier add: ancestors of a predecessor up to the idom of y,
  // and only where y has two predecessors or more.
  ghost predicate Walked(g: Graph, f: Forest, x: Node, y: Node) {
    && f.Ok() && y in g.pred && y in f.idom && |g.pred[y]| >= 2
    && exists p :: p in g.pred[y] && Passed(f, p, f.idom[y], x)
  }

  // x lies on the way up from p before top.
  ghost predicate Passed(f: Forest, p: Node, top: Node, x: Node) {
    f.Ok() && p in f.idom && top in f.idom && x in f.Chain(p) && x !in f.Chain(top)
  }

  // A block is dominated strictly by the chain of its idom.
  lemma StrictChain(g: Graph, f: Forest, x: Node, y: Node)
    requires Fixed(g, f) && y in g.nodes && y != f.root
    ensures x in f.Chain(f.idom[y]) <==> x != y && Dominates(g, f.root, x, y)
  {
    ChainIsDominators(g, f, y, x);
  }

  lemma Basics(g: Graph, f: Forest)
    requires Fixed(g, f)
    ensures g.Valid() && f.Ok() && f.idom.Keys == g.nodes && f.root in g.nodes
  {
    hide Over, Under, Ahead, IsMeet, HasForward;
  }

  lemma PredInside(g: Graph, f: Forest, y: Node, p: Node)
    requires Fixed(g, f) && y in g.nodes
    ensures y in g.pred && (p in g.pred[y] ==> p in g.nodes && p in f.idom)
  {
    hide Fixed;
    Basics(g, f);
    assert forall q :: q in f.idom.Keys <==> q in g.nodes;
  }

  lemma SomePred(g: Graph, f: Forest, y: Node)
    requires Fixed(g, f) && y in g.nodes && y != f.root
    ensures y in g.pred && g.pred[y] != []
  {
    hide Over, Under, Ahead, IsMeet;
    assert HasForward(g, f, y);
  }

  lemma FixedMeet(g: Graph, f: Forest, y: Node)
    requires Fixed(g, f) && y in g.nodes && y != f.root
    ensures f.Ok() && y in f.idom && f.idom[y] in f.idom && IsMeet(g, f, y, f.idom[y])
  {
    hide Over, Under, Ahead, IsMeet;
  }

  // With a single predecessor the idom is that predecessor and no walk is needed.
  lemma SinglePred(g: Graph, f: Forest, x: Node, y: Node, p: Node)
    requires Fixed(g, f) && y in g.nodes && y != f.root && y in g.pred && g.pred[y] == [p]
    ensures y in f.idom && !Passed(f, p, f.idom[y], x)
  {
    hide Fixed;
    PredInside(g, f, y, p);
    FixedMeet(g, f, y);
    if p in f.idom && x in f.Chain(p) {
      assert Common(g, f, y, x);
    }
  }

  lemma PassedOff(g: Graph, f: Forest, x: Node, y: Node, p: Node)
    requires Fixed(g, f) && y in g.nodes && y != f.root && y in g.pred && p in g.pred[y]
    ensures y in f.idom && (Passed(f, p, f.idom[y], x) <==>
        Dominates(g, f.root, x, p) && (x == y || !Dominates(g, f.root, x, y)))
  {
    hide Fixed, Dominates, IsMeet;
    PredInside(g, f, y, p);
    FixedMeet(g, f, y);
    StrictChain(g, f, x, y);
    ChainIsDominators(g, f, p, x);
  }

  /** Off the root the collected sets are the dominance frontiers. */
  lemma WalkedIsFrontier(g: Graph, f: Forest, x: Node, y: Node)
    requires Fixed(g, f) && y in g.nodes && y != f.root
    ensures Walked(g, f, x, y) <==> InFrontier(g, f.root, x, y)
  {
    hide Fixed, Passed, Dominates, IsMeet;
    SomePred(g, f, y);
    FixedMeet(g, f, y);
    forall p | p in g.pred[y]
      ensures Passed(f, p, f.idom[y], x) <==> Dominates(g, f.root, x, p) && (x == y || !Dominates(g, f.root, x, y))
    {
      PassedOff(g, f, x, y, p);
    }
    if InFrontier(g, f.root, x, y) && |g.pred[y]| < 2 {
      SinglePred(g, f, x, y, g.pred[y][0]);
    }
  }

  lemma PassedAtRoot(g: Graph, f: Forest, x: Node, p: Node)
    requires Fixed(g, f) && f.root in g.pred && p in g.pred[f.root]
    ensures f.root in f.idom && (Passed(f, p, f.idom[f.root], x) <==> Dominates(g, f.root, x, p) && x != f.root)
  {
    hide Fixed, Dominates;
    Basics(g, f);
    PredInside(g, f, f.root, p);
    ChainIsDominators(g, f, p, x);
    assert f.Chain(f.root) == {f.root};
  }

  // At the root the walk stops below the root, and one back edge alone is not looked at.
  lemma WalkedAtRoot(g: Graph, f: Forest, x: Node)
    requires Fixed(g, f)
    ensures f.root in g.pred
    ensures Walked(g, f, x, f.root) <==>
              |g.pred[f.root]| >= 2 && x != f.root && exists p :: p in g.pred[f.root] && Dominates(g, f.root, x, p)
  {
    hide Fixed, Passed, Dominates;
    Basics(g, f);
    forall p | p in g.pred[f.root]
      ensures Passed(f, p, f.idom[f.root], x) <==> Dominates(g, f.root, x, p) && x != f.root
    {
      PassedAtRoot(g, f, x, p);
    }
  }

  lemma RootDominates(g: Graph, root: Node, p: Node)
    ensures Dominates(g, root, root, p)
  {
    forall q | Joins(g, q, root, p) ensures root in q {
      assert q[0] == root;
    }
  }

  /** The collected sets are the dominance frontiers everywhere exactly when nothing jumps back to the root. */
  lemma ExactIffRootHasNoPred(g: Graph, f: Forest)
    requires Fixed(g, f)
    ensures f.root in g.pred
    ensures (forall x, y :: y in g.nodes ==> (Walked(g, f, x, y) <==> InFrontier(g, f.root, x, y))) <==>
        g.pred[f.root] == []
  {
    hide Fixed, Dominates, Walked;
    Basics(g, f);
    if g.pred[f.root] == [] {
      forall x, y | y in g.nodes ensures Walked(g, f, x, y) <==> InFrontier(g, f.root, x, y) {
        if y != f.root { WalkedIsFrontier(g, f, x, y); } else { WalkedAtRoot(g, f, x); }
      }
    } else {
      var p := g.pred[f.root][0];
      RootDominates(g, f.root, p);
      assert InFrontier(g, f.root, f.root, f.root);
      WalkedAtRoot(g, f, f.root);
    }
  }
}
