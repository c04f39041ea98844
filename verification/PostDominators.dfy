/** The post-dominator pass (include/Optimize/PostDominator.hh): the dominator pass with successors and
    predecessors exchanged, started at the exit block. */
module PostDominatorPass {
  import opened Graphs
  import opened IdomForest
  import opened DominatorTheory
  import opened FrontierTheory
  import opened DominatorPass

  lemma ReverseValid(g: Graph)
    requires g.Valid()
    ensures Reverse(g).Valid()
  {
  }

  /** Run, lines 10-25 for one function: blocks that cannot reach the exit are dropped, the idom chain of
      a block holds exactly the blocks on every path from it to the exit, and the frontier of x the
      blocks that branch to something x post-dominates without being post-dominated by it. */
  method Run(g: Graph, exit: Node) returns (d: Dominators)
    requires g.Valid() && exit in g.nodes
    ensures fresh(d) && d.root == exit && Fixed(d.g, d.Tree())
    ensures forall b :: b in d.g.nodes <==> Reaches(g, b, exit)
    ensures forall b, x :: b in d.g.nodes ==> (x in d.Tree().Chain(b) <==> PostDominates(g, exit, x, b))
    ensures forall x, y :: y in d.g.nodes && y != exit ==> (y in d.DomFrontier(x) <==> InFrontier(d.g, exit, x, y))
  {
    hide Fixed, InFrontier, Path, Restrict, Reaches, Dominates, PostDominates;
    ReverseValid(g);
    d := new Dominators(Reverse(g), exit);
    d.Run();
    Basics(d.g, d.Tree());
    forall b ensures b in d.g.nodes <==> Reaches(g, b, exit) {
      ReachesBack(g, b, exit);
    }
    forall b, x | b in d.g.nodes ensures x in d.Tree().Chain(b) <==> PostDominates(g, exit, x, b) {
      PostDominanceIsReversed(g, exit, x, b);
    }
  }

  lemma ReachesBack(g: Graph, a: Node, b: Node)
    requires g.Valid()
    ensures Reaches(Reverse(g), b, a) <==> Reaches(g, a, b)
  {
    hide Path;
    assert Reverse(Reverse(g)) == g;
    ReverseValid(g);
    if Reaches(g, a, b) {
      var p :| Joins(g, p, a, b);
      BackwardsPath(g, p, a, b);
    }
    if Reaches(Reverse(g), b, a) {
      var p :| Joins(Reverse(g), p, b, a);
      BackwardsPath(Reverse(g), p, b, a);
    }
  }
}
