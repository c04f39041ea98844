/** Phi placement (src/Optimize/Mem2Reg.cc, generate_phi, lines 53-101) and what it is for: wherever
    control arrives from, the same definition of a variable is the last one passed. */
module PhiPlacement {
  import opened Basis
  import opened Graphs
  import opened IdomForest
  import opened DominatorTheory
  import opened FrontierTheory

  type Var = int

  // The frontier of every block of stores or of placed lies in placed.
  ghost predicate Closed(df: map<Node, set<Node>>, stores: set<Node>, placed: set<Node>) {
    forall x, y :: (x in stores || x in placed) && y in Of(df, x) ==> y in placed
  }

  // placed is the smallest closed set.
  ghost predicate Least(df: map<Node, set<Node>>, stores: set<Node>, placed: set<Node>) {
    && Closed(df, stores, placed)
    && forall d {:trigger Closed(df, stores, d)} :: Closed(df, stores, d) ==> placed <= d
  }

  // get_dom_frontier: a block the pass recorded nothing for has an empty frontier.
  function Of(df: map<Node, set<Node>>, x: Node): set<Node> { if x in df then df[x] else {} }

  class Mem2Reg {
    const domFrontier: map<Node, set<Node>>
    const blocks: set<Node>
    var allBbPhi: set<(Node, Var)>
    var phis: map<Node, seq<Var>>

    constructor (frontier: map<Node, set<Node>>, blocks: set<Node>)
      ensures domFrontier == frontier && this.blocks == blocks && allBbPhi == {} && phis == map[]
    {
      domFrontier, this.blocks, allBbPhi, phis := frontier, blocks, {}, map[];
    }

    // The phis at the head of block b, in order.
    function Head(b: Node): seq<Var>
      reads this`phis
    {
      if b in phis then phis[b] else []
    }

    // all_bb_phi tells which phis exist, and each of them exists once.
    ghost predicate Once()
      reads this`phis, this`allBbPhi
    {
      forall b, v {:trigger (b, v) in allBbPhi} {:trigger multiset(Head(b))[v]} ::
        multiset(Head(b))[v] == if (b, v) in allBbPhi then 1 else 0
    }

    ghost function Placed(v: Var): (s: set<Node>)
      reads this`allBbPhi
      ensures forall b :: b in s <==> (b, v) in allBbPhi
    {
      set p | p in allBbPhi && p.1 == v :: p.0
    }

    ghost predicate Inside() {
      forall x, y :: y in Of(domFrontier, x) ==> y in blocks
    }

    /** Step 2 of generate_phi: each variable gets phis at exactly the least set of blocks closed under
        frontiers from its stores, once each; variables without stores get none. */
    method GeneratePhi(liveVarToBlocks: map<Var, set<Node>>)
      requires allBbPhi == {} && phis == map[] && Inside()
      modifies this`allBbPhi, this`phis
      ensures Once()
      ensures forall v :: v in liveVarToBlocks ==> Least(domFrontier, liveVarToBlocks[v], Placed(v))
      ensures forall b, v :: (b, v) in allBbPhi ==> v in liveVarToBlocks
    {
      hide Least;
      var todo := liveVarToBlocks.Keys;
      while todo != {}
        invariant todo <= liveVarToBlocks.Keys && Once()
        invariant forall v :: v in liveVarToBlocks && v !in todo ==> Least(domFrontier, liveVarToBlocks[v], Placed(v))
        invariant forall b, v :: (b, v) in allBbPhi ==> v in liveVarToBlocks && v !in todo
      {
        SomeElement(todo);
        var v :| v in todo;
        SomeElement(Placed(v));
        PlaceFor(v, liveVarToBlocks[v]);
        todo := todo - {v};
      }
    }

    // Lines 78-99 for one variable.
    method PlaceFor(v: Var, stores: set<Node>)
      requires Once() && Inside() && Placed(v) == {}
      modifies this`allBbPhi, this`phis
      ensures Once() && Least(domFrontier, stores, Placed(v))
      ensures forall u :: u != v ==> Placed(u) == old(Placed(u))
      ensures forall b, u :: u != v ==> ((b, u) in allBbPhi <==> (b, u) in old(allBbPhi))
    {
      hide Pending, Closed, Once;
      var queue := Listed(stores);
      PendingStarts(domFrontier, stores, queue);
      while queue != []
        invariant Once() && Placed(v) <= blocks
        invariant Pending(domFrontier, stores, Placed(v), queue)
        invariant forall d {:trigger Closed(domFrontier, stores, d)} :: Closed(domFrontier, stores, d) ==>
            Placed(v) <= d
        invariant forall x :: x in queue ==> x in stores || x in Placed(v)
        invariant forall b, u :: u != v ==> ((b, u) in allBbPhi <==> (b, u) in old(allBbPhi))
        decreases blocks - Placed(v), |queue|
      {
        ghost var was := Placed(v);
        var more := AddPhis(v, queue[0]);
        ghost var grown := Placed(v);
        Handled(domFrontier, stores, was, grown, queue, more);
        forall b | b in grown ensures b in blocks {
          assert b in was || b in Of(domFrontier, queue[0]);
        }
        Fewer(blocks, was, grown);
        queue := queue[1..] + more;
      }
      PendingEnds(domFrontier, stores, Placed(v));
      forall u | u != v ensures Placed(u) == old(Placed(u)) {
        assert forall b :: b in Placed(u) <==> b in old(Placed(u));
      }
    }

    // Lines 86-98: a phi in every frontier block that has none yet; those blocks are queued.
    method AddPhis(v: Var, bb: Node) returns (more: seq<Node>)
      requires Once() && Inside()
      modifies this`allBbPhi, this`phis
      ensures Once()
      ensures Placed(v) == old(Placed(v)) + Of(domFrontier, bb)
      ensures forall b :: b in more <==> b in Placed(v) && b !in old(Placed(v))
      ensures forall b, u :: u != v ==> ((b, u) in allBbPhi <==> (b, u) in old(allBbPhi))
      ensures Placed(v) == old(Placed(v)) ==> more == []
    {
      more := [];
      var frontier := Of(domFrontier, bb);
      var todo := frontier;
      while todo != {}
        invariant todo <= frontier && Once()
        invariant Placed(v) == old(Placed(v)) + (frontier - todo)
        invariant forall b :: b in more <==> b in Placed(v) && b !in old(Placed(v))
        invariant forall b, u :: u != v ==> ((b, u) in allBbPhi <==> (b, u) in old(allBbPhi))
      {
        SomeElement(todo);
        var b :| b in todo;
        if (b, v) !in allBbPhi {
          AddPhi(b, v);
          more := more + [b];
        }
        todo := todo - {b};
      }
      assert more != [] ==> more[0] in more;
    }

    // Lines 88-97: the phi goes to the front of the block.
    method AddPhi(b: Node, v: Var)
      requires Once() && (b, v) !in allBbPhi
      modifies this`allBbPhi, this`phis
      ensures Once() && allBbPhi == old(allBbPhi) + {(b, v)}
      ensures Head(b) == [v] + old(Head(b)) && forall c :: c != b ==> Head(c) == old(Head(c))
    {
      ghost var was := Head(b);
      assert multiset([v] + was) == multiset{v} + multiset(was);
      phis := phis[b := [v] + Head(b)];
      allBbPhi := allBbPhi + {(b, v)};
    }
  }

  // The list of blocks of a set, each once.
  method Listed(s: set<Node>) returns (q: seq<Node>)
    ensures forall b :: b in q <==> b in s
  {
    q := [];
    var todo := s;
    while todo != {}
      invariant todo <= s && forall b :: b in q <==> b in s && b !in todo
    {
      SomeElement(todo);
      var b :| b in todo;
      q := q + [b];
      todo := todo - {b};
    }
  }

  // Blocks whose frontier is not placed yet are queued.
  ghost predicate Pending(df: map<Node, set<Node>>, stores: set<Node>, placed: set<Node>, queue: seq<Node>) {
    forall x, y :: (x in stores || x in placed) && x !in queue && y in Of(df, x) ==> y in placed
  }

  lemma PendingStarts(df: map<Node, set<Node>>, stores: set<Node>, queue: seq<Node>)
    requires forall b :: b in queue <==> b in stores
    ensures Pending(df, stores, {}, queue)
  {
  }

  lemma PendingEnds(df: map<Node, set<Node>>, stores: set<Node>, placed: set<Node>)
    requires Pending(df, stores, placed, [])
    ensures Closed(df, stores, placed)
  {
  }

  lemma Handled(df: map<Node, set<Node>>, stores: set<Node>, was: set<Node>, grown: set<Node>, queue: seq<Node>,
      more: seq<Node>)
    requires queue != [] && Pending(df, stores, was, queue) && grown == was + Of(df, queue[0])
    requires forall b :: b in more <==> b in grown && b !in was
    requires queue[0] in stores || queue[0] in was
    requires forall d :: Closed(df, stores, d) ==> was <= d
    ensures Pending(df, stores, grown, queue[1..] + more)
    ensures forall d :: Closed(df, stores, d) ==> grown <= d
  {
    forall d, y | Closed(df, stores, d) && y in grown ensures y in d {
      assert was <= d;
    }
    assert queue == [queue[0]] + queue[1..];
  }

  lemma Fewer(blocks: set<Node>, was: set<Node>, grown: set<Node>)
    requires was <= grown <= blocks
    ensures blocks - grown <= blocks - was && (was != grown ==> blocks - grown < blocks - was)
  {
    if was != grown {
      SomeElement(grown - was);
      assert grown == was + (grown - was);
      var b :| b in grown - was;
      assert b in blocks - was && b !in blocks - grown;
    }
  }

  // ---------- what the placement is for ----------

  // The last block of the path that defines the variable.
  ghost function LastIn(p: seq<Node>, defs: set<Node>): Node
    requires |p| > 0
  {
    if |p| == 1 || p[|p| - 1] in defs then p[|p| - 1] else LastIn(p[..|p| - 1], defs)
  }

  // The blocks that define a variable: the entry, the stores and the phis.
  ghost predicate Defines(g: Graph, root: Node, defs: set<Node>) {
    && root in defs
    && forall x, y {:trigger InFrontier(g, root, x, y)} ::
      x in defs && y in g.nodes && y != root && InFrontier(g, root, x, y) ==> y in defs
  }

  /** The definition that reaches b is the nearest dominator of b that is one. */
  lemma {:induction false} LastIsNearest(g: Graph, f: Forest, defs: set<Node>, p: seq<Node>, b: Node)
    requires Fixed(g, f) && Defines(g, f.root, defs) && Joins(g, p, f.root, b)
    ensures f.Ok() && b in f.idom && LastIn(p, defs) in defs && LastIn(p, defs) in f.Chain(b)
    ensures forall e :: e in defs && e in f.Chain(b) ==> f.idx[LastIn(p, defs)] <= f.idx[e]
    decreases |p|
  {
    hide Fixed, InFrontier;
    Basics(g, f);
    PathNodes(g, p);
    assert b in p;
    if |p| > 1 && b !in defs {
      var q, c := p[..|p| - 1], p[|p| - 2];
      LastIsNearest(g, f, defs, q, c);
      ChainFromPred(g, f, c, b);
      KeepsDominating(g, f, defs, LastIn(q, defs), c, b);
    } else if |p| == 1 {
      assert f.Chain(b) == {b};
    }
  }

  // A definition that dominates a predecessor of a block without one dominates that block.
  lemma KeepsDominating(g: Graph, f: Forest, defs: set<Node>, d: Node, c: Node, b: Node)
    requires Fixed(g, f) && Defines(g, f.root, defs) && c in f.idom && b in g.nodes && g.Edge(c, b)
    requires f.Ok() && d in defs && d in f.Chain(c) && b !in defs
    ensures b in f.idom && d in f.Chain(b)
  {
    hide Fixed, Dominates;
    Basics(g, f);
    ChainIsDominators(g, f, c, d);
    ChainIsDominators(g, f, b, d);
    assert c in g.pred[b];
    assert Dominates(g, f.root, d, b) || InFrontier(g, f.root, d, b);
  }

  /** With a phi in every frontier block of a definition, all paths from the entry to a block pass the
      same definition last. */
  lemma OneDefinitionReaches(g: Graph, f: Forest, defs: set<Node>, p: seq<Node>, q: seq<Node>, b: Node)
    requires Fixed(g, f) && Defines(g, f.root, defs) && Joins(g, p, f.root, b) && Joins(g, q, f.root, b)
    ensures LastIn(p, defs) == LastIn(q, defs)
  {
    hide Fixed, Defines, Joins;
    LastIsNearest(g, f, defs, p, b);
    LastIsNearest(g, f, defs, q, b);
    Numbers(g, f);
  }

  lemma Numbers(g: Graph, f: Forest)
    requires Fixed(g, f)
    ensures f.Numbered()
  {
    hide Over, Under, Ahead, IsMeet, HasForward;
  }

  /** What generate_phi places is enough, for every variable: the entry, the stores and the phis are all the
      definitions there are (the entry stands for "not stored yet"). */
  lemma PlacementDefines(g: Graph, root: Node, df: map<Node, set<Node>>, stores: set<Node>, placed: set<Node>)
    requires forall x, y :: y in g.nodes && y != root ==> (y in Of(df, x) <==> InFrontier(g, root, x, y))
    requires Least(df, stores, placed)
    ensures Defines(g, root, stores + placed + {root})
  {
    forall y | y in g.nodes && y != root ensures !InFrontier(g, root, root, y) {
      RootDominates(g, root, y);
    }
    hide InFrontier;
  }
}
