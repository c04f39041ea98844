/** Control-flow graphs with successor and predecessor lists, and paths in them. */
module Graphs {
  type Node = int

  datatype Graph = Graph(nodes: set<Node>, succ: map<Node, seq<Node>>, pred: map<Node, seq<Node>>) {
    // The two lists of a block name blocks of the function and agree with each other.
    ghost predicate Valid() {
      && succ.Keys == nodes && pred.Keys == nodes
      && (forall b, s :: b in nodes && s in succ[b] ==> s in nodes && b in pred[s])
      && (forall b, p :: b in nodes && p in pred[b] ==> p in nodes && b in succ[p])
    }

    predicate Edge(a: Node, b: Node) {
      a in succ && b in succ[a]
    }
  }

  // p is a nonempty sequence of blocks, each a successor of the one before.
  ghost predicate Path(g: Graph, p: seq<Node>) {
    && |p| > 0 && p[0] in g.nodes
    && (|p| > 1 ==> Path(g, p[..|p| - 1]) && g.Edge(p[|p| - 2], p[|p| - 1]))
  }

  ghost predicate Joins(g: Graph, p: seq<Node>, a: Node, b: Node) {
    Path(g, p) && p[0] == a && p[|p| - 1] == b
  }

  ghost predicate Reaches(g: Graph, a: Node, b: Node) {
    exists p :: Joins(g, p, a, b)
  }

  // Every path from the root to b passes through d.
  ghost predicate Dominates(g: Graph, root: Node, d: Node, b: Node) {
    forall p :: Joins(g, p, root, b) ==> d in p
  }

  lemma ExtendPath(g: Graph, p: seq<Node>, a: Node, b: Node, c: Node)
    requires Joins(g, p, a, b) && g.Edge(b, c)
    ensures Joins(g, p + [c], a, c)
  {
    assert (p + [c])[..|p|] == p;
  }

  lemma SinglePath(g: Graph, a: Node)
    requires a in g.nodes
    ensures Joins(g, [a], a, a)
  {
  }

  lemma {:induction false} JoinPaths(g: Graph, p: seq<Node>, q: seq<Node>, a: Node, b: Node, c: Node)
    requires Joins(g, p, a, b) && Joins(g, q, b, c)
    ensures Joins(g, p + q[1..], a, c)
    decreases |q|
  {
    if |q| == 1 {
      assert p + q[1..] == p;
    } else {
      var q' := q[..|q| - 1];
      JoinPaths(g, p, q', a, b, q[|q| - 2]);
      ExtendPath(g, p + q'[1..], a, q[|q| - 2], c);
      assert p + q'[1..] + [c] == p + q[1..];
    }
  }

  lemma {:induction false} PathNodes(g: Graph, p: seq<Node>)
    requires g.Valid() && Path(g, p)
    ensures forall x :: x in p ==> x in g.nodes
  {
    if |p| > 1 {
      PathNodes(g, p[..|p| - 1]);
    }
  }

  // ---------- reversed graphs ----------

  function Reverse(g: Graph): Graph { Graph(g.nodes, g.pred, g.succ) }

  ghost function Backwards(p: seq<Node>): seq<Node> {
    if |p| == 0 then [] else [p[|p| - 1]] + Backwards(p[..|p| - 1])
  }

  lemma {:induction false} BackwardsHas(p: seq<Node>)
    ensures |Backwards(p)| == |p| && forall x :: x in Backwards(p) <==> x in p
  {
    if |p| > 0 {
      BackwardsHas(p[..|p| - 1]);
      assert p == p[..|p| - 1] + [p[|p| - 1]];
    }
  }

  lemma {:induction false} BackwardsPath(g: Graph, p: seq<Node>, a: Node, b: Node)
    requires g.Valid() && Joins(g, p, a, b)
    ensures Joins(Reverse(g), Backwards(p), b, a)
    decreases |p|
  {
    PathNodes(g, p);
    if |p| == 1 {
      assert Backwards(p[..0]) == [];
      assert Backwards(p) == [a];
    } else {
      var q := p[..|p| - 1];
      BackwardsPath(g, q, a, p[|p| - 2]);
      SinglePath(Reverse(g), b);
      ExtendPath(Reverse(g), [b], b, b, p[|p| - 2]);
      JoinPaths(Reverse(g), [b, p[|p| - 2]], Backwards(q), b, p[|p| - 2], a);
      assert [b, p[|p| - 2]] + Backwards(q)[1..] == Backwards(p);
    }
  }

  // d lies on every path from b to exit.
  ghost predicate PostDominates(g: Graph, exit: Node, d: Node, b: Node) {
    forall p :: Joins(g, p, b, exit) ==> d in p
  }

  /** Post-dominance is dominance in the reversed graph. */
  lemma PostDominanceIsReversed(g: Graph, exit: Node, d: Node, b: Node)
    requires g.Valid()
    ensures PostDominates(g, exit, d, b) <==> Dominates(Reverse(g), exit, d, b)
  {
    if Dominates(Reverse(g), exit, d, b) {
      forall p | Joins(g, p, b, exit) ensures d in p {
        BackwardsPath(g, p, b, exit);
        BackwardsHas(p);
      }
    }
    if PostDominates(g, exit, d, b) {
      forall p | Joins(Reverse(g), p, exit, b) ensures d in p {
        BackwardsPath(Reverse(g), p, exit, b);
        assert Reverse(Reverse(g)) == g;
        BackwardsHas(p);
      }
    }
  }

  // ---------- dropping blocks ----------

  function Keep(s: seq<Node>, R: set<Node>): (r: seq<Node>)
    ensures forall x :: x in r <==> x in s && x in R
  {
    if |s| == 0 then []
    else (if s[0] in R then [s[0]] else []) + Keep(s[1..], R)
  }

  function Restrict(g: Graph, R: set<Node>): Graph
    requires g.Valid()
  {
    Graph(g.nodes * R, map b | b in g.nodes * R :: Keep(g.succ[b], R), map b | b in g.nodes * R :: Keep(g.pred[b], R))
  }

  lemma RestrictEdge(g: Graph, R: set<Node>, a: Node, b: Node)
    requires g.Valid()
    ensures Restrict(g, R).Edge(a, b) <==> g.Edge(a, b) && a in R && b in R
  {
  }

  lemma RestrictValid(g: Graph, R: set<Node>)
    requires g.Valid()
    ensures Restrict(g, R).Valid()
    ensures forall a, b {:trigger Restrict(g, R).Edge(a, b)} :: Restrict(g, R).Edge(a, b) <==>
        g.Edge(a, b) && a in R && b in R
  {
    hide Keep;
    var h := Restrict(g, R);
    forall b, s | b in h.nodes && s in h.succ[b] ensures s in h.nodes && b in h.pred[s] {
      assert b in g.pred[s];
    }
    forall b, p | b in h.nodes && p in h.pred[b] ensures p in h.nodes && b in h.succ[p] {
      assert b in g.succ[p];
    }
    forall a, b ensures h.Edge(a, b) <==> g.Edge(a, b) && a in R && b in R {
      RestrictEdge(g, R, a, b);
    }
  }

  // Dropping what the root cannot reach changes no dominance.
  lemma RestrictDominates(g: Graph, R: set<Node>, root: Node, d: Node, b: Node)
    requires g.Valid() && root in g.nodes && forall x :: x in R <==> Reaches(g, root, x)
    ensures Dominates(Restrict(g, R), root, d, b) <==> Dominates(g, root, d, b)
  {
    hide Path, Restrict;
    ReachableClosed(g, R, root);
    forall p ensures Joins(Restrict(g, R), p, root, b) <==> Joins(g, p, root, b) {
      RestrictPath(g, R, p, root, b);
    }
  }

  lemma ReachableClosed(g: Graph, R: set<Node>, root: Node)
    requires g.Valid() && root in g.nodes && forall x :: x in R <==> Reaches(g, root, x)
    ensures root in R && forall x, s :: x in g.nodes && x in R && s in g.succ[x] ==> s in R
  {
    SinglePath(g, root);
    forall x, s | x in g.nodes && x in R && s in g.succ[x] ensures s in R {
      var p :| Joins(g, p, root, x);
      ExtendPath(g, p, root, x, s);
    }
  }

  // Dropping blocks outside a closed set changes no path that starts inside it.
  lemma {:induction false} RestrictPath(g: Graph, R: set<Node>, p: seq<Node>, a: Node, b: Node)
    requires g.Valid() && a in R && forall x, s :: x in g.nodes && x in R && s in g.succ[x] ==> s in R
    ensures Joins(Restrict(g, R), p, a, b) <==> Joins(g, p, a, b)
    ensures Joins(g, p, a, b) ==> b in R
    decreases |p|
  {
    RestrictValid(g, R);
    if |p| > 1 {
      RestrictPath(g, R, p[..|p| - 1], a, p[|p| - 2]);
    }
  }
}
