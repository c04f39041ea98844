/** Invariants of generate_idom (src/Optimize/Dominators.cc, lines 101-137): why the ancestor chains
    always contain the dominators, only ever shrink, and end up being exactly the dominators. */
module DominatorTheory {
  import opened Graphs
  import opened IdomForest
  import opened Sums

  /** A numbering of a graph whose blocks all are reachable: every block but the root has a predecessor
      with a greater post-order number (its parent in the depth-first search). */
  ghost predicate Setting(g: Graph, f: Forest) {
    && g.Valid() && f.root in g.nodes && f.idx.Keys == g.nodes && f.Numbered()
    && (forall b :: b in g.nodes ==> 0 <= f.idx[b] < f.n)
    && (forall b {:trigger HasForward(g, f, b)} :: b in g.nodes && b != f.root ==> HasForward(g, f, b))
    && (forall b {:trigger Reaches(g, f.root, b)} :: b in g.nodes ==> Reaches(g, f.root, b))
    && f.Ok() && f.idom.Keys <= g.nodes
  }

  ghost predicate HasForward(g: Graph, f: Forest, b: Node)
    requires b in g.pred && b in f.idx
  {
    exists p :: p in g.pred[b] && p in f.idx && f.idx[b] < f.idx[p]
  }

  ghost predicate Dom(g: Graph, f: Forest, d: Node, b: Node) { Dominates(g, f.root, d, b) }

  lemma DomOfPred(g: Graph, root: Node, d: Node, p: Node, b: Node)
    requires Dominates(g, root, d, b) && g.Edge(p, b) && d != b
    ensures Dominates(g, root, d, p)
  {
    forall q | Joins(g, q, root, p) ensures d in q {
      ExtendPath(g, q, root, p, b);
    }
  }

  // A path from x to c that avoids d carries "d dominates c" back to x.
  lemma DomAcross(g: Graph, root: Node, d: Node, x: Node, c: Node, r: seq<Node>)
    requires Dominates(g, root, d, c) && Joins(g, r, x, c) && d !in r
    ensures Dominates(g, root, d, x)
  {
    forall q | Joins(g, q, root, x) ensures d in q {
      JoinPaths(g, q, r, root, x, c);
      assert d in q + r[1..];
    }
  }

  // ---------- invariants ----------

  // Chains contain all dominators.
  ghost predicate Over(g: Graph, f: Forest) {
    f.Ok() && forall b, d {:trigger Dom(g, f, d, b)} :: b in f.idom && Dom(g, f, d, b) ==> d in f.Chain(b)
  }

  // An ancestor reaches its descendants without leaving the blocks numbered at most like itself.
  ghost predicate Below(g: Graph, f: Forest, a: Node, c: Node) {
    exists p :: Joins(g, p, a, c) && UpTo(f, p, a)
  }

  ghost predicate UpTo(f: Forest, p: seq<Node>, a: Node) {
    a in f.idx && forall y :: y in p ==> y in f.idx && f.idx[y] <= f.idx[a]
  }

  ghost predicate Under(g: Graph, f: Forest) {
    f.Ok() && forall c, a {:trigger Below(g, f, a, c)} :: c in f.idom && a in f.Chain(c) ==> Below(g, f, a, c)
  }

  // e is above every predecessor of x that has been reached.
  ghost predicate Common(g: Graph, f: Forest, x: Node, e: Node)
    requires f.Ok() && x in g.pred
  {
    forall p :: p in g.pred[x] && p in f.idom ==> e in f.Chain(p)
  }

  // What the predecessors share is never numbered below the recorded idom.
  ghost predicate Ahead(g: Graph, f: Forest) {
    f.Ok() && forall x, e {:trigger Common(g, f, x, e)} ::
        x in f.idom && x != f.root && x in g.pred && e in f.idx && Common(g, f, x, e) ==>
      f.idx[f.idom[x]] <= f.idx[e]
  }

  ghost predicate Good(g: Graph, f: Forest) {
    Setting(g, f) && Over(g, f) && Under(g, f) && Ahead(g, f)
  }

  // The recorded idom of y lies above each forward predecessor of y.
  ghost predicate Settled(g: Graph, f: Forest, y: Node) {
    && f.Ok() && y in g.pred && y in f.idom
    && forall p :: p in g.pred[y] && p in f.idx && f.idx[y] < f.idx[p] ==> p in f.idom && f.idom[y] in f.Chain(p)
  }

  // Blocks numbered above i have been evaluated in this pass.
  ghost predicate SettledAbove(g: Graph, f: Forest, i: int) {
    forall y {:trigger Settled(g, f, y)} :: y in f.idx && y != f.root && i < f.idx[y] ==> Settled(g, f, y)
  }

  // old is the forest the pass began with: what it had reached was settled then, and blocks
  // numbered up to i still have the entry they had.
  ghost predicate Since(g: Graph, old_: Forest, f: Forest, i: int) {
    && old_.Ok() && old_.root == f.root && old_.idx == f.idx && old_.n == f.n
    && (forall y {:trigger Settled(g, old_, y)} :: y in old_.idom && y != f.root ==> Settled(g, old_, y))
    && (forall y :: y in f.idx && f.idx[y] <= i ==>
          (y in f.idom <==> y in old_.idom) && (y in f.idom ==> f.idom[y] == old_.idom[y]))
  }

  // m is the nearest common ancestor of the reached predecessors of x.
  ghost predicate IsMeet(g: Graph, f: Forest, x: Node, m: Node) {
    && f.Ok() && x in g.pred && m in f.idom && (exists p :: p in g.pred[x] && p in f.idom)
    && (forall e {:trigger e in f.Chain(m)} :: e in f.Chain(m) ==> Common(g, f, x, e))
    && (forall e {:trigger Common(g, f, x, e)} :: e in f.idx && Common(g, f, x, e) ==> e in f.Chain(m))
  }

  // ---------- chains only shrink ----------

  /** Climbing forward predecessors: what is above y now and numbered above an old ancestor a of y is
      above a now. */
  lemma {:induction false} Climb(g: Graph, old_: Forest, f: Forest, i: int, y: Node, a: Node, e: Node)
    requires Setting(g, f) && Since(g, old_, f, i) && SettledAbove(g, f, i)
    requires y in f.idom && y in old_.idom && (i < f.idx[y] || y == f.root)
    requires a in old_.Chain(y) && e in f.Chain(y) && f.idx[a] < f.idx[e]
    ensures a in f.idom && e in f.Chain(a)
    decreases f.n - f.idx[y]
  {
    if a != y {
      assert y != f.root;
      assert HasForward(g, f, y);
      var p :| p in g.pred[y] && p in f.idx && f.idx[y] < f.idx[p];
      assert Settled(g, old_, y) && Settled(g, f, y);
      ChainOfMember(old_, p, old_.idom[y]);
      ChainOfMember(f, p, f.idom[y]);
      Climb(g, old_, f, i, p, a, e);
    }
  }

  // A block about to be evaluated: everything numbered above it has been settled in this pass.
  ghost predicate Turn(g: Graph, old_: Forest, f: Forest, x: Node) {
    && Good(g, f) && x in g.nodes && x != f.root
    && Since(g, old_, f, f.idx[x]) && SettledAbove(g, f, f.idx[x])
  }

  lemma ForwardPred(g: Graph, old_: Forest, f: Forest, x: Node) returns (p: Node)
    requires Turn(g, old_, f, x)
    ensures p in g.pred[x] && p in f.idom && f.idx[x] < f.idx[p]
  {
    assert HasForward(g, f, x);
    p :| p in g.pred[x] && p in f.idx && f.idx[x] < f.idx[p];
    assert p == f.root || Settled(g, f, p);
  }

  lemma MeetIsHigher(g: Graph, old_: Forest, f: Forest, x: Node, m: Node)
    requires Turn(g, old_, f, x) && IsMeet(g, f, x, m)
    ensures f.idx[x] < f.idx[m]
  {
    var p := ForwardPred(g, old_, f, x);
    assert Common(g, f, x, m);
  }

  /** Each update moves an idom up its own chain. */
  lemma MeetIsAbove(g: Graph, old_: Forest, f: Forest, x: Node, m: Node)
    requires Turn(g, old_, f, x) && IsMeet(g, f, x, m) && x in f.idom
    ensures m in f.Chain(f.idom[x])
  {
    var p := ForwardPred(g, old_, f, x);
    var o := f.idom[x];
    assert m in f.Chain(m) && Common(g, f, x, m);
    assert f.idx[o] <= f.idx[m];
    if o != m {
      assert Settled(g, old_, x);
      assert f.idx[o] != f.idx[m];
      Climb(g, old_, f, f.idx[x], p, o, m);
    }
  }

  lemma RedirectShrinks(g: Graph, old_: Forest, f: Forest, x: Node, m: Node, c: Node)
    requires Turn(g, old_, f, x) && IsMeet(g, f, x, m) && c in f.idom
    ensures Redirect(f, x, m).Ok() && Redirect(f, x, m).Chain(c) <= f.Chain(c)
  {
    MeetIsHigher(g, old_, f, x, m);
    RedirectChain(f, x, m, c);
    if x in f.Chain(c) {
      MeetIsAbove(g, old_, f, x, m);
      ChainOfMember(f, c, x);
      ChainOfMember(f, x, f.idom[x]);
      ChainOfMember(f, f.idom[x], m);
    }
  }

  // ---------- one update keeps the invariants ----------

  lemma RedirectSetting(g: Graph, old_: Forest, f: Forest, x: Node, m: Node)
    requires Turn(g, old_, f, x) && IsMeet(g, f, x, m)
    ensures Setting(g, Redirect(f, x, m))
  {
    MeetIsHigher(g, old_, f, x, m);
    RedirectOk(f, x, m);
    var h := Redirect(f, x, m);
    forall b | b in g.nodes && b != f.root ensures HasForward(g, h, b) {
      assert HasForward(g, f, b);
    }
  }

  lemma RedirectOver(g: Graph, old_: Forest, f: Forest, x: Node, m: Node)
    requires Turn(g, old_, f, x) && IsMeet(g, f, x, m)
    ensures Over(g, Redirect(f, x, m))
  {
    MeetIsHigher(g, old_, f, x, m);
    var h := Redirect(f, x, m);
    RedirectOk(f, x, m);
    forall c, d | c in h.idom && Dom(g, h, d, c) ensures d in h.Chain(c) {
      RedirectChain(f, x, m, c);
      if c != x {
        assert Dom(g, f, d, c);
        assert d in f.Chain(c);
      }
      if c == x || (x in f.Chain(c) && f.idx[x] < f.idx[d]) {
        DomReachesMeet(g, f, x, m, c, d);
      } else if x in f.Chain(c) {
        SameNumber(g, f, x, d);
      }
    }
  }

  lemma SameNumber(g: Graph, f: Forest, x: Node, d: Node)
    requires Setting(g, f) && x in f.idx && d in f.idx
    ensures f.idx[x] == f.idx[d] ==> x == d
  {
  }

  // A dominator of a block below x that is numbered above x is above the meet of x.
  lemma DomReachesMeet(g: Graph, f: Forest, x: Node, m: Node, c: Node, d: Node)
    requires Good(g, f) && x in g.nodes && x != f.root && IsMeet(g, f, x, m) && Dom(g, f, d, c)
    requires c == x || (c in f.idom && x in f.Chain(c) && d in f.idx && f.idx[x] < f.idx[d])
    ensures d == x || d in f.Chain(m)
  {
    if c != x {
      assert Below(g, f, x, c);
      var r :| Joins(g, r, x, c) && UpTo(f, r, x);
      DomAcross(g, f.root, d, x, c, r);
    }
    if d != x {
      forall p | p in g.pred[x] && p in f.idom ensures d in f.Chain(p) {
        DomOfPred(g, f.root, d, p, x);
        assert Dom(g, f, d, p);
      }
      var p :| p in g.pred[x] && p in f.idom;
      assert d in f.Chain(p);
      assert Common(g, f, x, d);
    }
  }

  lemma RedirectUnder(g: Graph, old_: Forest, f: Forest, x: Node, m: Node)
    requires Turn(g, old_, f, x) && IsMeet(g, f, x, m)
    ensures Under(g, Redirect(f, x, m))
  {
    MeetIsHigher(g, old_, f, x, m);
    var h := Redirect(f, x, m);
    RedirectOk(f, x, m);
    forall c, a | c in h.idom && a in h.Chain(c) ensures Below(g, h, a, c) {
      RedirectBelow(g, old_, f, x, m, c, a);
      SameBelow(g, f, h, a, c);
    }
  }

  lemma RedirectBelow(g: Graph, old_: Forest, f: Forest, x: Node, m: Node, c: Node, a: Node)
    requires Turn(g, old_, f, x) && IsMeet(g, f, x, m) && f.idx[x] < f.idx[m]
    requires Redirect(f, x, m).Ok() && c in Redirect(f, x, m).idom && a in Redirect(f, x, m).Chain(c)
    ensures Below(g, f, a, c)
  {
    hide Forest.Chain;
    assert Good(g, f) && x in g.nodes && x in f.idx && f.idx[x] < f.n && x != f.root;
    RedirectChain(f, x, m, c);
    BelowCases(f, x, m, c, a);
    hide Good, Turn, IsMeet, Redirect, Redirected;
    if a in f.Chain(m) && (c == x || x in f.Chain(c)) {
      MeetBelow(g, old_, f, x, m, a);
      if c != x { AcrossBelow(g, f, a, x, c); }
    } else if a == x {
      XBelow(g, old_, f, x, c);
    } else {
      UnderChain(g, f, a, c);
    }
  }

  lemma BelowCases(f: Forest, x: Node, m: Node, c: Node, a: Node)
    requires f.Ok() && m in f.idom && (c in f.idom || c == x) && a in Redirected(f, x, m, c)
    ensures (a in f.Chain(m) && (c == x || x in f.Chain(c))) || (a == x && (c == x || x in f.Chain(c)))
        || (c in f.idom && a in f.Chain(c))
  {
    hide Forest.Chain;
  }

  lemma MeetBelow(g: Graph, old_: Forest, f: Forest, x: Node, m: Node, a: Node)
    requires Turn(g, old_, f, x) && IsMeet(g, f, x, m) && f.idx[x] < f.idx[m] && a in f.Chain(m)
    ensures Below(g, f, a, x)
  {
    hide Forest.Chain;
    BelowMeet(g, f, x, m, a);
  }

  lemma AcrossBelow(g: Graph, f: Forest, a: Node, x: Node, c: Node)
    requires Good(g, f) && Below(g, f, a, x) && c in f.idom && x in f.Chain(c)
    ensures Below(g, f, a, c)
  {
    hide Forest.Chain, Below;
    UnderChain(g, f, x, c);
    BelowAcross(g, f, a, x, c);
  }

  lemma XBelow(g: Graph, old_: Forest, f: Forest, x: Node, c: Node)
    requires Turn(g, old_, f, x) && (c == x || (c in f.idom && x in f.Chain(c)))
    ensures Below(g, f, x, c)
  {
    hide Forest.Chain, Below;
    if c == x {
      assert x in f.idx by { assert Good(g, f); }
      BelowSelf(g, f, x);
    } else {
      UnderChain(g, f, x, c);
    }
  }

  lemma UnderChain(g: Graph, f: Forest, a: Node, c: Node)
    requires Good(g, f) && c in f.idom && a in f.Chain(c)
    ensures Below(g, f, a, c)
  {
  }

  lemma SameBelow(g: Graph, f: Forest, h: Forest, a: Node, c: Node)
    requires f.idx == h.idx && Below(g, f, a, c)
    ensures Below(g, h, a, c)
  {
    var p :| Joins(g, p, a, c) && UpTo(f, p, a);
    assert UpTo(h, p, a);
  }

  lemma BelowSelf(g: Graph, f: Forest, x: Node)
    requires x in g.nodes && x in f.idx
    ensures Below(g, f, x, x)
  {
    SinglePath(g, x);
    assert UpTo(f, [x], x);
  }

  lemma BelowMeet(g: Graph, f: Forest, x: Node, m: Node, a: Node)
    requires Good(g, f) && x in g.nodes && IsMeet(g, f, x, m) && f.idx[x] < f.idx[m] && a in f.Chain(m)
    ensures Below(g, f, a, x) && f.idx[x] <= f.idx[a]
  {
    var p :| p in g.pred[x] && p in f.idom;
    assert Common(g, f, x, a) && a in f.Chain(p) && f.idx[m] <= f.idx[a];
    assert Below(g, f, a, p) && g.Edge(p, x);
    hide Good, IsMeet, Common;
    BelowEdge(g, f, a, p, x);
  }

  lemma BelowEdge(g: Graph, f: Forest, a: Node, p: Node, x: Node)
    requires Below(g, f, a, p) && g.Edge(p, x) && x in f.idx && a in f.idx && f.idx[x] <= f.idx[a]
    ensures Below(g, f, a, x)
  {
    var q :| Joins(g, q, a, p) && UpTo(f, q, a);
    ExtendPath(g, q, a, p, x);
    assert UpTo(f, q + [x], a);
  }

  lemma BelowAcross(g: Graph, f: Forest, a: Node, x: Node, c: Node)
    requires Below(g, f, a, x) && Below(g, f, x, c)
    ensures Below(g, f, a, c)
  {
    var p :| Joins(g, p, a, x) && UpTo(f, p, a);
    var q :| Joins(g, q, x, c) && UpTo(f, q, x);
    JoinPaths(g, p, q, a, x, c);
    assert x in p;
    assert UpTo(f, p + q[1..], a);
  }

  lemma RedirectAhead(g: Graph, old_: Forest, f: Forest, x: Node, m: Node)
    requires Turn(g, old_, f, x) && IsMeet(g, f, x, m)
    ensures Ahead(g, Redirect(f, x, m))
  {
    MeetIsHigher(g, old_, f, x, m);
    var h := Redirect(f, x, m);
    RedirectOk(f, x, m);
    forall y, e | y in h.idom && y != h.root && y in g.pred && e in h.idx && Common(g, h, y, e)
      ensures h.idx[h.idom[y]] <= h.idx[e]
    {
      forall p | p in g.pred[y] && p in f.idom ensures e in f.Chain(p) {
        RedirectShrinks(g, old_, f, x, m, p);
      }
      assert Common(g, f, y, e);
      if y == x {
        assert e in f.Chain(m);
      }
    }
  }

  lemma MeetUnderPred(g: Graph, f: Forest, x: Node, m: Node, p: Node)
    requires IsMeet(g, f, x, m) && p in g.pred[x] && p in f.idom
    ensures f.Chain(m) <= f.Chain(p)
  {
    forall e | e in f.Chain(m) ensures e in f.Chain(p) {
      assert Common(g, f, x, e);
    }
  }

  lemma RedirectSettles(g: Graph, old_: Forest, f: Forest, x: Node, m: Node)
    requires Turn(g, old_, f, x) && IsMeet(g, f, x, m)
    ensures SettledAbove(g, Redirect(f, x, m), f.idx[x] - 1)
  {
    MeetIsHigher(g, old_, f, x, m);
    var h := Redirect(f, x, m);
    RedirectOk(f, x, m);
    forall y | y in g.nodes && y != f.root && f.idx[x] - 1 < f.idx[y] ensures Settled(g, h, y) {
      SameNumber(g, f, x, y);
      assert y == x || Settled(g, f, y);
      forall p | p in g.pred[y] && p in f.idx && f.idx[y] < f.idx[p] ensures p in h.idom && h.idom[y] in h.Chain(p) {
        PredReached(g, old_, f, x, y, p);
        if y == x { MeetUnderPred(g, f, x, m, p); }
        hide IsMeet, Setting, Turn, SettledAbove, Since;
        RedirectChain(f, x, m, p);
      }
    }
  }

  lemma RedirectSince(g: Graph, old_: Forest, f: Forest, x: Node, m: Node)
    requires Turn(g, old_, f, x)
    ensures Since(g, old_, Redirect(f, x, m), f.idx[x] - 1)
  {
  }

  lemma PredReached(g: Graph, old_: Forest, f: Forest, x: Node, y: Node, p: Node)
    requires Turn(g, old_, f, x) && y in g.nodes && y != f.root && (y == x || f.idx[x] < f.idx[y])
    requires p in g.pred[y] && f.idx[y] < f.idx[p]
    ensures p in f.idom && x !in f.Chain(p) && (y != x ==> y in f.idom && f.idom[y] in f.Chain(p))
  {
    assert p == f.root || Settled(g, f, p);
    assert y == x || Settled(g, f, y);
  }

  /** One update of generate_idom keeps all invariants and settles the block. */
  lemma UpdateKeeps(g: Graph, old_: Forest, f: Forest, x: Node, m: Node)
    requires Turn(g, old_, f, x) && IsMeet(g, f, x, m)
    ensures Good(g, Redirect(f, x, m))
    ensures SettledAbove(g, Redirect(f, x, m), f.idx[x] - 1) && Since(g, old_, Redirect(f, x, m), f.idx[x] - 1)
  {
    RedirectSetting(g, old_, f, x, m);
    RedirectOver(g, old_, f, x, m);
    RedirectUnder(g, old_, f, x, m);
    RedirectAhead(g, old_, f, x, m);
    RedirectSettles(g, old_, f, x, m);
    RedirectSince(g, old_, f, x, m);
  }

  // ---------- the fixed point ----------

  ghost predicate Fixed(g: Graph, f: Forest) {
    && Good(g, f) && f.idom.Keys == g.nodes
    && forall y :: y in g.nodes && y != f.root ==> IsMeet(g, f, y, f.idom[y])
  }

  // At the fixed point the chain of a block lies on every path to it.
  // At the fixed point a block adds nothing but itself to what its predecessors share.
  lemma ChainFromPred(g: Graph, f: Forest, c: Node, b: Node)
    requires Fixed(g, f) && c in f.idom && b in f.idom && b != f.root && g.Edge(c, b)
    ensures f.Chain(b) <= {b} + f.Chain(c)
  {
    assert IsMeet(g, f, b, f.idom[b]);
    MeetUnderPred(g, f, b, f.idom[b], c);
  }

  lemma {:induction false} ChainOnPath(g: Graph, f: Forest, p: seq<Node>, b: Node)
    requires Fixed(g, f) && Joins(g, p, f.root, b)
    ensures b in f.idom && forall d :: d in f.Chain(b) ==> d in p
    decreases |p|
  {
    PathNodes(g, p);
    if |p| > 1 && b != f.root {
      var q, c := p[..|p| - 1], p[|p| - 2];
      ChainOnPath(g, f, q, c);
      ChainFromPred(g, f, c, b);
    }
  }

  /** The chain of a block is exactly the set of its dominators. */
  lemma ChainIsDominators(g: Graph, f: Forest, b: Node, d: Node)
    requires Fixed(g, f) && b in g.nodes
    ensures d in f.Chain(b) <==> Dominates(g, f.root, d, b)
  {
    if d in f.Chain(b) {
      forall p | Joins(g, p, f.root, b) ensures d in p {
        ChainOnPath(g, f, p, b);
      }
    }
    if Dominates(g, f.root, d, b) {
      assert Dom(g, f, d, b);
    }
  }

  // ---------- the measure ----------

  // What is left until the idom of b could be the root itself.
  ghost function Slack(f: Forest, b: Node): nat {
    if b in f.idom && f.idom[b] in f.idx && f.idx[f.idom[b]] < f.n then f.n - f.idx[f.idom[b]]
    else if f.n < 0 then 0 else f.n + 1
  }

  ghost function Slacks(g: Graph, f: Forest): map<Node, nat> { map b | b in g.nodes :: Slack(f, b) }

  /** An update that changes the idom of x lowers the sum of the slacks. */
  lemma UpdateShrinks(g: Graph, old_: Forest, f: Forest, x: Node, m: Node)
    requires Turn(g, old_, f, x) && IsMeet(g, f, x, m) && (x !in f.idom || f.idom[x] != m)
    ensures Sum(Slacks(g, Redirect(f, x, m))) < Sum(Slacks(g, f))
  {
    SlackDrops(g, old_, f, x, m);
    hide Turn, IsMeet, Slack;
    SlackStays(f, x, m);
    assert x in Slacks(g, f);
    SumMonotone(Slacks(g, f), Slacks(g, Redirect(f, x, m)));
  }

  lemma SlackDrops(g: Graph, old_: Forest, f: Forest, x: Node, m: Node)
    requires Turn(g, old_, f, x) && IsMeet(g, f, x, m) && (x !in f.idom || f.idom[x] != m)
    ensures Slack(Redirect(f, x, m), x) < Slack(f, x) && x in g.nodes
  {
    assert m in f.idx && 0 <= f.idx[m] < f.n;
    if x in f.idom {
      MeetIsAbove(g, old_, f, x, m);
      SameNumber(g, f, f.idom[x], m);
    }
  }

  lemma SlackStays(f: Forest, x: Node, m: Node)
    ensures forall b :: b != x ==> Slack(Redirect(f, x, m), b) == Slack(f, b)
  {
  }
}
