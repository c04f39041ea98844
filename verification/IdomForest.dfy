/** The tree that idom_ spells out while generate_idom runs (src/Optimize/Dominators.cc), and what
    redirecting one of its edges does to the ancestor chains. */
module IdomForest {
  import opened Graphs

  /** A block without an entry in idom has not been reached yet; idx is the post-order number. */
  datatype Forest = Forest(root: Node, idom: map<Node, Node>, idx: map<Node, int>, n: int) {
    ghost predicate Ok() {
      && root in idom && idom[root] == root
      && (forall b {:trigger idom[b]} {:trigger idx[b]} :: b in idom ==> b in idx && idx[b] < n)
      && (forall b {:trigger idom[b]} :: b in idom ==> idom[b] in idom && idom[b] in idx)
      && (forall b {:trigger idom[b]} :: b in idom && b != root ==> idx[b] < idx[idom[b]])
    }

    // Post-order numbers identify blocks.
    ghost predicate Numbered() {
      forall a, b {:trigger idx[a], idx[b]} :: a in idx && b in idx && idx[a] == idx[b] ==> a == b
    }

    // b and everything above it.
    ghost function Chain(b: Node): (c: set<Node>)
      requires Ok() && b in idom
      ensures b in c && root in c && c <= idom.Keys
      ensures forall a :: a in c ==> idx[b] <= idx[a]
      decreases n - idx[b]
    {
      if b == root then {b} else {b} + Chain(idom[b])
    }
  }

  // A chain contains the chains of its members, and only members of lower number are left out.
  lemma {:induction false} ChainOfMember(f: Forest, b: Node, a: Node)
    requires f.Ok() && b in f.idom && a in f.Chain(b)
    ensures f.Chain(a) <= f.Chain(b)
    ensures forall c :: c in f.Chain(b) && f.idx[a] <= f.idx[c] ==> c in f.Chain(a)
    decreases f.n - f.idx[b]
  {
    if a != b {
      ChainOfMember(f, f.idom[b], a);
    }
  }

  ghost function Redirect(f: Forest, x: Node, to: Node): Forest { f.(idom := f.idom[x := to]) }

  lemma RedirectOk(f: Forest, x: Node, to: Node)
    requires f.Ok() && x in f.idx && f.idx[x] < f.n && x != f.root && to in f.idom && f.idx[x] < f.idx[to]
    ensures Redirect(f, x, to).Ok()
  {
  }

  // The chain of c after x has been redirected to the block to.
  ghost function Redirected(f: Forest, x: Node, to: Node, c: Node): set<Node>
    requires f.Ok() && to in f.idom && (c in f.idom || c == x)
  {
    if c == x then {x} + f.Chain(to)
    else if x !in f.Chain(c) then f.Chain(c)
    else (set a | a in f.Chain(c) && f.idx[a] < f.idx[x]) + {x} + f.Chain(to)
  }

  // Chains that do not pass through x stay; the others keep their part below x.
  lemma {:induction false} RedirectChain(f: Forest, x: Node, to: Node, c: Node)
    requires f.Ok() && x in f.idx && f.idx[x] < f.n && x != f.root && to in f.idom && f.idx[x] < f.idx[to]
    requires c in f.idom || c == x
    ensures Redirect(f, x, to).Ok() && Redirect(f, x, to).Chain(c) == Redirected(f, x, to, c)
    decreases f.n - f.idx[c]
  {
    hide Forest.Chain, Redirected, Forest.Ok;
    RedirectOk(f, x, to);
    ChainRedirected(f, x, to, c);
    if c == x {
      RedirectTarget(f, x, to);
      RedirectChain(f, x, to, to);
    } else if c != f.root {
      Higher(f, c);
      RedirectChain(f, x, to, f.idom[c]);
      RedirectedStep(f, x, to, c);
    }
  }

  lemma Higher(f: Forest, c: Node)
    requires f.Ok() && c in f.idom && c != f.root
    ensures c in f.idx && f.idom[c] in f.idom && f.idom[c] in f.idx && f.idx[c] < f.idx[f.idom[c]] && f.idx[c] < f.n
  {
  }

  lemma ChainRedirected(f: Forest, x: Node, to: Node, c: Node)
    requires f.Ok() && x in f.idx && f.idx[x] < f.n && x != f.root && to in f.idom && f.idx[x] < f.idx[to]
    requires Redirect(f, x, to).Ok() && (c in f.idom || c == x)
    ensures c == f.root ==> Redirect(f, x, to).Chain(c) == {c} == Redirected(f, x, to, c)
    ensures c == x ==> Redirect(f, x, to).Chain(c) == {c} + Redirect(f, x, to).Chain(to)
    ensures c != f.root && c != x ==>
        f.idom[c] in f.idom && Redirect(f, x, to).Chain(c) == {c} + Redirect(f, x, to).Chain(f.idom[c])
  {
    if c == f.root { assert f.Chain(c) == {c}; }
  }

  lemma RedirectTarget(f: Forest, x: Node, to: Node)
    requires f.Ok() && x in f.idx && to in f.idom && f.idx[x] < f.idx[to]
    ensures Redirected(f, x, to, to) == f.Chain(to) && Redirected(f, x, to, x) == {x} + f.Chain(to)
    ensures to in f.idx && f.idx[x] < f.n
  {
    assert x !in f.Chain(to);
  }

  lemma RedirectedStep(f: Forest, x: Node, to: Node, c: Node)
    requires f.Ok() && x in f.idx && to in f.idom && f.idx[x] < f.idx[to] && c in f.idom && c != f.root && c != x
    ensures f.idom[c] in f.idom && Redirected(f, x, to, c) == {c} + Redirected(f, x, to, f.idom[c])
  {
    hide Forest.Chain, Forest.Ok;
    ChainStep(f, c);
    var d := f.idom[c];
    ChainStart(f, c);
    ChainStart(f, d);
    if x in f.Chain(d) {
      assert f.idx[d] <= f.idx[x] && f.idx[c] < f.idx[x];
      if d == x {
        assert (set a | a in f.Chain(c) && f.idx[a] < f.idx[x]) == {c};
      } else {
        assert (set a | a in f.Chain(c) && f.idx[a] < f.idx[x]) == {c} + (set a | a in f.Chain(d)
            && f.idx[a] < f.idx[x]);
      }
    }
  }

  lemma ChainStep(f: Forest, c: Node)
    requires f.Ok() && c in f.idom && c != f.root
    ensures f.idom[c] in f.idom && f.idom[c] in f.idx && c in f.idx && f.idx[c] < f.idx[f.idom[c]]
    ensures f.Chain(c) == {c} + f.Chain(f.idom[c]) && c !in f.Chain(f.idom[c])
  {
  }

  // Nothing on a chain is numbered below its first block.
  lemma ChainStart(f: Forest, d: Node)
    requires f.Ok() && d in f.idom
    ensures forall a :: a in f.Chain(d) ==> a in f.idx && f.idx[d] <= f.idx[a]
  {
  }

  // Two ancestors share a chain above the point where they meet.
  ghost predicate Meets(f: Forest, a: Node, b: Node, m: Node)
    requires f.Ok() && a in f.idom && b in f.idom
  {
    m in f.idom && f.Chain(m) == f.Chain(a) * f.Chain(b)
  }

  /** Dominators::intersect, lines 62-71: the nearest common ancestor. */
  method Intersect(f: Forest, b1: Node, b2: Node) returns (m: Node)
    requires f.Ok() && f.Numbered() && b1 in f.idom && b2 in f.idom
    ensures Meets(f, b1, b2, m)
    ensures m in f.Chain(b1) && m in f.Chain(b2)
  {
    hide Forest.Chain, Forest.Numbered;
    var x, y := b1, b2;
    while x != y
      invariant x in f.idom && y in f.idom
      invariant f.Chain(x) * f.Chain(y) == f.Chain(b1) * f.Chain(b2)
      decreases 2 * f.n - f.idx[x] - f.idx[y]
    {
      if f.idx[x] < f.idx[y] {
        StepUp(f, x, y);
        x := f.idom[x];
      } else {
        Different(f, x, y);
        StepUp(f, y, x);
        y := f.idom[y];
      }
    }
    m := x;
    assert m in f.Chain(m);
  }

  lemma Different(f: Forest, x: Node, y: Node)
    requires f.Ok() && f.Numbered() && x in f.idom && y in f.idom && x != y
    ensures f.idx[x] != f.idx[y]
  {
  }

  // The block with the lower number is no ancestor of the other one.
  lemma StepUp(f: Forest, x: Node, y: Node)
    requires f.Ok() && x in f.idom && y in f.idom && f.idx[x] < f.idx[y]
    ensures x != f.root && f.idom[x] in f.idom && f.idx[x] < f.idx[f.idom[x]]
    ensures f.Chain(f.idom[x]) * f.Chain(y) == f.Chain(x) * f.Chain(y)
    ensures f.Chain(y) * f.Chain(f.idom[x]) == f.Chain(y) * f.Chain(x)
  {
    RootIsTop(f, y);
    assert x !in f.Chain(y);
    assert f.Chain(x) == {x} + f.Chain(f.idom[x]);
  }

  lemma RootIsTop(f: Forest, b: Node)
    requires f.Ok() && b in f.idom
    ensures f.idx[b] <= f.idx[f.root]
  {
    assert f.root in f.Chain(b);
  }
}
