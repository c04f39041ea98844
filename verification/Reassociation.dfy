/** Linear reassociation (src/Optimize/AlgebraicSimplification.cc, reassociation, add_sub_node_new,
    mul_node_new, replace_instruction; include/Optimize/AlgebraicSimplification.hh, add_term). */
module Reassociation {
  import opened Basis
  import opened Words
  import opened Terms

  datatype Kind = Leaf | Sum | Difference | Product

  datatype Value = Num(n: int) | Ref(x: Var)

  /** A node of the expression DAG. val is the instruction or operand it stands for; its meaning is kept as
      terms plus constVal. */
  datatype TreeNode = TreeNode(kind: Kind, val: Value, l: int, r: int, isConst: bool, constVal: int,
                               dealed: bool, needReplace: bool, terms: map<Var, int>)

  type Dag = map<int, TreeNode>

  function ValueOf(v: Value, env: Assignment): int {
    match v case Num(n) => n case Ref(x) => env(x)
  }

  // env gives every instruction the value it computes from its operands.
  ghost predicate Consistent(nodes: Dag, env: Assignment) {
    forall k {:trigger nodes[k]} :: k in nodes && !nodes[k].kind.Leaf? && nodes[k].l in nodes && nodes[k].r in nodes ==>
      Same(ValueOf(nodes[k].val, env),
          Computes(nodes[k].kind, ValueOf(nodes[nodes[k].l].val, env), ValueOf(nodes[nodes[k].r].val, env)))
  }

  function Computes(kind: Kind, a: int, b: int): int {
    match kind
    case Leaf => a
    case Sum => a + b
    case Difference => a - b
    case Product => a * b
  }

  // What the fields of a node say its value is.
  ghost function Poly(t: TreeNode, env: Assignment): int { Total(t.terms, env) + t.constVal }

  // The fields of node k speak the truth about it.
  ghost predicate Truthful(nodes: Dag, k: int) {
    k in nodes && forall env: Assignment {:trigger Consistent(nodes, env)} :: Consistent(nodes, env) ==>
        Same(Poly(nodes[k], env), ValueOf(nodes[k].val, env))
  }

  // What the value of node k is a linear form in: the leaves below it that are not numbers, and the products of
  // two such forms. It depends on the expressions alone, not on what has been computed of them.
  ghost function Vars(nodes: Dag, k: int): set<Var>
    decreases k
  {
    if k !in nodes then {}
    else
      var t := nodes[k];
      if t.kind.Leaf? then (if t.val.Ref? then {t.val.x} else {})
      else if !(0 <= t.l < k && 0 <= t.r < k) then {}
      else
        var a, b := Vars(nodes, t.l), Vars(nodes, t.r);
        if t.kind.Product? && a != {} && b != {} then (if t.val.Ref? then {t.val.x} else {}) else a + b
  }

  // The variables of the form that is kept for a node.
  function Mentioned(t: TreeNode): set<Var> {
    if !t.kind.Leaf? then t.terms.Keys else if t.val.Ref? then {t.val.x} else {}
  }

  // Adding child to the form of t combines nothing: no variable is in both, and no two constants meet.
  ghost predicate Separate(t: TreeNode, child: TreeNode) {
    && t.terms.Keys !! Mentioned(child)
    && (if child.kind.Leaf? then child.val.Num? ==> t.constVal == 0 else child.constVal == 0)
  }

  // Coefficients and constant are 32-bit integers.
  predicate Fits(t: TreeNode) { Int32(t.constVal) && forall x :: x in t.terms ==> Int32(t.terms[x]) }

  // The form is in the right variables, and constant if there are none.
  ghost predicate Formed(nodes: Dag, k: int, t: TreeNode) {
    t.terms.Keys == Vars(nodes, k) && (t.isConst <==> t.terms == map[]) && Fits(t)
  }

  ghost predicate NodeOk(nodes: Dag, k: int)
    requires k in nodes
  {
    var t := nodes[k];
    if t.kind.Leaf? then (t.isConst <==> t.val.Num?) && (t.val.Num? ==> t.constVal == t.val.n && Int32(t.val.n))
    else
      && t.val.Ref? && 0 <= t.l < k && 0 <= t.r < k && t.l in nodes && t.r in nodes
      && (t.isConst ==> t.dealed && t.terms == map[])
      && (if t.dealed then Truthful(nodes, k) && Formed(nodes, k, t) else t.terms == map[] && t.constVal == 0)
  }

  // Operands have smaller numbers; dealt-with nodes speak the truth; the others are as built.
  ghost predicate Good(nodes: Dag) { forall k {:trigger NodeOk(nodes, k)} :: k in nodes ==> NodeOk(nodes, k) }

  // The same expressions; only the computed fields may differ.
  ghost predicate SameShape(a: Dag, b: Dag) {
    a.Keys == b.Keys && forall k {:trigger a[k]} {:trigger b[k]} :: k in a ==>
        a[k].kind == b[k].kind && a[k].val == b[k].val && a[k].l == b[k].l && a[k].r == b[k].r
  }

  lemma SameConsistent(a: Dag, b: Dag, env: Assignment)
    requires SameShape(a, b)
    ensures Consistent(a, env) <==> Consistent(b, env)
  {
  }

  lemma SameTruth(a: Dag, b: Dag, k: int)
    requires SameShape(a, b) && k in a && a[k] == b[k] && Truthful(a, k)
    ensures Truthful(b, k)
  {
    forall env: Assignment | Consistent(b, env) ensures Same(Poly(b[k], env), ValueOf(b[k].val, env)) {
      SameConsistent(a, b, env);
    }
  }

  lemma {:induction false} SameVars(a: Dag, b: Dag, k: int)
    requires SameShape(a, b)
    ensures Vars(a, k) == Vars(b, k)
    decreases k
  {
    if k in a && !a[k].kind.Leaf? && 0 <= a[k].l < k && 0 <= a[k].r < k {
      SameVars(a, b, a[k].l);
      SameVars(a, b, a[k].r);
    }
  }

  // A node that is a leaf or has been dealt with mentions what it should, and is constant if that is nothing.
  lemma MentionsVars(nodes: Dag, k: int)
    requires Good(nodes) && k in nodes && Known(nodes[k])
    ensures Mentioned(nodes[k]) == Vars(nodes, k) && (nodes[k].isConst <==> Vars(nodes, k) == {})
    ensures nodes[k].isConst ==> Int32(nodes[k].constVal)
    ensures !nodes[k].kind.Leaf? ==> Fits(nodes[k])
  {
    hide Truthful;
    assert NodeOk(nodes, k);
  }

  // Replacing the computed fields of one node by others that are all right keeps the rest all right.
  lemma ReplaceGood(nodes: Dag, k: int, t: TreeNode)
    requires Good(nodes) && k in nodes && SameShape(nodes, nodes[k := t]) && NodeOk(nodes[k := t], k)
    ensures Good(nodes[k := t])
  {
    var more := nodes[k := t];
    forall j | j in more ensures NodeOk(more, j) {
      assert NodeOk(nodes, j) || j == k;
      if j != k && !nodes[j].kind.Leaf? && nodes[j].dealed {
        SameTruth(nodes, more, j);
        SameVars(nodes, more, j);
      }
    }
  }

  // ---------- adding terms ----------

  // add_term of a value, lines 101-116.
  function WithValue(t: TreeNode, v: Value, num: int): TreeNode {
    match v
    case Num(c) => t.(constVal := Wrap(t.constVal + Wrap(c * num)), needReplace := t.needReplace || t.constVal != 0)
    case Ref(x) =>
      if x in t.terms then t.(terms := t.terms[x := Wrap(t.terms[x] + num)], needReplace := true)
      else t.(terms := t.terms[x := num])
  }

  lemma WithValueMeans(t: TreeNode, v: Value, num: int, env: Assignment)
    ensures Same(Poly(WithValue(t, v, num), env), Poly(t, env) + num * ValueOf(v, env))
  {
    hide Wrap, Same, Total;
    match v
    case Num(c) => ConstantMeans(t.constVal, c, num, Total(t.terms, env));
    case Ref(x) => TermMeans(t.terms, t.constVal, x, num, env);
  }

  lemma TermMeans(terms: map<Var, int>, c: int, x: Var, num: int, env: Assignment)
    ensures x in terms ==> Same(Total(terms[x := Wrap(terms[x] + num)], env) + c, Total(terms, env) + c + num * env(x))
    ensures x !in terms ==> Same(Total(terms[x := num], env) + c, Total(terms, env) + c + num * env(x))
  {
    hide Wrap, Same, Total;
    if x in terms {
      var m := terms[x] + num;
      TotalSet(terms, env, x, Wrap(m));
      TotalSet(terms, env, x, num);
      TotalSet(terms, env, x, m);
      CoefficientMeans(m, env(x), Total(terms - {x}, env) + c);
    } else {
      TotalSet(terms, env, x, num);
      SameSelf(Total(terms, env) + c + num * env(x));
    }
  }

  lemma ConstantMeans(a: int, c: int, num: int, rest: int)
    ensures Same(rest + Wrap(a + Wrap(c * num)), rest + a + num * c)
  {
    hide Wrap, Same;
    SameWrap(c * num);
    SameWrap(a + Wrap(c * num));
    SameSelf(a);
    SameSelf(rest);
    SameAdd(a, a, Wrap(c * num), c * num);
    SameTrans(Wrap(a + Wrap(c * num)), a + Wrap(c * num), a + c * num);
    SameAdd(rest, rest, Wrap(a + Wrap(c * num)), a + c * num);
    Swapped(c, num);
  }

  lemma Swapped(c: int, num: int)
    ensures c * num == num * c
  {
  }

  lemma CoefficientMeans(m: int, e: int, rest: int)
    ensures Same(rest + Wrap(m) * e, rest + m * e)
  {
    hide Wrap, Same;
    SameWrap(m);
    SameScale(e, Wrap(m), m);
    SameSelf(rest);
    Swapped(e, Wrap(m));
    Swapped(e, m);
    SameAdd(rest, rest, e * Wrap(m), e * m);
  }

  // t is t0 with n times the value e of something added, as far as every consistent assignment can tell.
  ghost predicate Added(nodes: Dag, t0: TreeNode, t: TreeNode, n: int, v: Value) {
    forall env: Assignment {:trigger Consistent(nodes, env)} :: Consistent(nodes, env) ==>
        Same(Poly(t, env), Poly(t0, env) + n * ValueOf(v, env))
  }

  // t is t0 with n times these terms and this constant added.
  ghost predicate AddedTerms(t0: TreeNode, t: TreeNode, n: int, terms: map<Var, int>, c: int) {
    forall env: Assignment {:trigger Poly(t, env)} :: Same(Poly(t, env), Poly(t0, env) + n * (Total(terms, env) + c))
  }

  // Only the computed fields that add_term touches differ.
  predicate SameNode(a: TreeNode, b: TreeNode) {
    a.kind == b.kind && a.val == b.val && a.l == b.l && a.r == b.r && a.isConst == b.isConst && a.dealed == b.dealed
  }

  lemma NothingAdded(t: TreeNode, n: int)
    ensures AddedTerms(t, t, n, map[], 0)
  {
    hide Same;
    forall env: Assignment ensures Same(Poly(t, env), Poly(t, env) + n * (Total(map[], env) + 0)) {
      SameSelf(Poly(t, env));
    }
  }

  lemma OneMoreTerm(t0: TreeNode, t: TreeNode, n: int, terms: map<Var, int>, x: Var, m: int)
    requires AddedTerms(t0, t, n, terms, 0) && x !in terms
    ensures AddedTerms(t0, WithValue(t, Ref(x), Wrap(m * n)), n, terms[x := m], 0)
  {
    hide Same, Wrap, Total;
    var t' := WithValue(t, Ref(x), Wrap(m * n));
    forall env: Assignment ensures Same(Poly(t', env), Poly(t0, env) + n * (Total(terms[x := m], env) + 0)) {
      WithValueMeans(t, Ref(x), Wrap(m * n), env);
      TotalSet(terms, env, x, m);
      Scaled(m, n, env(x));
      TermStep(Poly(t', env), Poly(t, env), Poly(t0, env), n, Total(terms, env), Wrap(m * n) * env(x), m * env(x));
    }
  }

  lemma Scaled(m: int, n: int, e: int)
    ensures Same(Wrap(m * n) * e, n * (m * e))
  {
    hide Same, Wrap;
    SameWrap(m * n);
    SameScale(e, Wrap(m * n), m * n);
    Swapped(e, Wrap(m * n));
    Regrouped(m, n, e);
  }

  lemma Regrouped(m: int, n: int, e: int)
    ensures e * (m * n) == n * (m * e)
  {
    assert e * (m * n) == (e * m) * n;
    assert n * (m * e) == n * (e * m);
  }

  lemma TermStep(p': int, p: int, p0: int, n: int, total: int, a: int, b: int)
    requires Same(p', p + a) && Same(p, p0 + n * (total + 0)) && Same(a, n * b)
    ensures Same(p', p0 + n * (total + b + 0))
  {
    hide Same;
    SameAdd(p, p0 + n * (total + 0), a, n * b);
    Terms.Spread(total, b, n);
    SameTrans(p', p + a, p0 + n * (total + 0) + n * b);
  }

  lemma ConstantAdded(t0: TreeNode, t: TreeNode, n: int, terms: map<Var, int>, c: int)
    requires AddedTerms(t0, t, n, terms, 0)
    ensures AddedTerms(t0, t.(constVal := Wrap(t.constVal + Wrap(c * n)), needReplace := true), n, terms, c)
  {
    hide Same, Wrap, Total;
    var t' := t.(constVal := Wrap(t.constVal + Wrap(c * n)), needReplace := true);
    forall env: Assignment ensures Same(Poly(t', env), Poly(t0, env) + n * (Total(terms, env) + c)) {
      ConstantMeans(t.constVal, c, n, Total(t.terms, env));
      Terms.Spread(Total(terms, env), c, n);
      assert Same(Poly(t, env), Poly(t0, env) + n * (Total(terms, env) + 0));
      SameSelf(n * c);
      SameAdd(Poly(t, env), Poly(t0, env) + n * Total(terms, env), n * c, n * c);
      SameTrans(Poly(t', env), Poly(t, env) + n * c, Poly(t0, env) + n * Total(terms, env) + n * c);
    }
  }

  // A node that speaks the truth may be replaced by its terms.
  lemma TermsForNode(nodes: Dag, t0: TreeNode, t: TreeNode, n: int, k: int)
    requires Truthful(nodes, k) && AddedTerms(t0, t, n, nodes[k].terms, nodes[k].constVal)
    ensures Added(nodes, t0, t, n, nodes[k].val)
  {
    hide Same, Total, Consistent;
    forall env: Assignment | Consistent(nodes, env) ensures Same(Poly(t, env),
        Poly(t0, env) + n * ValueOf(nodes[k].val, env)) {
      var p, v := Poly(nodes[k], env), ValueOf(nodes[k].val, env);
      SameScale(n, p, v);
      SameSelf(Poly(t0, env));
      SameAdd(Poly(t0, env), Poly(t0, env), n * p, n * v);
      SameTrans(Poly(t, env), Poly(t0, env) + n * p, Poly(t0, env) + n * v);
    }
  }

  lemma ValueAdded(nodes: Dag, t: TreeNode, v: Value, n: int)
    ensures Added(nodes, t, WithValue(t, v, n), n, v)
  {
    hide Same, Poly, WithValue;
    forall env: Assignment | Consistent(nodes, env) ensures Same(Poly(WithValue(t, v, n), env),
        Poly(t, env) + n * ValueOf(v, env)) {
      WithValueMeans(t, v, n, env);
    }
  }

  // ---------- the pass ----------

  // A leaf, or an operation that has been dealt with: its value can be read off.
  predicate Known(t: TreeNode) { t.kind.Leaf? || t.dealed }

  class AlgebraicSimplification {
    var nodes: Dag

    constructor (dag: Dag)
      ensures nodes == dag
    {
      nodes := dag;
    }

    /** add_term of a node, lines 117-129. */
    method AddTerm(k: int, child: int, n: int)
      requires k in nodes && child in nodes && k != child && (nodes[child].kind.Leaf? || Truthful(nodes, child))
      requires Fits(nodes[k]) && Int32(n)
      modifies this
      ensures k in old(nodes) && nodes.Keys == old(nodes).Keys && nodes == old(nodes)[k := nodes[k]]
          && SameNode(old(nodes)[k], nodes[k])
      ensures Added(old(nodes), old(nodes)[k], nodes[k], n, old(nodes)[child].val)
      ensures nodes[k].terms.Keys == old(nodes)[k].terms.Keys + Mentioned(old(nodes)[child]) && Fits(nodes[k])
      ensures !nodes[k].needReplace ==> !old(nodes)[k].needReplace && Separate(old(nodes)[k], old(nodes)[child])
      ensures old(nodes)[child].kind.Leaf? ==> nodes[k] == WithValue(old(nodes)[k], old(nodes)[child].val, n)
    {
      hide AddedTerms, Added, Truthful, WithValue, Consistent, Wrap, Int32;
      ghost var start := nodes;
      var node := nodes[child];
      if node.kind.Leaf? {
        ValueAdded(nodes, nodes[k], node.val, n);
        SameNodeWith(nodes[k], node.val, n);
        KeysWith(nodes[k], node.val, n);
        nodes := nodes[k := WithValue(nodes[k], node.val, n)];
        return;
      }
      NothingAdded(nodes[k], n);
      var todo := node.terms.Keys;
      assert node.terms - todo == map[];
      while todo != {}
        invariant todo <= node.terms.Keys && k in nodes && nodes.Keys == start.Keys && nodes == start[k := nodes[k]]
        invariant SameNode(start[k], nodes[k])
        invariant AddedTerms(start[k], nodes[k], n, node.terms - todo, 0)
        invariant nodes[k].terms.Keys == start[k].terms.Keys + (node.terms.Keys - todo) && Fits(nodes[k])
        invariant !nodes[k].needReplace ==> !start[k].needReplace && start[k].terms.Keys !! (node.terms.Keys - todo)
      {
        SomeElement(todo);
        var x :| x in todo;
        OneMoreTerm(start[k], nodes[k], n, node.terms - todo, x, node.terms[x]);
        assert (node.terms - todo)[x := node.terms[x]] == node.terms - (todo - {x});
        SameNodeWith(nodes[k], Ref(x), Wrap(node.terms[x] * n));
        KeysWith(nodes[k], Ref(x), Wrap(node.terms[x] * n));
        WrapFits(node.terms[x] * n);
        nodes := nodes[k := WithValue(nodes[k], Ref(x), Wrap(node.terms[x] * n))];
        todo := todo - {x};
      }
      assert node.terms - todo == node.terms;
      if node.constVal != 0 {
        ConstantAdded(start[k], nodes[k], n, node.terms, node.constVal);
        WrapFits(nodes[k].constVal + Wrap(node.constVal * n));
        nodes := nodes[k := nodes[k].(constVal := Wrap(nodes[k].constVal + Wrap(node.constVal * n)),
            needReplace := true)];
      }
      TermsForNode(start, start[k], nodes[k], n, child);
    }

    /** reassociation, lines 182-210: afterwards the node and everything below it speak the truth, and no
        other node has come to lie. */
    method Reassociate(k: int)
      requires Good(nodes) && k in nodes && 0 <= k
      modifies this
      ensures Good(nodes) && SameShape(old(nodes), nodes) && Known(nodes[k])
      ensures forall j :: j in old(nodes) && Known(old(nodes)[j]) ==> j in nodes && Known(nodes[j])
      ensures forall j :: j in old(nodes) && k < j ==> j in nodes && nodes[j] == old(nodes)[j]
      decreases k
    {
      hide NodeOk, Truthful, WithValue, Good, Vars;
      if nodes[k].dealed {
        return;
      }
      NodeFacts(nodes, k);
      if nodes[k].kind.Leaf? {
        if !nodes[k].isConst {
          LeafWith(nodes, k);
          nodes := nodes[k := WithValue(nodes[k], nodes[k].val, 1)];
        }
        return;
      }
      var l, r := nodes[k].l, nodes[k].r;
      Reassociate(l);
      ghost var mid := nodes;
      Reassociate(r);
      SameShapeOver(old(nodes), mid, nodes);
      NodeFacts(nodes, k);
      ghost var start := nodes;
      if nodes[k].kind.Product? {
        MulNode(k);
      } else {
        AddSubNode(k);
      }
      ReplaceGood(start, k, nodes[k]);
      SameShapeOver(old(nodes), start, nodes);
    }

    // add_sub_node_new, lines 480-493, and line 209.
    method AddSubNode(k: int)
      requires Good(nodes) && k in nodes && Fresh(nodes, k) && (nodes[k].kind.Sum? || nodes[k].kind.Difference?)
      modifies this
      ensures k in old(nodes) && nodes.Keys == old(nodes).Keys && nodes == old(nodes)[k := nodes[k]]
      ensures SameShape(old(nodes), nodes) && NodeOk(nodes, k) && nodes[k].dealed
      ensures !nodes[k].needReplace ==> Apart(old(nodes), k)
    {
      hide Good, Truthful, Vars, TruthOf, Apart, NodeOk;
      ghost var start := nodes;
      AddOperands(k);
      ghost var last := nodes[k];
      if nodes[k].terms == map[] {
        nodes := nodes[k := nodes[k].(isConst := true)];
      }
      nodes := nodes[k := nodes[k].(dealed := true)];
      FlagsKeepTruth(start, k, last, nodes[k]);
      assert nodes == start[k := nodes[k]];
      DealtOk(start, k, nodes[k]);
    }

    // Lines 481-488.
    method AddOperands(k: int)
      requires Good(nodes) && k in nodes && Fresh(nodes, k) && (nodes[k].kind.Sum? || nodes[k].kind.Difference?)
      modifies this
      ensures k in old(nodes) && nodes.Keys == old(nodes).Keys && nodes == old(nodes)[k := nodes[k]]
      ensures SameNode(old(nodes)[k], nodes[k]) && TruthOf(old(nodes), k, nodes[k])
      ensures nodes[k].terms.Keys == Vars(old(nodes), k) && Fits(nodes[k])
      ensures !nodes[k].needReplace ==> Apart(old(nodes), k)
    {
      hide Good, Truthful, Added, Consistent, Vars, Apart, TruthOf, Separate, WithValue;
      var l, r := nodes[k].l, nodes[k].r;
      ChildTruth(nodes, k);
      MentionsVars(nodes, l);
      MentionsVars(nodes, r);
      SumVars(nodes, k);
      ghost var start := nodes;
      AddTerm(k, l, 1);
      ghost var mid := nodes;
      if !nodes[r].kind.Leaf? { SameTruth(start, mid, r); }
      AddTerm(k, r, if nodes[k].kind.Sum? then 1 else -1);
      AddedSame(start, mid, mid[k], nodes[k], if start[k].kind.Sum? then 1 else -1, start[r].val);
      SumTruth(start, k, mid[k], nodes[k]);
      if !nodes[k].needReplace { SeparateApart(start, k, mid[k]); }
    }

    // mul_node_new, lines 495-518, and line 209.
    method MulNode(k: int)
      requires Good(nodes) && k in nodes && Fresh(nodes, k) && nodes[k].kind.Product?
      modifies this
      ensures k in old(nodes) && nodes.Keys == old(nodes).Keys && nodes == old(nodes)[k := nodes[k]]
      ensures SameShape(old(nodes), nodes) && NodeOk(nodes, k) && nodes[k].dealed
    {
      hide Good, Truthful, Added, Consistent, WithValue, Vars;
      var l, r := nodes[k].l, nodes[k].r;
      ChildTruth(nodes, k);
      MentionsVars(nodes, l);
      MentionsVars(nodes, r);
      ProductVars(nodes, k);
      ghost var start := nodes;
      if nodes[l].isConst && nodes[r].isConst {
        ConstantProduct(nodes, k);
        WrapFits(nodes[l].constVal * nodes[r].constVal);
        nodes := nodes[k := nodes[k].(constVal := Wrap(nodes[l].constVal * nodes[r].constVal), isConst := true)];
      } else if nodes[l].isConst || nodes[r].isConst {
        var c, nc := if nodes[l].isConst then l else r, if nodes[l].isConst then r else l;
        AddTerm(k, nc, nodes[c].constVal);
        ScaledProduct(start, k, nodes[k]);
        nodes := nodes[k := nodes[k].(isConst := false)];
      } else {
        ValueAdded(nodes, nodes[k], nodes[k].val, 1);
        SameNodeWith(nodes[k], nodes[k].val, 1);
        OwnTerm(nodes, k);
        KeysWith(nodes[k], nodes[k].val, 1);
        nodes := nodes[k := WithValue(nodes[k], nodes[k].val, 1)];
      }
      ghost var last := nodes[k];
      nodes := nodes[k := nodes[k].(dealed := true)];
      assert nodes == start[k := nodes[k]];
      FlagsKeepTruth(start, k, last, nodes[k]);
      DealtOk(start, k, nodes[k]);
    }
  }

  // An operation that has not been dealt with while its operands have.
  ghost predicate Fresh(nodes: Dag, k: int) {
    && k in nodes && !nodes[k].kind.Leaf? && nodes[k].val.Ref? && 0 <= nodes[k].l < k && 0 <= nodes[k].r < k
    && nodes[k].l in nodes && nodes[k].r in nodes && Known(nodes[nodes[k].l]) && Known(nodes[nodes[k].r])
    && nodes[k].terms == map[] && nodes[k].constVal == 0 && !nodes[k].isConst && !nodes[k].dealed
  }

  // t's fields would speak the truth about node k.
  ghost predicate TruthOf(nodes: Dag, k: int, t: TreeNode) {
    k in nodes && forall env: Assignment {:trigger Consistent(nodes, env)} :: Consistent(nodes, env) ==>
        Same(Poly(t, env), ValueOf(nodes[k].val, env))
  }

  lemma NodeFacts(nodes: Dag, k: int)
    requires Good(nodes) && k in nodes && !nodes[k].dealed
    ensures if nodes[k].kind.Leaf? then nodes[k].isConst <==> nodes[k].val.Num?
            else
              && nodes[k].val.Ref? && 0 <= nodes[k].l < k && 0 <= nodes[k].r < k && nodes[k].l in nodes
                && nodes[k].r in nodes
              && nodes[k].terms == map[] && nodes[k].constVal == 0 && !nodes[k].isConst
  {
    assert NodeOk(nodes, k);
  }

  lemma SameShapeOver(a: Dag, b: Dag, c: Dag)
    requires SameShape(a, b) && SameShape(b, c)
    ensures SameShape(a, c)
  {
  }

  lemma LeafWith(nodes: Dag, k: int)
    requires Good(nodes) && k in nodes && nodes[k].kind.Leaf? && nodes[k].val.Ref?
    ensures var more := nodes[k := WithValue(nodes[k], nodes[k].val, 1)]; Good(more) && SameShape(nodes, more)
  {
    var t := WithValue(nodes[k], nodes[k].val, 1);
    assert NodeOk(nodes, k);
    assert NodeOk(nodes[k := t], k);
    ReplaceGood(nodes, k, t);
  }

  lemma ChildTruth(nodes: Dag, k: int)
    requires Good(nodes) && Fresh(nodes, k)
    ensures nodes[nodes[k].l].kind.Leaf? || Truthful(nodes, nodes[k].l)
    ensures nodes[nodes[k].r].kind.Leaf? || Truthful(nodes, nodes[k].r)
  {
    hide Truthful;
    assert NodeOk(nodes, nodes[k].l) && NodeOk(nodes, nodes[k].r);
  }

  lemma AddedSame(a: Dag, b: Dag, t0: TreeNode, t: TreeNode, n: int, v: Value)
    requires SameShape(a, b) && Added(b, t0, t, n, v)
    ensures Added(a, t0, t, n, v)
  {
    forall env: Assignment | Consistent(a, env) ensures Same(Poly(t, env), Poly(t0, env) + n * ValueOf(v, env)) {
      SameConsistent(a, b, env);
    }
  }

  lemma BlankPoly(t: TreeNode, env: Assignment)
    requires t.terms == map[]
    ensures Poly(t, env) == t.constVal
  {
  }

  lemma ComputesAt(nodes: Dag, k: int, env: Assignment)
    requires Fresh(nodes, k) && Consistent(nodes, env)
    ensures Same(ValueOf(nodes[k].val, env),
        Computes(nodes[k].kind, ValueOf(nodes[nodes[k].l].val, env), ValueOf(nodes[nodes[k].r].val, env)))
  {
  }

  lemma SumTruth(nodes: Dag, k: int, t1: TreeNode, t2: TreeNode)
    requires Fresh(nodes, k) && (nodes[k].kind.Sum? || nodes[k].kind.Difference?)
    requires Added(nodes, nodes[k], t1, 1, nodes[nodes[k].l].val)
    requires Added(nodes, t1, t2, if nodes[k].kind.Sum? then 1 else -1, nodes[nodes[k].r].val)
    ensures TruthOf(nodes, k, t2)
  {
    hide Same, Consistent, Total;
    var t0, l, r := nodes[k], nodes[nodes[k].l].val, nodes[nodes[k].r].val;
    forall env: Assignment | Consistent(nodes, env) ensures Same(Poly(t2, env), ValueOf(t0.val, env)) {
      BlankPoly(t0, env);
      ComputesAt(nodes, k, env);
      var a, b := ValueOf(l, env), ValueOf(r, env);
      var s := if t0.kind.Sum? then b else -b;
      SameSelf(s);
      assert Same(Poly(t1, env), a) && Same(Poly(t2, env), Poly(t1, env) + s);
      SameAdd(Poly(t1, env), a, s, s);
      SameTrans(Poly(t2, env), Poly(t1, env) + s, a + s);
      SameTrans(ValueOf(t0.val, env), a + s, ValueOf(t0.val, env));
      SameTrans(Poly(t2, env), a + s, ValueOf(t0.val, env));
    }
  }

  // The flags do not matter to the truth.
  lemma FlagsKeepTruth(nodes: Dag, k: int, t: TreeNode, t': TreeNode)
    requires TruthOf(nodes, k, t) && t'.terms == t.terms && t'.constVal == t.constVal
    ensures TruthOf(nodes, k, t')
  {
  }

  lemma DealtOk(nodes: Dag, k: int, t: TreeNode)
    requires Fresh(nodes, k) && TruthOf(nodes, k, t) && t.dealed && Formed(nodes, k, t)
    requires t.kind == nodes[k].kind && t.val == nodes[k].val && t.l == nodes[k].l && t.r == nodes[k].r
    ensures SameShape(nodes, nodes[k := t]) && NodeOk(nodes[k := t], k)
  {
    var more := nodes[k := t];
    forall env: Assignment | Consistent(more, env) ensures Same(Poly(more[k], env), ValueOf(more[k].val, env)) {
      SameConsistent(nodes, more, env);
    }
    SameVars(nodes, more, k);
  }

  // Nothing of the operands of k can be combined: they have no variable in common, and at most one of them has a
  // constant, which is a number then.
  ghost predicate Apart(nodes: Dag, k: int)
    requires k in nodes && nodes[k].l in nodes && nodes[k].r in nodes
  {
    var a, b := nodes[nodes[k].l], nodes[nodes[k].r];
    && Vars(nodes, nodes[k].l) !! Vars(nodes, nodes[k].r)
    && (a.constVal != 0 ==> a.kind.Leaf?) && (b.constVal != 0 ==> b.kind.Leaf?)
    && (a.kind.Leaf? && a.val.Num? && b.kind.Leaf? && b.val.Num? ==> a.val.n == 0)
  }

  lemma SeparateApart(nodes: Dag, k: int, t: TreeNode)
    requires Good(nodes) && Fresh(nodes, k)
    requires Separate(nodes[k], nodes[nodes[k].l]) && Separate(t, nodes[nodes[k].r])
    requires t.terms.Keys == Mentioned(nodes[nodes[k].l])
    requires var a := nodes[nodes[k].l]; a.kind.Leaf? ==> t == WithValue(nodes[k], a.val, 1)
    ensures Apart(nodes, k)
  {
    hide Vars, Truthful, WithValue, Formed;
    MentionsVars(nodes, nodes[k].l);
    MentionsVars(nodes, nodes[k].r);
    var a := nodes[nodes[k].l];
    if a.kind.Leaf? && a.val.Num? {
      assert NodeOk(nodes, nodes[k].l);
      OnlyNumber(nodes[k], a.val.n);
    }
  }

  lemma OnlyNumber(t: TreeNode, c: int)
    requires t.constVal == 0 && Int32(c)
    ensures WithValue(t, Num(c), 1).constVal == c
  {
  }

  lemma SumVars(nodes: Dag, k: int)
    requires Fresh(nodes, k) && !nodes[k].kind.Product?
    ensures Vars(nodes, k) == Vars(nodes, nodes[k].l) + Vars(nodes, nodes[k].r)
  {
  }

  lemma ProductVars(nodes: Dag, k: int)
    requires Fresh(nodes, k) && nodes[k].kind.Product?
    ensures var a, b := Vars(nodes, nodes[k].l), Vars(nodes, nodes[k].r);
            Vars(nodes, k) == if a != {} && b != {} then {nodes[k].val.x} else a + b
  {
  }

  // The value of a constant node is its constVal.
  lemma ConstantValue(nodes: Dag, j: int, env: Assignment)
    requires Good(nodes) && j in nodes && nodes[j].isConst && Consistent(nodes, env)
    ensures Same(nodes[j].constVal, ValueOf(nodes[j].val, env))
  {
    hide Consistent, Same;
    assert NodeOk(nodes, j);
    if nodes[j].kind.Leaf? {
      SameSelf(nodes[j].constVal);
    } else {
      BlankPoly(nodes[j], env);
    }
  }

  lemma ConstantProduct(nodes: Dag, k: int)
    requires Good(nodes) && Fresh(nodes, k) && nodes[k].kind.Product? && nodes[nodes[k].l].isConst
        && nodes[nodes[k].r].isConst
    ensures TruthOf(nodes, k, nodes[k].(constVal := Wrap(nodes[nodes[k].l].constVal * nodes[nodes[k].r].constVal),
        isConst := true))
  {
    hide Consistent, Same, Wrap, Good;
    var l, r := nodes[nodes[k].l], nodes[nodes[k].r];
    var t := nodes[k].(constVal := Wrap(l.constVal * r.constVal), isConst := true);
    forall env: Assignment | Consistent(nodes, env) ensures Same(Poly(t, env), ValueOf(nodes[k].val, env)) {
      BlankPoly(t, env);
      ComputesAt(nodes, k, env);
      ConstantValue(nodes, nodes[k].l, env);
      ConstantValue(nodes, nodes[k].r, env);
      var a, b := ValueOf(l.val, env), ValueOf(r.val, env);
      SameMul(l.constVal, a, r.constVal, b);
      SameWrap(l.constVal * r.constVal);
      SameTrans(t.constVal, l.constVal * r.constVal, a * b);
      SameSelf(a * b);
      SameTrans(ValueOf(nodes[k].val, env), a * b, a * b);
      SameTrans(t.constVal, a * b, ValueOf(nodes[k].val, env));
    }
  }

  lemma ScaledProduct(nodes: Dag, k: int, t: TreeNode)
    requires Good(nodes) && Fresh(nodes, k) && nodes[k].kind.Product?
    requires var l, r := nodes[k].l, nodes[k].r;
             && nodes[l].isConst != nodes[r].isConst
             && var c, nc := if nodes[l].isConst then l else r, if nodes[l].isConst then r else l;
                Added(nodes, nodes[k], t, nodes[c].constVal, nodes[nc].val)
    ensures TruthOf(nodes, k, t)
  {
    hide Consistent, Same, Good, Total;
    var l, r := nodes[k].l, nodes[k].r;
    var c, nc := if nodes[l].isConst then l else r, if nodes[l].isConst then r else l;
    forall env: Assignment | Consistent(nodes, env) ensures Same(Poly(t, env), ValueOf(nodes[k].val, env)) {
      BlankPoly(nodes[k], env);
      ComputesAt(nodes, k, env);
      ConstantValue(nodes, c, env);
      var a, b := ValueOf(nodes[c].val, env), ValueOf(nodes[nc].val, env);
      SameSelf(b);
      SameMul(nodes[c].constVal, a, b, b);
      SameTrans(Poly(t, env), nodes[c].constVal * b, a * b);
      Swapped(a, b);
      SameSelf(a * b);
      SameTrans(ValueOf(nodes[k].val, env), a * b, a * b);
      SameTrans(Poly(t, env), a * b, ValueOf(nodes[k].val, env));
    }
  }

  lemma OwnTerm(nodes: Dag, k: int)
    requires Fresh(nodes, k) && Added(nodes, nodes[k], WithValue(nodes[k], nodes[k].val, 1), 1, nodes[k].val)
    ensures TruthOf(nodes, k, WithValue(nodes[k], nodes[k].val, 1))
  {
    hide Consistent, Same, WithValue;
    forall env: Assignment | Consistent(nodes, env)
      ensures Same(Poly(WithValue(nodes[k], nodes[k].val, 1), env), ValueOf(nodes[k].val, env))
    {
      BlankPoly(nodes[k], env);
    }
  }

  lemma WrapFits(n: int)
    ensures Int32(Wrap(n))
  {
  }

  lemma KeysWith(t: TreeNode, v: Value, n: int)
    ensures WithValue(t, v, n).terms.Keys == t.terms.Keys + if v.Ref? then {v.x} else {}
    ensures Fits(t) && Int32(n) ==> Fits(WithValue(t, v, n))
    ensures !WithValue(t, v, n).needReplace ==>
              !t.needReplace && if v.Ref? then v.x !in t.terms else t.constVal == 0
  {
    if v.Ref? && v.x in t.terms {
      WrapFits(t.terms[v.x] + n);
    } else if v.Num? {
      WrapFits(t.constVal + Wrap(v.n * n));
    }
  }

  lemma SameNodeWith(t: TreeNode, v: Value, n: int)
    ensures SameNode(t, WithValue(t, v, n))
  {
  }

  // ---------- what a form is made of ----------

  // j is k or an operand, of an operand, ... of k.
  ghost predicate Under(nodes: Dag, k: int, j: int)
    decreases k
  {
    || (j == k && k in nodes)
    || (k in nodes && !nodes[k].kind.Leaf? && 0 <= nodes[k].l < k && 0 <= nodes[k].r < k
        && (Under(nodes, nodes[k].l, j) || Under(nodes, nodes[k].r, j)))
  }

  // All leaves below k are numbers.
  ghost predicate Numeric(nodes: Dag, k: int) {
    forall j :: Under(nodes, k, j) && j in nodes && nodes[j].kind.Leaf? ==> nodes[j].val.Num?
  }

  // A leaf, or a product of two expressions neither of which is made of numbers only.
  ghost predicate Atomic(nodes: Dag, j: int) {
    j in nodes && (nodes[j].kind.Leaf?
                   || (nodes[j].kind.Product? && !Numeric(nodes, nodes[j].l) && !Numeric(nodes, nodes[j].r)))
  }

  // Different nodes stand for different values (value2node is a map).
  ghost predicate Distinct(nodes: Dag) {
    forall i, j :: i in nodes && j in nodes && nodes[i].val.Ref? && nodes[i].val == nodes[j].val ==> i == j
  }

  /** A form has no variables, and is a constant, if and only if all leaves are numbers. */
  lemma {:induction false} ConstantIff(nodes: Dag, k: int)
    requires Good(nodes) && k in nodes
    ensures Vars(nodes, k) == {} <==> Numeric(nodes, k)
    decreases k
  {
    hide Truthful, Formed;
    assert NodeOk(nodes, k);
    if nodes[k].kind.Leaf? {
      assert Under(nodes, k, k);
    } else {
      ConstantIff(nodes, nodes[k].l);
      ConstantIff(nodes, nodes[k].r);
      NumericIff(nodes, k);
      hide Numeric;
      assert Vars(nodes, k) == {} <==> Vars(nodes, nodes[k].l) == {} && Vars(nodes, nodes[k].r) == {};
    }
  }

  lemma NumericIff(nodes: Dag, k: int)
    requires k in nodes && !nodes[k].kind.Leaf? && 0 <= nodes[k].l < k && 0 <= nodes[k].r < k
    ensures Numeric(nodes, k) <==> Numeric(nodes, nodes[k].l) && Numeric(nodes, nodes[k].r)
  {
    assert forall j :: Under(nodes, nodes[k].l, j) || Under(nodes, nodes[k].r, j) ==> Under(nodes, k, j);
  }

  /** Each variable of a form is the value of a leaf, or of a product without a constant operand, that is the node
      itself or below it. */
  lemma {:induction false} VarsAreAtomic(nodes: Dag, k: int, x: Var) returns (j: int)
    requires Good(nodes) && x in Vars(nodes, k)
    ensures Under(nodes, k, j) && Atomic(nodes, j) && nodes[j].val == Ref(x)
    decreases k
  {
    hide Truthful, Formed, Numeric;
    assert NodeOk(nodes, k);
    var t := nodes[k];
    if t.kind.Leaf? {
      j := k;
    } else {
      ConstantIff(nodes, t.l);
      ConstantIff(nodes, t.r);
      if t.kind.Product? && Vars(nodes, t.l) != {} && Vars(nodes, t.r) != {} {
        j := k;
      } else if x in Vars(nodes, t.l) {
        j := VarsAreAtomic(nodes, t.l, x);
      } else {
        j := VarsAreAtomic(nodes, t.r, x);
      }
    }
  }

  /** So no form mentions a sum or difference, or a product by a constant: not the node itself, and none below. */
  lemma NoneMentioned(nodes: Dag, k: int, j: int)
    requires Good(nodes) && Distinct(nodes) && j in nodes && !Atomic(nodes, j) && nodes[j].val.Ref?
    ensures nodes[j].val.x !in Vars(nodes, k)
  {
    hide Atomic, Good, Under;
    if nodes[j].val.x in Vars(nodes, k) {
      var i := VarsAreAtomic(nodes, k, nodes[j].val.x);
      InDag(nodes, i);
    }
  }

  lemma InDag(nodes: Dag, j: int)
    requires Atomic(nodes, j)
    ensures j in nodes
  {
  }
}
