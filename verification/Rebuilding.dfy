/** Code from linear forms (src/Optimize/AlgebraicSimplification.cc, replace_instruction, lines 91-142):
    variables with the same coefficient are added up first and multiplied once. */
module Rebuilding {
  import opened Basis
  import opened Words
  import opened Terms
  import opened Reassociation

  type Groups = map<int, seq<Var>>

  ghost function SumVals(g: seq<Var>, env: Assignment): int {
    if |g| == 0 then 0 else SumVals(g[..|g| - 1], env) + env(g[|g| - 1])
  }

  ghost function Coefficients(groups: Groups): map<int, int> { map c | c in groups :: c }

  ghost function GroupSum(groups: Groups, env: Assignment): int -> int {
    c => if c in groups then SumVals(groups[c], env) else 0
  }

  // Each coefficient times the sum of its variables.
  ghost function Weighted(groups: Groups, env: Assignment): int { Total(Coefficients(groups), GroupSum(groups, env)) }

  lemma WeightedMore(groups: Groups, env: Assignment, c: int, g: seq<Var>)
    requires c !in groups
    ensures Weighted(groups[c := g], env) == Weighted(groups, env) + c * SumVals(g, env)
  {
    hide Total, SumVals;
    var more := groups[c := g];
    TotalPeel(Coefficients(more), GroupSum(more, env), c);
    assert Coefficients(more) - {c} == Coefficients(groups);
    TotalSame(Coefficients(groups), GroupSum(groups, env), GroupSum(more, env));
  }

  lemma WeightedGrows(groups: Groups, env: Assignment, c: int, x: Var)
    requires c in groups
    ensures Weighted(groups[c := groups[c] + [x]], env) == Weighted(groups, env) + c * env(x)
  {
    hide Total;
    var more := groups[c := groups[c] + [x]];
    assert Coefficients(more) == Coefficients(groups);
    assert (groups[c] + [x])[..|groups[c]|] == groups[c];
    TotalAt(Coefficients(groups), GroupSum(groups, env), GroupSum(more, env), c);
  }

  ghost function Coefs(terms: map<Var, int>): set<int> { set x | x in terms :: terms[x] }

  // groups holds every variable of terms under its coefficient.
  ghost predicate Grouped(groups: Groups, terms: map<Var, int>) {
    && (forall c :: c in groups ==> groups[c] != [])
    && groups.Keys == Coefs(terms)
    && (forall c, x :: c in groups && x in groups[c] ==> x in terms && terms[x] == c)
    && forall env: Assignment {:trigger Weighted(groups, env)} :: Weighted(groups, env) == Total(terms, env)
  }

  lemma NothingGrouped()
    ensures Grouped(map[], map[])
  {
    forall env: Assignment ensures Weighted(map[], env) == Total(map[], env) {
      assert Coefficients(map[]) == map[];
    }
  }

  lemma ValuesMore(terms: map<Var, int>, x: Var, c: int)
    requires x !in terms
    ensures Coefs(terms[x := c]) == Coefs(terms) + {c}
  {
    var more := terms[x := c];
    assert more[x] == c;
    forall y | y in terms ensures terms[y] in Coefs(more) {
      assert more[y] == terms[y];
    }
  }

  lemma OneMoreGrouped(groups: Groups, terms: map<Var, int>, x: Var, c: int)
    requires Grouped(groups, terms) && x !in terms
    ensures Grouped(if c in groups then groups[c := groups[c] + [x]] else groups[c := [x]], terms[x := c])
  {
    hide Total, Weighted;
    var more := if c in groups then groups[c := groups[c] + [x]] else groups[c := [x]];
    ValuesMore(terms, x, c);
    forall env: Assignment ensures Weighted(more, env) == Total(terms[x := c], env) {
      TotalSet(terms, env, x, c);
      if c in groups {
        WeightedGrows(groups, env, c, x);
      } else {
        WeightedMore(groups, env, c, [x]);
        assert [x][..0] == [] && SumVals([x], env) == env(x);
      }
    }
  }

  // Lines 104-110.
  method Group(terms: map<Var, int>) returns (termNum: Groups)
    ensures Grouped(termNum, terms)
  {
    hide Grouped;
    termNum := map[];
    NothingGrouped();
    var todo := terms.Keys;
    assert terms - todo == map[];
    while todo != {}
      invariant todo <= terms.Keys && Grouped(termNum, terms - todo)
    {
      SomeElement(todo);
      var x :| x in todo;
      OneMoreGrouped(termNum, terms - todo, x, terms[x]);
      assert (terms - todo)[x := terms[x]] == terms - (todo - {x});
      if terms[x] !in termNum {
        termNum := termNum[terms[x] := [x]];
      } else {
        termNum := termNum[terms[x] := termNum[terms[x]] + [x]];
      }
      todo := todo - {x};
    }
    assert terms - todo == terms;
  }

  // e stands for what is left when these groups are taken from all.
  ghost predicate StandsFor(e: Exp, groups: Groups) {
    forall env: Assignment {:trigger Val(e, env)} :: Same(Val(e, env), Weighted(groups, env))
  }

  ghost predicate StandsForSum(e: Exp, g: seq<Var>) {
    forall env: Assignment {:trigger Val(e, env)} :: Same(Val(e, env), SumVals(g, env))
  }

  // ---------- which values the code uses, and how often it multiplies ----------

  function Uses(e: Exp): set<Var> {
    match e
    case Const(_) => {}
    case Given(x) => {x}
    case Bin(_, l, r) => Uses(l) + Uses(r)
  }

  function Products(e: Exp): nat {
    match e
    case Const(_) => 0
    case Given(_) => 0
    case Bin(op, l, r) => Products(l) + Products(r) + if op == Mul then 1 else 0
  }

  // The use of a and b, and n more products.
  predicate Within(e: Exp, a: Exp, b: Exp, n: nat) {
    Uses(e) <= Uses(a) + Uses(b) && Products(e) <= Products(a) + Products(b) + n
  }

  lemma OneOfTwo(e: Exp, a: Exp, b: Exp, n: nat)
    requires e == a || e == b || e.Const?
    ensures Within(e, a, b, n)
  {
  }

  lemma NewOne(op: Op, a: Exp, b: Exp)
    ensures Within(Bin(op, a, b), a, b, if op == Mul then 1 else 0)
  {
  }

  // Coefficients by which there is nothing to multiply.
  function Easy(): set<int> { {-1, 0, 1} }

  lemma TimesEasy(t: Exp, m: int)
    requires Products(t) == 0 && (m == 0 || m == 1)
    ensures Products(MulI32(t, Const(m))) == 0
  {
  }

  lemma WrapEasy()
    ensures Wrap(0) == 0 && Wrap(1) == 1
  {
  }

  lemma BuildersUse(a: Exp, b: Exp)
    ensures Within(AddI32(a, b), a, b, 0) && Within(SubI32(a, b), a, b, 0) && Within(MulI32(a, b), a, b, 1)
  {
    hide Within, Wrap;
    forall e: Exp, n: nat | e == a || e == b || e.Const? ensures Within(e, a, b, n) {
      OneOfTwo(e, a, b, n);
    }
    NewOne(Add, a, b);
    NewOne(Sub, a, b);
    NewOne(Mul, a, b);
  }

  // Lines 115-118.
  method AddUp(g: seq<Var>) returns (newTerm: Exp)
    requires g != []
    ensures StandsForSum(newTerm, g)
    ensures (forall x :: x in Uses(newTerm) ==> x in g) && Products(newTerm) == 0
  {
    hide StandsForSum, AddI32;
    newTerm := Given(g[0]);
    FirstOfSum(g);
    var i := 1;
    while i < |g|
      invariant 1 <= i <= |g| && StandsForSum(newTerm, g[..i])
      invariant (forall x :: x in Uses(newTerm) ==> x in g) && Products(newTerm) == 0
    {
      NextOfSum(newTerm, g, i);
      BuildersUse(newTerm, Given(g[i]));
      newTerm := AddI32(newTerm, Given(g[i]));
      i := i + 1;
    }
    assert g[..i] == g;
  }

  lemma FirstOfSum(g: seq<Var>)
    requires g != []
    ensures StandsForSum(Given(g[0]), g[..1])
  {
    hide Same;
    forall env: Assignment ensures Same(Val(Given(g[0]), env), SumVals(g[..1], env)) {
      assert g[..1][..0] == [];
      SameSelf(env(g[0]));
    }
  }

  lemma NextOfSum(e: Exp, g: seq<Var>, i: nat)
    requires 1 <= i < |g| && StandsForSum(e, g[..i])
    ensures StandsForSum(AddI32(e, Given(g[i])), g[..i + 1])
  {
    hide Same, AddI32;
    assert g[..i + 1][..i] == g[..i];
    forall env: Assignment ensures Same(Val(AddI32(e, Given(g[i])), env), SumVals(g[..i + 1], env)) {
      BuildersMean(e, Given(g[i]), env);
      SameSelf(env(g[i]));
      SameAdd(Val(e, env), SumVals(g[..i], env), env(g[i]), env(g[i]));
      SameTrans(Val(AddI32(e, Given(g[i])), env), Val(e, env) + env(g[i]), SumVals(g[..i + 1], env));
    }
  }

  /** Lines 104-128: the code rebuilt from terms and constant has their value, in 32 bits, whatever the
      variables hold. */
  method Rebuild(terms: map<Var, int>, constVal: int) returns (newVal: Exp)
    ensures forall env: Assignment {:trigger Val(newVal, env)} :: Same(Val(newVal, env), Total(terms, env) + constVal)
    ensures Uses(newVal) <= terms.Keys && Products(newVal) <= |Coefs(terms) - Easy()|
    ensures terms == map[] ==> newVal.Const?
  {
    hide StandsFor, Built, Grouped, AddI32, Same, Uses, Products, Coefs, Total, Val;
    var termNum := Group(terms);
    newVal := Const(0);
    NothingYet(termNum, terms);
    var todo := termNum.Keys;
    while todo != {}
      invariant todo <= termNum.Keys && Built(newVal, termNum, terms, todo)
    {
      SomeElement(todo);
      var c :| c in todo;
      GroupUses(termNum, terms, c);
      newVal := AddGroup(newVal, termNum, c, terms, todo);
      todo := todo - {c};
    }
    AllBuilt(newVal, termNum, terms);
    ConstantLast(newVal, termNum, terms, constVal);
    BuildersUse(newVal, Const(constVal));
    ConstUses(Const(constVal));
    newVal := AddI32(newVal, Const(constVal));
  }

  // The code for all groups but those in todo.
  ghost predicate Built(e: Exp, groups: Groups, terms: map<Var, int>, todo: set<int>) {
    && StandsFor(e, groups - todo) && Uses(e) <= terms.Keys && Products(e) <= |groups.Keys - todo - Easy()|
    && (groups.Keys == todo ==> e == Const(0))
  }

  lemma AllBuilt(e: Exp, groups: Groups, terms: map<Var, int>)
    requires Grouped(groups, terms) && Built(e, groups, terms, {})
    ensures StandsFor(e, groups) && Uses(e) <= terms.Keys && Products(e) <= |Coefs(terms) - Easy()|
    ensures terms == map[] ==> forall c :: AddI32(e, Const(c)).Const?
  {
    hide StandsFor;
    assert groups - {} == groups;
    assert groups.Keys - {} - Easy() == groups.Keys - Easy();
  }

  // Lines 114-125 for the variables with coefficient c.
  method AddGroup(sum: Exp, groups: Groups, c: int, ghost terms: map<Var, int>, ghost todo: set<int>)
    returns (newVal: Exp)
    requires Built(sum, groups, terms, todo) && todo <= groups.Keys && c in todo && groups[c] != []
    requires forall x :: x in groups[c] ==> x in terms
    ensures Built(newVal, groups, terms, todo - {c})
  {
    hide Built, StandsFor, StandsForSum, AddI32, SubI32, MulI32, Uses, Products, Wrap;
    BuiltMeans(sum, groups, terms, todo);
    var newTerm := AddUp(groups[c]);
    forall x | x in Uses(newTerm) ensures x in terms.Keys {
      assert x in groups[c];
    }
    ghost var rest := groups - todo;
    GroupAdded(sum, newTerm, rest, c, groups[c]);
    GroupSubtracted(sum, newTerm, rest, c, groups[c]);
    var m := Const(if c > 0 then c else Wrap(-c));
    BuildersUse(newTerm, m);
    ConstUses(m);
    WrapEasy();
    if c in Easy() { TimesEasy(newTerm, m.n); }
    newTerm := MulI32(newTerm, m);
    BuildersUse(sum, newTerm);
    newVal := if c > 0 then AddI32(sum, newTerm) else SubI32(sum, newTerm);
    BuiltMore(sum, newVal, groups, terms, todo, c);
  }

  lemma ConstUses(e: Exp)
    ensures e.Const? ==> Uses(e) == {} && Products(e) == 0
  {
  }

  lemma BuiltMeans(e: Exp, groups: Groups, terms: map<Var, int>, todo: set<int>)
    requires Built(e, groups, terms, todo)
    ensures StandsFor(e, groups - todo) && Uses(e) <= terms.Keys
  {
    hide StandsFor;
  }

  lemma BuiltMore(e: Exp, more: Exp, groups: Groups, terms: map<Var, int>, todo: set<int>, c: int)
    requires Built(e, groups, terms, todo) && todo <= groups.Keys && c in todo
    requires StandsFor(more, (groups - todo)[c := groups[c]])
    requires Uses(more) <= terms.Keys && Products(more) <= Products(e) + if c in Easy() then 0 else 1
    ensures Built(more, groups, terms, todo - {c})
  {
    hide StandsFor, Uses, Products, Easy;
    assert (groups - todo)[c := groups[c]] == groups - (todo - {c});
    var had := groups.Keys - todo - Easy();
    assert groups.Keys - (todo - {c}) - Easy() == if c in Easy() then had else had + {c};
  }

  lemma GroupUses(groups: Groups, terms: map<Var, int>, c: int)
    requires Grouped(groups, terms) && c in groups
    ensures groups[c] != [] && forall x :: x in groups[c] ==> x in terms
  {
  }

  lemma NothingYet(groups: Groups, terms: map<Var, int>)
    ensures Built(Const(0), groups, terms, groups.Keys)
  {
    assert groups - groups.Keys == map[];
    forall env: Assignment ensures Same(Val(Const(0), env), Weighted(map[], env)) {
      assert Coefficients(map[]) == map[];
    }
  }

  // One more group, by adding with its coefficient ...
  lemma GroupAdded(e: Exp, t: Exp, groups: Groups, c: int, g: seq<Var>)
    requires StandsFor(e, groups) && StandsForSum(t, g) && c !in groups
    ensures StandsFor(AddI32(e, MulI32(t, Const(c))), groups[c := g])
  {
    hide Same, AddI32, MulI32, Weighted, SumVals, Wrap;
    var p := MulI32(t, Const(c));
    forall env: Assignment ensures Same(Val(AddI32(e, p), env), Weighted(groups[c := g], env)) {
      WeightedMore(groups, env, c, g);
      ProductMeans(t, c, c, SumVals(g, env), env);
      BuildersMean(e, p, env);
      SameAdd(Val(e, env), Weighted(groups, env), Val(p, env), c * SumVals(g, env));
      SameTrans(Val(AddI32(e, p), env), Val(e, env) + Val(p, env), Weighted(groups, env) + c * SumVals(g, env));
    }
  }

  // ... or by subtracting with the negated one.
  lemma GroupSubtracted(e: Exp, t: Exp, groups: Groups, c: int, g: seq<Var>)
    requires StandsFor(e, groups) && StandsForSum(t, g) && c !in groups
    ensures StandsFor(SubI32(e, MulI32(t, Const(Wrap(-c)))), groups[c := g])
  {
    hide Same, SubI32, MulI32, Weighted, SumVals, Wrap;
    var n := MulI32(t, Const(Wrap(-c)));
    SameWrap(-c);
    forall env: Assignment ensures Same(Val(SubI32(e, n), env), Weighted(groups[c := g], env)) {
      WeightedMore(groups, env, c, g);
      ProductMeans(t, Wrap(-c), -c, SumVals(g, env), env);
      BuildersMean(e, n, env);
      Negated(c, SumVals(g, env));
      SameAdd(Val(e, env), Weighted(groups, env), Val(n, env), -c * SumVals(g, env));
      SameTrans(Val(SubI32(e, n), env), Val(e, env) - Val(n, env), Weighted(groups, env) - -c * SumVals(g, env));
    }
  }

  lemma Negated(c: int, v: int)
    ensures -c * v == -(c * v)
  {
  }

  lemma ProductMeans(t: Exp, m: int, c: int, v: int, env: Assignment)
    requires Same(Val(t, env), v) && (Same(m, c) || m == c)
    ensures Same(Val(MulI32(t, Const(m)), env), c * v)
  {
    hide Same, MulI32;
    SameSelf(m);
    BuildersMean(t, Const(m), env);
    SameMul(Val(t, env), v, m, c);
    SameTrans(Val(MulI32(t, Const(m)), env), Val(t, env) * m, v * c);
    Swapped(v, c);
  }

  lemma ConstantLast(e: Exp, groups: Groups, terms: map<Var, int>, constVal: int)
    requires StandsFor(e, groups) && Grouped(groups, terms)
    ensures forall env: Assignment {:trigger Val(AddI32(e, Const(constVal)), env)} ::
        Same(Val(AddI32(e, Const(constVal)), env), Total(terms, env) + constVal)
  {
    hide Same, AddI32, Weighted, Total;
    forall env: Assignment ensures Same(Val(AddI32(e, Const(constVal)), env), Total(terms, env) + constVal) {
      assert Same(Val(e, env), Weighted(groups, env)) && Weighted(groups, env) == Total(terms, env);
      BuildersMean(e, Const(constVal), env);
      SameSelf(constVal);
      SameAdd(Val(e, env), Total(terms, env), constVal, constVal);
      SameTrans(Val(AddI32(e, Const(constVal)), env), Val(e, env) + constVal, Total(terms, env) + constVal);
    }
  }

  /** Reassociation and rebuilding together: whatever the leaves hold, the new code has the value of the
      instruction it replaces. It uses only leaves, and products that cannot be spread out, of that instruction; so
      not the instruction itself unless it is such a product. */
  method Replace(pass: AlgebraicSimplification, k: int) returns (newVal: Exp)
    requires Good(pass.nodes) && k in pass.nodes && 0 <= k && !pass.nodes[k].kind.Leaf?
    modifies pass
    ensures Good(pass.nodes) && SameShape(old(pass.nodes), pass.nodes)
    ensures Uses(newVal) <= Vars(old(pass.nodes), k) && (Numeric(old(pass.nodes), k) ==> newVal.Const?)
    ensures Distinct(old(pass.nodes)) ==> forall j ::
              j in old(pass.nodes) && old(pass.nodes)[j].val.Ref? && old(pass.nodes)[j].val.x in Uses(newVal) ==>
                Atomic(old(pass.nodes), j)
    ensures forall env: Assignment {:trigger Val(newVal, env)} ::
              Consistent(old(pass.nodes), env) ==> Same(Val(newVal, env), ValueOf(old(pass.nodes)[k].val, env))
  {
    hide Good, Same, Consistent, Total, Vars, Numeric, Atomic, Distinct;
    ghost var start := pass.nodes;
    pass.Reassociate(k);
    var t := pass.nodes[k];
    MentionsVars(pass.nodes, k);
    SameVars(start, pass.nodes, k);
    ConstantIff(start, k);
    forall j | Distinct(start) && j in start && start[j].val.Ref? && start[j].val.x in Vars(start, k)
      ensures Atomic(start, j)
    {
      if !Atomic(start, j) { NoneMentioned(start, k, j); }
    }
    newVal := Rebuild(t.terms, t.constVal);
    DealtTruth(pass.nodes, k);
    forall env: Assignment | Consistent(old(pass.nodes), env) ensures Same(Val(newVal, env),
        ValueOf(old(pass.nodes)[k].val, env)) {
      SameConsistent(old(pass.nodes), pass.nodes, env);
      SameTrans(Val(newVal, env), Poly(t, env), ValueOf(t.val, env));
    }
  }

  lemma DealtTruth(nodes: Dag, k: int)
    requires Good(nodes) && k in nodes && Known(nodes[k]) && !nodes[k].kind.Leaf?
    ensures Truthful(nodes, k)
  {
    hide Truthful;
    assert NodeOk(nodes, k);
  }
}
