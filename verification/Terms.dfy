/** Linear forms modulo 2^32, as reassociation keeps them (src/Optimize/AlgebraicSimplification.cc), and the
    builders that turn them back into code (src/utils.cc). */
module Terms {
  import opened Basis
  import opened Words

  type Var = int
  type Assignment = Var -> int

  const M: int := 0x1_0000_0000

  // ---------- congruence ----------

  ghost predicate Same(a: int, b: int) { (a - b) % M == 0 }

  lemma SameWrap(n: int)
    ensures Same(Wrap(n), n)
  {
  }

  lemma SameAdd(a: int, b: int, c: int, d: int)
    requires Same(a, b) && Same(c, d)
    ensures Same(a + c, b + d) && Same(a - c, b - d)
  {
  }

  lemma SameTrans(a: int, b: int, c: int)
    requires Same(a, b) && Same(b, c)
    ensures Same(a, c) && Same(b, a)
  {
  }

  lemma SameScale(k: int, a: int, b: int)
    requires Same(a, b)
    ensures Same(k * a, k * b)
  {
    var t := (a - b) / M;
    assert a - b == M * t;
    assert k * a - k * b == k * (a - b);
    assert k * (M * t) == M * (k * t);
    MultipleOfM(k * t);
  }

  lemma MultipleOfM(t: int)
    ensures M * t % M == 0
  {
  }

  lemma SameMul(a: int, b: int, c: int, d: int)
    requires Same(a, b) && Same(c, d)
    ensures Same(a * c, b * d)
  {
    SameScale(a, c, d);
    SameScale(d, a, b);
    assert d * a == a * d && d * b == b * d;
    SameTrans(a * c, a * d, b * d);
  }

  // ---------- sums ----------

  lemma Spread(a: int, b: int, c: int)
    ensures (a + b) * c == a * c + b * c && c * (a + b) == c * a + c * b
    ensures (a - b) * c == a * c - b * c && c * (a - b) == c * a - c * b
  {
  }

  // What the terms add up to: coefficient times value, over all variables.
  ghost function Total(terms: map<Var, int>, env: Assignment): int
    decreases |terms|
  {
    if terms == map[] then 0
    else
      SomeElement(terms.Keys);
      var x :| x in terms;
      terms[x] * env(x) + Total(terms - {x}, env)
  }

  lemma {:induction false} TotalPeel(terms: map<Var, int>, env: Assignment, x: Var)
    requires x in terms
    ensures Total(terms, env) == terms[x] * env(x) + Total(terms - {x}, env)
    decreases |terms|
  {
    var y :| y in terms && Total(terms, env) == terms[y] * env(y) + Total(terms - {y}, env);
    if y != x {
      TotalPeel(terms - {y}, env, x);
      TotalPeel(terms - {x}, env, y);
      assert terms - {y} - {x} == terms - {x} - {y};
    }
  }

  lemma TotalSet(terms: map<Var, int>, env: Assignment, x: Var, n: int)
    ensures Total(terms[x := n], env) == Total(terms - {x}, env) + n * env(x)
    ensures x in terms ==> Total(terms[x := terms[x] + n], env) == Total(terms, env) + n * env(x)
    ensures x !in terms ==> Total(terms[x := n], env) == Total(terms, env) + n * env(x)
  {
    hide Total;
    TotalPeel(terms[x := n], env, x);
    assert terms[x := n] - {x} == terms - {x};
    if x in terms {
      TotalPeel(terms, env, x);
      var m := terms[x] + n;
      TotalPeel(terms[x := m], env, x);
      assert terms[x := m] - {x} == terms - {x};
      Spread(terms[x], n, env(x));
    } else {
      assert terms - {x} == terms;
    }
  }

  // Changing the value of one variable.
  lemma TotalAt(terms: map<Var, int>, env: Assignment, other: Assignment, x: Var)
    requires x in terms && forall y :: y in terms && y != x ==> env(y) == other(y)
    ensures Total(terms, other) == Total(terms, env) + terms[x] * (other(x) - env(x))
  {
    hide Total;
    TotalPeel(terms, env, x);
    TotalPeel(terms, other, x);
    TotalSame(terms - {x}, env, other);
    Spread(other(x), env(x), terms[x]);
  }

  lemma {:induction false} TotalSame(terms: map<Var, int>, env: Assignment, other: Assignment)
    requires forall y :: y in terms ==> env(y) == other(y)
    ensures Total(terms, env) == Total(terms, other)
    decreases |terms|
  {
    if terms != map[] {
      SomeElement(terms.Keys);
      var x :| x in terms;
      TotalPeel(terms, env, x);
      TotalPeel(terms, other, x);
      TotalSame(terms - {x}, env, other);
    }
  }

  // ---------- the folding builders, src/utils.cc lines 66-130 ----------

  /** A value: a constant, an existing value, or an instruction just built. */
  datatype Exp = Const(n: int) | Given(x: Var) | Bin(op: Op, l: Exp, r: Exp)

  function Val(e: Exp, env: Assignment): int {
    match e
    case Const(n) => n
    case Given(x) => env(x)
    case Bin(op, l, r) => Fold(op, Val(l, env), Val(r, env))
  }

  function AddI32(a: Exp, b: Exp): Exp {
    if a.Const? && b.Const? then Const(Wrap(a.n + b.n))
    else if a == Const(0) then b
    else if b == Const(0) then a
    else Bin(Add, a, b)
  }

  function SubI32(a: Exp, b: Exp): Exp {
    if a.Const? && b.Const? then Const(Wrap(a.n - b.n))
    else if b == Const(0) then a
    else Bin(Sub, a, b)
  }

  function MulI32(a: Exp, b: Exp): Exp {
    if a.Const? && b.Const? then Const(Wrap(a.n * b.n))
    else if a == Const(1) then b
    else if b == Const(1) then a
    else if a == Const(0) || b == Const(0) then Const(0)
    else Bin(Mul, a, b)
  }

  /** What the builders return stands for the sum, difference and product in 32 bits, however much they fold. */
  lemma BuildersMean(a: Exp, b: Exp, env: Assignment)
    ensures Same(Val(AddI32(a, b), env), Val(a, env) + Val(b, env))
    ensures Same(Val(SubI32(a, b), env), Val(a, env) - Val(b, env))
    ensures Same(Val(MulI32(a, b), env), Val(a, env) * Val(b, env))
  {
    hide Wrap, Same;
    var x, y := Val(a, env), Val(b, env);
    SameWrap(x + y);
    SameWrap(x - y);
    SameWrap(x * y);
    SameSelf(x + y);
    SameSelf(x - y);
    SameSelf(x * y);
  }

  lemma SameSelf(n: int)
    ensures Same(n, n)
  {
  }
}
