/** Which functions are pure (include/Optimize/FuncInfo.hh): impurity spreads from functions with side effects
    to their callers. */
module FunctionInfo {
  import opened Basis
  import opened Graphs
  import opened Components

  /** Where an address comes from; Mixed stands for other instructions, with their pointer operands. */
  datatype Address = Alloca | Gep(base: Address) | Loaded | Mixed(pointers: seq<Address>) | Outside

  datatype Access = Load(address: Address) | Store(address: Address)

  datatype Function = Function(isDeclaration: bool, isMain: bool, scalarParams: bool, accesses: seq<Access>)

  // get_first_addr, lines 113-128.
  function FirstAddress(a: Address): Address {
    match a
    case Gep(base) => FirstAddress(base)
    case Mixed(ps) => if |ps| > 0 then FirstAddress(ps[0]) else a
    case _ => a
  }

  // A step of get_first_addr: to the base of a gep, or to the first pointer operand.
  predicate ComesFrom(a: Address, b: Address) {
    match a
    case Gep(base) => b == base
    case Mixed(ps) => |ps| > 0 && b == ps[0]
    case _ => false
  }

  // These steps lead from a to r, where there is no further one.
  ghost predicate Traced(chain: seq<Address>, a: Address, r: Address) {
    && |chain| > 0 && chain[0] == a && chain[|chain| - 1] == r && (forall b :: !ComesFrom(r, b))
    && forall i, j {:trigger chain[i], chain[j]} :: 0 <= i < |chain| - 1 && j == i + 1 ==>
      ComesFrom(chain[i], chain[j])
  }

  lemma {:induction false} TracedIsFirst(chain: seq<Address>, a: Address, r: Address)
    requires Traced(chain, a, r)
    ensures FirstAddress(a) == r
    decreases |chain|
  {
    if |chain| > 1 {
      assert ComesFrom(chain[0], chain[1]);
      var rest := chain[1..];
      forall i, j | 0 <= i < |rest| - 1 && j == i + 1 ensures ComesFrom(rest[i], rest[j]) {
        assert rest[i] == chain[i + 1] && rest[j] == chain[j + 1];
      }
      TracedIsFirst(rest, chain[1], r);
    } else {
      Ends(r);
    }
  }

  lemma Ends(r: Address)
    requires forall b :: !ComesFrom(r, b)
    ensures FirstAddress(r) == r
  {
    match r
    case Gep(base) => assert ComesFrom(r, base);
    case Mixed(ps) => if |ps| > 0 { assert ComesFrom(r, ps[0]); }
    case _ =>
  }

  lemma {:induction false} FirstIsTraced(a: Address) returns (chain: seq<Address>)
    ensures Traced(chain, a, FirstAddress(a))
  {
    match a
    case Gep(base) =>
      var rest := FirstIsTraced(base);
      chain := [a] + rest;
      OneStepMore(a, base, rest, FirstAddress(a));
    case Mixed(ps) =>
      if |ps| > 0 {
        var rest := FirstIsTraced(ps[0]);
        chain := [a] + rest;
        OneStepMore(a, ps[0], rest, FirstAddress(a));
      } else {
        chain := [a];
      }
    case _ => chain := [a];
  }

  lemma OneStepMore(a: Address, b: Address, rest: seq<Address>, r: Address)
    requires ComesFrom(a, b) && Traced(rest, b, r)
    ensures Traced([a] + rest, a, r)
  {
    hide ComesFrom;
    var chain := [a] + rest;
    forall i, j | 0 <= i < |chain| - 1 && j == i + 1 ensures ComesFrom(chain[i], chain[j]) {
      assert chain[j] == rest[i];
      if i > 0 { assert chain[i] == rest[i - 1]; }
    }
  }

  // is_side_effect_inst, lines 85-98: an access that does not go to a local variable.
  predicate SideEffect(a: Access) { !FirstAddress(a.address).Alloca? }

  // trivial_mark, lines 46-68, the other way round.
  predicate TriviallyImpure(f: Function) {
    f.isDeclaration || f.isMain || !f.scalarParams || exists i :: 0 <= i < |f.accesses| && SideEffect(f.accesses[i])
  }

  /** The functions of a module; callers has an edge from each function to those that call it. */
  datatype Module = Module(funcs: map<Node, Function>, callers: Graph) {
    ghost predicate Ok() { callers.Valid() && callers.nodes == funcs.Keys }

    // f is trivially impure or calls, directly or not, a function that is.
    ghost predicate Impure(f: Node) {
      exists t :: t in funcs && TriviallyImpure(funcs[t]) && Reaches(callers, t, f)
    }
  }

  // Every address the function loads from or stores to is traced back to an alloca.
  ghost predicate AccessesLocals(f: Function) {
    forall i, chain: seq<Address>, r {:trigger Traced(chain, f.accesses[i].address, r)} ::
      0 <= i < |f.accesses| && Traced(chain, f.accesses[i].address, r) ==> r.Alloca?
  }

  lemma NoSideEffectIff(f: Function)
    ensures AccessesLocals(f) <==> forall i :: 0 <= i < |f.accesses| ==> !SideEffect(f.accesses[i])
  {
    hide Traced;
    forall i | AccessesLocals(f) && 0 <= i < |f.accesses| ensures !SideEffect(f.accesses[i]) {
      var chain := FirstIsTraced(f.accesses[i].address);
      assert Traced(chain, f.accesses[i].address, FirstAddress(f.accesses[i].address));
    }
    forall i, chain: seq<Address>, r | 0 <= i < |f.accesses| && Traced(chain, f.accesses[i].address, r)
      ensures SideEffect(f.accesses[i]) <==> !r.Alloca?
    {
      TracedIsFirst(chain, f.accesses[i].address, r);
    }
  }

  /** What "pure" amounts to: no function that f reaches through calls is a declaration or main, has a parameter
      that is not a scalar, or accesses memory other than local variables. */
  lemma PureIff(m: Module, f: Node)
    ensures !m.Impure(f) <==>
            forall g :: g in m.funcs && Reaches(m.callers, g, f) ==>
              && !m.funcs[g].isDeclaration && !m.funcs[g].isMain && m.funcs[g].scalarParams
              && AccessesLocals(m.funcs[g])
  {
    hide Reaches, AccessesLocals;
    forall g | g in m.funcs
      ensures TriviallyImpure(m.funcs[g]) <==>
              || m.funcs[g].isDeclaration || m.funcs[g].isMain || !m.funcs[g].scalarParams
              || !AccessesLocals(m.funcs[g])
    {
      NoSideEffectIff(m.funcs[g]);
    }
  }

  class FuncInfo {
    const m: Module
    var isPure: map<Node, bool>
    var worklist: seq<Node>

    constructor (m: Module)
      ensures this.m == m
    {
      this.m, isPure, worklist := m, map[], [];
    }

    /** run, lines 19-31: a function ends up pure exactly when no side effect can be reached through calls. */
    method Run()
      requires m.Ok()
      modifies this
      ensures isPure.Keys == m.funcs.Keys && forall f :: f in m.funcs ==> (isPure[f] <==> !m.Impure(f))
    {
      hide Reaches, TriviallyImpure, Module.Impure;
      MarkAll();
      TrivialIsImpure(m);
      while worklist != []
        invariant Spreading(m, isPure, worklist, {})
        decreases PureOnes(isPure), |worklist|
      {
        Process();
      }
      ImpureSpreads(m, isPure);
    }

    // Lines 20-24.
    method MarkAll()
      modifies this
      ensures isPure.Keys == m.funcs.Keys && forall f :: f in m.funcs ==> (isPure[f] <==> !TriviallyImpure(m.funcs[f]))
      ensures forall f :: f in worklist <==> f in isPure && !isPure[f]
    {
      hide TriviallyImpure;
      isPure, worklist := map[], [];
      var todo := m.funcs.Keys;
      while todo != {}
        invariant todo <= m.funcs.Keys && forall f :: f in isPure <==> f in m.funcs && f !in todo
        invariant forall f :: f in isPure ==> (isPure[f] <==> !TriviallyImpure(m.funcs[f]))
        invariant forall f :: f in worklist <==> f in isPure && !isPure[f]
      {
        SomeElement(todo);
        var f :| f in todo;
        TrivialMark(f);
        if !isPure[f] {
          worklist := worklist + [f];
        }
        todo := todo - {f};
      }
      assert forall f :: f in isPure.Keys <==> f in m.funcs.Keys;
    }

    method TrivialMark(f: Node)
      requires f in m.funcs
      modifies this`isPure
      ensures isPure == old(isPure)[f := !TriviallyImpure(m.funcs[f])]
    {
      var func := m.funcs[f];
      if func.isDeclaration || func.isMain || !func.scalarParams {
        isPure := isPure[f := false];
        return;
      }
      var i := 0;
      while i < |func.accesses|
        invariant 0 <= i <= |func.accesses| && forall j :: 0 <= j < i ==> !SideEffect(func.accesses[j])
        invariant isPure == old(isPure)
      {
        if SideEffect(func.accesses[i]) {
          isPure := isPure[f := false];
          return;
        }
        i := i + 1;
      }
      isPure := isPure[f := true];
    }

    // process, lines 70-82, of the head of the list.
    method Process()
      requires m.Ok() && worklist != [] && Spreading(m, isPure, worklist, {})
      modifies this
      ensures Spreading(m, isPure, worklist, {})
      ensures PureOnes(isPure) <= PureOnes(old(isPure))
          && (PureOnes(isPure) == PureOnes(old(isPure)) ==> |worklist| < |old(worklist)|)
    {
      hide Reaches, TriviallyImpure, Module.Impure;
      var now := worklist[0];
      assert now in worklist;
      ghost var start := isPure;
      worklist := worklist[1..];
      ghost var rest := worklist;
      var callers := m.callers.succ[now];
      var i := 0;
      while i < |callers|
        invariant 0 <= i <= |callers| && Spreading(m, isPure, worklist, {now}) && !isPure[now]
        invariant forall f :: f in start && !start[f] ==> !isPure[f]
        invariant forall j {:trigger callers[j]} :: 0 <= j < i ==> callers[j] in isPure && !isPure[callers[j]]
        invariant isPure == start ==> worklist == rest
      {
        var c := callers[i];
        assert m.callers.Edge(now, c);
        ImpureCaller(m, now, c);
        if isPure[c] {
          SpreadStep(m, isPure, worklist, now, c);
          isPure := isPure[c := false];
          worklist := worklist + [c];
        }
        i := i + 1;
      }
      forall c | m.callers.Edge(now, c) ensures c in isPure && !isPure[c] {
        var j :| 0 <= j < |callers| && callers[j] == c;
      }
      PureFewer(start, isPure);
    }
  }

  // Side effects mark functions impure, impure functions have a side effect behind them, and the callers of
  // an impure function are impure unless it is still on the list (or skipped).
  ghost predicate Spreading(m: Module, isPure: map<Node, bool>, worklist: seq<Node>, skipped: set<Node>) {
    && isPure.Keys == m.funcs.Keys
    && (forall f :: f in m.funcs && TriviallyImpure(m.funcs[f]) ==> Off(isPure, f))
    && (forall f {:trigger m.Impure(f)} {:trigger Off(isPure, f)} :: Off(isPure, f) ==> m.Impure(f))
    && (forall f :: f in worklist ==> Off(isPure, f))
    && (forall f, c {:trigger m.callers.Edge(f, c)} ::
          Off(isPure, f) && f !in worklist && f !in skipped && m.callers.Edge(f, c) ==> Off(isPure, c))
  }

  // f has been found impure.
  predicate Off(isPure: map<Node, bool>, f: Node) { f in isPure && !isPure[f] }

  // A caller of now is marked and put on the list.
  lemma SpreadStep(m: Module, isPure: map<Node, bool>, worklist: seq<Node>, now: Node, c: Node)
    requires Spreading(m, isPure, worklist, {now}) && c in m.funcs && m.Impure(c)
    ensures Spreading(m, isPure[c := false], worklist + [c], {now})
    ensures forall f :: Off(isPure[c := false], f) <==> Off(isPure, f) || f == c
  {
    hide TriviallyImpure, Module.Impure;
    var more := isPure[c := false];
    assert more.Keys == isPure.Keys;
    assert forall f :: Off(more, f) <==> Off(isPure, f) || f == c;
    hide Off;
    forall f, d | Off(more, f) && f !in worklist + [c] && f !in {now} && m.callers.Edge(f, d) ensures Off(more, d) {
      assert Off(isPure, d);
    }
  }

  ghost function PureOnes(p: map<Node, bool>): set<Node> { set f | f in p && p[f] }

  lemma PureFewer(p: map<Node, bool>, q: map<Node, bool>)
    requires p.Keys == q.Keys && forall f :: f in p && !p[f] ==> !q[f]
    ensures PureOnes(q) <= PureOnes(p) && (PureOnes(q) == PureOnes(p) ==> q == p)
  {
    assert forall f :: f in PureOnes(q) ==> f in PureOnes(p);
    if PureOnes(q) == PureOnes(p) {
      forall f | f in p ensures q[f] == p[f] {
        assert f in PureOnes(p) <==> f in PureOnes(q);
      }
    }
  }

  lemma TrivialIsImpure(m: Module)
    requires m.Ok()
    ensures forall f :: f in m.funcs && TriviallyImpure(m.funcs[f]) ==> m.Impure(f)
  {
    hide Reaches, TriviallyImpure;
    forall f | f in m.funcs && TriviallyImpure(m.funcs[f]) ensures m.Impure(f) {
      ReachSelf(m.callers, f);
    }
  }

  lemma ImpureCaller(m: Module, f: Node, c: Node)
    requires m.Ok() && f in m.funcs && m.Impure(f) && m.callers.Edge(f, c)
    ensures m.Impure(c) && c in m.funcs
  {
    hide Reaches, TriviallyImpure;
    var t :| t in m.funcs && TriviallyImpure(m.funcs[t]) && Reaches(m.callers, t, f);
    ReachEdge(m.callers, f, c);
    ReachTrans(m.callers, t, f, c);
  }

  // With no work left everything a side effect reaches is impure.
  lemma ImpureSpreads(m: Module, isPure: map<Node, bool>)
    requires m.Ok() && isPure.Keys == m.funcs.Keys
    requires forall f :: f in m.funcs && TriviallyImpure(m.funcs[f]) ==> !isPure[f]
    requires forall f, c {:trigger m.callers.Edge(f, c)} :: f in m.funcs && !isPure[f] && m.callers.Edge(f, c) ==>
        c in isPure && !isPure[c]
    ensures forall f :: f in m.funcs && m.Impure(f) ==> !isPure[f]
  {
    hide Reaches, TriviallyImpure;
    var s := set f | f in m.funcs && !isPure[f];
    assert ClosedSet(m.callers, s);
    forall f | f in m.funcs && m.Impure(f) ensures !isPure[f] {
      var t :| t in m.funcs && TriviallyImpure(m.funcs[t]) && Reaches(m.callers, t, f);
      ReachStays(m.callers, s, t, f);
    }
  }
}
