/** A function on which the constant propagation goes wrong. Because line 118 of SCCPSolver.hh visits the
    users of a value again only when it has become overdefined, a phi can miss an operand that becomes
    constant after the edge it comes over was marked. */
module SccpHazard {
  import opened SsaForm
  import opened Graphs
  import opened Ssa
  import opened Words
  import opened Lattices
  import opened SccpProgress
  import opened SccpRun
  import opened SccpClosed
  import opened SccpRewrite

  // if (arg) z = 0 else z = 1; if (z == 0) w = 1 else { y = 1 + 1; if (z >= 0) w = y else return 0 } return w
  // Variables: 0 is the argument, 1 is z, 2 is z == 0, 3 is z >= 0, 4 is w, 5 is y.
  const B0: Block := Block([], [], Branch(Use(0), 1, 2))
  const B1: Block := Block([Phi(1, [(Num(0), 0), (Num(1), 2)])],
                           [Def(2, Compare(Eq, Use(1), Num(0))), Def(3, Compare(Ge, Use(1), Num(0)))],
                               Branch(Use(2), 3, 4))
  const B2: Block := Block([], [], Jump(1))
  const B3: Block := Block([Phi(4, [(Num(1), 1), (Use(5), 4)])], [], Return([Use(4)]))
  const B4: Block := Block([], [Def(5, Binary(Add, Num(1), Num(1)))], Branch(Use(3), 3, 5))
  const B5: Block := Block([], [], Return([Num(0)]))

  function Missed(): Func { Func(0, map[0 := B0, 1 := B1, 2 := B2, 3 := B3, 4 := B4, 5 := B5], {0}) }

  function MissedUnit(): Unit {
    Unit(Missed(), [0, 1, 2, 3, 4, 5],
         map[0 := [TermAt(0)], 1 := [BodyAt(1, 0), BodyAt(1, 1)], 2 := [TermAt(1)], 3 := [TermAt(4)],
             4 := [TermAt(3)], 5 := [PhiAt(3, 0)]])
  }

  const C0 := Constant(0)
  const C1 := Constant(1)
  const C2 := Constant(2)

  // The states solve passes through, from the marked entry on.
  function S0(): Solver { Solver(map[0 := Over], {}, {0}, [0], [], [0]) }

  function S1(blocks: seq<Node>): Solver { Solver(map[0 := Over], {(0, 1), (0, 2)}, {0, 1, 2}, blocks, [], []) }

  function S3(): Solver {
    Solver(map[0 := Over, 1 := C0, 2 := C1, 3 := C1], {(0, 1), (0, 2), (1, 3)}, {0, 1, 2, 3}, [2, 3], [1, 2, 3], [])
  }

  function Edges(): set<(Node, Node)> { {(0, 1), (0, 2), (1, 3), (2, 1)} }

  function S4(): Solver {
    Solver(map[0 := Over, 1 := Over, 2 := C1, 3 := C1], Edges(), {0, 1, 2, 3}, [3], [1, 2, 3], [1])
  }

  function S5(): Solver {
    Solver(map[0 := Over, 1 := Over, 2 := C1, 3 := C1, 4 := C1], Edges(), {0, 1, 2, 3}, [], [1, 2, 3, 4], [1])
  }

  function AllOver(): map<Var, Cell> { map[0 := Over, 1 := Over, 2 := Over, 3 := Over, 4 := C1] }

  function S6(): Solver { Solver(AllOver(), Edges(), {0, 1, 2, 3}, [], [1, 2, 3, 4], [2, 3]) }

  function S7(): Solver { Solver(AllOver(), Edges() + {(1, 4)}, {0, 1, 2, 3, 4}, [4], [1, 2, 3, 4], [3]) }

  function AllEdges(): set<(Node, Node)> { Edges() + {(1, 4)} + {(4, 3)} + {(4, 5)} }

  function S8(insts: seq<Var>): Solver { Solver(AllOver(), AllEdges(), {0, 1, 2, 3, 4, 5}, [4, 5], insts, []) }

  function S13(blocks: seq<Node>, insts: seq<Var>): Solver {
    Solver(AllOver()[5 := C2], AllEdges(), {0, 1, 2, 3, 4, 5}, blocks, insts, [])
  }

  lemma UnitOk()
    ensures MissedUnit().Ok()
  {
  }

  // The argument is overdefined: both ways out of block 0.
  lemma Step1()
    ensures PopOver(MissedUnit(), S0()) == S1([0, 1, 2])
  {
    var s := S0().(overList := []);
    var t := MarkEdge(s, Missed(), 0, 1);
    assert t == Solver(map[0 := Over], {(0, 1)}, {0, 1}, [0, 1], [], []);
    assert MarkEdge(t, Missed(), 0, 2) == S1([0, 1, 2]);
    assert VisitUser(s, Missed(), TermAt(0)) == S1([0, 1, 2]);
  }

  lemma Step2()
    ensures PopBlock(MissedUnit(), S1([0, 1, 2])) == S1([1, 2])
  {
    var s := S1([1, 2]);
    assert VisitPhis(s, 0, [], 0) == s && VisitBody(s, [], 0) == s;
    assert VisitTerm(s, Missed(), 0, B0.term) == s;
  }

  // Block 1 is visited while only the edge from block 0 is known: z is 0.
  lemma Step3()
    ensures PopBlock(MissedUnit(), S1([1, 2])) == S3()
  {
    var s := S1([2]);
    var p := B1.phis[0];
    assert PhiMerge(s, 1, p.ins, 2, C0) == C0;
    assert PhiMerge(s, 1, p.ins, 1, C0) == C0;
    assert PhiMerge(s, 1, p.ins, 0, Unknown) == C0;
    var t := Solver(map[0 := Over, 1 := C0], {(0, 1), (0, 2)}, {0, 1, 2}, [2], [1], []);
    assert VisitPhi(s, 1, p) == t;
    assert VisitPhis(t, 1, B1.phis, 1) == t;
    var r := Solver(map[0 := Over, 1 := C0, 2 := C1], {(0, 1), (0, 2)}, {0, 1, 2}, [2], [1, 2], []);
    assert VisitInst(t, B1.body[0]) == r;
    var q := Solver(map[0 := Over, 1 := C0, 2 := C1, 3 := C1], {(0, 1), (0, 2)}, {0, 1, 2}, [2], [1, 2, 3], []);
    assert VisitInst(r, B1.body[1]) == q;
    assert VisitBody(q, B1.body, 2) == q && VisitBody(r, B1.body, 1) == q && VisitBody(t, B1.body, 0) == q;
    assert MarkEdge(q, Missed(), 1, 3) == S3();
  }

  // Block 2 brings the other operand of z: overdefined.
  lemma Step4()
    ensures PopBlock(MissedUnit(), S3()) == S4()
  {
    var s := S3().(blockList := [3]);
    assert VisitPhis(s, 2, [], 0) == s && VisitBody(s, [], 0) == s;
    var t := s.(edges := s.edges + {(2, 1)});
    var p := B1.phis[0];
    assert PhiMerge(t, 1, p.ins, 2, Over) == Over;
    assert PhiMerge(t, 1, p.ins, 1, C0) == Over;
    assert PhiMerge(t, 1, p.ins, 0, C0) == Over;
    assert VisitPhi(t, 1, p) == S4();
    assert VisitPhis(S4(), 1, B1.phis, 1) == S4();
    assert VisitPhis(t, 1, B1.phis, 0) == S4();
    assert MarkEdge(s, Missed(), 2, 1) == S4();
  }

  // Block 3 is visited while only the edge from block 1 is known: w is 1.
  lemma Step5()
    ensures PopBlock(MissedUnit(), S4()) == S5()
  {
    var s := S4().(blockList := []);
    var p := B3.phis[0];
    assert PhiMerge(s, 3, p.ins, 2, C1) == C1;
    assert PhiMerge(s, 3, p.ins, 1, C1) == C1;
    assert PhiMerge(s, 3, p.ins, 0, Unknown) == C1;
    assert VisitPhi(s, 3, p) == S5();
    assert VisitPhis(S5(), 3, B3.phis, 1) == S5();
    assert VisitPhis(s, 3, B3.phis, 0) == S5();
    assert VisitBody(S5(), [], 0) == S5();
  }

  // Both comparisons of z become overdefined.
  lemma Step6()
    ensures PopOver(MissedUnit(), S5()) == S6()
  {
    var s := S5().(overList := []);
    var t := s.(cells := s.cells[2 := Over], overList := [2]);
    assert VisitUser(s, Missed(), BodyAt(1, 0)) == t;
    assert S6().cells == t.cells[3 := Over];
    assert VisitUser(t, Missed(), BodyAt(1, 1)) == S6();
    var users := [BodyAt(1, 0), BodyAt(1, 1)];
    assert VisitUsers(S6(), Missed(), users, 2) == S6();
    assert VisitUsers(t, Missed(), users, 1) == S6();
  }

  // Block 4 becomes executable and is queued ...
  lemma Step7()
    ensures PopOver(MissedUnit(), S6()) == S7()
  {
    var s := S6().(overList := [3]);
    assert MarkEdge(s, Missed(), 1, 3) == s;
    assert MarkEdge(s, Missed(), 1, 4) == S7();
    assert VisitUser(s, Missed(), TermAt(1)) == S7();
    assert VisitUsers(S7(), Missed(), [TermAt(1)], 1) == S7();
  }

  // ... but before it is visited its branch is, and w is looked at while y is still unknown.
  lemma Step8()
    ensures PopOver(MissedUnit(), S7()) == S8([1, 2, 3, 4])
  {
    var s := S7().(overList := []);
    var t := s.(edges := s.edges + {(4, 3)});
    var p := B3.phis[0];
    assert PhiMerge(t, 3, p.ins, 2, C1) == C1;
    assert PhiMerge(t, 3, p.ins, 1, C1) == C1;
    assert PhiMerge(t, 3, p.ins, 0, C1) == C1;
    assert VisitPhi(t, 3, p) == t;
    assert VisitPhis(t, 3, B3.phis, 1) == t;
    assert VisitPhis(t, 3, B3.phis, 0) == t;
    assert MarkEdge(s, Missed(), 4, 3) == t;
    assert MarkEdge(t, Missed(), 4, 5) == S8([1, 2, 3, 4]);
    assert VisitUser(s, Missed(), TermAt(4)) == S8([1, 2, 3, 4]);
    assert VisitUsers(S8([1, 2, 3, 4]), Missed(), [TermAt(4)], 1) == S8([1, 2, 3, 4]);
  }

  // The values queued earlier change nothing more.
  lemma Step9()
    ensures PopInst(MissedUnit(), S8([1, 2, 3, 4])) == S8([2, 3, 4])
  {
    var s := S8([2, 3, 4]);
    var users := [BodyAt(1, 0), BodyAt(1, 1)];
    assert VisitUser(s, Missed(), BodyAt(1, 0)) == s && VisitUser(s, Missed(), BodyAt(1, 1)) == s;
    assert VisitUsers(s, Missed(), users, 2) == s && VisitUsers(s, Missed(), users, 1) == s;
  }

  lemma Step10()
    ensures PopInst(MissedUnit(), S8([2, 3, 4])) == S8([3, 4])
    ensures PopInst(MissedUnit(), S8([3, 4])) == S8([4])
    ensures PopInst(MissedUnit(), S8([4])) == S8([])
  {
    var s, t := S8([3, 4]), S8([4]);
    assert MarkEdge(s, Missed(), 1, 3) == s && MarkEdge(s, Missed(), 1, 4) == s;
    assert VisitUser(s, Missed(), TermAt(1)) == s;
    assert VisitUsers(s, Missed(), [TermAt(1)], 1) == s;
    assert MarkEdge(t, Missed(), 4, 3) == t && MarkEdge(t, Missed(), 4, 5) == t;
    assert VisitUser(t, Missed(), TermAt(4)) == t;
    assert VisitUsers(t, Missed(), [TermAt(4)], 1) == t;
  }

  // Block 4 is visited: y is 2, but the edges are old and nobody looks at w again.
  lemma Step13()
    ensures PopBlock(MissedUnit(), S8([])) == S13([5], [5])
    ensures PopBlock(MissedUnit(), S13([5], [5])) == S13([], [5])
    ensures PopInst(MissedUnit(), S13([], [5])) == S13([], [])
  {
    var s, t := S8([]).(blockList := [5]), S13([5], [5]);
    assert VisitPhis(s, 4, [], 0) == s;
    assert VisitInst(s, B4.body[0]) == t;
    assert VisitBody(t, B4.body, 1) == t;
    assert VisitBody(s, B4.body, 0) == t;
    assert MarkEdge(t, Missed(), 4, 3) == t && MarkEdge(t, Missed(), 4, 5) == t;
    var r := S13([], [5]);
    assert VisitPhis(r, 5, [], 0) == r && VisitBody(r, [], 0) == r;
  }

  // ---------- it is an input like any other ----------

  // Block 1 is the only one that leads to block 4.
  lemma OneDominatesFour()
    ensures Dominates(Cfg(Missed()), 0, 1, 4)
  {
    var g := Cfg(Missed());
    forall p | Joins(g, p, 0, 4) ensures 1 in p {
      assert |p| > 1 && g.Edge(p[|p| - 2], 4);
      assert p[|p| - 2] == 1;
    }
  }

  lemma MissedConds()
    ensures CondsDominated(Missed())
  {
    hide Dominates;
    OneDominatesFour();
    BlockDominatesItself(1);
    assert B1.body[0].x == 2 && DefinedIn(Missed(), 1, 2);
    assert B1.body[1].x == 3 && DefinedIn(Missed(), 1, 3);
  }

  lemma BlockDominatesItself(b: Node)
    ensures Dominates(Cfg(Missed()), 0, b, b)
  {
  }

  lemma MissedInSsa()
    ensures InSsa(Missed())
  {
    hide CondsDominated, Dominates, Arrives, FromPred, HasOperand;
    var f := Missed();
    MissedConds();
    MissedArrives();
    MissedLeaves();
    MissedOperands();
    assert f.blocks[f.entry].phis == [];
  }

  lemma MissedArrives()
    ensures forall b, i, x {:trigger Use(x) in Operands(Missed().blocks[b].body[i])} ::
              b in Missed().blocks && 0 <= i < |Missed().blocks[b].body|
                  && Use(x) in Operands(Missed().blocks[b].body[i]) ==>
                Arrives(Missed(), b, i, x)
  {
    hide Dominates, DefinedIn;
    var f := Missed();
    forall b, i, x | b in f.blocks && 0 <= i < |f.blocks[b].body|
        && Use(x) in Operands(f.blocks[b].body[i])
      ensures Arrives(f, b, i, x)
    {
      assert b == 1 && x == 1 && B1.phis[0].x == 1;
    }
  }

  lemma MissedLeaves()
    ensures forall b, i, k {:trigger Missed().blocks[b].phis[i].ins[k]} ::
              b in Missed().blocks && 0 <= i < |Missed().blocks[b].phis|
                  && 0 <= k < |Missed().blocks[b].phis[i].ins| ==>
                FromPred(Missed(), Missed().blocks[b].phis[i].ins[k])
  {
    hide Dominates;
    BlockDominatesItself(4);
    assert B4.body[0].x == 5 && DefinedIn(Missed(), 4, 5);
    assert Leaves(Missed(), 4, 5);
  }

  lemma MissedOperands()
    ensures forall p, b, i {:trigger b in Targets(Missed().blocks[p].term), Missed().blocks[b].phis[i]} ::
              p in Missed().blocks && b in Targets(Missed().blocks[p].term) && b in Missed().blocks
                  && 0 <= i < |Missed().blocks[b].phis| ==>
                HasOperand(Missed().blocks[b].phis[i], p)
  {
    assert B1.phis[0].ins[0].1 == 0 && B1.phis[0].ins[1].1 == 2;
    assert B3.phis[0].ins[0].1 == 1 && B3.phis[0].ins[1].1 == 4;
  }

  lemma MissedUses()
    ensures UseLists(MissedUnit())
  {
    var u := MissedUnit();
    forall x, site | UsesAt(u.f, site, x) ensures site in u.Users(x) {
    }
    assert B3.phis[0].ins[1].0 == Use(5);
    forall x, site | site in u.Users(x) ensures UsesAt(u.f, site, x) {
    }
  }

  /** The function is in SSA form with the use lists of its values, and meets all that process_func asks for.
      solve nevertheless ends in a state that takes w for the constant 1, process_unknown finds nothing to do,
      and so this is where process_func stops. Only the condition on phi operands is not met. */
  lemma SolveMisses()
    ensures MissedUnit().Ok() && UseLists(MissedUnit()) && InSsa(Missed()) && CondsDominated(Missed())
        && Initial(MissedUnit(), S0())
    ensures Rooted(MissedUnit(), S0()) && Propagate(MissedUnit(), S0()) == S13([], [])
    ensures !Closed(S13([], []), Missed()) && !PlainOverBranches(Missed())
  {
    hide MissedUnit, Unit.Ok, UseLists, InSsa, CondsDominated, Rooted, Closed, PlainOverBranches, Solve, Changes,
        Propagate, S0, S13, S8;
    UnitOk();
    MissedUses();
    MissedInSsa();
    MissedConds();
    StartsRooted();
    SolveFirst();
    SolveSecond();
    NothingUnknown();
    MissedStops();
    NotSettled();
    NotPlain();
  }

  lemma MissedStops()
    requires MissedUnit().Ok() && Rooted(MissedUnit(), S0()) && CondsDominated(Missed())
    requires Solve(MissedUnit(), S0(), 0) == S13([], []) && !Changes(MissedUnit(), S13([], []), 0)
    ensures Propagate(MissedUnit(), S0()) == S13([], [])
  {
    hide Unit.Ok, Rooted, CondsDominated, Solve, Changes, S0, S13;
    PropagateStops(MissedUnit(), S0());
  }

  lemma NotPlain()
    ensures !PlainOverBranches(Missed())
  {
    assert !Plain(Missed(), Missed().blocks[3].phis[0].ins[1]);
  }

  lemma StartsRooted()
    ensures Rooted(MissedUnit(), S0()) && Initial(MissedUnit(), S0())
  {
    var u := MissedUnit();
    SinglePath(Cfg(u.f), 0);
    assert Joins(Cfg(u.f), [0], 0, 0);
    assert forall x :: x in [0] ==> x in S0().exec;
    assert Led(u.f, S0(), 0);
  }

  // y is 2, w is taken for 1, and the edge over which w reads y is executable.
  lemma NotSettled()
    ensures !Closed(S13([], []), Missed())
  {
    var s := S13([], []);
    assert B3.phis[0].ins[1] == (Use(5), 4) && (4, 3) in s.edges;
    assert !PhiSettled(s, 3, B3.phis[0]);
    assert Missed().blocks[3].phis[0] == B3.phis[0];
    assert !BlockSettled(s, 3, Missed().blocks[3]);
  }

  lemma SolveFirst()
    requires MissedUnit().Ok()
    ensures Solve(MissedUnit(), S0(), 0) == Solve(MissedUnit(), S8([1, 2, 3, 4]), 0)
  {
    hide Unit.Ok, MissedUnit, PopOver, PopInst, PopBlock, Edges;
    var u := MissedUnit();
    Step1(); Step2(); Step3(); Step4(); Step5(); Step6(); Step7(); Step8();
    assert Solve(u, S7(), 0) == Solve(u, S8([1, 2, 3, 4]), 0);
    assert Solve(u, S6(), 0) == Solve(u, S7(), 0);
    assert Solve(u, S5(), 0) == Solve(u, S6(), 0);
    assert Solve(u, S5(), 2) == Solve(u, S5(), 0);
    assert Solve(u, S4(), 2) == Solve(u, S5(), 2);
    assert Solve(u, S3(), 2) == Solve(u, S4(), 2);
    assert Solve(u, S1([1, 2]), 2) == Solve(u, S3(), 2);
    assert Solve(u, S1([0, 1, 2]), 2) == Solve(u, S1([1, 2]), 2);
    assert Solve(u, S1([0, 1, 2]), 1) == Solve(u, S1([0, 1, 2]), 2);
    assert Solve(u, S1([0, 1, 2]), 0) == Solve(u, S1([0, 1, 2]), 1);
  }

  lemma SolveSecond()
    requires MissedUnit().Ok()
    ensures Solve(MissedUnit(), S8([1, 2, 3, 4]), 0) == S13([], [])
  {
    hide Unit.Ok, MissedUnit, PopOver, PopInst, PopBlock, AllEdges, AllOver;
    var u := MissedUnit();
    Step9(); Step10(); Step13();
    var last := S13([], []);
    assert Solve(u, last, 2) == last;
    assert Solve(u, last, 1) == last;
    assert Solve(u, S13([], [5]), 1) == last;
    assert Solve(u, S13([], [5]), 0) == last;
    assert Solve(u, S13([], [5]), 2) == last;
    assert Solve(u, S13([5], [5]), 2) == last;
    assert Solve(u, S8([]), 2) == last;
    assert Solve(u, S8([]), 1) == last;
    assert Solve(u, S8([4]), 1) == last;
    assert Solve(u, S8([3, 4]), 1) == last;
    assert Solve(u, S8([2, 3, 4]), 1) == last;
    assert Solve(u, S8([1, 2, 3, 4]), 1) == last;
  }

  lemma NothingUnknown()
    ensures !Changes(MissedUnit(), S13([], []), 0)
  {
    var s := S13([], []);
    assert BlockKnown(s, B0) && BlockKnown(s, B1) && BlockKnown(s, B2) && BlockKnown(s, B3) && BlockKnown(s, B4)
        && BlockKnown(s, B5);
    ChangesIff(MissedUnit(), s, 0);
  }

  // With the argument 0 control goes 0, 2, 1, 4, 3, and w is y.
  const E0: Env := map[0 := 0]
  const E1: Env := map[0 := 0, 1 := 1, 2 := 0, 3 := 1]
  const E2: Env := map[0 := 0, 1 := 1, 2 := 0, 3 := 1, 5 := 2]
  const E3: Env := map[0 := 0, 1 := 1, 2 := 0, 3 := 1, 5 := 2, 4 := 2]

  function Path(): seq<Config> {
    [Config(0, 0, E0), Config(2, 0, E0), Config(1, 2, E0), Config(4, 1, E1), Config(3, 4, E2)]
  }

  function Inside1(): Visit { Visit([map[0 := 0, 1 := 1], map[0 := 0, 1 := 1, 2 := 0], E1], [[], []]) }

  function Visits(): seq<Visit> { [Visit([E0], []), Visit([E0], []), Inside1(), Visit([E1, E2], [[]])] }

  lemma PathSteps()
    ensures Runs(Missed(), Path(), Visits())
  {
    assert Steps(Missed(), Config(0, 0, E0), Visit([E0], []), Config(2, 0, E0));
    assert PhisRun([], 0, E0, E0);
    assert Steps(Missed(), Config(2, 0, E0), Visit([E0], []), Config(1, 2, E0));
    InBlock1();
    assert PhisRun([], 1, E1, E1);
    assert E2 == E1[5 := 2];
    assert InstRuns(B4.body[0], E1, E2, []);
    assert Steps(Missed(), Config(4, 1, E1), Visit([E1, E2], [[]]), Config(3, 4, E2));
  }

  lemma InBlock1()
    ensures Steps(Missed(), Config(1, 2, E0), Inside1(), Config(4, 1, E1))
  {
    var p := B1.phis[0];
    var e: Env := map[0 := 0, 1 := 1];
    assert p.ins[1] == (Num(1), 2) && PhiGives(p, 2, E0, 1);
    assert PhisRun(B1.phis, 2, E0, e);
    assert InstRuns(B1.body[0], e, e[2 := 0], []);
    assert InstRuns(B1.body[1], e[2 := 0], E1, []);
  }

  // What process_func makes of the function.
  const B3After: Block := Block([Phi(4, [(Num(1), 1), (Num(2), 4)])], [], Return([Num(1)]))

  function After(): Func { Func(0, map[0 := B0, 1 := B1, 2 := B2, 3 := B3After, 4 := B4, 5 := B5], {0}) }

  lemma AfterIs()
    ensures Rewritten(S13([], []), Missed(), After())
  {
    hide CutBlock, NewBlock, ConstsOf, S13;
    var s, f := S13([], []), Missed();
    var c: Consts := map[4 := 1, 5 := 2];
    AfterConsts();
    NothingCut();
    NewBlocks(c);
    assert Cut(s, f).blocks == f.blocks;
    assert NewFunc(c, f).blocks == After().blocks;
  }

  // Both edges into block 1 are executable, and the phi of block 3 is a constant.
  lemma NothingCut()
    ensures var s := S13([], []);
            && CutBlock(s, 0, B0) == B0 && CutBlock(s, 1, B1) == B1 && CutBlock(s, 2, B2) == B2
            && CutBlock(s, 3, B3) == B3 && CutBlock(s, 4, B4) == B4 && CutBlock(s, 5, B5) == B5
  {
    var s := S13([], []);
    assert B1.phis[0].ins[..1][..0] == [];
    assert Feasible(s, 1, B1.phis[0].ins[..1]) == [B1.phis[0].ins[0]];
    assert Feasible(s, 1, B1.phis[0].ins) == B1.phis[0].ins;
    assert CutPhi(s, 1, B1.phis[0]) == B1.phis[0];
  }

  lemma NewBlocks(c: Consts)
    requires c == map[4 := 1, 5 := 2]
    ensures NewBlock(c, B0) == B0 && NewBlock(c, B1) == B1 && NewBlock(c, B2) == B2
    ensures NewBlock(c, B3) == B3After && NewBlock(c, B4) == B4 && NewBlock(c, B5) == B5
  {
    assert NewIns(c, B1.phis[0].ins) == B1.phis[0].ins;
    assert NewIns(c, B3.phis[0].ins) == B3After.phis[0].ins;
    assert NewOperands(c, [Use(4)]) == [Num(1)];
    assert NewOperands(c, [Num(0)]) == [Num(0)];
  }

  lemma AfterConsts()
    ensures ConstsOf(S13([], []), Missed(), map[4 := 1, 5 := 2])
  {
    assert B3.phis[0].x == 4 && Gives(Missed().blocks[3], 4);
    assert B4.body[0].x == 5 && Gives(Missed().blocks[4], 5);
  }

  lemma AfterSteps()
    ensures Runs(After(), Path(), Visits())
  {
    assert Steps(After(), Config(0, 0, E0), Visit([E0], []), Config(2, 0, E0));
    assert PhisRun([], 0, E0, E0);
    assert Steps(After(), Config(2, 0, E0), Visit([E0], []), Config(1, 2, E0));
    InBlock1();
    assert Steps(After(), Config(1, 2, E0), Inside1(),
        Config(4, 1, E1)) by { assert After().blocks[1] == Missed().blocks[1]; }
    assert PhisRun([], 1, E1, E1);
    assert E2 == E1[5 := 2];
    assert InstRuns(B4.body[0], E1, E2, []);
    assert Steps(After(), Config(4, 1, E1), Visit([E1, E2], [[]]), Config(3, 4, E2));
  }

  /** Run on 0 the function returns 2. What SCCP makes of it takes the same way, with the same values, and
      returns 1. */
  lemma Miscompiled()
    ensures Runs(Missed(), Path(), Visits()) && Finishes(Missed(), Path()[4], Visit([E3], []), [2])
    ensures Rewritten(S13([], []), Missed(), After())
    ensures Runs(After(), Path(), Visits()) && Finishes(After(), Path()[4], Visit([E3], []), [1])
    ensures forall v: Visit, values: seq<int> {:trigger Finishes(After(), Path()[4], v, values)} ::
              Finishes(After(), Path()[4], v, values) ==> values == [1]
  {
    hide Rewritten, Runs, S13;
    PathSteps();
    AfterSteps();
    AfterIs();
    BeforeReturns();
    AfterReturns();
    forall v: Visit, values: seq<int> | Finishes(After(), Path()[4], v, values) ensures values == [1] {
      assert values == Values(v.envs[0], [Num(1)]);
    }
  }

  lemma BeforeReturns()
    ensures Finishes(Missed(), Path()[4], Visit([E3], []), [2])
  {
    var p := B3.phis[0];
    assert p.ins[1] == (Use(5), 4) && PhiGives(p, 4, E2, 2);
    assert PhisRun(B3.phis, 4, E2, E3);
    assert Values(E3, [Use(4)]) == [2];
  }

  lemma AfterReturns()
    ensures Finishes(After(), Path()[4], Visit([E3], []), [1])
  {
    var p := B3After.phis[0];
    assert p.ins[1] == (Num(2), 4) && PhiGives(p, 4, E2, 2);
    assert PhisRun(B3After.phis, 4, E2, E3);
    assert Values(E3, [Num(1)]) == [1];
  }
}
