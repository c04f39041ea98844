/** A function that keeps an operand of a block that no longer leads there. process_unknown opens the first way out
    of a branch on an unknown value (include/Optimize/SCCPSolver.hh, lines 291-299); what it does next can make that
    value a constant that leads the other way. */
module SccpStray {
  import opened SsaForm
  import opened Graphs
  import opened Ssa
  import opened Lattices
  import opened SccpProgress
  import opened SccpRun
  import opened SccpClosed
  import opened SccpRewrite
  import opened SccpEdges

  // Phi 1 has no operand for block 0, as a variable has that is not stored to before the loop (line 147 of
  // src/Optimize/Mem2Reg.cc).
  const D0: Block := Block([], [], Jump(3))
  const D1: Block := Block([], [], Branch(Use(1), 4, 5))
  const D2: Block := Block([], [], Branch(Use(1), 3, 5))
  const D3: Block := Block([Phi(1, [(Num(0), 2)])], [], Branch(Use(0), 1, 2))
  const D4: Block := Block([Phi(2, [(Use(0), 1)])], [], Return([Use(2)]))
  const D5: Block := Block([], [], Return([Num(0)]))

  function Stray(): Func { Func(0, map[0 := D0, 1 := D1, 2 := D2, 3 := D3, 4 := D4, 5 := D5], {0}) }

  function StrayUnit(): Unit {
    Unit(Stray(), [0, 1, 2, 3, 4, 5],
         map[0 := [TermAt(3), PhiAt(4, 0)], 1 := [TermAt(1), TermAt(2)], 2 := [TermAt(4)]])
  }

  const ArgOver: map<Var, Cell> := map[0 := Over]

  // The states of the first solve.
  function T0(overs: seq<Var>): Solver { Solver(ArgOver, {}, {0}, [0], [], overs) }

  function T1(): Solver { Solver(ArgOver, {(0, 3)}, {0, 3}, [3], [], []) }

  function FirstEdges(): set<(Node, Node)> { {(0, 3), (3, 1), (3, 2)} }

  function T2(blocks: seq<Node>): Solver { Solver(ArgOver, FirstEdges(), {0, 1, 2, 3}, blocks, [], []) }

  // The states of process_unknown: after block 1, block 2 and block 4.
  function T3(): Solver { Solver(ArgOver, FirstEdges() + {(1, 4)}, {0, 1, 2, 3, 4}, [4], [], []) }

  function LastEdges(): set<(Node, Node)> { FirstEdges() + {(1, 4)} + {(2, 3)} }

  function T4(): Solver {
    Solver(ArgOver[1 := Constant(0)], LastEdges(), {0, 1, 2, 3, 4}, [4], [1], [])
  }

  // The states of the second solve.
  function T5(blocks: seq<Node>, insts: seq<Var>, overs: seq<Var>): Solver {
    Solver(ArgOver[1 := Constant(0)][2 := Over], LastEdges(), {0, 1, 2, 3, 4}, blocks, insts, overs)
  }

  lemma StrayOk()
    ensures StrayUnit().Ok()
  {
  }

  // The argument is not used in block 0.
  lemma First()
    ensures PopOver(StrayUnit(), T0([0])) == T0([])
  {
    var users := [TermAt(3), PhiAt(4, 0)];
    var s := T0([]);
    assert VisitUser(s, Stray(), users[0]) == s && VisitUser(s, Stray(), users[1]) == s;
    assert VisitUsers(s, Stray(), users, 2) == s && VisitUsers(s, Stray(), users, 1) == s;
  }

  lemma Second()
    ensures PopBlock(StrayUnit(), T0([])) == T1()
  {
    var s := T0([]).(blockList := []);
    assert VisitPhis(s, 0, [], 0) == s && VisitBody(s, [], 0) == s;
    assert MarkEdge(s, Stray(), 0, 3) == T1();
  }

  // y stays unknown, because control can only come from block 0.
  lemma Third()
    ensures PopBlock(StrayUnit(), T1()) == T2([1, 2])
  {
    var s := T1().(blockList := []);
    var p := D3.phis[0];
    assert PhiMerge(s, 3, p.ins, 1, Unknown) == Unknown;
    assert PhiMerge(s, 3, p.ins, 0, Unknown) == Unknown;
    assert VisitPhi(s, 3, p) == s;
    assert VisitPhis(s, 3, D3.phis, 1) == s && VisitPhis(s, 3, D3.phis, 0) == s && VisitBody(s, [], 0) == s;
    var t := MarkEdge(s, Stray(), 3, 1);
    assert t == Solver(ArgOver, {(0, 3), (3, 1)}, {0, 1, 3}, [1], [], []);
    assert MarkEdge(t, Stray(), 3, 2) == T2([1, 2]);
  }

  // Nothing is known of the way out of blocks 1 and 2.
  lemma Fourth()
    ensures PopBlock(StrayUnit(), T2([1, 2])) == T2([2]) && PopBlock(StrayUnit(), T2([2])) == T2([])
  {
    var s, t := T2([2]), T2([]);
    assert VisitPhis(s, 1, [], 0) == s && VisitBody(s, [], 0) == s && VisitTerm(s, Stray(), 1, D1.term) == s;
    assert VisitPhis(t, 2, [], 0) == t && VisitBody(t, [], 0) == t && VisitTerm(t, Stray(), 2, D2.term) == t;
  }

  lemma SolveOnce()
    requires StrayUnit().Ok()
    ensures Solve(StrayUnit(), T0([0]), 0) == T2([])
  {
    hide Unit.Ok, StrayUnit, PopOver, PopInst, PopBlock, FirstEdges;
    var u := StrayUnit();
    First(); Second(); Third(); Fourth();
    assert Solve(u, T2([]), 2) == T2([]);
    assert Solve(u, T2([2]), 2) == T2([]);
    assert Solve(u, T2([1, 2]), 2) == T2([]);
    assert Solve(u, T1(), 2) == T2([]);
    assert Solve(u, T0([]), 2) == T2([]);
    assert Solve(u, T0([]), 1) == T2([]);
    assert Solve(u, T0([]), 0) == T2([]);
  }

  // ---------- process_unknown ----------

  lemma Settle0()
    ensures SettleBlock(T2([]), Stray(), 0) == T2([])
  {
    assert SettlePhis(T2([]), [], 0) == T2([]) && SettleBody(T2([]), [], 0) == T2([]);
  }

  // y is unknown: the way to block 4 is opened.
  lemma Settle1()
    ensures SettleBlock(T2([]), Stray(), 1) == T3()
  {
    var s := T2([]);
    assert SettlePhis(s, [], 0) == s && SettleBody(s, [], 0) == s;
    assert MarkEdge(s, Stray(), 1, 4) == T3();
  }

  // It still is, and the way back to block 3 is opened: y is 0.
  lemma Settle2()
    ensures SettleBlock(T3(), Stray(), 2) == T4()
  {
    var s := T3();
    assert SettlePhis(s, [], 0) == s && SettleBody(s, [], 0) == s;
    var t := s.(edges := s.edges + {(2, 3)});
    var p := D3.phis[0];
    assert PhiMerge(t, 3, p.ins, 1, Constant(0)) == Constant(0);
    assert PhiMerge(t, 3, p.ins, 0, Unknown) == Constant(0);
    assert VisitPhi(t, 3, p) == T4();
    assert VisitPhis(T4(), 3, D3.phis, 1) == T4() && VisitPhis(t, 3, D3.phis, 0) == T4();
    assert MarkEdge(s, Stray(), 2, 3) == T4();
  }

  lemma Settle3()
    ensures SettleBlock(T4(), Stray(), 3) == T4()
  {
    var s := T4();
    assert SettlePhis(s, D3.phis, 1) == s && SettlePhis(s, D3.phis, 0) == s && SettleBody(s, [], 0) == s;
  }

  lemma Settle4()
    ensures SettleBlock(T4(), Stray(), 4) == T5([4], [1], [2])
  {
    var s, t := T4(), T5([4], [1], [2]);
    assert s.MarkOver(2) == t;
    assert SettlePhis(t, D4.phis, 1) == t && SettlePhis(s, D4.phis, 0) == t && SettleBody(t, [], 0) == t;
  }

  lemma SettleAll()
    ensures Settle(StrayUnit(), T2([]), 0) == T5([4], [1], [2]) && Changes(StrayUnit(), T2([]), 0)
  {
    hide SettleBlock, LastEdges, FirstEdges, ArgOver;
    var u, last := StrayUnit(), T5([4], [1], [2]);
    Settle0(); Settle1(); Settle2(); Settle3(); Settle4();
    assert Settle(u, last, 6) == last;
    assert Settle(u, last, 5) == last;
    assert Settle(u, T4(), 4) == last;
    assert Settle(u, T4(), 3) == last;
    assert Settle(u, T3(), 2) == last;
    assert Settle(u, T2([]), 1) == last;
    assert Settle(u, T2([]), 0) == last;
    YUnknown();
  }

  lemma YUnknown()
    ensures Changes(StrayUnit(), T2([]), 0)
  {
    hide Unsettled;
    var u, s := StrayUnit(), T2([]);
    assert D3.phis[0].x == 1 && s.Cell(1).Unknown?;
    assert !BlockKnown(s, D3);
    ChangesIff(u, s, 0);
    assert u.order[3] == 3;
  }

  // ---------- the second solve ----------

  lemma Last()
    ensures PopOver(StrayUnit(), T5([4], [1], [2])) == T5([4], [1], [])
    ensures PopInst(StrayUnit(), T5([4], [1], [])) == T5([4], [], [])
    ensures PopBlock(StrayUnit(), T5([4], [], [])) == T5([], [], [])
  {
    var s := T5([4], [1], []);
    assert VisitUser(s, Stray(), TermAt(4)) == s;
    assert VisitUsers(s, Stray(), [TermAt(4)], 1) == s;
    var t := T5([], [], []);
    assert VisitPhi(t, 4, D4.phis[0]) == t;
    assert VisitPhis(t, 4, D4.phis, 1) == t && VisitPhis(t, 4, D4.phis, 0) == t && VisitBody(t, [], 0) == t;
  }

  lemma SolveTwice()
    requires StrayUnit().Ok()
    ensures Solve(StrayUnit(), T5([4], [1], [2]), 0) == T5([], [], [])
  {
    hide Unit.Ok, StrayUnit, PopOver, PopInst, PopBlock, LastEdges, ArgOver;
    var u, last := StrayUnit(), T5([], [], []);
    Last();
    assert Solve(u, last, 2) == last;
    assert Solve(u, T5([4], [], []), 2) == last;
    assert Solve(u, T5([4], [], []), 1) == last;
    assert Solve(u, T5([4], [1], []), 1) == last;
    assert Solve(u, T5([4], [1], []), 0) == last;
  }

  lemma AllSettled()
    ensures AllKnown(T5([], [], []), Stray()) && !Changes(StrayUnit(), T5([], [], []), 0)
  {
    var s := T5([], [], []);
    assert BlockKnown(s, D0) && BlockKnown(s, D1) && BlockKnown(s, D2) && BlockKnown(s, D3) && BlockKnown(s, D4);
    KnownNoChange(StrayUnit(), s);
  }

  // ---------- the input is lawful ----------

  // Block 3 is the only one that leads to blocks 1 and 2.
  lemma ThreeDominates(b: Node)
    requires b == 1 || b == 2
    ensures Dominates(Cfg(Stray()), 0, 3, b)
  {
    var g := Cfg(Stray());
    forall p | Joins(g, p, 0, b) ensures 3 in p {
      assert |p| > 1;
      assert g.Edge(p[|p| - 2], p[|p| - 1]);
    }
  }

  lemma StrayConds()
    ensures CondsDominated(Stray())
  {
    ThreeDominates(1);
    ThreeDominates(2);
    assert D3.phis[0].x == 1;
    assert DefinedIn(Stray(), 3, 1);
  }

  lemma StrayUses()
    ensures UseLists(StrayUnit())
  {
    var u := StrayUnit();
    forall x, site ensures site in u.Users(x) <==> UsesAt(u.f, site, x) {
      assert D3.phis[0].ins == [(Num(0), 2)];
      assert D4.phis[0].ins[0] == (Use(0), 1);
    }
  }

  lemma StrayStart()
    ensures Initial(StrayUnit(), T0([0])) && Rooted(StrayUnit(), T0([0]))
  {
    SinglePath(Cfg(Stray()), 0);
    assert forall x :: x in [0] ==> x in T0([0]).exec;
    assert Led(Stray(), T0([0]), 0);
  }

  /** process_func accepts this function and ends in a state by which block 4, however it is rewritten, keeps an
      operand for block 1, while block 1 has become a jump to block 5. */
  lemma OperandLeft(g: Func)
    requires Rewritten(T5([], [], []), Stray(), g)
    ensures StrayUnit().Ok() && UseLists(StrayUnit()) && CondsDominated(Stray())
    ensures Initial(StrayUnit(), T0([0])) && Rooted(StrayUnit(), T0([0]))
    ensures Propagate(StrayUnit(), T0([0])) == T5([], [], [])
    ensures g.blocks.Keys == Stray().blocks.Keys && g.blocks[1].term == Jump(5)
    ensures |g.blocks[4].phis| == 1 && HasOperand(g.blocks[4].phis[0], 1) && !OnlyPredecessors(T5([], [], []), g)
  {
    hide StrayUnit, Unit.Ok, UseLists, CondsDominated, Rooted, Solve, Changes, Settle, Rewritten, T0, Initial;
    StrayOk();
    StrayUses();
    StrayConds();
    StrayStart();
    SolveOnce();
    SettleAll();
    SolveTwice();
    AllSettled();
    PropagatesTo();
    StillThere(g);
  }

  lemma PropagatesTo()
    requires StrayUnit().Ok() && CondsDominated(Stray()) && Rooted(StrayUnit(), T0([0]))
    requires Solve(StrayUnit(), T0([0]), 0) == T2([]) && Changes(StrayUnit(), T2([]), 0)
    requires Settle(StrayUnit(), T2([]), 0) == T5([4], [1], [2])
    requires Solve(StrayUnit(), T5([4], [1], [2]), 0) == T5([], [], []) && !Changes(StrayUnit(), T5([], [], []), 0)
    ensures Propagate(StrayUnit(), T0([0])) == T5([], [], [])
  {
    hide Unit.Ok, CondsDominated, Rooted, Solve, Changes, Settle, T0, T2, T5;
    var u := StrayUnit();
    SolveKeeps(u, T0([0]), 0);
    SettleRooted(u, T2([]), 0);
    assert u.f == Stray();
    assert Propagate(u, T5([4], [1], [2])) == T5([], [], []);
  }

  lemma StillThere(g: Func)
    requires Rewritten(T5([], [], []), Stray(), g)
    ensures g.blocks.Keys == Stray().blocks.Keys && g.blocks[1].term == Jump(5)
    ensures |g.blocks[4].phis| == 1 && HasOperand(g.blocks[4].phis[0], 1) && !OnlyPredecessors(T5([], [], []), g)
  {
    hide HasOperand, Feasible;
    var s, f := T5([], [], []), Stray();
    NoConstantAsked(s, f, g, 1);
    SameUnfolded(s, f, g, 4, 0);
    NamedIff(s, f, g, 4, 0, 1);
    HasIt();
    assert !LeadsTo(s, g, 1, 4);
  }

  lemma HasIt()
    ensures HasOperand(D4.phis[0], 1)
  {
    assert D4.phis[0].ins[0].1 == 1;
  }
}
