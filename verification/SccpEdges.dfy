/** What the rewritten function looks like (include/Optimize/SCCP.hh, lines 38-127): which operands its phis have
    left, and that nothing that was found out is still computed or asked. */
module SccpEdges {
  import opened SsaForm
  import opened Graphs
  import opened Ssa
  import opened Lattices
  import opened SccpProgress
  import opened SccpRun
  import opened SccpClosed
  import opened SccpRewrite

  // ---------- the edges that solve marks ----------

  // e leaves an executable block, by a way that its branch takes as far as the solver can tell.
  ghost predicate Taken(f: Func, s: Solver, e: (Node, Node)) {
    && e.0 in s.exec && e.0 in f.blocks && e.1 in Targets(f.blocks[e.0].term)
    && (f.blocks[e.0].term.Branch? ==> Allows(s, f.blocks[e.0].term, e.1))
  }

  // The condition is known, and if it is a constant, to is where it leads.
  predicate Allows(s: Solver, t: Term, to: Node)
    requires t.Branch?
  {
    match s.Get(t.cond)
    case Unknown => false
    case Constant(n) => to == if n != 0 then t.ifTrue else t.ifFalse
    case Over => true
  }

  ghost predicate EdgesTaken(f: Func, s: Solver) { forall e {:trigger e in s.edges} :: e in s.edges ==> Taken(f, s, e) }

  lemma TakenStays(f: Func, s: Solver, t: Solver, e: (Node, Node))
    requires Grows(s, t) && Taken(f, s, e)
    ensures Taken(f, t, e)
  {
    var p := e.0;
    assert p in s.exec && p in t.exec;
    var term := f.blocks[e.0].term;
    if term.Branch? && term.cond.Use? {
      assert Below(s.Cell(term.cond.x), t.Cell(term.cond.x));
    }
  }

  lemma SameEdgesTaken(f: Func, s: Solver, t: Solver)
    requires EdgesTaken(f, s) && Grows(s, t) && t.edges == s.edges
    ensures EdgesTaken(f, t)
  {
    hide Taken, Grows;
    forall e | e in t.edges ensures Taken(f, t, e) {
      TakenStays(f, s, t, e);
    }
  }

  lemma MarkEdgeTaken(u: Unit, s: Solver, from: Node, to: Node)
    requires u.Ok() && EdgesTaken(u.f, s) && Taken(u.f, s, (from, to)) && to in u.f.blocks
    ensures EdgesTaken(u.f, MarkEdge(s, u.f, from, to))
  {
    hide Taken, Unit.Ok, Rank, Left;
    var t := MarkEdge(s, u.f, from, to);
    MarkEdgeAdvances(u, s, from, to);
    if (from, to) !in s.edges {
      if to in s.exec { PhisKeepBlocks(s.(edges := s.edges + {(from, to)}), to, u.f.blocks[to].phis, 0); }
      assert t.edges == s.edges + {(from, to)};
    }
    forall e | e in t.edges ensures Taken(u.f, t, e) {
      TakenStays(u.f, s, t, e);
    }
  }

  lemma VisitTermTaken(u: Unit, s: Solver, b: Node)
    requires u.Ok() && EdgesTaken(u.f, s) && b in s.exec && b in u.f.blocks
    ensures EdgesTaken(u.f, VisitTerm(s, u.f, b, u.f.blocks[b].term))
  {
    hide EdgesTaken, MarkEdge, Rank, Left;
    var t := u.f.blocks[b].term;
    match t
    case Jump(to) =>
      assert to in Targets(t);
      MarkEdgeTaken(u, s, b, to);
    case Branch(c, yes, no) =>
      assert yes in Targets(t) && no in Targets(t);
      if s.Get(c).Constant? {
        MarkEdgeTaken(u, s, b, if s.Get(c).val != 0 then yes else no);
      } else if s.Get(c).Over? {
        MarkEdgeTaken(u, s, b, yes);
        MarkEdgeAdvances(u, s, b, yes);
        TakenStays(u.f, s, MarkEdge(s, u.f, b, yes), (b, no));
        MarkEdgeTaken(u, MarkEdge(s, u.f, b, yes), b, no);
      }
    case Return(_) =>
  }

  lemma VisitUserTaken(u: Unit, s: Solver, user: User)
    requires u.Ok() && EdgesTaken(u.f, s)
    ensures EdgesTaken(u.f, VisitUser(s, u.f, user))
  {
    hide EdgesTaken, VisitTerm, Rank, Left, Unit.Ok;
    VisitUserAdvances(u, s, user);
    if user.b in s.exec && user.b in u.f.blocks && user.TermAt? {
      VisitTermTaken(u, s, user.b);
    } else {
      SameEdgesTaken(u.f, s, VisitUser(s, u.f, user));
    }
  }

  lemma {:induction false} VisitUsersTaken(u: Unit, s: Solver, users: seq<User>, i: nat)
    requires u.Ok() && EdgesTaken(u.f, s) && i <= |users|
    ensures EdgesTaken(u.f, VisitUsers(s, u.f, users, i))
    decreases |users| - i
  {
    hide EdgesTaken, VisitUser, Unit.Ok;
    if i < |users| {
      VisitUserTaken(u, s, users[i]);
      VisitUsersTaken(u, VisitUser(s, u.f, users[i]), users, i + 1);
    }
  }

  lemma VisitBlockTaken(u: Unit, s: Solver, b: Node)
    requires u.Ok() && EdgesTaken(u.f, s) && b in s.exec && b in u.f.blocks
    ensures EdgesTaken(u.f, VisitBlock(s, u.f, b))
  {
    hide EdgesTaken, VisitTerm, Rank, Left, VisitPhis, VisitBody, Unit.Ok;
    var blk := u.f.blocks[b];
    var t := VisitPhis(s, b, blk.phis, 0);
    var r := VisitBody(t, blk.body, 0);
    PhisKeepBlocks(s, b, blk.phis, 0);
    BodyKeepsBlocks(t, blk.body, 0);
    VisitPhisAdvances(u, s, b, 0);
    VisitBodyAdvances(u, t, b, 0);
    SameEdgesTaken(u.f, s, t);
    SameEdgesTaken(u.f, t, r);
    VisitTermTaken(u, r, b);
  }

  lemma ListsTaken(f: Func, s: Solver, t: Solver)
    requires EdgesTaken(f, s) && t.cells == s.cells && t.edges == s.edges && t.exec == s.exec
    ensures EdgesTaken(f, t)
  {
    assert forall x :: t.Cell(x) == s.Cell(x);
    SameEdgesTaken(f, s, t);
  }

  lemma PopsTaken(u: Unit, s: Solver)
    requires u.Ok() && Rooted(u, s) && EdgesTaken(u.f, s)
    ensures s.overList != [] ==> EdgesTaken(u.f, PopOver(u, s))
    ensures s.instList != [] ==> EdgesTaken(u.f, PopInst(u, s))
    ensures s.blockList != [] ==> EdgesTaken(u.f, PopBlock(u, s))
  {
    hide Led, VisitUsers, VisitBlock, EdgesTaken, Unit.Ok;
    if s.overList != [] {
      ListsTaken(u.f, s, s.(overList := s.overList[1..]));
      VisitUsersTaken(u, s.(overList := s.overList[1..]), u.Users(s.overList[0]), 0);
    }
    if s.instList != [] {
      ListsTaken(u.f, s, s.(instList := s.instList[1..]));
      VisitUsersTaken(u, s.(instList := s.instList[1..]), u.Users(s.instList[0]), 0);
    }
    if s.blockList != [] {
      ListsTaken(u.f, s, s.(blockList := s.blockList[1..]));
      VisitBlockTaken(u, s.(blockList := s.blockList[1..]), s.blockList[0]);
    }
  }

  /** solve marks only edges that a branch takes, as far as it can tell at the end. */
  lemma {:induction false} SolveTakes(u: Unit, s: Solver, phase: int)
    requires u.Ok() && Rooted(u, s) && EdgesTaken(u.f, s) && 0 <= phase <= 2
    ensures EdgesTaken(u.f, Solve(u, s, phase))
    decreases Rank(u, s), Idle(s, phase)
  {
    hide EdgesTaken, Grows, Rooted, PopOver, PopInst, PopBlock, Left, Unit.Ok;
    PopsFall(u, s);
    PopsRooted(u, s);
    PopsTaken(u, s);
    if phase == 0 {
      if s.overList != [] { SolveTakes(u, PopOver(u, s), 0); } else { SolveTakes(u, s, 1); }
    } else if phase == 1 {
      if s.instList != [] { SolveTakes(u, PopInst(u, s), 1); } else { SolveTakes(u, s, 2); }
    } else if s.blockList != [] {
      SolveTakes(u, PopBlock(u, s), 2);
    } else if s.overList != [] || s.instList != [] {
      SolveTakes(u, s, 0);
    }
  }

  /** When process_unknown finds nothing to do, all edges marked are such edges. */
  lemma PropagateTakes(u: Unit, s: Solver)
    requires u.Ok() && Rooted(u, s) && CondsDominated(u.f) && s.edges == {}
    requires !Changes(u, Solve(u, s, 0), 0)
    ensures EdgesTaken(u.f, Propagate(u, s))
  {
    hide Solve, Rooted, Changes, CondsDominated;
    SolveTakes(u, s, 0);
    PropagateStops(u, s);
  }

  // ---------- the operands of phis ----------

  // Block p of g is executable and branches to b.
  ghost predicate LeadsTo(s: Solver, g: Func, p: Node, b: Node) {
    p in s.exec && p in g.blocks && b in Targets(g.blocks[p].term)
  }

  // Phi i of the executable block b is not a constant.
  ghost predicate Unfolded(s: Solver, g: Func, b: Node, i: int) {
    b in g.blocks && b in s.exec && 0 <= i < |g.blocks[b].phis| && !s.Cell(g.blocks[b].phis[i].x).Constant?
  }

  lemma NewTargets(c: Consts, t: Term)
    ensures Targets(NewTerm(c, t)) == Targets(t)
  {
  }

  // Where an executable block of the rewritten function can go.
  lemma LeadsToIff(s: Solver, f: Func, g: Func, p: Node, b: Node)
    requires Rewritten(s, f, g)
    ensures LeadsTo(s, g, p, b) <==>
            && p in s.exec && p in f.blocks && b in Targets(f.blocks[p].term)
            && (f.blocks[p].term.Branch? && s.Get(f.blocks[p].term.cond).Constant? ==> Allows(s, f.blocks[p].term, b))
  {
    hide ConstsOf;
    var c: Consts :| ConstsOf(s, f, c) && g == NewFunc(c, Cut(s, f));
    if p in f.blocks && p in s.exec { NewTargets(c, CutTerm(s, f.blocks[p].term)); }
  }

  // What is left of phi i.
  lemma PhiLeft(s: Solver, f: Func, g: Func, b: Node, i: int) returns (c: Consts)
    requires Rewritten(s, f, g) && Unfolded(s, g, b, i)
    ensures b in f.blocks && 0 <= i < |f.blocks[b].phis| && Unfolded(s, f, b, i)
    ensures g.blocks[b].phis[i].ins == NewIns(c, Feasible(s, b, f.blocks[b].phis[i].ins))
  {
    hide ConstsOf, Feasible;
    c :| ConstsOf(s, f, c) && g == NewFunc(c, Cut(s, f));
  }

  /** Feasible keeps the operands of executable edges, each as often as it was there, and no others. */
  lemma {:induction false} FeasibleKeeps(s: Solver, b: Node, ins: seq<(Operand, Node)>, op: (Operand, Node))
    ensures multiset(Feasible(s, b, ins))[op] == if (op.1, b) in s.edges then multiset(ins)[op] else 0
  {
    if |ins| > 0 {
      FeasibleKeeps(s, b, ins[..|ins| - 1], op);
      assert ins == ins[..|ins| - 1] + [ins[|ins| - 1]];
    }
  }

  lemma FeasibleHas(s: Solver, b: Node, ins: seq<(Operand, Node)>, op: (Operand, Node))
    ensures op in Feasible(s, b, ins) <==> op in ins && (op.1, b) in s.edges
  {
    FeasibleKeeps(s, b, ins, op);
    assert op in ins <==> op in multiset(ins);
    assert op in Feasible(s, b, ins) <==> op in multiset(Feasible(s, b, ins));
  }

  // A block is named by an operand that is left exactly if its edge is executable and it was named before.
  lemma NamedIff(s: Solver, f: Func, g: Func, b: Node, i: int, p: Node)
    requires Rewritten(s, f, g) && Unfolded(s, g, b, i)
    ensures b in f.blocks && 0 <= i < |f.blocks[b].phis|
    ensures HasOperand(g.blocks[b].phis[i], p) <==> (p, b) in s.edges && HasOperand(f.blocks[b].phis[i], p)
  {
    hide Rewritten, Feasible;
    var c := PhiLeft(s, f, g, b, i);
    var old_, ins := f.blocks[b].phis[i].ins, Feasible(s, b, f.blocks[b].phis[i].ins);
    if k :| 0 <= k < |ins| && ins[k].1 == p {
      FeasibleHas(s, b, old_, ins[k]);
      var j :| 0 <= j < |old_| && old_[j] == ins[k];
      assert g.blocks[b].phis[i].ins[k].1 == p && f.blocks[b].phis[i].ins[j].1 == p;
    }
    if k :| (p, b) in s.edges && 0 <= k < |old_| && old_[k].1 == p {
      FeasibleHas(s, b, old_, old_[k]);
      var j :| 0 <= j < |ins| && ins[j] == old_[k];
      assert g.blocks[b].phis[i].ins[j].1 == p;
    }
  }

  // Every operand that is left comes from a block that still leads here.
  ghost predicate OnlyPredecessors(s: Solver, g: Func) {
    forall b, i, p {:trigger HasOperand(g.blocks[b].phis[i], p)} ::
      Unfolded(s, g, b, i) && HasOperand(g.blocks[b].phis[i], p) ==> LeadsTo(s, g, p, b)
  }

  /** The operands that are left in the rewritten function are all from executable blocks that branch there, if and
      only if the edges they came over are taken as far as the solver can tell. */
  lemma OnlyPredecessorsIff(s: Solver, f: Func, g: Func)
    requires Rewritten(s, f, g) && AllKnown(s, f)
    ensures OnlyPredecessors(s, g) <==>
            forall b, i, p {:trigger HasOperand(f.blocks[b].phis[i], p)} ::
              Unfolded(s, f, b, i) && HasOperand(f.blocks[b].phis[i], p) && (p, b) in s.edges ==> Taken(f, s, (p, b))
  {
    hide Rewritten, HasOperand, AllKnown, Allows;
    forall b, i, p | Unfolded(s, f, b, i) || Unfolded(s, g, b, i)
      ensures Unfolded(s, f, b, i) && Unfolded(s, g, b, i)
      ensures HasOperand(g.blocks[b].phis[i], p) <==> (p, b) in s.edges && HasOperand(f.blocks[b].phis[i], p)
      ensures LeadsTo(s, g, p, b) <==> Taken(f, s, (p, b))
    {
      SameUnfolded(s, f, g, b, i);
      NamedIff(s, f, g, b, i, p);
      LeadsToIff(s, f, g, p, b);
      if p in s.exec && p in f.blocks && f.blocks[p].term.Branch? { CondsKnown(s, f, p, b); }
    }
  }

  lemma SameUnfolded(s: Solver, f: Func, g: Func, b: Node, i: int)
    requires Rewritten(s, f, g)
    ensures Unfolded(s, f, b, i) <==> Unfolded(s, g, b, i)
  {
    hide ConstsOf, Feasible;
    var c: Consts :| ConstsOf(s, f, c) && g == NewFunc(c, Cut(s, f));
  }

  lemma CondsKnown(s: Solver, f: Func, p: Node, b: Node)
    requires AllKnown(s, f) && p in s.exec && p in f.blocks && f.blocks[p].term.Branch?
    ensures !s.Get(f.blocks[p].term.cond).Unknown?
    ensures !s.Get(f.blocks[p].term.cond).Constant? ==> Allows(s, f.blocks[p].term, b)
  {
    assert BlockKnown(s, f.blocks[p]);
  }

  /** By a closed state, every executable block that branches to b in the rewritten function has its operand in each
      phi of b. */
  lemma PredecessorsNamed(s: Solver, f: Func, g: Func, b: Node, i: nat, p: Node)
    requires Rewritten(s, f, g) && Closed(s, f) && AllKnown(s, f) && InSsa(f)
    requires LeadsTo(s, g, p, b) && b in g.blocks && i < |g.blocks[b].phis|
    ensures HasOperand(g.blocks[b].phis[i], p)
  {
    hide InSsa, Feasible, ConstsOf, Closed, AllKnown, Allows, HasOperand;
    LeadsToIff(s, f, g, p, b);
    EdgeMarked(s, f, p, b);
    var c: Consts :| ConstsOf(s, f, c) && g == NewFunc(c, Cut(s, f));
    HadOperand(f, b, i, p);
    if Unfolded(s, g, b, i) {
      NamedIff(s, f, g, b, i, p);
    } else {
      StillNamed(c, f.blocks[b].phis[i], p);
    }
  }

  lemma HadOperand(f: Func, b: Node, i: nat, p: Node)
    requires InSsa(f) && p in f.blocks && b in Targets(f.blocks[p].term) && b in f.blocks && i < |f.blocks[b].phis|
    ensures HasOperand(f.blocks[b].phis[i], p)
  {
    var phi := f.blocks[b].phis[i];
  }

  lemma StillNamed(c: Consts, phi: Phi, p: Node)
    requires HasOperand(phi, p)
    ensures HasOperand(NewPhi(c, phi), p)
  {
    var k :| 0 <= k < |phi.ins| && phi.ins[k].1 == p;
    assert NewPhi(c, phi).ins[k].1 == p;
  }

  // A closed state has marked the edges that branches can take.
  lemma EdgeMarked(s: Solver, f: Func, p: Node, b: Node)
    requires Closed(s, f) && AllKnown(s, f) && p in s.exec && p in f.blocks && b in Targets(f.blocks[p].term)
    requires f.blocks[p].term.Branch? && s.Get(f.blocks[p].term.cond).Constant? ==> Allows(s, f.blocks[p].term, b)
    ensures (p, b) in s.edges && b in s.exec
  {
    assert BlockSettled(s, p, f.blocks[p]) && BlockKnown(s, f.blocks[p]);
    assert (p, b) in s.edges;
  }

  // Every block that leads here has its operand.
  ghost predicate AllPredecessors(s: Solver, g: Func) {
    forall b, i, p {:trigger HasOperand(g.blocks[b].phis[i], p)} ::
      b in g.blocks && 0 <= i < |g.blocks[b].phis| && LeadsTo(s, g, p, b) ==> HasOperand(g.blocks[b].phis[i], p)
  }

  /** Under the condition of process_func the operands of every phi that is not a constant are in the end those of the
      blocks that lead to it, no more and no fewer. */
  lemma OperandsExact(u: Unit, s: Solver, g: Func)
    requires u.Ok() && Followed(u) && CondsDominated(u.f) && Initial(u, s) && Rooted(u, s)
    requires Rewritten(Propagate(u, s), u.f, g)
    ensures OnlyPredecessors(Propagate(u, s), g) && AllPredecessors(Propagate(u, s), g)
  {
    hide Followed, CondsDominated, Rooted, Rewritten, Solve, Changes, AllKnown, Closed, Unit.Ok;
    var t := Propagate(u, s);
    FollowedSsa(u);
    SolveCloses(u, s);
    KnownNoChange(u, Solve(u, s, 0));
    PropagateTakes(u, s);
    OnlyPredecessorsIff(t, u.f, g);
    hide InSsa, HasOperand, LeadsTo;
    forall b, i, p | b in g.blocks && 0 <= i < |g.blocks[b].phis| && LeadsTo(t, g, p, b)
      ensures HasOperand(g.blocks[b].phis[i], p)
    {
      PredecessorsNamed(t, u.f, g, b, i, p);
    }
  }

  // ---------- constants ----------

  /** No executable block of the rewritten function branches on a condition that is known to be constant: it jumps
      where the constant leads. */
  lemma NoConstantAsked(s: Solver, f: Func, g: Func, b: Node)
    requires Rewritten(s, f, g) && b in g.blocks && b in s.exec
    ensures g.blocks[b].term.Branch? ==> !s.Get(g.blocks[b].term.cond).Constant?
    ensures b in f.blocks && (f.blocks[b].term.Branch? && s.Get(f.blocks[b].term.cond).Constant? ==>
        g.blocks[b].term == Jump(if s.Get(f.blocks[b].term.cond).val == 0 then f.blocks[b].term.ifFalse
                                 else f.blocks[b].term.ifTrue))
  {
    var c: Consts :| ConstsOf(s, f, c) && g == NewFunc(c, Cut(s, f));
  }

  // x is the result of an executable block and known to be constant.
  ghost predicate KnownConstant(s: Solver, f: Func, x: Var) {
    s.Cell(x).Constant? && exists b :: b in f.blocks && b in s.exec && Gives(f.blocks[b], x)
  }

  /** Nothing in the rewritten function uses a value that is known to be constant. */
  lemma NoConstantUsed(s: Solver, f: Func, g: Func, site: User, x: Var)
    requires Rewritten(s, f, g) && UsesAt(g, site, x)
    ensures !KnownConstant(s, f, x)
  {
    hide Cut, Gives;
    var c: Consts :| ConstsOf(s, f, c) && g == NewFunc(c, Cut(s, f));
    ReplacedAt(c, Cut(s, f), site, x);
  }

  lemma ReplacedAt(c: Consts, f: Func, site: User, x: Var)
    requires UsesAt(NewFunc(c, f), site, x)
    ensures x !in c
  {
    var blk := f.blocks[site.b];
    match site
    case PhiAt(b, i) =>
    case BodyAt(b, i) =>
      assert NewFunc(c, f).blocks[b].body[i] == NewInst(c, blk.body[i]);
      ReplacedIn(c, blk.body[i], x);
    case TermAt(b) =>
  }

  lemma ReplacedIn(c: Consts, inst: Inst, x: Var)
    requires Use(x) in Operands(NewInst(c, inst))
    ensures x !in c
  {
  }
}
