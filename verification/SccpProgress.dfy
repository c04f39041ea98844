/** The worklists of the constant propagation (include/Optimize/SCCPSolver.hh, solve and process_unknown):
    cells only move up, and therefore the lists run dry. */
module SccpProgress {
  import opened SsaForm
  import opened Graphs
  import opened Ssa
  import opened Lattices
  import opened Sums

  /** A function with its blocks in order and the use lists of its variables. */
  datatype Unit = Unit(f: Func, order: seq<Node>, users: map<Var, seq<User>>) {
    // Branches lead to blocks of the function, which are listed in order.
    ghost predicate Ok() {
      && f.entry in f.blocks
      && (forall b, t {:trigger t in Targets(f.blocks[b].term)} ::
        b in f.blocks && t in Targets(f.blocks[b].term) ==> t in f.blocks)
      && (forall b :: b in f.blocks <==> b in order)
    }

    function Users(x: Var): seq<User> { if x in users then users[x] else [] }

    ghost function Vars(): set<Var> {
      f.args
      + (set b, i | b in f.blocks && 0 <= i < |f.blocks[b].phis| :: f.blocks[b].phis[i].x)
      + (set b, i | b in f.blocks && 0 <= i < |f.blocks[b].body| && f.blocks[b].body[i].Def? :: f.blocks[b].body[i].x)
    }
  }

  // ---------- the measure ----------

  ghost function Height(c: Cell): nat { if c.Unknown? then 2 else if c.Constant? then 1 else 0 }

  ghost function Heights(u: Unit, s: Solver): map<Var, nat> { map x | x in u.Vars() :: Height(s.Cell(x)) }

  // What is left to learn: steps up the lattice, and blocks not known to be executable.
  ghost function Left(u: Unit, s: Solver): nat { Sum(Heights(u, s)) + |u.f.blocks.Keys - s.exec| }

  ghost function Rank(u: Unit, s: Solver): nat { 2 * Left(u, s) + |s.blockList| + |s.instList| + |s.overList| }

  // Nothing moves down, and the measure does not grow.
  ghost predicate Grows(s: Solver, t: Solver) {
    && (forall x {:trigger t.Cell(x)} :: Below(s.Cell(x), t.Cell(x)))
    && (forall e :: e in s.edges ==> e in t.edges) && (forall b :: b in s.exec ==> b in t.exec)
  }

  ghost predicate Advance(u: Unit, s: Solver, t: Solver) {
    Grows(s, t) && Rank(u, t) <= Rank(u, s) && Left(u, t) <= Left(u, s)
        && (Left(u, t) == Left(u, s) ==> t.cells == s.cells && t.exec == s.exec)
  }

  lemma AdvanceOver(u: Unit, s: Solver, t: Solver, r: Solver)
    requires Advance(u, s, t) && Advance(u, t, r)
    ensures Advance(u, s, r)
  {
    hide Rank, Left;
    forall x ensures Below(s.Cell(x), r.Cell(x)) {
      assert Below(s.Cell(x), t.Cell(x)) && Below(t.Cell(x), r.Cell(x));
    }
  }

  lemma AdvanceSelf(u: Unit, s: Solver)
    ensures Advance(u, s, s)
  {
  }

  lemma RaiseAdvances(u: Unit, s: Solver, x: Var, c: Cell)
    requires x in u.Vars() && Below(s.Cell(x), c) && c != s.Cell(x)
    ensures Advance(u, s, s.Raise(x, c)) && Left(u, s.Raise(x, c)) < Left(u, s)
  {
    var t := s.Raise(x, c);
    assert forall y :: t.Cell(y) == if y == x then c else s.Cell(y);
    HeightsFall(u, s, t, x);
  }

  lemma HeightsFall(u: Unit, s: Solver, t: Solver, x: Var)
    requires x in u.Vars() && Height(t.Cell(x)) < Height(s.Cell(x)) && forall y :: y != x ==> t.Cell(y) == s.Cell(y)
    ensures Sum(Heights(u, t)) < Sum(Heights(u, s))
  {
    hide Unit.Vars;
    assert x in Heights(u, s) && Heights(u, t)[x] < Heights(u, s)[x];
    SumMonotone(Heights(u, s), Heights(u, t));
  }

  lemma MergeInAdvances(u: Unit, s: Solver, x: Var, c: Cell)
    requires x in u.Vars()
    ensures Advance(u, s, s.MergeIn(x, c))
  {
    hide Rank, Left, Unit.Vars;
    var m := Merge(s.Cell(x), c);
    AdvanceSelf(u, s);
    if m != s.Cell(x) {
      RaiseAdvances(u, s, x, m);
    }
  }

  lemma VisitPhiAdvances(u: Unit, s: Solver, b: Node, p: Phi)
    requires p.x in u.Vars()
    ensures Advance(u, s, VisitPhi(s, b, p))
  {
    hide Rank, Left, Unit.Vars, PhiMerge;
    AdvanceSelf(u, s);
    MergeInAdvances(u, s, p.x, PhiMerge(s, b, p.ins, 0, s.Cell(p.x)));
  }

  lemma VisitInstAdvances(u: Unit, s: Solver, i: Inst)
    requires i.Def? ==> i.x in u.Vars()
    ensures Advance(u, s, VisitInst(s, i))
  {
    hide Rank, Left, Unit.Vars, Transfer;
    AdvanceSelf(u, s);
    if i.Def? {
      MergeInAdvances(u, s, i.x, Transfer(s, i.rhs));
    }
  }

  lemma PhiVar(u: Unit, b: Node, i: nat)
    requires b in u.f.blocks && i < |u.f.blocks[b].phis|
    ensures u.f.blocks[b].phis[i].x in u.Vars()
  {
  }

  lemma DefVar(u: Unit, b: Node, i: nat)
    requires b in u.f.blocks && i < |u.f.blocks[b].body| && u.f.blocks[b].body[i].Def?
    ensures u.f.blocks[b].body[i].x in u.Vars()
  {
  }

  lemma {:induction false} VisitPhisAdvances(u: Unit, s: Solver, b: Node, i: nat)
    requires b in u.f.blocks && i <= |u.f.blocks[b].phis|
    ensures Advance(u, s, VisitPhis(s, b, u.f.blocks[b].phis, i))
    decreases |u.f.blocks[b].phis| - i
  {
    hide Advance, Unit.Vars, VisitPhi;
    if i == |u.f.blocks[b].phis| {
      AdvanceSelf(u, s);
    } else {
      var t := VisitPhi(s, b, u.f.blocks[b].phis[i]);
      PhiVar(u, b, i);
      VisitPhiAdvances(u, s, b, u.f.blocks[b].phis[i]);
      VisitPhisAdvances(u, t, b, i + 1);
      AdvanceOver(u, s, t, VisitPhis(t, b, u.f.blocks[b].phis, i + 1));
    }
  }

  lemma {:induction false} VisitBodyAdvances(u: Unit, s: Solver, b: Node, i: nat)
    requires b in u.f.blocks && i <= |u.f.blocks[b].body|
    ensures Advance(u, s, VisitBody(s, u.f.blocks[b].body, i))
    decreases |u.f.blocks[b].body| - i
  {
    hide Advance, Unit.Vars, VisitInst;
    if i == |u.f.blocks[b].body| {
      AdvanceSelf(u, s);
    } else {
      var t := VisitInst(s, u.f.blocks[b].body[i]);
      if u.f.blocks[b].body[i].Def? { DefVar(u, b, i); }
      VisitInstAdvances(u, s, u.f.blocks[b].body[i]);
      VisitBodyAdvances(u, t, b, i + 1);
      AdvanceOver(u, s, t, VisitBody(t, u.f.blocks[b].body, i + 1));
    }
  }

  lemma MarkBlockAdvances(u: Unit, s: Solver, b: Node)
    requires b in u.f.blocks
    ensures Advance(u, s, MarkBlock(s, b))
  {
    hide Unit.Vars;
    var t := MarkBlock(s, b);
    assert Heights(u, t) == Heights(u, s);
    if b !in s.exec {
      assert u.f.blocks.Keys - t.exec == u.f.blocks.Keys - s.exec - {b};
    }
  }

  lemma MarkEdgeAdvances(u: Unit, s: Solver, from: Node, to: Node)
    requires to in u.f.blocks
    ensures Advance(u, s, MarkEdge(s, u.f, from, to))
  {
    hide Unit.Vars, VisitPhis, MarkBlock;
    AdvanceSelf(u, s);
    if (from, to) !in s.edges {
      var t := s.(edges := s.edges + {(from, to)});
      assert Heights(u, t) == Heights(u, s);
      assert Advance(u, s, t);
      hide Advance;
      if to in s.exec {
        VisitPhisAdvances(u, t, to, 0);
        AdvanceOver(u, s, t, VisitPhis(t, to, u.f.blocks[to].phis, 0));
      } else {
        MarkBlockAdvances(u, t, to);
        AdvanceOver(u, s, t, MarkBlock(t, to));
      }
    }
  }

  lemma VisitTermAdvances(u: Unit, s: Solver, b: Node)
    requires u.Ok() && b in u.f.blocks
    ensures Advance(u, s, VisitTerm(s, u.f, b, u.f.blocks[b].term))
  {
    hide Advance, Unit.Vars, MarkEdge;
    AdvanceSelf(u, s);
    match u.f.blocks[b].term
    case Jump(to) =>
      assert to in Targets(u.f.blocks[b].term);
      MarkEdgeAdvances(u, s, b, to);
    case Branch(c, yes, no) =>
      assert yes in Targets(u.f.blocks[b].term) && no in Targets(u.f.blocks[b].term);
      MarkEdgeAdvances(u, s, b, yes);
      MarkEdgeAdvances(u, s, b, no);
      MarkEdgeAdvances(u, MarkEdge(s, u.f, b, yes), b, no);
      AdvanceOver(u, s, MarkEdge(s, u.f, b, yes), MarkEdge(MarkEdge(s, u.f, b, yes), u.f, b, no));
    case Return(_) =>
  }

  lemma VisitBlockAdvances(u: Unit, s: Solver, b: Node)
    requires u.Ok() && b in u.f.blocks
    ensures Advance(u, s, VisitBlock(s, u.f, b))
  {
    hide Advance, Unit.Vars, VisitPhis, VisitBody, VisitTerm;
    var blk := u.f.blocks[b];
    var t := VisitPhis(s, b, blk.phis, 0);
    var r := VisitBody(t, blk.body, 0);
    VisitPhisAdvances(u, s, b, 0);
    VisitBodyAdvances(u, t, b, 0);
    VisitTermAdvances(u, r, b);
    AdvanceOver(u, s, t, r);
    AdvanceOver(u, s, r, VisitBlock(s, u.f, b));
  }

  lemma VisitUserAdvances(u: Unit, s: Solver, user: User)
    requires u.Ok()
    ensures Advance(u, s, VisitUser(s, u.f, user))
  {
    hide Advance, Unit.Vars, VisitPhi, VisitInst, VisitTerm;
    AdvanceSelf(u, s);
    if user.b in s.exec && user.b in u.f.blocks {
      var blk := u.f.blocks[user.b];
      match user
      case PhiAt(b, i) =>
        if i < |blk.phis| {
          PhiVar(u, b, i);
          VisitPhiAdvances(u, s, b, blk.phis[i]);
        }
      case BodyAt(b, i) =>
        if i < |blk.body| {
          if blk.body[i].Def? { DefVar(u, b, i); }
          VisitInstAdvances(u, s, blk.body[i]);
        }
      case TermAt(b) => VisitTermAdvances(u, s, b);
    }
  }

  lemma {:induction false} VisitUsersAdvances(u: Unit, s: Solver, users: seq<User>, i: nat)
    requires u.Ok() && i <= |users|
    ensures Advance(u, s, VisitUsers(s, u.f, users, i))
    decreases |users| - i
  {
    hide Advance, Unit.Vars, VisitUser;
    if i == |users| {
      AdvanceSelf(u, s);
    } else {
      VisitUserAdvances(u, s, users[i]);
      VisitUsersAdvances(u, VisitUser(s, u.f, users[i]), users, i + 1);
      AdvanceOver(u, s, VisitUser(s, u.f, users[i]), VisitUsers(s, u.f, users, i));
    }
  }

  // ---------- solve ----------

  // Taking the head off one list and working on it: the overdefined values, the others, the blocks.
  ghost function PopOver(u: Unit, s: Solver): Solver
    requires s.overList != []
  {
    VisitUsers(s.(overList := s.overList[1..]), u.f, u.Users(s.overList[0]), 0)
  }

  // Only an overdefined value makes its users be visited again (line 118).
  ghost function PopInst(u: Unit, s: Solver): Solver
    requires s.instList != []
  {
    var t := s.(instList := s.instList[1..]);
    if s.Cell(s.instList[0]).Over? then VisitUsers(t, u.f, u.Users(s.instList[0]), 0) else t
  }

  ghost function PopBlock(u: Unit, s: Solver): Solver
    requires s.blockList != []
  {
    var t := s.(blockList := s.blockList[1..]);
    if s.blockList[0] in u.f.blocks then VisitBlock(t, u.f, s.blockList[0]) else t
  }

  // Taking an item off a list.
  lemma TakenOff(u: Unit, s: Solver, t: Solver)
    requires t.cells == s.cells && t.exec == s.exec && t.edges == s.edges
    requires |t.blockList| + |t.instList| + |t.overList| + 1 == |s.blockList| + |s.instList| + |s.overList|
    ensures Rank(u, t) < Rank(u, s) && Left(u, t) == Left(u, s) && Grows(s, t)
  {
    hide Unit.Vars;
    assert forall x :: t.Cell(x) == s.Cell(x);
    assert Heights(u, t) == Heights(u, s);
  }

  lemma TakenThen(u: Unit, s: Solver, t: Solver, r: Solver)
    requires t.cells == s.cells && t.exec == s.exec && t.edges == s.edges
    requires |t.blockList| + |t.instList| + |t.overList| + 1 == |s.blockList| + |s.instList| + |s.overList|
    requires Advance(u, t, r)
    ensures Grows(s, r) && Rank(u, r) < Rank(u, s) && Left(u, r) <= Left(u, s)
  {
    hide Rank, Left;
    TakenOff(u, s, t);
    assert forall x :: t.Cell(x) == s.Cell(x);
  }

  lemma PopsFall(u: Unit, s: Solver)
    requires u.Ok()
    ensures s.overList != [] ==>
      Grows(s, PopOver(u, s)) && Rank(u, PopOver(u, s)) < Rank(u, s) && Left(u, PopOver(u, s)) <= Left(u, s)
    ensures s.instList != [] ==>
      Grows(s, PopInst(u, s)) && Rank(u, PopInst(u, s)) < Rank(u, s) && Left(u, PopInst(u, s)) <= Left(u, s)
    ensures s.blockList != [] ==>
      Grows(s, PopBlock(u, s)) && Rank(u, PopBlock(u, s)) < Rank(u, s) && Left(u, PopBlock(u, s)) <= Left(u, s)
  {
    hide Unit.Vars, Unit.Ok, VisitUsers, VisitBlock, Unit.Users, Rank, Left, Grows, Advance;
    if s.overList != [] {
      var t := s.(overList := s.overList[1..]);
      VisitUsersAdvances(u, t, u.Users(s.overList[0]), 0);
      TakenThen(u, s, t, PopOver(u, s));
    }
    if s.instList != [] {
      var t := s.(instList := s.instList[1..]);
      AdvanceSelf(u, t);
      VisitUsersAdvances(u, t, u.Users(s.instList[0]), 0);
      TakenThen(u, s, t, PopInst(u, s));
    }
    if s.blockList != [] {
      var t := s.(blockList := s.blockList[1..]);
      AdvanceSelf(u, t);
      if s.blockList[0] in u.f.blocks { VisitBlockAdvances(u, t, s.blockList[0]); }
      TakenThen(u, s, t, PopBlock(u, s));
    }
  }

  // How many loops of solve are passed before one has something to do.
  ghost function Idle(s: Solver, phase: int): nat {
    var a, b, c := s.overList != [], s.instList != [], s.blockList != [];
    if phase == 0 then (if a then 0 else if b then 1 else 2)
    else if phase == 1 then (if b then 0 else if c then 1 else if a then 2 else 1)
    else (if c then 0 else if a then 1 else if b then 2 else 0)
  }

  /** solve, lines 107-127, from the first, second or third of its inner loops on. */
  ghost function Solve(u: Unit, s: Solver, phase: int): Solver
    requires u.Ok() && 0 <= phase <= 2
    decreases Rank(u, s), Idle(s, phase)
  {
    PopsFall(u, s);
    if phase == 0 then (if s.overList != [] then Solve(u, PopOver(u, s), 0) else Solve(u, s, 1))
    else if phase == 1 then (if s.instList != [] then Solve(u, PopInst(u, s), 1) else Solve(u, s, 2))
    else if s.blockList != [] then Solve(u, PopBlock(u, s), 2)
    else if s.overList != [] || s.instList != [] then Solve(u, s, 0)
    else s
  }
}
