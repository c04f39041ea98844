/** process_func (include/Optimize/SCCP.hh, lines 26-37): solving and settling unknown values in turn comes
    to an end, because every branch condition is defined in a block that dominates the branch. */
module SccpRun {
  import opened SsaForm
  import opened Graphs
  import opened Ssa
  import opened Lattices
  import opened SccpProgress

  // ---------- process_unknown, lines 277-303 ----------

  function SettlePhis(s: Solver, phis: seq<Phi>, i: nat): Solver
    requires i <= |phis|
    decreases |phis| - i
  {
    if i == |phis| then s
    else SettlePhis(if s.Cell(phis[i].x).Unknown? then s.MarkOver(phis[i].x) else s, phis, i + 1)
  }

  function SettleBody(s: Solver, body: seq<Inst>, i: nat): Solver
    requires i <= |body|
    decreases |body| - i
  {
    if i == |body| then s
    else SettleBody(if body[i].Def? && s.Cell(body[i].x).Unknown? then s.MarkOver(body[i].x) else s, body, i + 1)
  }

  // A condition that is still unknown sends control to the first successor (lines 294-297).
  function SettleTerm(s: Solver, f: Func, b: Node, t: Term): Solver {
    if t.Branch? && s.Get(t.cond).Unknown? then MarkEdge(s, f, b, t.ifTrue) else s
  }

  // Whether the pass over block b reports a change.
  predicate Unsettled(s: Solver, blk: Block) {
    || (exists i :: 0 <= i < |blk.phis| && s.Cell(blk.phis[i].x).Unknown?)
    || (exists i :: 0 <= i < |blk.body| && blk.body[i].Def? && s.Cell(blk.body[i].x).Unknown?)
    || (blk.term.Branch? && SettleBody(SettlePhis(s, blk.phis, 0), blk.body, 0).Get(blk.term.cond).Unknown?)
  }

  function SettleBlock(s: Solver, f: Func, b: Node): Solver
    requires b in f.blocks
  {
    var blk := f.blocks[b];
    SettleTerm(SettleBody(SettlePhis(s, blk.phis, 0), blk.body, 0), f, b, blk.term)
  }

  function Settle(u: Unit, s: Solver, i: nat): Solver
    requires i <= |u.order|
    decreases |u.order| - i
  {
    if i == |u.order| then s
    else
      var b := u.order[i];
      Settle(u, if b in s.exec && b in u.f.blocks then SettleBlock(s, u.f, b) else s, i + 1)
  }

  ghost predicate Changes(u: Unit, s: Solver, i: nat)
    requires i <= |u.order|
    decreases |u.order| - i
  {
    if i == |u.order| then false
    else
      var b := u.order[i];
      if b in s.exec && b in u.f.blocks then Unsettled(s, u.f.blocks[b]) || Changes(u, SettleBlock(s, u.f, b), i + 1)
      else Changes(u, s, i + 1)
  }

  lemma SettleOneAdvances(u: Unit, s: Solver, x: Var)
    requires x in u.Vars()
    ensures Advance(u, s, if s.Cell(x).Unknown? then s.MarkOver(x) else s)
    ensures s.Cell(x).Unknown? ==> Left(u, s.MarkOver(x)) < Left(u, s)
  {
    hide Unit.Vars, Rank, Left;
    AdvanceSelf(u, s);
    if s.Cell(x).Unknown? {
      RaiseAdvances(u, s, x, Over);
    }
  }

  lemma {:induction false} SettlePhisAdvances(u: Unit, s: Solver, b: Node, i: nat)
    requires b in u.f.blocks && i <= |u.f.blocks[b].phis|
    ensures Advance(u, s, SettlePhis(s, u.f.blocks[b].phis, i))
    ensures (exists j :: i <= j < |u.f.blocks[b].phis| && s.Cell(u.f.blocks[b].phis[j].x).Unknown?) ==>
              Left(u, SettlePhis(s, u.f.blocks[b].phis, i)) < Left(u, s)
    decreases |u.f.blocks[b].phis| - i
  {
    hide Unit.Vars, Rank, Left;
    var phis := u.f.blocks[b].phis;
    if i == |phis| {
      AdvanceSelf(u, s);
    } else {
      var t := if s.Cell(phis[i].x).Unknown? then s.MarkOver(phis[i].x) else s;
      PhiVar(u, b, i);
      SettleOneAdvances(u, s, phis[i].x);
      SettlePhisAdvances(u, t, b, i + 1);
      AdvanceOver(u, s, t, SettlePhis(t, phis, i + 1));
    }
  }

  lemma {:induction false} SettleBodyAdvances(u: Unit, s: Solver, b: Node, i: nat)
    requires b in u.f.blocks && i <= |u.f.blocks[b].body|
    ensures Advance(u, s, SettleBody(s, u.f.blocks[b].body, i))
    ensures (exists j :: (i <= j < |u.f.blocks[b].body| && u.f.blocks[b].body[j].Def?
                             && s.Cell(u.f.blocks[b].body[j].x).Unknown?)) ==>
        Left(u, SettleBody(s, u.f.blocks[b].body, i)) < Left(u, s)
    decreases |u.f.blocks[b].body| - i
  {
    hide Unit.Vars, Rank, Left;
    var body := u.f.blocks[b].body;
    if i == |body| {
      AdvanceSelf(u, s);
    } else {
      var t := if body[i].Def? && s.Cell(body[i].x).Unknown? then s.MarkOver(body[i].x) else s;
      AdvanceSelf(u, s);
      if body[i].Def? {
        DefVar(u, b, i);
        SettleOneAdvances(u, s, body[i].x);
      }
      SettleBodyAdvances(u, t, b, i + 1);
      AdvanceOver(u, s, t, SettleBody(t, body, i + 1));
    }
  }

  lemma SettleTermAdvances(u: Unit, s: Solver, b: Node)
    requires u.Ok() && b in u.f.blocks
    ensures Advance(u, s, SettleTerm(s, u.f, b, u.f.blocks[b].term))
  {
    hide Advance, Unit.Vars, MarkEdge;
    AdvanceSelf(u, s);
    var t := u.f.blocks[b].term;
    if t.Branch? {
      assert t.ifTrue in Targets(t);
      MarkEdgeAdvances(u, s, b, t.ifTrue);
    }
  }

  lemma SettleBlockAdvances(u: Unit, s: Solver, b: Node)
    requires u.Ok() && b in u.f.blocks
    ensures Advance(u, s, SettleBlock(s, u.f, b))
    ensures (exists j :: 0 <= j < |u.f.blocks[b].phis| && s.Cell(u.f.blocks[b].phis[j].x).Unknown?) ==>
        Left(u, SettleBlock(s, u.f, b)) < Left(u, s)
    ensures (exists j :: (0 <= j < |u.f.blocks[b].body| && u.f.blocks[b].body[j].Def?
                             && s.Cell(u.f.blocks[b].body[j].x).Unknown?)) ==>
        Left(u, SettleBlock(s, u.f, b)) < Left(u, s)
  {
    hide Unit.Vars, Rank, Left, SettleTerm, Grows, SettlePhis, SettleBody, Unit.Ok;
    var blk := u.f.blocks[b];
    var t := SettlePhis(s, blk.phis, 0);
    var r := SettleBody(t, blk.body, 0);
    SettlePhisAdvances(u, s, b, 0);
    SettleBodyAdvances(u, t, b, 0);
    SettleTermAdvances(u, r, b);
    AdvanceOver(u, s, t, r);
    AdvanceOver(u, s, r, SettleBlock(s, u.f, b));
    if Left(u, t) == Left(u, s) {
      assert forall x :: t.Cell(x) == s.Cell(x);
    }
  }

  lemma {:induction false} SettleAdvances(u: Unit, s: Solver, i: nat)
    requires u.Ok() && i <= |u.order|
    ensures Advance(u, s, Settle(u, s, i))
    decreases |u.order| - i
  {
    hide Advance, Unit.Vars, SettleBlock;
    if i == |u.order| {
      AdvanceSelf(u, s);
    } else {
      var b := u.order[i];
      var t := if b in s.exec && b in u.f.blocks then SettleBlock(s, u.f, b) else s;
      AdvanceSelf(u, s);
      if b in u.f.blocks { SettleBlockAdvances(u, s, b); }
      SettleAdvances(u, t, i + 1);
      AdvanceOver(u, s, t, Settle(u, t, i + 1));
    }
  }

  // ---------- where executable blocks come from ----------

  function TargetList(t: Term): seq<Node> {
    match t
    case Jump(b) => [b]
    case Branch(_, a, b) => [a, b]
    case Return(_) => []
  }

  function Cfg(f: Func): Graph { Graph(f.blocks.Keys, map b | b in f.blocks :: TargetList(f.blocks[b].term), map[]) }

  ghost predicate DefinedIn(f: Func, d: Node, x: Var) {
    && d in f.blocks
    && ((exists i :: 0 <= i < |f.blocks[d].phis| && f.blocks[d].phis[i].x == x)
        || (exists i :: 0 <= i < |f.blocks[d].body| && f.blocks[d].body[i].Def? && f.blocks[d].body[i].x == x))
  }

  /** A branch condition is an argument or defined in a block that dominates the branch (SSA). */
  ghost predicate CondsDominated(f: Func) {
    forall b {:trigger f.blocks[b]} :: b in f.blocks && f.blocks[b].term.Branch? && f.blocks[b].term.cond.Use? ==>
      var x := f.blocks[b].term.cond.x;
      x in f.args || exists d :: DefinedIn(f, d, x) && Dominates(Cfg(f), f.entry, d, b)
  }

  // Some path of executable blocks leads to b.
  ghost predicate Led(f: Func, s: Solver, b: Node) {
    exists p :: Joins(Cfg(f), p, f.entry, b) && forall x :: x in p ==> x in s.exec
  }

  ghost predicate Rooted(u: Unit, s: Solver) {
    && (forall b {:trigger Led(u.f, s, b)} :: b in s.exec ==> Led(u.f, s, b))
    && (forall b :: b in s.exec ==> b in u.f.blocks)
    && (forall b :: b in s.blockList ==> b in s.exec)
    && (forall x :: x in u.f.args ==> s.Cell(x).Over?)
  }

  lemma LedMore(f: Func, s: Solver, t: Solver, b: Node)
    requires Led(f, s, b) && forall x :: x in s.exec ==> x in t.exec
    ensures Led(f, t, b)
  {
    var p :| Joins(Cfg(f), p, f.entry, b) && forall x :: x in p ==> x in s.exec;
    assert forall x :: x in p ==> x in t.exec;
  }

  lemma RootedSame(u: Unit, s: Solver, t: Solver)
    requires Rooted(u, s) && Grows(s, t) && t.exec == s.exec && forall b :: b in t.blockList ==> b in s.exec
    ensures Rooted(u, t)
  {
    forall b | b in t.exec ensures Led(u.f, t, b) {
      LedMore(u.f, s, t, b);
    }
    forall x | x in u.f.args ensures t.Cell(x).Over? {
      assert Below(s.Cell(x), t.Cell(x));
    }
  }

  lemma LedFurther(f: Func, s: Solver, from: Node, to: Node)
    requires Led(f, s, from) && from in f.blocks && to in Targets(f.blocks[from].term) && from in s.exec
    ensures Led(f, s.(exec := s.exec + {to}), to)
  {
    var p :| Joins(Cfg(f), p, f.entry, from) && forall x :: x in p ==> x in s.exec;
    assert Cfg(f).Edge(from, to);
    ExtendPath(Cfg(f), p, f.entry, from, to);
    assert forall x :: x in p + [to] ==> x in s.exec + {to};
  }

  lemma {:induction false} PhisKeepBlocks(s: Solver, b: Node, phis: seq<Phi>, i: nat)
    requires i <= |phis|
    ensures var t := VisitPhis(s, b, phis, i); t.exec == s.exec && t.blockList == s.blockList && t.edges == s.edges
    decreases |phis| - i
  {
    if i < |phis| {
      PhisKeepBlocks(VisitPhi(s, b, phis[i]), b, phis, i + 1);
    }
  }

  lemma {:induction false} BodyKeepsBlocks(s: Solver, body: seq<Inst>, i: nat)
    requires i <= |body|
    ensures var t := VisitBody(s, body, i); t.exec == s.exec && t.blockList == s.blockList && t.edges == s.edges
    decreases |body| - i
  {
    if i < |body| {
      BodyKeepsBlocks(VisitInst(s, body[i]), body, i + 1);
    }
  }

  lemma MarkEdgeRooted(u: Unit, s: Solver, from: Node, to: Node)
    requires u.Ok() && Rooted(u, s) && from in s.exec && from in u.f.blocks && to in Targets(u.f.blocks[from].term)
    ensures Rooted(u, MarkEdge(s, u.f, from, to))
  {
    hide Led, Advance;
    var t := MarkEdge(s, u.f, from, to);
    MarkEdgeAdvances(u, s, from, to);
    assert Grows(s, t) by { AdvanceGives(u, s, t); }
    if to in s.exec {
      PhisKeepBlocks(s.(edges := s.edges + {(from, to)}), to, u.f.blocks[to].phis, 0);
      RootedSame(u, s, t);
    } else if (from, to) !in s.edges {
      assert t.exec == s.exec + {to};
      LedFurther(u.f, s, from, to);
      forall b | b in t.exec ensures Led(u.f, t, b) {
        if b in s.exec {
          LedMore(u.f, s, t, b);
        } else {
          LedMore(u.f, s.(exec := s.exec + {to}), t, b);
        }
      }
      forall x | x in u.f.args ensures t.Cell(x).Over? {
        assert Below(s.Cell(x), t.Cell(x));
      }
    }
  }

  lemma AdvanceGives(u: Unit, s: Solver, t: Solver)
    requires Advance(u, s, t)
    ensures Grows(s, t)
  {
  }

  lemma VisitTermRooted(u: Unit, s: Solver, b: Node)
    requires u.Ok() && Rooted(u, s) && b in s.exec && b in u.f.blocks
    ensures Rooted(u, VisitTerm(s, u.f, b, u.f.blocks[b].term))
  {
    hide Rooted, MarkEdge;
    var t := u.f.blocks[b].term;
    match t
    case Jump(to) => MarkEdgeRooted(u, s, b, to);
    case Branch(c, yes, no) =>
      MarkEdgeRooted(u, s, b, yes);
      MarkEdgeRooted(u, s, b, no);
      MarkEdgeAdvances(u, s, b, yes);
      MarkEdgeRooted(u, MarkEdge(s, u.f, b, yes), b, no);
    case Return(_) =>
  }

  lemma VisitUserRooted(u: Unit, s: Solver, user: User)
    requires u.Ok() && Rooted(u, s)
    ensures Rooted(u, VisitUser(s, u.f, user))
  {
    hide Led, VisitTerm, Rank, Left;
    var t := VisitUser(s, u.f, user);
    VisitUserAdvances(u, s, user);
    if user.b in s.exec && user.b in u.f.blocks && user.TermAt? {
      VisitTermRooted(u, s, user.b);
    } else {
      RootedSame(u, s, t);
    }
  }

  lemma {:induction false} VisitUsersRooted(u: Unit, s: Solver, users: seq<User>, i: nat)
    requires u.Ok() && Rooted(u, s) && i <= |users|
    ensures Rooted(u, VisitUsers(s, u.f, users, i))
    decreases |users| - i
  {
    hide Rooted, VisitUser;
    if i < |users| {
      VisitUserRooted(u, s, users[i]);
      VisitUsersRooted(u, VisitUser(s, u.f, users[i]), users, i + 1);
    }
  }

  lemma VisitBlockRooted(u: Unit, s: Solver, b: Node)
    requires u.Ok() && Rooted(u, s) && b in s.exec && b in u.f.blocks
    ensures Rooted(u, VisitBlock(s, u.f, b))
  {
    hide Led, VisitTerm, Rank, Left, VisitPhis, VisitBody;
    var blk := u.f.blocks[b];
    var t := VisitPhis(s, b, blk.phis, 0);
    var r := VisitBody(t, blk.body, 0);
    PhisKeepBlocks(s, b, blk.phis, 0);
    BodyKeepsBlocks(t, blk.body, 0);
    VisitPhisAdvances(u, s, b, 0);
    VisitBodyAdvances(u, t, b, 0);
    RootedSame(u, s, t);
    RootedSame(u, t, r);
    VisitTermRooted(u, r, b);
  }

  lemma PopsRooted(u: Unit, s: Solver)
    requires u.Ok() && Rooted(u, s)
    ensures s.overList != [] ==> Rooted(u, PopOver(u, s))
    ensures s.instList != [] ==> Rooted(u, PopInst(u, s))
    ensures s.blockList != [] ==> Rooted(u, PopBlock(u, s))
  {
    hide Led, VisitUsers, VisitBlock;
    if s.overList != [] {
      var t := s.(overList := s.overList[1..]);
      RootedSame(u, s, t);
      VisitUsersRooted(u, t, u.Users(s.overList[0]), 0);
    }
    if s.instList != [] {
      var t := s.(instList := s.instList[1..]);
      RootedSame(u, s, t);
      VisitUsersRooted(u, t, u.Users(s.instList[0]), 0);
    }
    if s.blockList != [] {
      var t := s.(blockList := s.blockList[1..]);
      RootedSame(u, s, t);
      VisitBlockRooted(u, t, s.blockList[0]);
    }
  }

  lemma GrowsOver(s: Solver, t: Solver, r: Solver)
    requires Grows(s, t) && Grows(t, r)
    ensures Grows(s, r)
  {
    forall x ensures Below(s.Cell(x), r.Cell(x)) {
      assert Below(s.Cell(x), t.Cell(x)) && Below(t.Cell(x), r.Cell(x));
    }
  }

  /** solve moves cells up only, keeps executable blocks connected to the entry, and leaves no work. */
  lemma {:induction false} SolveKeeps(u: Unit, s: Solver, phase: int)
    requires u.Ok() && Rooted(u, s) && 0 <= phase <= 2
    ensures var t := Solve(u, s, phase);
            Grows(s, t) && Rooted(u, t) && Left(u, t) <= Left(u, s) && t.overList == [] && t.instList == []
                && t.blockList == []
    decreases Rank(u, s), Idle(s, phase)
  {
    hide Grows, Rooted, PopOver, PopInst, PopBlock, Left;
    PopsFall(u, s);
    PopsRooted(u, s);
    GrowsSelf(s);
    if phase == 0 {
      if s.overList != [] {
        SolveKeeps(u, PopOver(u, s), 0);
        GrowsOver(s, PopOver(u, s), Solve(u, s, 0));
      } else {
        SolveKeeps(u, s, 1);
      }
    } else if phase == 1 {
      if s.instList != [] {
        SolveKeeps(u, PopInst(u, s), 1);
        GrowsOver(s, PopInst(u, s), Solve(u, s, 1));
      } else {
        SolveKeeps(u, s, 2);
      }
    } else if s.blockList != [] {
      SolveKeeps(u, PopBlock(u, s), 2);
      GrowsOver(s, PopBlock(u, s), Solve(u, s, 2));
    } else if s.overList != [] || s.instList != [] {
      SolveKeeps(u, s, 0);
    }
  }

  lemma GrowsSelf(s: Solver)
    ensures Grows(s, s)
  {
  }

  // ---------- process_unknown makes progress ----------

  lemma {:induction false} SettlePhisKeepBlocks(s: Solver, phis: seq<Phi>, i: nat)
    requires i <= |phis|
    ensures var t := SettlePhis(s, phis, i); t.exec == s.exec && t.blockList == s.blockList && t.edges == s.edges
    decreases |phis| - i
  {
    if i < |phis| {
      SettlePhisKeepBlocks(if s.Cell(phis[i].x).Unknown? then s.MarkOver(phis[i].x) else s, phis, i + 1);
    }
  }

  lemma {:induction false} SettleBodyKeepsBlocks(s: Solver, body: seq<Inst>, i: nat)
    requires i <= |body|
    ensures var t := SettleBody(s, body, i); t.exec == s.exec && t.blockList == s.blockList && t.edges == s.edges
    decreases |body| - i
  {
    if i < |body| {
      var t := if body[i].Def? && s.Cell(body[i].x).Unknown? then s.MarkOver(body[i].x) else s;
      SettleBodyKeepsBlocks(t, body, i + 1);
    }
  }

  lemma SettleBlockRooted(u: Unit, s: Solver, b: Node)
    requires u.Ok() && Rooted(u, s) && b in s.exec && b in u.f.blocks
    ensures Rooted(u, SettleBlock(s, u.f, b))
  {
    hide Led, MarkEdge, Rank, Left, SettlePhis, SettleBody;
    var blk := u.f.blocks[b];
    var t := SettlePhis(s, blk.phis, 0);
    var r := SettleBody(t, blk.body, 0);
    SettlePhisKeepBlocks(s, blk.phis, 0);
    SettleBodyKeepsBlocks(t, blk.body, 0);
    SettlePhisAdvances(u, s, b, 0);
    SettleBodyAdvances(u, t, b, 0);
    RootedSame(u, s, t);
    RootedSame(u, t, r);
    if blk.term.Branch? {
      MarkEdgeRooted(u, r, b, blk.term.ifTrue);
    }
  }

  lemma {:induction false} SettleRooted(u: Unit, s: Solver, i: nat)
    requires u.Ok() && Rooted(u, s) && i <= |u.order|
    ensures Rooted(u, Settle(u, s, i))
    decreases |u.order| - i
  {
    hide Rooted, SettleBlock;
    if i < |u.order| {
      var b := u.order[i];
      if b in s.exec && b in u.f.blocks { SettleBlockRooted(u, s, b); }
      SettleRooted(u, if b in s.exec && b in u.f.blocks then SettleBlock(s, u.f, b) else s, i + 1);
    }
  }

  // The results of the block are known.
  ghost predicate DefsKnown(s: Solver, blk: Block) {
    && (forall i {:trigger blk.phis[i]} :: 0 <= i < |blk.phis| ==> !s.Cell(blk.phis[i].x).Unknown?)
    && (forall i {:trigger blk.body[i]} :: 0 <= i < |blk.body| && blk.body[i].Def? ==> !s.Cell(blk.body[i].x).Unknown?)
  }

  lemma SameKnown(s: Solver, t: Solver, blk: Block)
    requires t.cells == s.cells
    ensures DefsKnown(t, blk) <==> DefsKnown(s, blk)
  {
    assert forall x :: t.Cell(x) == s.Cell(x);
  }

  // A pass that learns nothing found every result known.
  lemma {:induction false} NothingLearnt(u: Unit, s: Solver, i: nat)
    requires u.Ok() && i <= |u.order| && Left(u, Settle(u, s, i)) == Left(u, s)
    ensures forall j {:trigger u.order[j]} ::
        i <= j < |u.order| && u.order[j] in s.exec && u.order[j] in u.f.blocks ==> DefsKnown(s, u.f.blocks[u.order[j]])
    decreases |u.order| - i
  {
    hide Grows, Rank, Left, SettleBlock, DefsKnown, Unit.Ok, Unit.Vars;
    if i < |u.order| {
      var b := u.order[i];
      var t := if b in s.exec && b in u.f.blocks then SettleBlock(s, u.f, b) else s;
      AdvanceSelf(u, s);
      if b in s.exec && b in u.f.blocks {
        SettleBlockAdvances(u, s, b);
        LearntNothing(u, s, b);
      }
      SettleAdvances(u, t, i + 1);
      NothingLearnt(u, t, i + 1);
      forall j | i <= j < |u.order| && u.order[j] in s.exec
          && u.order[j] in u.f.blocks
        ensures DefsKnown(s, u.f.blocks[u.order[j]])
      {
        SameKnown(s, t, u.f.blocks[u.order[j]]);
      }
    }
  }

  lemma LearntNothing(u: Unit, s: Solver, b: Node)
    requires u.Ok() && b in u.f.blocks
    ensures Left(u, SettleBlock(s, u.f, b)) == Left(u, s) ==> DefsKnown(s, u.f.blocks[b])
  {
    hide Advance, Left, SettleBlock, Unit.Ok;
    SettleBlockAdvances(u, s, b);
  }

  // With all results known, so are the conditions.
  lemma CondKnown(u: Unit, s: Solver, b: Node)
    requires Rooted(u, s) && CondsDominated(u.f) && b in s.exec && b in u.f.blocks && u.f.blocks[b].term.Branch?
    requires forall d :: d in s.exec && d in u.f.blocks ==> DefsKnown(s, u.f.blocks[d])
    ensures !s.Get(u.f.blocks[b].term.cond).Unknown?
  {
    var c := u.f.blocks[b].term.cond;
    if c.Use? && c.x !in u.f.args {
      var d :| DefinedIn(u.f, d, c.x) && Dominates(Cfg(u.f), u.f.entry, d, b);
      assert Led(u.f, s, b);
      var p :| Joins(Cfg(u.f), p, u.f.entry, b) && forall x :: x in p ==> x in s.exec;
      assert d in p && DefsKnown(s, u.f.blocks[d]);
    }
  }

  lemma {:induction false} KnownPhis(s: Solver, phis: seq<Phi>, i: nat)
    requires i <= |phis| && forall j :: i <= j < |phis| ==> !s.Cell(phis[j].x).Unknown?
    ensures SettlePhis(s, phis, i) == s
    decreases |phis| - i
  {
    if i < |phis| { KnownPhis(s, phis, i + 1); }
  }

  lemma {:induction false} KnownBody(s: Solver, body: seq<Inst>, i: nat)
    requires i <= |body| && forall j :: i <= j < |body| && body[j].Def? ==> !s.Cell(body[j].x).Unknown?
    ensures SettleBody(s, body, i) == s
    decreases |body| - i
  {
    if i < |body| { KnownBody(s, body, i + 1); }
  }

  lemma KnownIff(u: Unit, s: Solver, b: Node)
    requires b in u.f.blocks
    ensures Unsettled(s, u.f.blocks[b]) <==> !BlockKnown(s, u.f.blocks[b])
    ensures BlockKnown(s, u.f.blocks[b]) ==> SettleBlock(s, u.f, b) == s
  {
    var blk := u.f.blocks[b];
    if DefsKnown(s, blk) {
      KnownPhis(s, blk.phis, 0);
      KnownBody(s, blk.body, 0);
    }
  }

  // A pass reports a change exactly when something was unknown.
  lemma {:induction false} ChangesIff(u: Unit, s: Solver, i: nat)
    requires i <= |u.order|
    ensures Changes(u, s, i) <==> exists j {:trigger u.order[j]} ::
        i <= j < |u.order| && u.order[j] in s.exec && u.order[j] in u.f.blocks && !BlockKnown(s, u.f.blocks[u.order[j]])
    ensures !Changes(u, s, i) ==> Settle(u, s, i) == s
    decreases |u.order| - i
  {
    hide Unsettled, BlockKnown, SettleBlock;
    if i < |u.order| {
      var b := u.order[i];
      if b in s.exec && b in u.f.blocks {
        KnownIff(u, s, b);
      }
      ChangesIff(u, s, i + 1);
    }
  }

  /** Each pass of process_unknown that reports a change brings the end nearer. */
  lemma ChangesFall(u: Unit, s: Solver)
    requires u.Ok() && Rooted(u, s) && CondsDominated(u.f) && Changes(u, s, 0)
    ensures Left(u, Settle(u, s, 0)) < Left(u, s)
  {
    hide Rooted, CondsDominated, Changes, Settle, Left, Rank, Grows, AllKnown;
    SettleAdvances(u, s, 0);
    if Left(u, Settle(u, s, 0)) == Left(u, s) {
      NothingLearnt(u, s, 0);
      AllConds(u, s);
      KnownNoChange(u, s);
    }
  }

  lemma KnownNoChange(u: Unit, s: Solver)
    requires AllKnown(s, u.f)
    ensures !Changes(u, s, 0)
  {
    hide BlockKnown, Changes;
    ChangesIff(u, s, 0);
    forall j | 0 <= j < |u.order| && u.order[j] in u.f.blocks
        && u.order[j] in s.exec
      ensures BlockKnown(s, u.f.blocks[u.order[j]])
    {
      var b := u.order[j];
      assert b in s.exec && b in u.f.blocks;
    }
  }

  lemma AllConds(u: Unit, s: Solver)
    requires u.Ok() && Rooted(u, s) && CondsDominated(u.f)
    requires forall j {:trigger u.order[j]} ::
        0 <= j < |u.order| && u.order[j] in s.exec && u.order[j] in u.f.blocks ==> DefsKnown(s, u.f.blocks[u.order[j]])
    ensures AllKnown(s, u.f)
  {
    hide Rooted, CondsDominated;
    forall d | d in s.exec && d in u.f.blocks ensures DefsKnown(s, u.f.blocks[d]) {
      var j :| 0 <= j < |u.order| && u.order[j] == d;
    }
    forall b | b in s.exec && b in u.f.blocks ensures BlockKnown(s, u.f.blocks[b]) {
      if u.f.blocks[b].term.Branch? { CondKnown(u, s, b); }
    }
  }

  /** process_func: solve and process_unknown until nothing changes. */
  ghost function Propagate(u: Unit, s: Solver): Solver
    requires u.Ok() && Rooted(u, s) && CondsDominated(u.f)
    decreases Left(u, s)
  {
    SolveKeeps(u, s, 0);
    var t := Solve(u, s, 0);
    if Changes(u, t, 0) then
      ChangesFall(u, t);
      SettleRooted(u, t, 0);
      Propagate(u, Settle(u, t, 0))
    else t
  }

  /** At the end no list has work, nothing in an executable block is unknown, and cells have only moved up. */
  lemma {:induction false} PropagateEnds(u: Unit, s: Solver)
    requires u.Ok() && Rooted(u, s) && CondsDominated(u.f)
    ensures var t := Propagate(u, s);
            && Grows(s, t) && Rooted(u, t) && AllKnown(t, u.f)
            && t.overList == [] && t.instList == [] && t.blockList == []
    decreases Left(u, s)
  {
    hide Grows, Rooted, CondsDominated, Left, Settle, Changes, Solve, AllKnown;
    SolveKeeps(u, s, 0);
    var t := Solve(u, s, 0);
    if Changes(u, t, 0) {
      ChangesFall(u, t);
      SettleRooted(u, t, 0);
      SettleGrows(u, t);
      PropagateEnds(u, Settle(u, t, 0));
      GrowsOver(s, t, Settle(u, t, 0));
      GrowsOver(s, Settle(u, t, 0), Propagate(u, s));
    } else {
      NoChangeKnown(u, t);
    }
  }

  lemma SettleGrows(u: Unit, s: Solver)
    requires u.Ok()
    ensures Grows(s, Settle(u, s, 0))
  {
    hide Grows, Rank, Left;
    SettleAdvances(u, s, 0);
  }

  lemma NoChangeKnown(u: Unit, s: Solver)
    requires u.Ok() && !Changes(u, s, 0)
    ensures AllKnown(s, u.f)
  {
    hide BlockKnown;
    ChangesIff(u, s, 0);
    forall b | b in s.exec && b in u.f.blocks ensures BlockKnown(s, u.f.blocks[b]) {
      var j :| 0 <= j < |u.order| && u.order[j] == b;
    }
  }

  lemma MarkEdgeIff(s: Solver, f: Func, from: Node, to: Node)
    ensures (from, to) in MarkEdge(s, f, from, to).edges
        && forall e :: e in s.edges ==> e in MarkEdge(s, f, from, to).edges
    ensures MarkEdge(s, f, from, to) == s <==> (from, to) in s.edges
  {
    if (from, to) !in s.edges && to in s.exec && to in f.blocks {
      PhisKeepBlocks(s.(edges := s.edges + {(from, to)}), to, f.blocks[to].phis, 0);
    }
  }

  /** A branch is settled exactly when visiting it changes nothing. */
  lemma TermSettledIff(s: Solver, f: Func, b: Node, t: Term)
    ensures TermSettled(s, b, t) <==> VisitTerm(s, f, b, t) == s
  {
    hide MarkEdge;
    match t
    case Jump(to) => MarkEdgeIff(s, f, b, to);
    case Branch(c, yes, no) =>
      MarkEdgeIff(s, f, b, yes);
      MarkEdgeIff(s, f, b, no);
      MarkEdgeIff(s, f, b, if s.Get(c).Constant? && s.Get(c).val != 0 then yes else no);
      MarkEdgeIff(MarkEdge(s, f, b, yes), f, b, no);
    case Return(_) =>
  }
}
