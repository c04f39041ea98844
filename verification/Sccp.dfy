/** The constant propagation as it runs: SCCPSolver (include/Optimize/SCCPSolver.hh) and SCCP
    (include/Optimize/SCCP.hh), on lists and maps updated in place. */
module ConstantPropagation {
  import opened SsaForm
  import opened Basis
  import opened Graphs
  import opened Ssa
  import opened Words
  import opened Lattices
  import opened SccpProgress
  import opened SccpRun
  import opened SccpSound
  import opened SccpClosed
  import opened SccpRewrite
  import opened SccpEdges

  class SCCPSolver {
    const unit: Unit
    var valueState: map<Var, Cell>
    var executableEdges: set<(Node, Node)>
    var bbExecutable: set<Node>
    var bbWorklist: seq<Node>
    var instWorklist: seq<Var>
    var overdefinedInstWorklist: seq<Var>

    constructor (u: Unit)
      ensures unit == u && St() == Solver(map[], {}, {}, [], [], [])
    {
      unit, valueState, executableEdges, bbExecutable := u, map[], {}, {};
      bbWorklist, instWorklist, overdefinedInstWorklist := [], [], [];
    }

    function St(): Solver
      reads this
    {
      Solver(valueState, executableEdges, bbExecutable, bbWorklist, instWorklist, overdefinedInstWorklist)
    }

    // mergein_value with Lattice::mergein and push_to_worklist.
    method MergeinValue(x: Var, rhs: Cell)
      modifies this
      ensures St() == old(St()).MergeIn(x, rhs)
    {
      var lhs := St().Cell(x);
      if rhs.Unknown? || lhs.Over? {
        return;
      }
      if rhs.Over? || (lhs.Constant? && lhs != rhs) {
        valueState := valueState[x := Over];
        overdefinedInstWorklist := overdefinedInstWorklist + [x];
      } else if lhs.Unknown? {
        valueState := valueState[x := rhs];
        instWorklist := instWorklist + [x];
      }
    }

    method VisitPhi(b: Node, p: Phi)
      modifies this
      ensures St() == Lattices.VisitPhi(old(St()), b, p)
    {
      if St().Cell(p.x).Over? {
        return;
      }
      var lat := St().Cell(p.x);
      var i := 0;
      while i < |p.ins| && !lat.Over?
        invariant 0 <= i <= |p.ins|
        invariant PhiMerge(St(), b, p.ins, i, lat) == PhiMerge(old(St()), b, p.ins, 0, old(St()).Cell(p.x))
        invariant St() == old(St())
      {
        if (p.ins[i].1, b) in executableEdges {
          lat := Merge(lat, St().Get(p.ins[i].0));
        }
        i := i + 1;
      }
      MergeinValue(p.x, lat);
    }

    // mark_overdefined, lines 95-101.
    method MarkOverdefined(x: Var)
      modifies this
      ensures St() == old(St()).MarkOver(x)
    {
      if !St().Cell(x).Over? {
        valueState := valueState[x := Over];
        overdefinedInstWorklist := overdefinedInstWorklist + [x];
      }
    }

    // The switch of lines 171-236 on instructions of the body.
    method VisitInst(inst: Inst)
      modifies this
      ensures St() == Lattices.VisitInst(old(St()), inst)
    {
      match inst
      case Effect(_) =>
      case Def(x, Binary(op, a, b)) => VisitBinary(x, op, a, b);
      case Def(x, Compare(c, a, b)) => VisitCmp(x, c, a, b);
      case Def(x, Extend(a)) => VisitZext(x, a);
      case Def(x, Opaque(_)) => MarkOverdefined(x);
    }

    // visit_binary, lines 305-331. eval gives a constant only for two constants.
    method VisitBinary(x: Var, op: Op, a: Operand, b: Operand)
      modifies this
      ensures St() == VisitDef(old(St()), x, Binary(op, a, b))
    {
      var llat, rlat := St().Get(a), St().Get(b);
      if St().Cell(x).Over? || llat.Unknown? || rlat.Unknown? {
        return;
      }
      if llat.Over? && rlat.Over? {
        MarkOverdefined(x);
        return;
      }
      if llat.Constant? && rlat.Constant? {
        MergeinValue(x, Constant(Fold(op, llat.val, rlat.val)));
        return;
      }
      MarkOverdefined(x);
    }

    // visit_cmp, lines 332-353.
    method VisitCmp(x: Var, c: Cmp, a: Operand, b: Operand)
      modifies this
      ensures St() == VisitDef(old(St()), x, Compare(c, a, b))
    {
      if St().Cell(x).Over? {
        MarkOverdefined(x);
        return;
      }
      var llat, rlat := St().Get(a), St().Get(b);
      if llat.Unknown? || rlat.Unknown? {
        return;
      }
      if llat.Constant? && rlat.Constant? {
        MergeinValue(x, Constant(FoldCmp(c, llat.val, rlat.val)));
        return;
      }
      MarkOverdefined(x);
    }

    // visit_zext, lines 421-449.
    method VisitZext(x: Var, a: Operand)
      modifies this
      ensures St() == VisitDef(old(St()), x, Extend(a))
    {
      if St().Cell(x).Over? {
        return;
      }
      var lat := St().Get(a);
      if lat.Unknown? {
        return;
      }
      if lat.Over? {
        MarkOverdefined(x);
        return;
      }
      MergeinValue(x, lat);
    }

    method MarkEdgeExecutable(from: Node, to: Node)
      modifies this
      ensures St() == MarkEdge(old(St()), unit.f, from, to)
    {
      if (from, to) in executableEdges {
        return;
      }
      executableEdges := executableEdges + {(from, to)};
      if to !in bbExecutable {
        bbExecutable := bbExecutable + {to};
        bbWorklist := bbWorklist + [to];
      } else if to in unit.f.blocks {
        VisitAllPhis(to, unit.f.blocks[to].phis);
      }
    }

    method VisitAllPhis(b: Node, phis: seq<Phi>)
      modifies this
      ensures St() == VisitPhis(old(St()), b, phis, 0)
    {
      var i := 0;
      while i < |phis|
        invariant 0 <= i <= |phis| && VisitPhis(St(), b, phis, i) == VisitPhis(old(St()), b, phis, 0)
      {
        VisitPhi(b, phis[i]);
        i := i + 1;
      }
    }

    method VisitTerm(b: Node, t: Term)
      modifies this
      ensures St() == Lattices.VisitTerm(old(St()), unit.f, b, t)
    {
      match t
      case Jump(to) => MarkEdgeExecutable(b, to);
      case Branch(c, yes, no) =>
        var lat := St().Get(c);
        if lat.Constant? {
          MarkEdgeExecutable(b, if lat.val != 0 then yes else no);
        } else if lat.Over? {
          MarkEdgeExecutable(b, yes);
          MarkEdgeExecutable(b, no);
        }
      case Return(_) =>
    }

    method VisitBlock(b: Node)
      requires b in unit.f.blocks
      modifies this
      ensures St() == Lattices.VisitBlock(old(St()), unit.f, b)
    {
      var blk := unit.f.blocks[b];
      VisitAllPhis(b, blk.phis);
      ghost var mid := St();
      var i := 0;
      while i < |blk.body|
        invariant 0 <= i <= |blk.body| && VisitBody(St(), blk.body, i) == VisitBody(mid, blk.body, 0)
      {
        VisitInst(blk.body[i]);
        i := i + 1;
      }
      VisitTerm(b, blk.term);
    }

    method MarkUsersAsChanged(x: Var)
      modifies this
      ensures St() == VisitUsers(old(St()), unit.f, unit.Users(x), 0)
    {
      var users := unit.Users(x);
      var i := 0;
      while i < |users|
        invariant 0 <= i <= |users| && VisitUsers(St(), unit.f, users, i) == VisitUsers(old(St()), unit.f, users, 0)
      {
        OperandChangedState(users[i]);
        i := i + 1;
      }
    }

    method OperandChangedState(user: User)
      modifies this
      ensures St() == VisitUser(old(St()), unit.f, user)
    {
      if user.b in bbExecutable && user.b in unit.f.blocks {
        var blk := unit.f.blocks[user.b];
        match user
        case PhiAt(b, i) => if i < |blk.phis| { VisitPhi(b, blk.phis[i]); }
        case BodyAt(b, i) => if i < |blk.body| { VisitInst(blk.body[i]); }
        case TermAt(b) => VisitTerm(b, blk.term);
      }
    }

    /** solve, lines 107-127. */
    method Solve()
      requires unit.Ok() && Rooted(unit, St())
      modifies this
      ensures St() == SccpProgress.Solve(unit, old(St()), 0)
    {
      hide Rooted, Grows, Rank, Left, Unit.Ok;
      ghost var end := SccpProgress.Solve(unit, St(), 0);
      while bbWorklist != [] || instWorklist != [] || overdefinedInstWorklist != []
        invariant Rooted(unit, St()) && SccpProgress.Solve(unit, St(), 0) == end
        decreases Rank(unit, St())
      {
        OverdefinedValues(end);
        OtherValues(end);
        Blocks(end);
        if instWorklist == [] && overdefinedInstWorklist == [] { SolveDone(unit, St()); }
      }
      SolveDone(unit, St());
    }

    // Lines 110-114.
    method OverdefinedValues(ghost end: Solver)
      requires unit.Ok() && Rooted(unit, St()) && SccpProgress.Solve(unit, St(), 0) == end
      modifies this
      ensures Rooted(unit, St()) && SccpProgress.Solve(unit, St(), 1) == end
      ensures St() == old(St()) || Rank(unit, St()) < Rank(unit, old(St()))
      ensures overdefinedInstWorklist == [] && (old(overdefinedInstWorklist) != [] ==> St() != old(St()))
    {
      hide Rooted, Grows, Rank, Left, Unit.Ok, VisitUsers;
      while overdefinedInstWorklist != []
        invariant Rooted(unit, St()) && SccpProgress.Solve(unit, St(), 0) == end
        invariant St() == old(St()) || Rank(unit, St()) < Rank(unit, old(St()))
        decreases Rank(unit, St())
      {
        PopsFall(unit, St());
        PopsRooted(unit, St());
        var val := overdefinedInstWorklist[0];
        overdefinedInstWorklist := overdefinedInstWorklist[1..];
        MarkUsersAsChanged(val);
      }
    }

    // Lines 115-120.
    method OtherValues(ghost end: Solver)
      requires unit.Ok() && Rooted(unit, St()) && SccpProgress.Solve(unit, St(), 1) == end
      modifies this
      ensures Rooted(unit, St()) && SccpProgress.Solve(unit, St(), 2) == end
      ensures St() == old(St()) || Rank(unit, St()) < Rank(unit, old(St()))
      ensures instWorklist == [] && (old(instWorklist) != [] ==> St() != old(St()))
    {
      hide Rooted, Grows, Rank, Left, Unit.Ok, VisitUsers;
      while instWorklist != []
        invariant Rooted(unit, St()) && SccpProgress.Solve(unit, St(), 1) == end
        invariant St() == old(St()) || Rank(unit, St()) < Rank(unit, old(St()))
        decreases Rank(unit, St())
      {
        PopsFall(unit, St());
        PopsRooted(unit, St());
        var val := instWorklist[0];
        ghost var s := St();
        instWorklist := instWorklist[1..];
        if St().Cell(val).Over? {
          MarkUsersAsChanged(val);
        }
        assert St() == PopInst(unit, s);
      }
    }

    // Lines 121-125.
    method Blocks(ghost end: Solver)
      requires unit.Ok() && Rooted(unit, St()) && SccpProgress.Solve(unit, St(), 2) == end
      modifies this
      ensures Rooted(unit, St()) && bbWorklist == [] && SccpProgress.Solve(unit, St(), 2) == end
      ensures St() == old(St()) || Rank(unit, St()) < Rank(unit, old(St()))
      ensures old(bbWorklist) != [] ==> St() != old(St())
    {
      hide Rooted, Grows, Rank, Left, Unit.Ok, Lattices.VisitBlock;
      while bbWorklist != []
        invariant Rooted(unit, St()) && SccpProgress.Solve(unit, St(), 2) == end
        invariant St() == old(St()) || Rank(unit, St()) < Rank(unit, old(St()))
        decreases Rank(unit, St())
      {
        PopsFall(unit, St());
        PopsRooted(unit, St());
        HeadExecutable(unit, St());
        var bb := bbWorklist[0];
        bbWorklist := bbWorklist[1..];
        VisitBlock(bb);
      }
    }

    /** process_unknown, lines 277-303. */
    method ProcessUnknown() returns (changed: bool)
      requires unit.Ok()
      modifies this
      ensures St() == Settle(unit, old(St()), 0) && (changed <==> Changes(unit, old(St()), 0))
    {
      changed := false;
      ghost var start := St();
      var i := 0;
      while i < |unit.order|
        invariant 0 <= i <= |unit.order| && Settle(unit, St(), i) == Settle(unit, start, 0)
        invariant Changes(unit, start, 0) <==> changed || Changes(unit, St(), i)
      {
        var b := unit.order[i];
        if b in bbExecutable && b in unit.f.blocks {
          var one := SettleOneBlock(b);
          changed := changed || one;
        }
        i := i + 1;
      }
    }

    method SettleOneBlock(b: Node) returns (changed: bool)
      requires b in unit.f.blocks
      modifies this
      ensures St() == SettleBlock(old(St()), unit.f, b) && (changed <==> Unsettled(old(St()), unit.f.blocks[b]))
    {
      ghost var start := St();
      var blk := unit.f.blocks[b];
      changed := false;
      var i := 0;
      while i < |blk.phis|
        invariant 0 <= i <= |blk.phis| && SettlePhis(St(), blk.phis, i) == SettlePhis(start, blk.phis, 0)
        invariant PhisUnknown(start, blk.phis, 0) <==> changed || PhisUnknown(St(), blk.phis, i)
      {
        if St().Cell(blk.phis[i].x).Unknown? {
          MergeinValue(blk.phis[i].x, Over);
          changed := true;
        }
        i := i + 1;
      }
      i := 0;
      ghost var mid := St();
      BodyUnknownAfter(start, blk);
      while i < |blk.body|
        invariant 0 <= i <= |blk.body| && SettleBody(St(), blk.body, i) == SettleBody(mid, blk.body, 0)
        invariant PhisUnknown(start, blk.phis, 0) || BodyUnknown(mid, blk.body, 0) <==>
            changed || BodyUnknown(St(), blk.body, i)
      {
        if blk.body[i].Def? && St().Cell(blk.body[i].x).Unknown? {
          MergeinValue(blk.body[i].x, Over);
          changed := true;
        }
        i := i + 1;
      }
      if blk.term.Branch? && St().Get(blk.term.cond).Unknown? {
        MarkEdgeExecutable(b, blk.term.ifTrue);
        changed := true;
      }
    }
  }

  ghost predicate PhisUnknown(s: Solver, phis: seq<Phi>, i: nat) {
    exists j {:trigger phis[j]} :: i <= j < |phis| && s.Cell(phis[j].x).Unknown?
  }

  ghost predicate BodyUnknown(s: Solver, body: seq<Inst>, i: nat) {
    exists j {:trigger body[j]} :: i <= j < |body| && body[j].Def? && s.Cell(body[j].x).Unknown?
  }

  lemma {:induction false} SettlePhisUnknown(s: Solver, phis: seq<Phi>, i: nat, x: Var)
    requires i <= |phis|
    ensures SettlePhis(s, phis, i).Cell(x).Unknown? <==>
        s.Cell(x).Unknown? && forall j {:trigger phis[j]} :: i <= j < |phis| ==> phis[j].x != x
    decreases |phis| - i
  {
    if i < |phis| {
      SettlePhisUnknown(if s.Cell(phis[i].x).Unknown? then s.MarkOver(phis[i].x) else s, phis, i + 1, x);
    }
  }

  // Settling the phis first makes no difference to whether something is unknown.
  lemma BodyUnknownAfter(s: Solver, blk: Block)
    ensures PhisUnknown(s, blk.phis, 0) || BodyUnknown(SettlePhis(s, blk.phis, 0), blk.body, 0) <==>
            PhisUnknown(s, blk.phis, 0) || BodyUnknown(s, blk.body, 0)
  {
    forall x ensures SettlePhis(s, blk.phis, 0).Cell(x).Unknown? <==>
                     s.Cell(x).Unknown? && forall j {:trigger blk.phis[j]} :: 0 <= j < |blk.phis| ==>
                         blk.phis[j].x != x {
      SettlePhisUnknown(s, blk.phis, 0, x);
    }
  }

  lemma HeadExecutable(u: Unit, s: Solver)
    requires Rooted(u, s) && s.blockList != []
    ensures s.blockList[0] in u.f.blocks
  {
    var b := s.blockList[0];
    assert b in s.blockList;
    assert b in s.exec;
  }

  lemma SolveDone(u: Unit, s: Solver)
    requires u.Ok() && s.overList == [] && s.instList == [] && s.blockList == []
    ensures SccpProgress.Solve(u, s, 0) == s
  {
    assert SccpProgress.Solve(u, s, 2) == s;
    assert SccpProgress.Solve(u, s, 1) == SccpProgress.Solve(u, s, 2);
  }

  lemma StartRooted(u: Unit, s: Solver)
    requires u.Ok() && s.exec == {u.f.entry} && s.blockList == [u.f.entry]
        && forall x :: x in u.f.args ==> s.Cell(x).Over?
    ensures Rooted(u, s)
  {
    SinglePath(Cfg(u.f), u.f.entry);
    assert Joins(Cfg(u.f), [u.f.entry], u.f.entry, u.f.entry);
    assert forall x :: x in [u.f.entry] ==> x in s.exec;
  }

  /** One function: SCCP::process_func, lines 26-37. */
  class SCCP {
    var func: Func
    const order: seq<Node>
    const users: map<Var, seq<User>>

    constructor (f: Func, order: seq<Node>, users: map<Var, seq<User>>)
      ensures func == f && this.order == order && this.users == users
    {
      func, this.order, this.users := f, order, users;
    }

    /** It ends, and nothing executable is left unknown. If phis read only constants and arguments over edges
        out of blocks that branch on a variable (Followed), the state it ends in is closed and the operands left
        are those of the blocks that still lead to the phi; and by a closed state every run of the function is a
        run of what it is rewritten to. */
    method ProcessFunc() returns (solver: SCCPSolver)
      requires Unit(func, order, users).Ok() && CondsDominated(func)
      modifies this`func
      ensures fresh(solver) && solver.unit == Unit(old(func), order, users)
      ensures AllKnown(solver.St(), old(func)) && old(func).entry in solver.bbExecutable
      ensures solver.bbWorklist == [] && solver.instWorklist == [] && solver.overdefinedInstWorklist == []
      ensures Rewritten(solver.St(), old(func), func)
      ensures Followed(Unit(old(func), order, users)) ==>
                && Closed(solver.St(), old(func))
                && OnlyPredecessors(solver.St(), func) && AllPredecessors(solver.St(), func)
      ensures Followed(Unit(old(func), order, users)) || Closed(solver.St(), old(func)) ==>
                forall run: seq<Config>, visits: seq<Visit> {:trigger Runs(old(func), run, visits)} ::
                  Runs(old(func), run, visits) ==> Runs(func, run, visits)
    {
      hide AllKnown, Grows, Rooted, CondsDominated, Runs, Rewritten, Closed, Followed, OnlyPredecessors,
          AllPredecessors;
      var u := Unit(func, order, users);
      solver := new SCCPSolver(u);
      solver.bbExecutable, solver.bbWorklist := {func.entry}, [func.entry];
      MarkArguments(solver);
      StartRooted(u, solver.St());
      ghost var first := solver.St();
      ghost var end := Propagate(u, first);
      PropagateEnds(u, solver.St());
      if Followed(u) { SolveCloses(u, solver.St()); }
      GrowsEntry(solver.St(), end, func.entry);
      var changed := true;
      while changed
        invariant Rooted(u, solver.St()) && func == old(func)
        invariant if changed then Propagate(u, solver.St()) == end else solver.St() == end
        decreases changed, Left(u, solver.St())
      {
        ghost var s := solver.St();
        SolveKeeps(u, s, 0);
        solver.Solve();
        ghost var t := solver.St();
        SettleRooted(u, t, 0);
        if Changes(u, t, 0) { ChangesFall(u, t); } else { ChangesIff(u, t, 0); }
        changed := solver.ProcessUnknown();
      }
      ghost var last := solver.St();
      BlocksListed(u);
      RewriteBlocks(solver.St());
      assert solver.St() == last;
      if Followed(u) { OperandsExact(u, first, func); }
      forall run: seq<Config>, visits: seq<Visit> | Closed(last, u.f)
          && Runs(u.f, run, visits)
        ensures Runs(func, run, visits)
      {
        RewriteKeepsRuns(last, u.f, func, run, visits);
      }
    }

    // Lines 29-30.
    method MarkArguments(solver: SCCPSolver)
      requires solver.St().exec == {func.entry} && solver.St().blockList == [func.entry] && solver.St().edges == {}
      modifies solver
      ensures solver.St().exec == {func.entry} && solver.St().blockList == [func.entry] && solver.St().edges == {}
      ensures forall x :: x in func.args ==> solver.St().Cell(x).Over?
    {
      var todo := func.args;
      while todo != {}
        invariant todo <= func.args
        invariant solver.St().exec == {func.entry} && solver.St().blockList == [func.entry] && solver.St().edges == {}
        invariant forall x :: x in func.args && x !in todo ==> solver.St().Cell(x).Over?
      {
        SomeElement(todo);
        var arg :| arg in todo;
        solver.MarkOverdefined(arg);
        todo := todo - {arg};
      }
    }

    // rewrite, lines 38-127. Blocks that are not executable are left alone.
    method RewriteBlocks(s: Solver)
      requires forall b :: b in func.blocks ==> b in order
      modifies this`func
      ensures Rewritten(s, old(func), func)
    {
      hide Partly, Adds, Rewritten, NewFunc, CutBlock, Gives;
      ghost var c: Consts, part := map[], func;
      NothingNew(func);
      PartlyNone(s, func);
      var k := 0;
      while k < |order|
        invariant 0 <= k <= |order| && func == NewFunc(c, part) && Partly(s, old(func), order[..k], c, part)
      {
        var bb := order[k];
        SameBlocks(s, old(func), order[..k], c, part);
        assert order[..k + 1] == order[..k] + [bb];
        if bb in s.exec && bb in func.blocks {
          ghost var d, more := RewriteBlock(s, bb, c, part);
          PartlyMore(s, old(func), order[..k], c, part, bb, d);
          c, part := d, more;
        } else {
          PartlySkip(s, old(func), order[..k], c, part, bb);
        }
        k := k + 1;
      }
      assert order[..k] == order;
      PartlyAll(s, old(func), order, c, part);
    }

    // Lines 55-125 for one block.
    method RewriteBlock(s: Solver, bb: Node, ghost c: Consts, ghost part: Func) returns (ghost d: Consts,
        ghost more: Func)
      requires func == NewFunc(c, part) && bb in part.blocks && bb in s.exec && Right(s, c)
      modifies this`func
      ensures func == NewFunc(d, more) && Adds(s, part.blocks[bb], c, d) && Right(s, d)
      ensures forall x :: Gives(part.blocks[bb], x) && s.Cell(x).Constant? ==> x in d
      ensures more == part.(blocks := part.blocks[bb := CutBlock(s, bb, part.blocks[bb])])
    {
      hide NewFunc, CutPhi, CutTerm, CutBlock;
      d, more := RewritePhis(s, bb, c, part);
      d := RewriteBody(s, bb, c, d, part, more);
      BlockOf(d, more, bb);
      CondCell(s, d, more.blocks[bb].term);
      var t := func.blocks[bb].term;
      if t.Branch? && s.Get(t.cond).Constant? {
        ghost var jump := Jump(if s.Get(t.cond).val != 0 then t.ifTrue else t.ifFalse);
        TermInPlace(d, more, bb, jump);
        func := WithTerm(func, bb, Jump(if s.Get(t.cond).val != 0 then t.ifTrue else t.ifFalse));
        more := WithTerm(more, bb, jump);
      }
      CutDone(s, bb, part, more);
    }

    // The results of the body: constants replace their uses.
    method RewriteBody(s: Solver, bb: Node, ghost c: Consts, ghost c2: Consts, ghost part: Func,
        ghost more: Func) returns (ghost d: Consts)
      requires func == NewFunc(c2, more) && bb in part.blocks && bb in more.blocks && Right(s, c2)
          && Adds(s, part.blocks[bb], c, c2)
      requires more.blocks[bb].body == part.blocks[bb].body
      requires forall k :: 0 <= k < |part.blocks[bb].phis| && s.Cell(part.blocks[bb].phis[k].x).Constant? ==>
          part.blocks[bb].phis[k].x in c2
      modifies this`func
      ensures func == NewFunc(d, more) && Adds(s, part.blocks[bb], c, d) && Right(s, d)
      ensures forall x :: Gives(part.blocks[bb], x) && s.Cell(x).Constant? ==> x in d
    {
      hide NewFunc;
      d := c2;
      BlockOf(d, more, bb);
      var i := 0;
      while i < |func.blocks[bb].body|
        invariant func == NewFunc(d, more) && bb in func.blocks && Right(s, d)
        invariant |func.blocks[bb].body| == |part.blocks[bb].body| && 0 <= i <= |func.blocks[bb].body|
        invariant Adds(s, part.blocks[bb], c, d) && forall x :: x in c2 ==> x in d
        invariant forall k :: (0 <= k < i && part.blocks[bb].body[k].Def?
                                  && s.Cell(part.blocks[bb].body[k].x).Constant?) ==> part.blocks[bb].body[k].x in d
      {
        var inst := func.blocks[bb].body[i];
        BlockOf(d, more, bb);
        SameResult(d, more.blocks[bb].body[i]);
        if inst.Def? && s.Cell(inst.x).Constant? {
          ReplaceMore(d, more, inst.x, s.Cell(inst.x).val);
          func := NewFunc(map[inst.x := s.Cell(inst.x).val], func);
          d := d[inst.x := s.Cell(inst.x).val];
          BlockOf(d, more, bb);
        }
        i := i + 1;
      }
    }

    // The phis come first: constants replace their uses, others lose the operands of dead edges.
    method RewritePhis(s: Solver, bb: Node, ghost c: Consts, ghost part: Func) returns (ghost d: Consts,
        ghost more: Func)
      requires func == NewFunc(c, part) && bb in part.blocks && Right(s, c)
      modifies this`func
      ensures func == NewFunc(d, more) && bb in func.blocks && |func.blocks[bb].body| == |part.blocks[bb].body|
      ensures Adds(s, part.blocks[bb], c, d) && Right(s, d) && PhisCut(s, bb, part, more, |part.blocks[bb].phis|)
      ensures forall k :: 0 <= k < |part.blocks[bb].phis| && s.Cell(part.blocks[bb].phis[k].x).Constant? ==>
          part.blocks[bb].phis[k].x in d
    {
      hide NewFunc, CutPhi, Feasible;
      d, more := c, part;
      BlockOf(d, more, bb);
      var i := 0;
      while i < |func.blocks[bb].phis|
        invariant func == NewFunc(d, more) && bb in func.blocks && Right(s, d)
        invariant |func.blocks[bb].phis| == |part.blocks[bb].phis| && 0 <= i <= |func.blocks[bb].phis|
        invariant PhisCut(s, bb, part, more, i) && Adds(s, part.blocks[bb], c, d)
        invariant forall k :: 0 <= k < i && s.Cell(part.blocks[bb].phis[k].x).Constant? ==>
            part.blocks[bb].phis[k].x in d
      {
        var phi := func.blocks[bb].phis[i];
        BlockOf(d, more, bb);
        PhiConstant(s, bb, part.blocks[bb].phis[i]);
        if s.Cell(phi.x).Constant? {
          ReplaceMore(d, more, phi.x, s.Cell(phi.x).val);
          func := NewFunc(map[phi.x := s.Cell(phi.x).val], func);
          d := d[phi.x := s.Cell(phi.x).val];
        } else {
          ghost var old_ := more.blocks[bb].phis[i];
          var ins := RemoveDeadOperands(s, bb, phi.ins);
          FeasibleNew(s, bb, d, old_.ins);
          PhiInPlace(d, more, bb, i, CutPhi(s, bb, old_));
          func := WithPhi(func, bb, i, Phi(phi.x, ins));
          more := WithPhi(more, bb, i, CutPhi(s, bb, old_));
        }
        BlockOf(d, more, bb);
        i := i + 1;
      }
      BlockOf(d, more, bb);
    }

    // Lines 67-74: the loop steps back after each removal.
    method RemoveDeadOperands(s: Solver, bb: Node, ins: seq<(Operand, Node)>) returns (kept: seq<(Operand, Node)>)
      ensures kept == Feasible(s, bb, ins)
    {
      kept := ins;
      var i := 0;
      ghost var seen := 0;
      while i < |kept|
        invariant 0 <= i <= |kept| && 0 <= seen <= |ins| && |kept| - i == |ins| - seen
        invariant kept[..i] == Feasible(s, bb, ins[..seen]) && kept[i..] == ins[seen..]
        decreases |kept| - i
      {
        assert kept[i] == kept[i..][0] == ins[seen];
        assert ins[..seen + 1][..seen] == ins[..seen];
        if (kept[i].1, bb) !in s.edges {
          ghost var before := kept;
          kept := kept[..i] + kept[i + 1..];
          assert kept[i..] == before[i..][1..];
          assert kept[..i] == before[..i] + [];
        } else {
          assert kept[..i + 1] == kept[..i] + [kept[i]];
          assert kept[i + 1..] == kept[i..][1..];
          i := i + 1;
        }
        seen := seen + 1;
      }
      assert kept == kept[..i] && ins == ins[..seen];
    }
  }

  lemma BlocksListed(u: Unit)
    requires u.Ok()
    ensures forall b :: b in u.f.blocks ==> b in u.order
  {
  }

  // c holds constants of s.
  ghost predicate Right(s: Solver, c: Consts) { forall x :: x in c ==> s.Cell(x) == Constant(c[x]) }

  // The first i phis are cut.
  ghost predicate PhisCut(s: Solver, bb: Node, part: Func, more: Func, i: nat)
    requires bb in part.blocks
  {
    && more.entry == part.entry && more.args == part.args && more.blocks.Keys == part.blocks.Keys
    && (forall b :: b in part.blocks && b != bb ==> more.blocks[b] == part.blocks[b])
    && more.blocks[bb].body == part.blocks[bb].body && more.blocks[bb].term == part.blocks[bb].term
    && |more.blocks[bb].phis| == |part.blocks[bb].phis|
    && forall k :: 0 <= k < |part.blocks[bb].phis| ==>
         more.blocks[bb].phis[k] == if k < i then CutPhi(s, bb, part.blocks[bb].phis[k]) else part.blocks[bb].phis[k]
  }

  lemma PartlyNone(s: Solver, f: Func)
    ensures Partly(s, f, [], map[], f)
  {
  }

  lemma SameBlocks(s: Solver, f: Func, done: seq<Node>, c: Consts, part: Func)
    requires Partly(s, f, done, c, part)
    ensures part.blocks.Keys == f.blocks.Keys && NewFunc(c, part).blocks.Keys == f.blocks.Keys && Right(s, c)
  {
  }

  lemma BlockOf(c: Consts, f: Func, b: Node)
    requires b in f.blocks
    ensures b in NewFunc(c, f).blocks && NewFunc(c, f).blocks[b] == NewBlock(c, f.blocks[b])
  {
  }

  lemma SameResult(c: Consts, i: Inst)
    ensures NewInst(c, i).Def? == i.Def? && (i.Def? ==> NewInst(c, i).x == i.x)
  {
  }

  lemma PhiConstant(s: Solver, b: Node, p: Phi)
    ensures CutPhi(s, b, p).x == p.x && (s.Cell(p.x).Constant? ==> CutPhi(s, b, p) == p)
    ensures !s.Cell(p.x).Constant? ==> CutPhi(s, b, p) == Phi(p.x, Feasible(s, b, p.ins))
  {
  }

  // Replacing a condition by its constant does not change what the solver says of it.
  lemma CondCell(s: Solver, c: Consts, t: Term)
    requires Right(s, c)
    ensures t.Branch? ==> s.Get(NewOperand(c, t.cond)) == s.Get(t.cond)
    ensures CutTerm(s, t) ==
            if t.Branch? && s.Get(t.cond).Constant?
            then Jump(if s.Get(t.cond).val != 0 then t.ifTrue else t.ifFalse) else t
  {
  }

  lemma CutDone(s: Solver, bb: Node, part: Func, more: Func)
    requires bb in part.blocks && bb in more.blocks
        && PhisCut(s, bb, part, WithTerm(more, bb, part.blocks[bb].term), |part.blocks[bb].phis|)
    requires more.blocks[bb].term == CutTerm(s, part.blocks[bb].term)
    ensures more == part.(blocks := part.blocks[bb := CutBlock(s, bb, part.blocks[bb])])
  {
    assert more.blocks[bb].phis == CutBlock(s, bb, part.blocks[bb]).phis;
    var done := WithTerm(more, bb, part.blocks[bb].term);
    assert done.blocks.Keys == part.blocks.Keys == more.blocks.Keys;
    forall b | b in part.blocks
      ensures more.blocks[b] == if b == bb then CutBlock(s, bb, part.blocks[bb]) else part.blocks[b]
    {
      if b != bb { assert done.blocks[b] == part.blocks[b]; }
    }
  }

  lemma GrowsEntry(s: Solver, t: Solver, entry: Node)
    requires Grows(s, t) && entry in s.exec
    ensures entry in t.exec
  {
  }
}
