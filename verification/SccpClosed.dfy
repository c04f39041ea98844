/** When the constant propagation is right. Line 118 of SCCPSolver.hh lets a phi miss an operand that becomes a
    constant after its edge was marked. That takes an edge out of a block whose branch was looked at before the
    block itself, so it cannot happen if no phi reads a variable over an edge out of a block that branches on
    one: on functions in SSA form the final state is then closed. */
module SccpClosed {
  import opened SsaForm
  import opened Graphs
  import opened Ssa
  import opened Lattices
  import opened SccpProgress
  import opened SccpRun

  // ---------- the condition on the function ----------

  function Operands(i: Inst): seq<Operand> {
    match i
    case Effect(uses) => uses
    case Def(_, Binary(_, a, b)) => [a, b]
    case Def(_, Compare(_, a, b)) => [a, b]
    case Def(_, Extend(a)) => [a]
    case Def(_, Opaque(uses)) => uses
  }

  predicate Exists(f: Func, u: User) {
    && u.b in f.blocks
    && match u
       case PhiAt(b, i) => i < |f.blocks[b].phis|
       case BodyAt(b, i) => i < |f.blocks[b].body|
       case TermAt(_) => true
  }

  ghost predicate UsesAt(f: Func, u: User, x: Var) {
    && Exists(f, u)
    && match u
       case PhiAt(b, i) => exists k {:trigger f.blocks[b].phis[i].ins[k]} ::
           0 <= k < |f.blocks[b].phis[i].ins| && f.blocks[b].phis[i].ins[k].0 == Use(x)
       case BodyAt(b, i) => Use(x) in Operands(f.blocks[b].body[i])
       case TermAt(b) =>
         match f.blocks[b].term
         case Jump(_) => false
         case Branch(c, _, _) => c == Use(x)
         case Return(uses) => Use(x) in uses
  }

  // The use lists name the uses, all of them and nothing else.
  ghost predicate UseLists(u: Unit) {
    forall x, site {:trigger site in u.Users(x)} {:trigger UsesAt(u.f, site, x)} :: site in u.Users(x) <==>
        UsesAt(u.f, site, x)
  }

  // x is defined wherever control leaves block p.
  ghost predicate Leaves(f: Func, p: Node, x: Var) {
    x in f.args || exists d :: DefinedIn(f, d, x) && Dominates(Cfg(f), f.entry, d, p)
  }

  // x is defined when control gets to instruction i of block b.
  ghost predicate Arrives(f: Func, b: Node, i: nat, x: Var)
    requires b in f.blocks && i <= |f.blocks[b].body|
  {
    || x in f.args
    || (exists d :: d != b && DefinedIn(f, d, x) && Dominates(Cfg(f), f.entry, d, b))
    || (exists k {:trigger f.blocks[b].phis[k]} :: 0 <= k < |f.blocks[b].phis| && f.blocks[b].phis[k].x == x)
    || (exists k {:trigger f.blocks[b].body[k]} :: 0 <= k < i && f.blocks[b].body[k].Def? && f.blocks[b].body[k].x == x)
  }

  /** SSA form: operands are defined on every path that leads to them, a phi has an operand for each edge into
      its block, and the entry has no phis. */
  ghost predicate InSsa(f: Func) {
    && CondsDominated(f)
    && (f.entry in f.blocks ==> f.blocks[f.entry].phis == [])
    && (forall b, i, x {:trigger Use(x) in Operands(f.blocks[b].body[i])} ::
          b in f.blocks && 0 <= i < |f.blocks[b].body| && Use(x) in Operands(f.blocks[b].body[i]) ==>
              Arrives(f, b, i, x))
    && (forall b, i, k {:trigger f.blocks[b].phis[i].ins[k]} ::
          b in f.blocks && 0 <= i < |f.blocks[b].phis| && 0 <= k < |f.blocks[b].phis[i].ins| ==>
              FromPred(f, f.blocks[b].phis[i].ins[k]))
    && (forall p, b, i {:trigger b in Targets(f.blocks[p].term), f.blocks[b].phis[i]} ::
          p in f.blocks && b in Targets(f.blocks[p].term) && b in f.blocks && 0 <= i < |f.blocks[b].phis| ==>
              HasOperand(f.blocks[b].phis[i], p))
  }

  ghost predicate FromPred(f: Func, op: (Operand, Node)) { op.0.Use? && op.1 in f.blocks ==> Leaves(f, op.1, op.0.x) }

  ghost predicate HasOperand(phi: Phi, p: Node) {
    exists k {:trigger phi.ins[k]} :: 0 <= k < |phi.ins| && phi.ins[k].1 == p
  }

  // Over an edge out of a block that branches on a variable, phis read constants and arguments only.
  ghost predicate PlainOverBranches(f: Func) {
    forall b, i, k {:trigger f.blocks[b].phis[i].ins[k]} ::
      b in f.blocks && 0 <= i < |f.blocks[b].phis| && 0 <= k < |f.blocks[b].phis[i].ins| ==>
          Plain(f, f.blocks[b].phis[i].ins[k])
  }

  ghost predicate Plain(f: Func, op: (Operand, Node)) {
    op.1 in f.blocks && f.blocks[op.1].term.Branch? && f.blocks[op.1].term.cond.Use? ==> op.0.Use? ==> op.0.x in f.args
  }

  /** What a caller can check before process_func. */
  ghost predicate Followed(u: Unit) { UseLists(u) && InSsa(u.f) && PlainOverBranches(u.f) }

  // ---------- one place in the function ----------

  // The result of the instruction is known, and so are the operands its visit looks at.
  predicate SiteKnown(s: Solver, f: Func, u: User) {
    && Exists(f, u)
    && match u
       case PhiAt(b, i) =>
         var phi := f.blocks[b].phis[i];
         !s.Cell(phi.x).Unknown? && OpsKnown(s, b, phi)
       case BodyAt(b, i) =>
         var inst := f.blocks[b].body[i];
         inst.Def? ==> !s.Cell(inst.x).Unknown? && forall o :: o in Operands(inst) ==> !s.Get(o).Unknown?
       case TermAt(b) => f.blocks[b].term.Branch? ==> !s.Get(f.blocks[b].term.cond).Unknown?
  }

  predicate OpsKnown(s: Solver, b: Node, phi: Phi) {
    forall k {:trigger phi.ins[k]} :: 0 <= k < |phi.ins| && (phi.ins[k].1, b) in s.edges ==>
        !s.Get(phi.ins[k].0).Unknown?
  }

  predicate Settled(s: Solver, f: Func, u: User)
    requires Exists(f, u)
  {
    match u
    case PhiAt(b, i) => PhiSettled(s, b, f.blocks[b].phis[i])
    case BodyAt(b, i) => f.blocks[b].body[i].Def? ==> DefSettled(s, f.blocks[b].body[i].x, f.blocks[b].body[i].rhs)
    case TermAt(b) => TermSettled(s, b, f.blocks[b].term)
  }

  // An operand has become overdefined and is queued, so the instruction will be visited again.
  ghost predicate Waits(s: Solver, f: Func, u: User) { exists x :: x in s.overList && UsesAt(f, u, x) }

  ghost predicate Sound(s: Solver, f: Func, u: User) { SiteKnown(s, f, u) && (Settled(s, f, u) || Waits(s, f, u)) }

  // ---------- what a visit does to other places ----------

  // Cells move up, and what becomes overdefined is queued.
  ghost predicate Queues(s: Solver, t: Solver) {
    && (forall x {:trigger t.Cell(x)} :: Below(s.Cell(x), t.Cell(x)))
    && (forall x :: x in s.overList ==> x in t.overList)
    && (forall x {:trigger t.Cell(x)} :: t.Cell(x) != s.Cell(x) && t.Cell(x).Over? ==> x in t.overList)
  }

  // The same blocks and edges.
  predicate SameFlow(s: Solver, t: Solver) { t.edges == s.edges && t.exec == s.exec && t.blockList == s.blockList }

  lemma QueuesOver(s: Solver, t: Solver, r: Solver)
    requires Queues(s, t) && Queues(t, r)
    ensures Queues(s, r)
  {
    forall x ensures Below(s.Cell(x), r.Cell(x)) && (r.Cell(x) != s.Cell(x) && r.Cell(x).Over? ==> x in r.overList) {
      assert Below(s.Cell(x), t.Cell(x)) && Below(t.Cell(x), r.Cell(x));
    }
  }

  lemma MergeInQueues(s: Solver, x: Var, c: Cell)
    ensures Queues(s, s.MergeIn(x, c)) && SameFlow(s, s.MergeIn(x, c))
  {
  }

  lemma VisitPhiQueues(s: Solver, b: Node, p: Phi)
    ensures Queues(s, VisitPhi(s, b, p)) && SameFlow(s, VisitPhi(s, b, p))
  {
    hide PhiMerge;
    MergeInQueues(s, p.x, PhiMerge(s, b, p.ins, 0, s.Cell(p.x)));
  }

  lemma VisitInstQueues(s: Solver, i: Inst)
    ensures Queues(s, VisitInst(s, i)) && SameFlow(s, VisitInst(s, i))
  {
    hide Transfer;
    if i.Def? { MergeInQueues(s, i.x, Transfer(s, i.rhs)); }
  }

  // An operand that was known still has its cell, or the instruction waits.
  lemma OperandStays(s: Solver, t: Solver, f: Func, u: User, o: Operand)
    requires Queues(s, t) && !s.Get(o).Unknown? && (o.Use? ==> UsesAt(f, u, o.x))
    ensures !t.Get(o).Unknown? && (t.Get(o) == s.Get(o) || Waits(t, f, u))
  {
    if o.Use? {
      assert Below(s.Cell(o.x), t.Cell(o.x));
    }
  }

  /** A place that is settled or waits stays so, unless a phi gets another edge. */
  lemma SoundStays(s: Solver, t: Solver, f: Func, u: User)
    requires Queues(s, t) && Sound(s, f, u) && (forall e :: e in s.edges ==> e in t.edges)
    requires u.PhiAt? ==> forall p {:trigger (p, u.b) in t.edges} :: (p, u.b) in t.edges ==> (p, u.b) in s.edges
    ensures Sound(t, f, u)
  {
    if Waits(s, f, u) {
      var x :| x in s.overList && UsesAt(f, u, x);
      assert x in t.overList;
    }
    match u
    case PhiAt(b, i) => PhiStays(s, t, f, b, i);
    case BodyAt(b, i) => BodyStays(s, t, f, b, i);
    case TermAt(b) =>
      if f.blocks[b].term.Branch? { OperandStays(s, t, f, u, f.blocks[b].term.cond); }
  }

  lemma PhiStays(s: Solver, t: Solver, f: Func, b: Node, i: nat)
    requires Queues(s, t) && Sound(s, f, PhiAt(b, i))
        && forall p {:trigger (p, b) in t.edges} :: (p, b) in t.edges ==> (p, b) in s.edges
    ensures SiteKnown(t, f, PhiAt(b, i))
    ensures PhiSettled(s, b, f.blocks[b].phis[i]) ==> PhiSettled(t, b, f.blocks[b].phis[i]) || Waits(t, f, PhiAt(b, i))
  {
    hide Waits, Queues;
    var phi := f.blocks[b].phis[i];
    CellStays(s, t, phi.x);
    forall k | 0 <= k < |phi.ins| && (phi.ins[k].1, b) in t.edges
      ensures (phi.ins[k].1, b) in s.edges && !t.Get(phi.ins[k].0).Unknown?
      ensures t.Get(phi.ins[k].0) == s.Get(phi.ins[k].0) || Waits(t, f, PhiAt(b, i)) {
      var p := phi.ins[k].1;
      assert (p, b) in t.edges;
      OperandStays(s, t, f, PhiAt(b, i), phi.ins[k].0);
    }
  }

  lemma CellStays(s: Solver, t: Solver, x: Var)
    requires Queues(s, t) && !s.Cell(x).Unknown?
    ensures t.Cell(x) == s.Cell(x) || t.Cell(x).Over?
  {
    assert Below(s.Cell(x), t.Cell(x));
  }

  lemma BodyStays(s: Solver, t: Solver, f: Func, b: Node, i: nat)
    requires Queues(s, t) && Sound(s, f, BodyAt(b, i))
    ensures SiteKnown(t, f, BodyAt(b, i))
    ensures Settled(s, f, BodyAt(b, i)) ==> Settled(t, f, BodyAt(b, i)) || Waits(t, f, BodyAt(b, i))
  {
    hide Waits, Queues;
    var inst := f.blocks[b].body[i];
    if inst.Def? {
      CellStays(s, t, inst.x);
      forall o | o in Operands(inst) ensures !t.Get(o).Unknown? && (t.Get(o) == s.Get(o) || Waits(t, f, BodyAt(b, i))) {
        OperandStays(s, t, f, BodyAt(b, i), o);
      }
      if forall o :: o in Operands(inst) ==> t.Get(o) == s.Get(o) {
        SameTransfer(s, t, inst);
      }
    }
  }

  lemma SameTransfer(s: Solver, t: Solver, inst: Inst)
    requires inst.Def? && forall o :: o in Operands(inst) ==> t.Get(o) == s.Get(o)
    ensures Transfer(t, inst.rhs) == Transfer(s, inst.rhs)
  {
    match inst.rhs
    case Binary(_, a, b) => assert a in Operands(inst) && b in Operands(inst);
    case Compare(_, a, b) => assert a in Operands(inst) && b in Operands(inst);
    case Extend(a) => assert a in Operands(inst);
    case Opaque(_) =>
  }

  // ---------- what a visit does to its own place ----------

  lemma {:induction false} PhiMergeCovers(s: Solver, b: Node, ins: seq<(Operand, Node)>, i: nat, c: Cell, k: nat)
    requires i <= |ins|
    ensures Below(c, PhiMerge(s, b, ins, i, c))
    ensures i <= k < |ins| && (ins[k].1, b) in s.edges ==> Below(s.Get(ins[k].0), PhiMerge(s, b, ins, i, c))
    decreases |ins| - i
  {
    if i < |ins| && !c.Over? {
      var d := if (ins[i].1, b) in s.edges then Merge(c, s.Get(ins[i].0)) else c;
      PhiMergeCovers(s, b, ins, i + 1, d, k);
      assert Below(c, d);
    }
  }

  // A visited phi covers its operands, and is known if one of them is.
  lemma VisitPhiSettles(s: Solver, f: Func, b: Node, i: nat)
    requires Exists(f, PhiAt(b, i)) && OpsKnown(s, b, f.blocks[b].phis[i])
    requires !s.Cell(f.blocks[b].phis[i].x).Unknown?
        || exists k {:trigger f.blocks[b].phis[i].ins[k]} ::
        0 <= k < |f.blocks[b].phis[i].ins| && (f.blocks[b].phis[i].ins[k].1, b) in s.edges
    ensures Sound(VisitPhi(s, b, f.blocks[b].phis[i]), f, PhiAt(b, i))
  {
    hide PhiMerge;
    var phi := f.blocks[b].phis[i];
    var t := VisitPhi(s, b, phi);
    var m := PhiMerge(s, b, phi.ins, 0, s.Cell(phi.x));
    VisitPhiQueues(s, b, phi);
    PhiMergeCovers(s, b, phi.ins, 0, s.Cell(phi.x), 0);
    if !s.Cell(phi.x).Over? {
      assert t.Cell(phi.x) == m;
      forall k | 0 <= k < |phi.ins| && (phi.ins[k].1, b) in s.edges
        ensures !m.Unknown? && !t.Get(phi.ins[k].0).Unknown? && Below(t.Get(phi.ins[k].0), m) {
        PhiMergeCovers(s, b, phi.ins, 0, s.Cell(phi.x), k);
      }
    }
  }

  // A visited instruction is settled and known if its operands are.
  lemma VisitInstSettles(s: Solver, f: Func, b: Node, i: nat)
    requires Exists(f, BodyAt(b, i)) && (forall o :: o in Operands(f.blocks[b].body[i]) ==> !s.Get(o).Unknown?)
    ensures Sound(VisitInst(s, f.blocks[b].body[i]), f, BodyAt(b, i))
  {
    var inst := f.blocks[b].body[i];
    var t := VisitInst(s, inst);
    VisitInstQueues(s, inst);
    if inst.Def? {
      TransferKnown(s, inst);
      CellRaised(s, inst);
      forall o | o in Operands(inst) ensures !t.Get(o).Unknown? && (t.Get(o) == s.Get(o) || Waits(t, f, BodyAt(b, i))) {
        OperandStays(s, t, f, BodyAt(b, i), o);
      }
      if forall o :: o in Operands(inst) ==> t.Get(o) == s.Get(o) {
        SameTransfer(s, t, inst);
      }
    }
  }

  lemma TransferKnown(s: Solver, inst: Inst)
    requires inst.Def? && forall o :: o in Operands(inst) ==> !s.Get(o).Unknown?
    ensures !Transfer(s, inst.rhs).Unknown?
  {
    match inst.rhs
    case Binary(_, a, b) => assert a in Operands(inst) && b in Operands(inst);
    case Compare(_, a, b) => assert a in Operands(inst) && b in Operands(inst);
    case Extend(a) => assert a in Operands(inst);
    case Opaque(_) =>
  }

  /** An instruction waits exactly as long as it has an operand that is unknown. */
  lemma TransferWaitsIff(s: Solver, inst: Inst)
    requires inst.Def?
    ensures Transfer(s, inst.rhs).Unknown? <==>
            !inst.rhs.Opaque? && exists o :: o in Operands(inst) && s.Get(o).Unknown?
  {
    match inst.rhs
    case Binary(_, a, b) => assert a in Operands(inst) && b in Operands(inst);
    case Compare(_, a, b) => assert a in Operands(inst) && b in Operands(inst);
    case Extend(a) => assert a in Operands(inst);
    case Opaque(_) =>
  }

  /** With constant operands its cell becomes the constant that the instruction computes when it runs on them. */
  lemma TransferFolds(s: Solver, inst: Inst, e: Env, e2: Env, log: seq<Event>)
    requires inst.Def? && !inst.rhs.Opaque? && InstRuns(inst, e, e2, log)
    requires forall o :: o in Operands(inst) ==> s.Get(o).Constant? && Ready(e, o) && Value(e, o) == s.Get(o).val
    ensures inst.x in e2 && Transfer(s, inst.rhs) == Constant(e2[inst.x])
  {
    match inst.rhs
    case Binary(_, a, b) => assert a in Operands(inst) && b in Operands(inst);
    case Compare(_, a, b) => assert a in Operands(inst) && b in Operands(inst);
    case Extend(a) => assert a in Operands(inst);
  }

  lemma CellRaised(s: Solver, inst: Inst)
    requires inst.Def?
    ensures Below(Transfer(s, inst.rhs), VisitInst(s, inst).Cell(inst.x))
  {
    hide Transfer;
  }

  // ---------- the order in which blocks are visited ----------

  // The block has been taken off the list.
  predicate Done(s: Solver, b: Node) { b in s.exec && b !in s.blockList }

  // The block was marked before the block that is number i in the list.
  predicate Before(s: Solver, i: nat, b: Node)
    requires i <= |s.blockList|
  {
    b in s.exec && b !in s.blockList[i..]
  }

  ghost predicate LedBefore(f: Func, s: Solver, i: nat, b: Node)
    requires i <= |s.blockList|
  {
    exists p :: Joins(Cfg(f), p, f.entry, b) && forall x :: x in p ==> Before(s, i, x)
  }

  // Each block can be reached over blocks that were marked before it.
  ghost predicate Ordered(f: Func, s: Solver) {
    forall i, b {:trigger Before(s, i, b)} :: 0 <= i <= |s.blockList| && Before(s, i, b) ==> LedBefore(f, s, i, b)
  }

  // What the phis of b read over the edge from p is known.
  predicate EdgeKnown(s: Solver, f: Func, p: Node, b: Node) {
    b in f.blocks ==>
      forall i, k {:trigger f.blocks[b].phis[i].ins[k]} ::
          0 <= i < |f.blocks[b].phis| && 0 <= k < |f.blocks[b].phis[i].ins| ==>
        f.blocks[b].phis[i].ins[k].1 == p ==> !s.Get(f.blocks[b].phis[i].ins[k].0).Unknown?
  }

  predicate GoodEdge(s: Solver, f: Func, p: Node, b: Node) {
    p in f.blocks && b in Targets(f.blocks[p].term) && b in s.exec && EdgeKnown(s, f, p, b)
  }

  ghost predicate Entered(s: Solver, b: Node) { exists q :: (q, b) in s.edges }

  ghost predicate Flow(f: Func, s: Solver) {
    && Ordered(f, s)
    && f.entry in s.exec && (forall b :: b in s.exec ==> b in f.blocks)
      && (forall b :: b in s.blockList ==> b in s.exec)
    && (forall i, j :: 0 <= i < j < |s.blockList| ==> s.blockList[i] != s.blockList[j])
    && (forall p, b {:trigger (p, b) in s.edges} :: (p, b) in s.edges ==> GoodEdge(s, f, p, b))
    && (forall b {:trigger Entered(s, b)} :: b in s.exec && b != f.entry ==> Entered(s, b))
    && (forall x :: x in f.args ==> s.Cell(x).Over?)
  }

  // The results of the visited blocks, apart from those in but, are known.
  ghost predicate Results(f: Func, s: Solver, but: set<Node>) {
    forall b {:trigger Done(s, b)} :: Done(s, b) && b in f.blocks && b !in but ==> DefsKnown(s, f.blocks[b])
  }

  lemma KnownStays(s: Solver, t: Solver, o: Operand)
    requires Queues(s, t) && !s.Get(o).Unknown?
    ensures !t.Get(o).Unknown?
  {
    if o.Use? { assert Below(s.Cell(o.x), t.Cell(o.x)); }
  }

  lemma DefsStay(s: Solver, t: Solver, blk: Block)
    requires Queues(s, t) && DefsKnown(s, blk)
    ensures DefsKnown(t, blk)
  {
    forall i | 0 <= i < |blk.phis| ensures !t.Cell(blk.phis[i].x).Unknown? {
      CellStays(s, t, blk.phis[i].x);
    }
    forall i | 0 <= i < |blk.body| && blk.body[i].Def? ensures !t.Cell(blk.body[i].x).Unknown? {
      CellStays(s, t, blk.body[i].x);
    }
  }

  lemma EdgeStays(s: Solver, t: Solver, f: Func, p: Node, b: Node)
    requires Queues(s, t) && EdgeKnown(s, f, p, b)
    ensures EdgeKnown(t, f, p, b)
  {
    if b in f.blocks {
      forall i, k | 0 <= i < |f.blocks[b].phis| && 0 <= k < |f.blocks[b].phis[i].ins|
          && f.blocks[b].phis[i].ins[k].1 == p
        ensures !t.Get(f.blocks[b].phis[i].ins[k].0).Unknown? {
        KnownStays(s, t, f.blocks[b].phis[i].ins[k].0);
      }
    }
  }

  lemma ResultsStay(f: Func, s: Solver, t: Solver, but: set<Node>)
    requires Queues(s, t) && Results(f, s, but) && forall b :: Done(t, b) ==> Done(s, b)
    ensures Results(f, t, but)
  {
    hide Queues, DefsKnown;
    forall b | Done(t, b) && b in f.blocks && b !in but ensures DefsKnown(t, f.blocks[b]) {
      DefsStay(s, t, f.blocks[b]);
    }
  }

  lemma FlowStays(f: Func, s: Solver, t: Solver)
    requires Flow(f, s) && Queues(s, t) && SameFlow(s, t)
    ensures Flow(f, t) && forall b :: Done(t, b) <==> Done(s, b)
  {
    hide EdgeKnown;
    forall i, b | 0 <= i <= |t.blockList| && Before(t, i, b) ensures LedBefore(f, t, i, b) {
      assert Before(s, i, b);
      var p :| Joins(Cfg(f), p, f.entry, b) && forall x :: x in p ==> Before(s, i, x);
      assert forall x :: x in p ==> Before(t, i, x);
    }
    forall p, b | (p, b) in t.edges ensures GoodEdge(t, f, p, b) {
      assert GoodEdge(s, f, p, b);
      EdgeStays(s, t, f, p, b);
    }
    forall b | b in t.exec && b != f.entry ensures Entered(t, b) {
      assert Entered(s, b);
    }
    forall x | x in f.args ensures t.Cell(x).Over? {
      CellStays(s, t, x);
    }
  }

  lemma DominatorDone(f: Func, s: Solver, d: Node, b: Node)
    requires Flow(f, s) && Done(s, b) && Dominates(Cfg(f), f.entry, d, b)
    ensures Done(s, d)
  {
    assert s.blockList[0..] == s.blockList;
    assert Before(s, 0, b);
    var p :| Joins(Cfg(f), p, f.entry, b) && forall x :: x in p ==> Before(s, 0, x);
    assert d in p;
  }

  lemma DefinedKnown(f: Func, s: Solver, d: Node, x: Var)
    requires DefinedIn(f, d, x) && DefsKnown(s, f.blocks[d])
    ensures !s.Cell(x).Unknown?
  {
  }

  // What is defined wherever control leaves a visited block is known.
  lemma LeavesKnown(f: Func, s: Solver, b: Node, x: Var)
    requires Flow(f, s) && Results(f, s, {}) && Done(s, b) && Leaves(f, b, x)
    ensures !s.Cell(x).Unknown?
  {
    hide DefsKnown, DefinedIn, Ordered, GoodEdge, Dominates;
    if x !in f.args {
      var d :| DefinedIn(f, d, x) && Dominates(Cfg(f), f.entry, d, b);
      DominatorDone(f, s, d, b);
      assert d in f.blocks;
      DefinedKnown(f, s, d, x);
    }
  }

  lemma ArrivesKnown(f: Func, s: Solver, b: Node, i: nat, x: Var)
    requires Flow(f, s) && Results(f, s, {b}) && Done(s, b) && b in f.blocks && i <= |f.blocks[b].body|
        && Arrives(f, b, i, x)
    requires forall k {:trigger f.blocks[b].phis[k]} :: 0 <= k < |f.blocks[b].phis| ==>
        !s.Cell(f.blocks[b].phis[k].x).Unknown?
    requires forall k {:trigger f.blocks[b].body[k]} :: 0 <= k < i && f.blocks[b].body[k].Def? ==>
        !s.Cell(f.blocks[b].body[k].x).Unknown?
    ensures !s.Cell(x).Unknown?
  {
    hide DefsKnown, DefinedIn, Ordered, GoodEdge, Dominates;
    if d :| d != b && DefinedIn(f, d, x) && Dominates(Cfg(f), f.entry, d, b) {
      DominatorDone(f, s, d, b);
      assert d in f.blocks;
      DefinedKnown(f, s, d, x);
    }
  }

  // Every edge out of b could be marked now.
  predicate Exits(f: Func, s: Solver, b: Node)
    requires b in f.blocks
  {
    forall to :: to in Targets(f.blocks[b].term) ==> EdgeKnown(s, f, b, to)
  }

  lemma ExitsKnown(f: Func, s: Solver, b: Node)
    requires InSsa(f) && Flow(f, s) && Results(f, s, {}) && Done(s, b) && b in f.blocks
    ensures Exits(f, s, b)
  {
    hide Flow, Results, Done, Leaves, CondsDominated;
    forall to | to in Targets(f.blocks[b].term) ensures EdgeKnown(s, f, b, to) {
      if to in f.blocks {
        forall i, k | 0 <= i < |f.blocks[to].phis| && 0 <= k < |f.blocks[to].phis[i].ins|
            && f.blocks[to].phis[i].ins[k].1 == b
          ensures !s.Get(f.blocks[to].phis[i].ins[k].0).Unknown? {
          var op := f.blocks[to].phis[i].ins[k];
          assert FromPred(f, op);
          if op.0.Use? { LeavesKnown(f, s, b, op.0.x); }
        }
      }
    }
  }

  // Even before the block is visited, if it branches on a variable.
  lemma ExitsPlain(f: Func, s: Solver, b: Node)
    requires PlainOverBranches(f) && Flow(f, s) && b in f.blocks && f.blocks[b].term.Branch?
        && f.blocks[b].term.cond.Use?
    ensures Exits(f, s, b)
  {
    hide Ordered, GoodEdge;
    forall to | to in Targets(f.blocks[b].term) ensures EdgeKnown(s, f, b, to) {
      if to in f.blocks {
        forall i, k | 0 <= i < |f.blocks[to].phis| && 0 <= k < |f.blocks[to].phis[i].ins|
            && f.blocks[to].phis[i].ins[k].1 == b
          ensures !s.Get(f.blocks[to].phis[i].ins[k].0).Unknown? {
          assert Plain(f, f.blocks[to].phis[i].ins[k]);
        }
      }
    }
  }

  lemma VisitedKnown(f: Func, s: Solver, u: User)
    requires InSsa(f) && Flow(f, s) && Results(f, s, {}) && Exists(f, u) && Done(s, u.b)
    ensures SiteKnown(s, f, u)
  {
    hide Ordered, EdgeKnown, Dominates, DefinedIn, Arrives, Leaves, Exits;
    assert DefsKnown(s, f.blocks[u.b]);
    match u
    case PhiAt(b, i) => FlowKnown(f, s, b, i);
    case BodyAt(b, i) =>
      forall o | o in Operands(f.blocks[b].body[i]) ensures !s.Get(o).Unknown? {
        if o.Use? {
          assert Use(o.x) in Operands(f.blocks[b].body[i]);
          ArrivesKnown(f, s, b, i, o.x);
        }
      }
    case TermAt(b) => if f.blocks[b].term.Branch? { CondLeaves(f, s, b); }
  }

  lemma CondLeaves(f: Func, s: Solver, b: Node)
    requires CondsDominated(f) && Flow(f, s) && Results(f, s, {}) && b in f.blocks && Done(s, b)
        && f.blocks[b].term.Branch?
    ensures !s.Get(f.blocks[b].term.cond).Unknown?
  {
    hide Flow, Results, Dominates, DefinedIn;
    if f.blocks[b].term.cond.Use? { LeavesKnown(f, s, b, f.blocks[b].term.cond.x); }
  }

  // What the phis of b read over marked edges is known.
  lemma FlowKnown(f: Func, s: Solver, b: Node, i: nat)
    requires Flow(f, s) && Exists(f, PhiAt(b, i))
    ensures OpsKnown(s, b, f.blocks[b].phis[i])
  {
    hide Ordered;
    var phi := f.blocks[b].phis[i];
    forall k | 0 <= k < |phi.ins| && (phi.ins[k].1, b) in s.edges ensures !s.Get(phi.ins[k].0).Unknown? {
      var p := phi.ins[k].1;
      assert (p, b) in s.edges;
      assert f.blocks[b].phis[i].ins[k].1 == p;
    }
  }

  // ---------- visits keep the order and what is known ----------

  // Nothing is taken off the list, nothing visited is forgotten.
  ghost predicate Onward(f: Func, s: Solver, t: Solver) {
    && Queues(s, t) && (forall e :: e in s.edges ==> e in t.edges) && (forall b :: b in s.exec ==> b in t.exec)
    && (forall b {:trigger Done(t, b)} :: Done(t, b) <==> Done(s, b))
    && Flow(f, t)
  }

  lemma OnwardOver(f: Func, s: Solver, t: Solver, r: Solver)
    requires Onward(f, s, t) && Onward(f, t, r)
    ensures Onward(f, s, r)
  {
    hide Queues, Flow, Done;
    QueuesOver(s, t, r);
  }

  lemma OnwardSelf(f: Func, s: Solver)
    requires Flow(f, s)
    ensures Onward(f, s, s)
  {
  }

  lemma OnwardSame(f: Func, s: Solver, t: Solver)
    requires Flow(f, s) && Queues(s, t) && SameFlow(s, t)
    ensures Onward(f, s, t)
  {
    hide Flow, Queues;
    FlowStays(f, s, t);
  }

  lemma {:induction false} VisitPhisQueues(s: Solver, b: Node, phis: seq<Phi>, i: nat)
    requires i <= |phis|
    ensures Queues(s, VisitPhis(s, b, phis, i)) && SameFlow(s, VisitPhis(s, b, phis, i))
    decreases |phis| - i
  {
    if i < |phis| {
      var t := VisitPhi(s, b, phis[i]);
      VisitPhiQueues(s, b, phis[i]);
      VisitPhisQueues(t, b, phis, i + 1);
      QueuesOver(s, t, VisitPhis(t, b, phis, i + 1));
    }
  }

  lemma {:induction false} VisitBodyQueues(s: Solver, body: seq<Inst>, i: nat)
    requires i <= |body|
    ensures Queues(s, VisitBody(s, body, i)) && SameFlow(s, VisitBody(s, body, i))
    decreases |body| - i
  {
    if i < |body| {
      var t := VisitInst(s, body[i]);
      VisitInstQueues(s, body[i]);
      VisitBodyQueues(t, body, i + 1);
      QueuesOver(s, t, VisitBody(t, body, i + 1));
    }
  }

  // A new edge to a block that is marked already.
  lemma EdgeFlow(f: Func, s: Solver, from: Node, to: Node)
    requires Flow(f, s) && from in f.blocks && to in Targets(f.blocks[from].term) && to in s.exec
        && EdgeKnown(s, f, from, to)
    ensures Onward(f, s, s.(edges := s.edges + {(from, to)}))
  {
    hide EdgeKnown;
    var t := s.(edges := s.edges + {(from, to)});
    assert Queues(s, t);
    forall i, b | 0 <= i <= |t.blockList| && Before(t, i, b) ensures LedBefore(f, t, i, b) {
      assert Before(s, i, b);
      var p :| Joins(Cfg(f), p, f.entry, b) && forall x :: x in p ==> Before(s, i, x);
      assert forall x :: x in p ==> Before(t, i, x);
    }
    forall p, b | (p, b) in t.edges ensures GoodEdge(t, f, p, b) {
      if (p, b) in s.edges { assert GoodEdge(s, f, p, b); }
      EdgeStays(s, t, f, p, b);
    }
    forall b | b in t.exec && b != f.entry ensures Entered(t, b) {
      assert Entered(s, b);
      var q :| (q, b) in s.edges;
      assert (q, b) in t.edges;
    }
    assert forall x :: x in f.args ==> s.Cell(x).Over? ==> t.Cell(x).Over?;
  }

  // A new edge to a block that is marked by it and put at the end of the list.
  lemma BlockFlow(f: Func, s: Solver, from: Node, to: Node)
    requires Flow(f, s) && from in s.exec && from in f.blocks && to in Targets(f.blocks[from].term) && to in f.blocks
        && to !in s.exec
    requires EdgeKnown(s, f, from, to)
    ensures Onward(f, s, MarkBlock(s.(edges := s.edges + {(from, to)}), to))
  {
    hide EdgeKnown;
    var t := MarkBlock(s.(edges := s.edges + {(from, to)}), to);
    assert Queues(s, t);
    assert to !in s.blockList && t.blockList == s.blockList + [to];
    forall i, b | 0 <= i <= |t.blockList| && Before(t, i, b) ensures LedBefore(f, t, i, b) {
      if i <= |s.blockList| {
        assert t.blockList[i..] == s.blockList[i..] + [to];
        assert Before(s, i, b);
        var p :| Joins(Cfg(f), p, f.entry, b) && forall x :: x in p ==> Before(s, i, x);
        assert forall x :: x in p ==> Before(t, i, x);
      } else {
        LastLed(f, s, t, from, to, b);
      }
    }
    forall p, b | (p, b) in t.edges ensures GoodEdge(t, f, p, b) {
      if (p, b) in s.edges { assert GoodEdge(s, f, p, b); }
      EdgeStays(s, t, f, p, b);
    }
    forall b | b in t.exec && b != f.entry ensures Entered(t, b) {
      if b in s.exec {
        assert Entered(s, b);
        var q :| (q, b) in s.edges;
        assert (q, b) in t.edges;
      } else {
        assert (from, b) in t.edges;
      }
    }
    assert forall x :: x in f.args ==> s.Cell(x).Over? ==> t.Cell(x).Over?;
  }

  lemma LastLed(f: Func, s: Solver, t: Solver, from: Node, to: Node, b: Node)
    requires Ordered(f, s) && from in s.exec && from in f.blocks && to in Targets(f.blocks[from].term)
    requires t.exec == s.exec + {to} && |t.blockList| == |s.blockList| + 1 && b in t.exec
    ensures LedBefore(f, t, |t.blockList|, b)
  {
    var n, a := |s.blockList|, if b in s.exec then b else from;
    assert Before(s, n, a);
    var p :| Joins(Cfg(f), p, f.entry, a) && forall x :: x in p ==> Before(s, n, x);
    assert forall x :: x in p ==> Before(t, n + 1, x);
    if b !in s.exec {
      assert Cfg(f).Edge(from, to);
      ExtendPath(Cfg(f), p, f.entry, from, to);
      assert forall x :: x in p + [to] ==> Before(t, n + 1, x);
    }
  }

  lemma MarkEdgeFlow(f: Func, s: Solver, from: Node, to: Node)
    requires Flow(f, s) && from in s.exec && from in f.blocks && to in Targets(f.blocks[from].term) && to in f.blocks
    requires EdgeKnown(s, f, from, to)
    ensures Onward(f, s, MarkEdge(s, f, from, to)) && (from, to) in MarkEdge(s, f, from, to).edges
  {
    hide Flow, EdgeKnown, Queues, Done, VisitPhis;
    if (from, to) in s.edges {
      OnwardSelf(f, s);
    } else if to in s.exec {
      var t := s.(edges := s.edges + {(from, to)});
      EdgeFlow(f, s, from, to);
      VisitPhisQueues(t, to, f.blocks[to].phis, 0);
      OnwardSame(f, t, VisitPhis(t, to, f.blocks[to].phis, 0));
      OnwardOver(f, s, t, VisitPhis(t, to, f.blocks[to].phis, 0));
    } else {
      BlockFlow(f, s, from, to);
    }
  }

  // A phi that can be visited with a result.
  ghost predicate Open(s: Solver, f: Func, b: Node, i: nat)
    requires Exists(f, PhiAt(b, i))
  {
    var phi := f.blocks[b].phis[i];
    && OpsKnown(s, b, phi)
    && (!s.Cell(phi.x).Unknown? || exists k {:trigger phi.ins[k]} :: 0 <= k < |phi.ins| && (phi.ins[k].1, b) in s.edges)
  }

  lemma OpenStays(s: Solver, t: Solver, f: Func, b: Node, i: nat)
    requires Exists(f, PhiAt(b, i)) && Open(s, f, b, i) && Queues(s, t) && SameFlow(s, t)
    ensures Open(t, f, b, i)
  {
    hide Queues;
    var phi := f.blocks[b].phis[i];
    forall k | 0 <= k < |phi.ins| && (phi.ins[k].1, b) in t.edges ensures !t.Get(phi.ins[k].0).Unknown? {
      KnownStays(s, t, phi.ins[k].0);
    }
    if !s.Cell(phi.x).Unknown? {
      CellStays(s, t, phi.x);
    } else {
      var k :| 0 <= k < |phi.ins| && (phi.ins[k].1, b) in s.edges;
      assert (phi.ins[k].1, b) in t.edges;
    }
  }

  // Visiting the phis of b from number i on settles them and leaves other places settled.
  lemma {:induction false} VisitPhisSettle(s: Solver, f: Func, b: Node, i: nat, u: User)
    requires b in f.blocks && i <= |f.blocks[b].phis| && Exists(f, u)
    requires if u.PhiAt? && u.b == b && i <= u.i then Open(s, f, b, u.i) else Sound(s, f, u)
    ensures Sound(VisitPhis(s, b, f.blocks[b].phis, i), f, u)
    decreases |f.blocks[b].phis| - i
  {
    hide Queues, Open, Settled, SiteKnown, Waits, VisitPhi;
    var phis := f.blocks[b].phis;
    if i < |phis| {
      var t := VisitPhi(s, b, phis[i]);
      VisitPhiQueues(s, b, phis[i]);
      if u == PhiAt(b, i) {
        VisitOpen(s, f, b, i);
      } else if u.PhiAt? && u.b == b && i <= u.i {
        OpenStays(s, t, f, b, u.i);
      } else {
        SoundStays(s, t, f, u);
      }
      VisitPhisSettle(t, f, b, i + 1, u);
    }
  }

  lemma VisitOpen(s: Solver, f: Func, b: Node, i: nat)
    requires Exists(f, PhiAt(b, i)) && Open(s, f, b, i)
    ensures Sound(VisitPhi(s, b, f.blocks[b].phis[i]), f, PhiAt(b, i))
  {
    VisitPhiSettles(s, f, b, i);
  }

  // Marking an edge leaves settled places settled: the phis that get the edge are visited.
  lemma MarkEdgeSettles(f: Func, s: Solver, from: Node, to: Node, u: User)
    requires Flow(f, s) && from in s.exec && from in f.blocks && to in Targets(f.blocks[from].term) && to in f.blocks
    requires EdgeKnown(s, f, from, to) && Sound(s, f, u) && u.b in s.exec
    ensures Sound(MarkEdge(s, f, from, to), f, u)
  {
    hide Flow, Queues, Settled, Waits, VisitPhis, Onward;
    var t := s.(edges := s.edges + {(from, to)});
    assert Queues(s, t) by { SameCells(s, t); }
    if (from, to) in s.edges {
    } else if to in s.exec {
      if u.PhiAt? && u.b == to {
        OpenAfterEdge(f, s, from, to, u.i);
      } else {
        SoundStays(s, t, f, u);
      }
      VisitPhisSettle(t, f, to, 0, u);
    } else {
      var r := MarkBlock(t, to);
      assert Queues(s, r) by { SameCells(s, r); }
      SoundStays(s, r, f, u);
    }
  }

  lemma SameCells(s: Solver, t: Solver)
    requires t.cells == s.cells && t.overList == s.overList
    ensures Queues(s, t)
  {
  }

  lemma OpenAfterEdge(f: Func, s: Solver, from: Node, to: Node, i: nat)
    requires Exists(f, PhiAt(to, i)) && EdgeKnown(s, f, from, to) && SiteKnown(s, f, PhiAt(to, i))
    ensures Open(s.(edges := s.edges + {(from, to)}), f, to, i)
  {
    var t, phi := s.(edges := s.edges + {(from, to)}), f.blocks[to].phis[i];
    forall k | 0 <= k < |phi.ins| && (phi.ins[k].1, to) in t.edges ensures !t.Get(phi.ins[k].0).Unknown? {
      assert f.blocks[to].phis[i].ins[k] == phi.ins[k];
      assert !s.Get(phi.ins[k].0).Unknown?;
    }
  }

  lemma VisitTermFlow(uu: Unit, s: Solver, b: Node)
    requires uu.Ok() && Flow(uu.f, s) && b in s.exec && b in uu.f.blocks && Exits(uu.f, s, b)
    ensures Onward(uu.f, s, VisitTerm(s, uu.f, b, uu.f.blocks[b].term))
  {
    hide Flow, EdgeKnown, MarkEdge, Queues, Done;
    var f := uu.f;
    OnwardSelf(f, s);
    match f.blocks[b].term
    case Jump(to) => MarkEdgeFlow(f, s, b, to);
    case Branch(c, yes, no) =>
      assert yes in Targets(f.blocks[b].term) && no in Targets(f.blocks[b].term);
      MarkEdgeFlow(f, s, b, yes);
      MarkEdgeFlow(f, s, b, no);
      var t := MarkEdge(s, f, b, yes);
      EdgeStays(s, t, f, b, no);
      MarkEdgeFlow(f, t, b, no);
      OnwardOver(f, s, t, MarkEdge(t, f, b, no));
    case Return(_) =>
  }

  lemma VisitTermKeeps(uu: Unit, s: Solver, b: Node, u: User)
    requires uu.Ok() && Flow(uu.f, s) && b in s.exec && b in uu.f.blocks && Exits(uu.f, s, b)
    requires Sound(s, uu.f, u) && u.b in s.exec
    ensures Sound(VisitTerm(s, uu.f, b, uu.f.blocks[b].term), uu.f, u)
  {
    hide Flow, EdgeKnown, MarkEdge, Queues, Done, Sound;
    var f := uu.f;
    match f.blocks[b].term
    case Jump(to) => MarkEdgeSettles(f, s, b, to, u);
    case Branch(c, yes, no) =>
      assert yes in Targets(f.blocks[b].term) && no in Targets(f.blocks[b].term);
      MarkEdgeFlow(f, s, b, yes);
      MarkEdgeSettles(f, s, b, yes, u);
      MarkEdgeSettles(f, s, b, no, u);
      var t := MarkEdge(s, f, b, yes);
      EdgeStays(s, t, f, b, no);
      MarkEdgeSettles(f, t, b, no, u);
    case Return(_) =>
  }

  lemma VisitTermSettles(uu: Unit, s: Solver, b: Node)
    requires uu.Ok() && Flow(uu.f, s) && b in s.exec && b in uu.f.blocks && Exits(uu.f, s, b)
        && SiteKnown(s, uu.f, TermAt(b))
    ensures Sound(VisitTerm(s, uu.f, b, uu.f.blocks[b].term), uu.f, TermAt(b))
  {
    hide Flow, EdgeKnown, MarkEdge, Queues, Done, Waits;
    var f := uu.f;
    var t := VisitTerm(s, f, b, f.blocks[b].term);
    VisitTermFlow(uu, s, b);
    match f.blocks[b].term
    case Jump(to) => MarkEdgeFlow(f, s, b, to);
    case Branch(c, yes, no) =>
      assert yes in Targets(f.blocks[b].term) && no in Targets(f.blocks[b].term);
      assert c.Use? ==> UsesAt(f, TermAt(b), c.x);
      OperandStays(s, t, f, TermAt(b), c);
      MarkEdgeFlow(f, s, b, yes);
      MarkEdgeFlow(f, s, b, no);
      EdgeStays(s, MarkEdge(s, f, b, yes), f, b, no);
      MarkEdgeFlow(f, MarkEdge(s, f, b, yes), b, no);
    case Return(_) =>
  }

  // ---------- visiting users ----------

  // The results of visited blocks are known, and edges are good.
  ghost predicate Steady(f: Func, s: Solver) { Flow(f, s) && Results(f, s, {}) }

  lemma SteadyOnward(f: Func, s: Solver, t: Solver)
    requires Steady(f, s) && Onward(f, s, t)
    ensures Steady(f, t)
  {
    hide Flow, Queues, Done;
    ResultsStay(f, s, t, {});
  }

  // A place where x is used can be visited at any time.
  lemma ExitsUsed(u: Unit, s: Solver, b: Node, x: Var)
    requires Followed(u) && Steady(u.f, s) && UsesAt(u.f, TermAt(b), x) && b in s.exec && u.f.blocks[b].term.Branch?
    ensures Exits(u.f, s, b)
  {
    ExitsPlain(u.f, s, b);
  }

  lemma VisitUserOnward(u: Unit, s: Solver, site: User, x: Var)
    requires u.Ok() && Followed(u) && Steady(u.f, s) && UsesAt(u.f, site, x)
    ensures Onward(u.f, s, VisitUser(s, u.f, site))
  {
    hide Flow, Queues, Done, Results, VisitTerm, VisitPhi, VisitInst, Exits, InSsa, PlainOverBranches, UseLists;
    OnwardSelf(u.f, s);
    if site.b in s.exec {
      match site
      case PhiAt(b, i) =>
        VisitPhiQueues(s, b, u.f.blocks[b].phis[i]);
        OnwardSame(u.f, s, VisitUser(s, u.f, site));
      case BodyAt(b, i) =>
        VisitInstQueues(s, u.f.blocks[b].body[i]);
        OnwardSame(u.f, s, VisitUser(s, u.f, site));
      case TermAt(b) =>
        if u.f.blocks[b].term.Branch? {
          ExitsUsed(u, s, b, x);
          VisitTermFlow(u, s, b);
        } else {
          ReturnStays(s, u.f, b);
        }
    }
  }

  lemma ReturnStays(s: Solver, f: Func, b: Node)
    requires b in f.blocks && f.blocks[b].term.Return?
    ensures VisitTerm(s, f, b, f.blocks[b].term) == s
  {
  }

  lemma VisitUserKeeps(u: Unit, s: Solver, site: User, x: Var, other: User)
    requires u.Ok() && Followed(u) && Steady(u.f, s) && UsesAt(u.f, site, x) && Sound(s, u.f, other) && Done(s, other.b)
    ensures Sound(VisitUser(s, u.f, site), u.f, other)
  {
    hide Flow, Queues, Results, VisitTerm, VisitPhi, VisitInst, Exits, InSsa, PlainOverBranches, UseLists, Sound;
    if site.b in s.exec {
      match site
      case PhiAt(b, i) =>
        VisitPhiQueues(s, b, u.f.blocks[b].phis[i]);
        SoundStays(s, VisitUser(s, u.f, site), u.f, other);
      case BodyAt(b, i) =>
        VisitInstQueues(s, u.f.blocks[b].body[i]);
        SoundStays(s, VisitUser(s, u.f, site), u.f, other);
      case TermAt(b) =>
        if u.f.blocks[b].term.Branch? {
          ExitsUsed(u, s, b, x);
          VisitTermKeeps(u, s, b, other);
        } else {
          ReturnStays(s, u.f, b);
        }
    }
  }

  lemma VisitUserSettles(u: Unit, s: Solver, site: User, x: Var)
    requires u.Ok() && Followed(u) && Steady(u.f, s) && UsesAt(u.f, site, x) && Done(s, site.b)
        && SiteKnown(s, u.f, site)
    ensures Sound(VisitUser(s, u.f, site), u.f, site)
  {
    hide Flow, Queues, Results, VisitTerm, VisitPhi, VisitInst, Exits, InSsa, PlainOverBranches, UseLists, Sound,
        UsesAt;
    match site
    case PhiAt(b, i) => VisitPhiSettles(s, u.f, b, i);
    case BodyAt(b, i) => VisitKnownInst(s, u.f, b, i);
    case TermAt(b) => VisitUsedTerm(u, s, b, x);
  }

  lemma VisitUsedTerm(u: Unit, s: Solver, b: Node, x: Var)
    requires u.Ok() && Followed(u) && Steady(u.f, s) && UsesAt(u.f, TermAt(b), x) && b in s.exec
        && SiteKnown(s, u.f, TermAt(b))
    ensures Sound(VisitTerm(s, u.f, b, u.f.blocks[b].term), u.f, TermAt(b))
  {
    hide Flow, Queues, Results, VisitTerm, Exits, InSsa, PlainOverBranches, UseLists, Waits;
    if u.f.blocks[b].term.Branch? {
      ExitsUsed(u, s, b, x);
      VisitTermSettles(u, s, b);
    } else {
      ReturnStays(s, u.f, b);
    }
  }

  lemma VisitKnownInst(s: Solver, f: Func, b: Node, i: nat)
    requires SiteKnown(s, f, BodyAt(b, i))
    ensures Sound(VisitInst(s, f.blocks[b].body[i]), f, BodyAt(b, i))
  {
    hide Transfer, Waits;
    if f.blocks[b].body[i].Def? { VisitInstSettles(s, f, b, i); }
  }

  lemma {:induction false} VisitUsersOnward(u: Unit, s: Solver, x: Var, i: nat)
    requires u.Ok() && Followed(u) && Steady(u.f, s) && i <= |u.Users(x)|
    ensures Onward(u.f, s, VisitUsers(s, u.f, u.Users(x), i))
    decreases |u.Users(x)| - i
  {
    hide Flow, Queues, Done, VisitUser, InSsa, PlainOverBranches, Results, UsesAt, Onward;
    var users := u.Users(x);
    if i < |users| {
      assert users[i] in u.Users(x);
      var t := VisitUser(s, u.f, users[i]);
      VisitUserOnward(u, s, users[i], x);
      SteadyOnward(u.f, s, t);
      VisitUsersOnward(u, t, x, i + 1);
      OnwardOver(u.f, s, t, VisitUsers(t, u.f, users, i + 1));
    } else {
      OnwardSelf(u.f, s);
    }
  }

  // A place that was settled or is in the rest of the list is settled afterwards.
  lemma {:induction false} VisitUsersSettle(u: Unit, s: Solver, x: Var, i: nat, site: User)
    requires u.Ok() && Followed(u) && Steady(u.f, s) && i <= |u.Users(x)| && Done(s, site.b) && Exists(u.f, site)
    requires Sound(s, u.f, site) || site in u.Users(x)[i..]
    ensures Sound(VisitUsers(s, u.f, u.Users(x), i), u.f, site)
    decreases |u.Users(x)| - i
  {
    hide Flow, Queues, VisitUser, PlainOverBranches, Results, UsesAt, Sound, SiteKnown, Done, InSsa;
    var users := u.Users(x);
    if i < |users| {
      assert users[i] in u.Users(x);
      var t := VisitUser(s, u.f, users[i]);
      VisitUserOnward(u, s, users[i], x);
      SteadyOnward(u.f, s, t);
      if Sound(s, u.f, site) {
        VisitUserKeeps(u, s, users[i], x, site);
      } else if site == users[i] {
        VisitedKnown(u.f, s, site);
        VisitUserSettles(u, s, site, x);
      } else {
        assert site in users[i + 1..];
      }
      VisitUsersSettle(u, t, x, i + 1, site);
    }
  }

  // ---------- visiting a block for the first time ----------

  lemma PhisOpen(f: Func, s: Solver, b: Node, i: nat)
    requires InSsa(f) && Flow(f, s) && b in s.exec && Exists(f, PhiAt(b, i))
    ensures Open(s, f, b, i)
  {
    hide Ordered, EdgeKnown, Dominates;
    FlowKnown(f, s, b, i);
    assert b != f.entry;
    assert Entered(s, b);
    var q :| (q, b) in s.edges;
    assert GoodEdge(s, f, q, b);
    assert HasOperand(f.blocks[b].phis[i], q);
    var k :| 0 <= k < |f.blocks[b].phis[i].ins| && f.blocks[b].phis[i].ins[k].1 == q;
    assert (f.blocks[b].phis[i].ins[k].1, b) in s.edges;
  }

  // What the instructions of b from number i on need: the results in front of them.
  ghost predicate Reached(f: Func, s: Solver, b: Node, i: nat)
    requires b in f.blocks
  {
    && Flow(f, s) && Results(f, s, {b}) && Done(s, b)
    && (forall k :: 0 <= k < |f.blocks[b].phis| ==> Sound(s, f, PhiAt(b, k)))
    && (forall k :: 0 <= k < i && k < |f.blocks[b].body| ==> Sound(s, f, BodyAt(b, k)))
  }

  lemma OperandsArrive(f: Func, s: Solver, b: Node, i: nat)
    requires InSsa(f) && b in f.blocks && Reached(f, s, b, i) && i < |f.blocks[b].body|
    ensures forall o :: o in Operands(f.blocks[b].body[i]) ==> !s.Get(o).Unknown?
  {
    hide Flow, Results, Done, Arrives, Settled, Waits;
    forall k | 0 <= k < |f.blocks[b].phis| ensures !s.Cell(f.blocks[b].phis[k].x).Unknown? {
      assert Sound(s, f, PhiAt(b, k));
    }
    forall k | 0 <= k < i && f.blocks[b].body[k].Def? ensures !s.Cell(f.blocks[b].body[k].x).Unknown? {
      assert Sound(s, f, BodyAt(b, k));
    }
    forall o | o in Operands(f.blocks[b].body[i]) ensures !s.Get(o).Unknown? {
      if o.Use? {
        assert Use(o.x) in Operands(f.blocks[b].body[i]);
        ArrivesKnown(f, s, b, i, o.x);
      }
    }
  }

  lemma OneFurther(f: Func, s: Solver, b: Node, i: nat)
    requires InSsa(f) && b in f.blocks && Reached(f, s, b, i) && i < |f.blocks[b].body|
    ensures Reached(f, VisitInst(s, f.blocks[b].body[i]), b, i + 1) && Onward(f, s, VisitInst(s, f.blocks[b].body[i]))
  {
    hide Flow, Results, Done, Sound, InSsa, VisitInst, Queues;
    var t := VisitInst(s, f.blocks[b].body[i]);
    VisitInstQueues(s, f.blocks[b].body[i]);
    OnwardSame(f, s, t);
    ResultsStay(f, s, t, {b});
    forall k | 0 <= k < |f.blocks[b].phis| ensures Sound(t, f, PhiAt(b, k)) {
      SoundStays(s, t, f, PhiAt(b, k));
    }
    OperandsArrive(f, s, b, i);
    VisitInstSettles(s, f, b, i);
    forall k | 0 <= k < i + 1 && k < |f.blocks[b].body| ensures Sound(t, f, BodyAt(b, k)) {
      if k < i { SoundStays(s, t, f, BodyAt(b, k)); }
    }
  }

  lemma {:induction false} BodyReached(f: Func, s: Solver, b: Node, i: nat)
    requires InSsa(f) && b in f.blocks && Reached(f, s, b, i) && i <= |f.blocks[b].body|
    ensures Reached(f, VisitBody(s, f.blocks[b].body, i), b, |f.blocks[b].body|)
        && Onward(f, s, VisitBody(s, f.blocks[b].body, i))
    decreases |f.blocks[b].body| - i
  {
    hide InSsa, VisitInst, Onward, Flow, Results, Sound;
    if i < |f.blocks[b].body| {
      var t := VisitInst(s, f.blocks[b].body[i]);
      OneFurther(f, s, b, i);
      BodyReached(f, t, b, i + 1);
      OnwardOver(f, s, t, VisitBody(t, f.blocks[b].body, i + 1));
    } else {
      OnwardSelf(f, s);
    }
  }

  lemma PhisReached(f: Func, s: Solver, b: Node)
    requires InSsa(f) && b in f.blocks && Flow(f, s) && Results(f, s, {b}) && Done(s, b)
    ensures Reached(f, VisitPhis(s, b, f.blocks[b].phis, 0), b, 0) && Onward(f, s, VisitPhis(s, b, f.blocks[b].phis, 0))
  {
    hide Flow, Results, Sound, InSsa, VisitPhis, Queues, Open;
    var t := VisitPhis(s, b, f.blocks[b].phis, 0);
    VisitPhisQueues(s, b, f.blocks[b].phis, 0);
    OnwardSame(f, s, t);
    ResultsStay(f, s, t, {b});
    forall k | 0 <= k < |f.blocks[b].phis| ensures Sound(t, f, PhiAt(b, k)) {
      PhisOpen(f, s, b, k);
      VisitPhisSettle(s, f, b, 0, PhiAt(b, k));
    }
  }

  // All results of the block are known once its body has been visited.
  lemma AllResults(f: Func, s: Solver, b: Node)
    requires b in f.blocks && Reached(f, s, b, |f.blocks[b].body|)
    ensures Steady(f, s)
  {
    hide Flow, Settled, Waits;
    forall k | 0 <= k < |f.blocks[b].phis| ensures !s.Cell(f.blocks[b].phis[k].x).Unknown? {
      assert Sound(s, f, PhiAt(b, k));
    }
    forall k | 0 <= k < |f.blocks[b].body| && f.blocks[b].body[k].Def? ensures !s.Cell(f.blocks[b].body[k].x).Unknown? {
      assert Sound(s, f, BodyAt(b, k));
    }
  }

  // Every place in a visited block, and every place in the block itself.
  lemma VisitBlockSettles(u: Unit, s: Solver, b: Node, site: User)
    requires u.Ok() && InSsa(u.f) && Flow(u.f, s) && Results(u.f, s, {b}) && b in u.f.blocks && Done(s, b)
    requires Exists(u.f, site) && Done(s, site.b) && (site.b == b || Sound(s, u.f, site))
    ensures Steady(u.f, VisitBlock(s, u.f, b)) && Onward(u.f, s, VisitBlock(s, u.f, b))
    ensures Sound(VisitBlock(s, u.f, b), u.f, site)
  {
    hide InSsa, Flow, Results, Sound, Queues, VisitPhis, VisitBody, VisitTerm, Open, Exits, SiteKnown;
    var f := u.f;
    var t := VisitPhis(s, b, f.blocks[b].phis, 0);
    var r := VisitBody(t, f.blocks[b].body, 0);
    PhisReached(f, s, b);
    BodyReached(f, t, b, 0);
    AllResults(f, r, b);
    ExitsKnown(f, r, b);
    VisitTermFlow(u, r, b);
    SteadyOnward(f, r, VisitBlock(s, f, b));
    OnwardOver(f, s, t, r);
    OnwardOver(f, s, r, VisitBlock(s, f, b));
    if site == TermAt(b) {
      VisitedKnown(f, r, site);
      VisitTermSettles(u, r, b);
    } else {
      if site.b != b {
        VisitPhisQueues(s, b, f.blocks[b].phis, 0);
        VisitBodyQueues(t, f.blocks[b].body, 0);
        SoundStays(s, t, f, site);
        SoundStays(t, r, f, site);
      }
      VisitTermKeeps(u, r, b, site);
    }
  }

  // ---------- solve ----------

  /** Between two steps of solve: the results of visited blocks are known, and each of their instructions is
      settled or waits for an overdefined operand that is queued. */
  ghost predicate Held(u: Unit, s: Solver) {
    Steady(u.f, s) && forall site {:trigger Exists(u.f, site)} :: Exists(u.f, site) && Done(s, site.b) ==>
        Sound(s, u.f, site)
  }

  lemma PopOverHolds(u: Unit, s: Solver)
    requires u.Ok() && Followed(u) && Held(u, s) && s.overList != []
    ensures Held(u, PopOver(u, s))
  {
    hide InSsa, PlainOverBranches, Flow, Sound, Results, Exists, UsesAt, Queues;
    var x, t := s.overList[0], s.(overList := s.overList[1..]);
    SameSteady(u.f, s, t);
    VisitUsersOnward(u, t, x, 0);
    SteadyOnward(u.f, t, PopOver(u, s));
    forall site | Exists(u.f, site) && Done(PopOver(u, s), site.b) ensures Sound(PopOver(u, s), u.f, site) {
      Unqueued(s, t, u.f, site);
      if UsesAt(u.f, site, x) { assert site in u.Users(x)[0..]; }
      VisitUsersSettle(u, t, x, 0, site);
    }
  }

  lemma SameSteady(f: Func, s: Solver, t: Solver)
    requires Steady(f, s) && t.cells == s.cells && SameFlow(s, t)
    ensures Steady(f, t)
  {
    var r := t.(overList := s.overList);
    assert Queues(s, r);
    FlowStays(f, s, r);
    ResultsStay(f, s, r, {});
    FlowSame(f, r, t);
    SameDefs(f, r, t);
  }

  lemma FlowSame(f: Func, s: Solver, t: Solver)
    requires Flow(f, s) && t.cells == s.cells && SameFlow(s, t)
    ensures Flow(f, t)
  {
    forall i, b | 0 <= i <= |t.blockList| && Before(t, i, b) ensures LedBefore(f, t, i, b) {
      assert Before(s, i, b);
      var p :| Joins(Cfg(f), p, f.entry, b) && forall x :: x in p ==> Before(s, i, x);
      assert forall x :: x in p ==> Before(t, i, x);
    }
    forall p, b | (p, b) in t.edges ensures GoodEdge(t, f, p, b) {
      assert GoodEdge(s, f, p, b);
      SameEdgeKnown(s, t, f, p, b);
    }
    forall b | b in t.exec && b != f.entry ensures Entered(t, b) {
      assert Entered(s, b);
    }
    assert forall x :: x in f.args ==> s.Cell(x).Over? ==> t.Cell(x).Over?;
  }

  lemma SameEdgeKnown(s: Solver, t: Solver, f: Func, p: Node, b: Node)
    requires t.cells == s.cells && EdgeKnown(s, f, p, b)
    ensures EdgeKnown(t, f, p, b)
  {
    assert forall o :: t.Get(o) == s.Get(o);
  }

  lemma SameDefs(f: Func, s: Solver, t: Solver)
    requires Results(f, s, {}) && t.cells == s.cells && SameFlow(s, t)
    ensures Results(f, t, {})
  {
    forall b | Done(t, b) && b in f.blocks ensures DefsKnown(t, f.blocks[b]) {
      assert Done(s, b);
      SameKnown(s, t, f.blocks[b]);
    }
  }

  // Taking x off the list matters to the users of x only.
  lemma Unqueued(s: Solver, t: Solver, f: Func, site: User)
    requires Sound(s, f, site) && s.overList != [] && t == s.(overList := s.overList[1..])
    ensures Sound(t, f, site) || UsesAt(f, site, s.overList[0])
  {
    hide UsesAt, Transfer;
    SameSite(s, t, f, site);
    if x :| x in s.overList && UsesAt(f, site, x) {
      if x != s.overList[0] { assert x in t.overList; }
    }
  }

  lemma SameSite(s: Solver, t: Solver, f: Func, site: User)
    requires Exists(f, site) && t.cells == s.cells && t.edges == s.edges
    ensures SiteKnown(t, f, site) <==> SiteKnown(s, f, site)
    ensures Settled(t, f, site) <==> Settled(s, f, site)
  {
    assert forall o :: t.Get(o) == s.Get(o);
    assert forall x :: t.Cell(x) == s.Cell(x);
    if site.BodyAt? && f.blocks[site.b].body[site.i].Def? { SameTransfer(s, t, f.blocks[site.b].body[site.i]); }
  }

  lemma PopInstHolds(u: Unit, s: Solver)
    requires u.Ok() && Followed(u) && Held(u, s) && s.instList != []
    ensures Held(u, PopInst(u, s))
  {
    hide InSsa, PlainOverBranches, Flow, Results, Exists, UsesAt, Queues, Settled, SiteKnown;
    var x, t := s.instList[0], s.(instList := s.instList[1..]);
    SameSteady(u.f, s, t);
    forall site | Exists(u.f, site) && Done(t, site.b) ensures Sound(t, u.f, site) {
      SameSite(s, t, u.f, site);
      assert Waits(s, u.f, site) ==> Waits(t, u.f, site);
    }
    if s.Cell(x).Over? {
      VisitUsersOnward(u, t, x, 0);
      SteadyOnward(u.f, t, PopInst(u, s));
      forall site | Exists(u.f, site) && Done(PopInst(u, s), site.b) ensures Sound(PopInst(u, s), u.f, site) {
        VisitUsersSettle(u, t, x, 0, site);
      }
    }
  }

  // The head of the list becomes a visited block: nothing is known about it yet.
  lemma BlockTaken(f: Func, s: Solver)
    requires Steady(f, s) && s.blockList != []
    ensures var t := s.(blockList := s.blockList[1..]);
            Flow(f, t) && Results(f, t, {s.blockList[0]}) && s.blockList[0] in f.blocks && Done(t, s.blockList[0])
    ensures forall b :: Done(s.(blockList := s.blockList[1..]), b) ==> Done(s, b) || b == s.blockList[0]
  {
    hide EdgeKnown, DefsKnown;
    var t, h := s.(blockList := s.blockList[1..]), s.blockList[0];
    assert s.blockList == [h] + t.blockList;
    assert h in s.blockList;
    assert forall x :: t.Cell(x) == s.Cell(x);
    forall i, b | 0 <= i <= |t.blockList| && Before(t, i, b) ensures LedBefore(f, t, i, b) {
      assert t.blockList[i..] == s.blockList[i + 1..];
      assert Before(s, i + 1, b);
      var p :| Joins(Cfg(f), p, f.entry, b) && forall x :: x in p ==> Before(s, i + 1, x);
      assert forall x :: x in p ==> Before(t, i, x);
    }
    forall p, b | (p, b) in t.edges ensures GoodEdge(t, f, p, b) {
      assert GoodEdge(s, f, p, b);
      SameEdgeKnown(s, t, f, p, b);
    }
    forall b | b in t.exec && b != f.entry ensures Entered(t, b) {
      assert Entered(s, b);
    }
    forall b | Done(t, b) && b in f.blocks && b != h ensures DefsKnown(t, f.blocks[b]) {
      assert Done(s, b);
      SameKnown(s, t, f.blocks[b]);
    }
  }

  lemma ExistsTerm(f: Func, b: Node)
    requires b in f.blocks
    ensures Exists(f, TermAt(b))
  {
  }

  lemma PopBlockHolds(u: Unit, s: Solver)
    requires u.Ok() && Followed(u) && Held(u, s) && s.blockList != []
    ensures Held(u, PopBlock(u, s))
  {
    hide InSsa, PlainOverBranches, Flow, Results, Exists, UsesAt, Queues, Settled, SiteKnown, VisitBlock, Done;
    var h, t := s.blockList[0], s.(blockList := s.blockList[1..]);
    var r := PopBlock(u, s);
    BlockTaken(u.f, s);
    ExistsTerm(u.f, h);
    VisitBlockSettles(u, t, h, TermAt(h));
    forall site | Exists(u.f, site) && Done(r, site.b) ensures Sound(r, u.f, site) {
      if site.b != h {
        SameSite(s, t, u.f, site);
        assert Waits(s, u.f, site) ==> Waits(t, u.f, site);
      }
      VisitBlockSettles(u, t, h, site);
    }
  }

  lemma {:induction false} SolveHolds(u: Unit, s: Solver, phase: int)
    requires u.Ok() && Followed(u) && Held(u, s) && Rooted(u, s) && 0 <= phase <= 2
    ensures Held(u, Solve(u, s, phase))
    decreases Rank(u, s), Idle(s, phase)
  {
    hide Held, Followed, Grows, Rooted, PopOver, PopInst, PopBlock, Left;
    PopsFall(u, s);
    PopsRooted(u, s);
    if phase == 0 {
      if s.overList != [] {
        PopOverHolds(u, s);
        SolveHolds(u, PopOver(u, s), 0);
      } else {
        SolveHolds(u, s, 1);
      }
    } else if phase == 1 {
      if s.instList != [] {
        PopInstHolds(u, s);
        SolveHolds(u, PopInst(u, s), 1);
      } else {
        SolveHolds(u, s, 2);
      }
    } else if s.blockList != [] {
      PopBlockHolds(u, s);
      SolveHolds(u, PopBlock(u, s), 2);
    } else if s.overList != [] || s.instList != [] {
      SolveHolds(u, s, 0);
    }
  }

  // With empty lists nothing waits and every marked block has been visited.
  lemma HeldIsClosed(u: Unit, s: Solver)
    requires Held(u, s) && s.overList == [] && s.blockList == []
    ensures Closed(s, u.f)
  {
    hide Ordered, EdgeKnown, Results, PhiSettled, DefSettled, TermSettled;
    var f := u.f;
    forall e | e in s.edges ensures e.1 in s.exec {
      var (p, b) := e;
      assert GoodEdge(s, f, p, b);
    }
    forall b | b in s.exec && b in f.blocks ensures BlockSettled(s, b, f.blocks[b]) {
      forall i | 0 <= i < |f.blocks[b].phis| ensures PhiSettled(s, b, f.blocks[b].phis[i]) {
        SiteSettled(u, s, PhiAt(b, i));
      }
      forall i | 0 <= i < |f.blocks[b].body| && f.blocks[b].body[i].Def?
        ensures DefSettled(s, f.blocks[b].body[i].x, f.blocks[b].body[i].rhs) {
        SiteSettled(u, s, BodyAt(b, i));
      }
      SiteSettled(u, s, TermAt(b));
    }
  }

  lemma SiteSettled(u: Unit, s: Solver, site: User)
    requires Held(u, s) && s.overList == [] && s.blockList == [] && Exists(u.f, site) && site.b in s.exec
    ensures Settled(s, u.f, site)
  {
    assert Sound(s, u.f, site);
  }

  // The state process_func starts solve in: the entry is marked and the arguments are overdefined.
  ghost predicate Initial(u: Unit, s: Solver) {
    && s.exec == {u.f.entry} && s.blockList == [u.f.entry] && s.edges == {}
    && forall x :: x in u.f.args ==> s.Cell(x).Over?
  }

  lemma InitialHolds(u: Unit, s: Solver)
    requires u.Ok() && Initial(u, s)
    ensures Held(u, s)
  {
    SinglePath(Cfg(u.f), u.f.entry);
    forall i, b | 0 <= i <= |s.blockList| && Before(s, i, b) ensures LedBefore(u.f, s, i, b) {
      assert b == u.f.entry;
      assert s.blockList[0..] == s.blockList;
      assert Joins(Cfg(u.f), [b], u.f.entry, b);
      assert forall x :: x in [b] ==> Before(s, i, x);
    }
  }

  /** On a function in SSA form, with the use lists of its values, in which phis read only constants and
      arguments over edges out of blocks that branch on a variable: solve ends in a closed state, with nothing
      left for process_unknown. */
  lemma SolveCloses(u: Unit, s: Solver)
    requires u.Ok() && Followed(u) && Initial(u, s) && Rooted(u, s)
    ensures Closed(Solve(u, s, 0), u.f) && AllKnown(Solve(u, s, 0), u.f)
    ensures Propagate(u, s) == Solve(u, s, 0)
  {
    hide Closed, AllKnown, Rooted, Initial, UseLists, InSsa, PlainOverBranches, Held, Solve, Changes;
    var t := Solve(u, s, 0);
    FollowedSsa(u);
    InitialHolds(u, s);
    SolveHolds(u, s, 0);
    SolveKeeps(u, s, 0);
    HeldIsClosed(u, t);
    HeldIsKnown(u, t);
    KnownNoChange(u, t);
    PropagateStops(u, s);
  }

  lemma PropagateStops(u: Unit, s: Solver)
    requires u.Ok() && Rooted(u, s) && CondsDominated(u.f) && !Changes(u, Solve(u, s, 0), 0)
    ensures Propagate(u, s) == Solve(u, s, 0)
  {
    hide Rooted, Solve, Changes, CondsDominated;
  }

  lemma FollowedSsa(u: Unit)
    requires Followed(u)
    ensures CondsDominated(u.f) && InSsa(u.f)
  {
  }

  lemma HeldIsKnown(u: Unit, s: Solver)
    requires InSsa(u.f) && Held(u, s) && s.blockList == []
    ensures AllKnown(s, u.f)
  {
    hide Flow, DefsKnown, InSsa;
    FromSsa(u.f);
    forall b | b in s.exec && b in u.f.blocks ensures BlockKnown(s, u.f.blocks[b]) {
      assert Done(s, b);
      KnownBlock(u.f, s, b);
    }
  }

  lemma FromSsa(f: Func)
    requires InSsa(f)
    ensures CondsDominated(f)
  {
  }

  lemma KnownBlock(f: Func, s: Solver, b: Node)
    requires CondsDominated(f) && Flow(f, s) && Results(f, s, {}) && b in f.blocks && Done(s, b)
    ensures BlockKnown(s, f.blocks[b])
  {
    hide Flow, CondsDominated;
    assert DefsKnown(s, f.blocks[b]);
    if f.blocks[b].term.Branch? { CondLeaves(f, s, b); }
  }
}
