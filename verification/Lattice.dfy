/** The state of the constant propagation and its transfer functions (include/Optimize/SCCPSolver.hh). */
module Lattices {
  import opened SsaForm
  import opened Graphs
  import opened Ssa
  import opened Words

  datatype Cell = Unknown | Constant(val: int) | Over

  // Lattice::mergein, lines 48-68.
  function Merge(a: Cell, b: Cell): Cell {
    if b.Unknown? || a.Over? then a
    else if b.Over? then Over
    else if a.Unknown? then b
    else if a == b then a
    else Over
  }

  // Cells only move up: unknown, constant, overdefined; and a constant stays the same constant.
  predicate Below(a: Cell, b: Cell) { a.Unknown? || b.Over? || a == b }

  /** A place where a variable is used: phi or body instruction i of a block, or its terminator. */
  datatype User = PhiAt(b: Node, i: nat) | BodyAt(b: Node, i: nat) | TermAt(b: Node)

  datatype Solver = Solver(cells: map<Var, Cell>, edges: set<(Node, Node)>, exec: set<Node>,
                           blockList: seq<Node>, instList: seq<Var>, overList: seq<Var>) {
    function Cell(x: Var): Cell { if x in cells then cells[x] else Unknown }

    // get_value_state, lines 156-163.
    function Get(o: Operand): Cell {
      match o case Num(n) => Constant(n) case Use(x) => Cell(x)
    }

    // A cell changes, and its variable is queued (push_to_worklist, lines 102-106).
    function Raise(x: Var, c: Cell): Solver {
      if c.Over? then this.(cells := cells[x := c], overList := overList + [x])
      else this.(cells := cells[x := c], instList := instList + [x])
    }

    // mergein_value, lines 255-264.
    function MergeIn(x: Var, c: Cell): Solver {
      var m := Merge(Cell(x), c);
      if m == Cell(x) then this else Raise(x, m)
    }

    // mark_overdefined, lines 95-101.
    function MarkOver(x: Var): Solver { MergeIn(x, Over) }
  }

  // ---------- transfer functions ----------

  // Lines 243-252 from operand i on.
  function PhiMerge(s: Solver, b: Node, ins: seq<(Operand, Node)>, i: nat, c: Cell): Cell
    requires i <= |ins|
    decreases |ins| - i
  {
    if i == |ins| || c.Over? then c
    else if (ins[i].1, b) in s.edges then PhiMerge(s, b, ins, i + 1, Merge(c, s.Get(ins[i].0)))
    else PhiMerge(s, b, ins, i + 1, c)
  }

  // visit_phi, lines 238-254.
  function VisitPhi(s: Solver, b: Node, p: Phi): Solver {
    if s.Cell(p.x).Over? then s else s.MergeIn(p.x, PhiMerge(s, b, p.ins, 0, s.Cell(p.x)))
  }

  // What an instruction makes of the cells of its operands; Unknown stands for "wait".
  function Transfer(s: Solver, r: Rhs): Cell {
    match r
    case Binary(op, a, b) =>
      if s.Get(a).Unknown? || s.Get(b).Unknown? then Unknown
      else if s.Get(a).Constant? && s.Get(b).Constant? then Constant(Fold(op, s.Get(a).val, s.Get(b).val))
      else Over
    case Compare(c, a, b) =>
      if s.Get(a).Unknown? || s.Get(b).Unknown? then Unknown
      else if s.Get(a).Constant? && s.Get(b).Constant? then Constant(FoldCmp(c, s.Get(a).val, s.Get(b).val))
      else Over
    case Extend(a) => s.Get(a)
    case Opaque(_) => Over
  }

  // visit of an instruction with a result, lines 305-379 and 411-449.
  function VisitDef(s: Solver, x: Var, r: Rhs): Solver {
    if s.Cell(x).Over? then s else s.MergeIn(x, Transfer(s, r))
  }

  function VisitInst(s: Solver, i: Inst): Solver {
    match i case Def(x, r) => VisitDef(s, x, r) case Effect(_) => s
  }

  // mark_block_executable, lines 89-94.
  function MarkBlock(s: Solver, b: Node): Solver {
    if b in s.exec then s else s.(exec := s.exec + {b}, blockList := s.blockList + [b])
  }

  function VisitPhis(s: Solver, b: Node, phis: seq<Phi>, i: nat): Solver
    requires i <= |phis|
    decreases |phis| - i
  {
    if i == |phis| then s else VisitPhis(VisitPhi(s, b, phis[i]), b, phis, i + 1)
  }

  // mark_edge_executable, lines 268-276.
  function MarkEdge(s: Solver, f: Func, from: Node, to: Node): Solver {
    if (from, to) in s.edges then s
    else
      var t := s.(edges := s.edges + {(from, to)});
      if to in s.exec then (if to in f.blocks then VisitPhis(t, to, f.blocks[to].phis, 0) else t)
      else MarkBlock(t, to)
  }

  // visit_br, lines 381-408, and visit_ret.
  function VisitTerm(s: Solver, f: Func, b: Node, t: Term): Solver {
    match t
    case Jump(to) => MarkEdge(s, f, b, to)
    case Branch(c, yes, no) =>
      (match s.Get(c)
       case Unknown => s
       case Constant(n) => MarkEdge(s, f, b, if n != 0 then yes else no)
       case Over => MarkEdge(MarkEdge(s, f, b, yes), f, b, no))
    case Return(_) => s
  }

  function VisitBody(s: Solver, body: seq<Inst>, i: nat): Solver
    requires i <= |body|
    decreases |body| - i
  {
    if i == |body| then s else VisitBody(VisitInst(s, body[i]), body, i + 1)
  }

  // visit of a block, lines 166-169.
  function VisitBlock(s: Solver, f: Func, b: Node): Solver
    requires b in f.blocks
  {
    var blk := f.blocks[b];
    VisitTerm(VisitBody(VisitPhis(s, b, blk.phis, 0), blk.body, 0), f, b, blk.term)
  }

  // operand_changed_state, lines 152-155.
  function VisitUser(s: Solver, f: Func, u: User): Solver {
    if u.b !in s.exec || u.b !in f.blocks then s
    else
      var blk := f.blocks[u.b];
      match u
      case PhiAt(b, i) => if i < |blk.phis| then VisitPhi(s, b, blk.phis[i]) else s
      case BodyAt(b, i) => if i < |blk.body| then VisitInst(s, blk.body[i]) else s
      case TermAt(b) => VisitTerm(s, f, b, blk.term)
  }

  // mark_users_as_changed, lines 145-151.
  function VisitUsers(s: Solver, f: Func, users: seq<User>, i: nat): Solver
    requires i <= |users|
    decreases |users| - i
  {
    if i == |users| then s else VisitUsers(VisitUser(s, f, users[i]), f, users, i + 1)
  }

  // ---------- closed states ----------

  // Visiting the instruction again would change nothing.
  predicate PhiSettled(s: Solver, b: Node, p: Phi) {
    s.Cell(p.x).Over? || forall i {:trigger p.ins[i]} :: 0 <= i < |p.ins| && (p.ins[i].1, b) in s.edges ==>
        Below(s.Get(p.ins[i].0), s.Cell(p.x))
  }

  predicate DefSettled(s: Solver, x: Var, r: Rhs) { Below(Transfer(s, r), s.Cell(x)) }

  predicate TermSettled(s: Solver, b: Node, t: Term) {
    match t
    case Jump(to) => (b, to) in s.edges
    case Branch(c, yes, no) =>
      (match s.Get(c)
       case Unknown => true
       case Constant(n) => (b, if n != 0 then yes else no) in s.edges
       case Over => (b, yes) in s.edges && (b, no) in s.edges)
    case Return(_) => true
  }

  predicate BlockSettled(s: Solver, b: Node, blk: Block) {
    && (forall i {:trigger blk.phis[i]} :: 0 <= i < |blk.phis| ==> PhiSettled(s, b, blk.phis[i]))
    && (forall i {:trigger blk.body[i]} :: 0 <= i < |blk.body| && blk.body[i].Def? ==>
      DefSettled(s, blk.body[i].x, blk.body[i].rhs))
    && TermSettled(s, b, blk.term)
  }

  /** No visit of an instruction in an executable block would change anything. */
  ghost predicate Closed(s: Solver, f: Func) {
    && f.entry in s.exec
    && (forall x :: x in f.args ==> s.Cell(x).Over?)
    && (forall e {:trigger e in s.edges} :: e in s.edges ==> e.1 in s.exec)
    && (forall b {:trigger f.blocks[b]} :: b in s.exec && b in f.blocks ==> BlockSettled(s, b, f.blocks[b]))
  }

  // No value and no condition of an executable block is unknown.
  ghost predicate AllKnown(s: Solver, f: Func) {
    forall b {:trigger f.blocks[b]} :: b in s.exec && b in f.blocks ==> BlockKnown(s, f.blocks[b])
  }

  predicate BlockKnown(s: Solver, blk: Block) {
    && (forall i {:trigger blk.phis[i]} :: 0 <= i < |blk.phis| ==> !s.Cell(blk.phis[i].x).Unknown?)
    && (forall i {:trigger blk.body[i]} :: 0 <= i < |blk.body| && blk.body[i].Def? ==> !s.Cell(blk.body[i].x).Unknown?)
    && (blk.term.Branch? ==> !s.Get(blk.term.cond).Unknown?)
  }
}
