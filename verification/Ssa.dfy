/** Functions in SSA form, restricted to the integer instructions that the constant propagation looks at
    (include/Optimize/SCCPSolver.hh, visit), and what running them means. */
module Ssa {
  import opened SsaForm
  import opened Basis
  import opened Graphs
  import opened Words

  /** Opaque stands for loads, calls, allocas and address arithmetic, whose results are not followed. */
  datatype Rhs = Binary(op: Op, a: Operand, b: Operand) | Compare(c: Cmp, a: Operand,
      b: Operand) | Extend(a: Operand) | Opaque(uses: seq<Operand>)

  datatype Inst = Def(x: Var, rhs: Rhs) | Effect(uses: seq<Operand>)

  datatype Block = Block(phis: seq<Phi>, body: seq<Inst>, term: Term)

  datatype Func = Func(entry: Node, blocks: map<Node, Block>, args: set<Var>)

  function Targets(t: Term): set<Node> {
    match t
    case Jump(b) => {b}
    case Branch(_, a, b) => {a, b}
    case Return(_) => {}
  }

  // ---------- runs ----------

  predicate AllReady(e: Env, uses: seq<Operand>) { forall i :: 0 <= i < |uses| ==> Ready(e, uses[i]) }

  function Values(e: Env, uses: seq<Operand>): (r: seq<int>)
    requires AllReady(e, uses)
    ensures |r| == |uses| && forall i :: 0 <= i < |uses| ==> r[i] == Value(e, uses[i])
  {
    seq(|uses|, i requires 0 <= i < |uses| => Value(e, uses[i]))
  }

  /** What the world sees of one instruction: the operands of an effect or an opaque instruction, and what
      the latter came back with. */
  datatype Event = Event(operands: seq<int>, outcome: Option<int>)

  // One instruction takes e to e2 and shows log. Reading a variable that has no value is not a step.
  ghost predicate InstRuns(i: Inst, e: Env, e2: Env, log: seq<Event>) {
    match i
    case Effect(uses) => AllReady(e, uses) && e2 == e && log == [Event(Values(e, uses), None)]
    case Def(x, Binary(op, a, b)) =>
      && Ready(e, a) && Ready(e, b) && Result(op, Value(e, a), Value(e, b)).Some?
      && e2 == e[x := Result(op, Value(e, a), Value(e, b)).value] && log == []
    case Def(x, Compare(c, a, b)) =>
      && Ready(e, a) && Ready(e, b) && e2 == e[x := FoldCmp(c, Value(e, a), Value(e, b))] && log == []
    case Def(x, Extend(a)) => Ready(e, a) && e2 == e[x := Value(e, a)] && log == []
    case Def(x, Opaque(uses)) =>
      && AllReady(e, uses) && x in e2 && e2 == e[x := e2[x]]
      && log == [Event(Values(e, uses), Some(e2[x]))]
  }

  // The first k instructions, through the environments envs[0], ..., envs[k].
  ghost predicate BodyRuns(body: seq<Inst>, envs: seq<Env>, log: seq<seq<Event>>) {
    && |envs| == |body| + 1 && |log| == |body|
    && forall k, m {:trigger envs[k], envs[m]} :: 0 <= k < |body| && m == k + 1 ==>
      InstRuns(body[k], envs[k], envs[m], log[k])
  }

  // The operand of a phi for control arriving from block p is v.
  ghost predicate PhiGives(phi: Phi, p: Node, e: Env, v: int) {
    exists i :: 0 <= i < |phi.ins| && phi.ins[i].1 == p && Ready(e, phi.ins[i].0) && Value(e, phi.ins[i].0) == v
  }

  // All phis of a block read e, then write e2.
  ghost predicate PhisRun(phis: seq<Phi>, p: Node, e: Env, e2: Env) {
    && (forall k :: 0 <= k < |phis| ==> phis[k].x in e2 && PhiGives(phis[k], p, e, e2[phis[k].x]))
    && (forall x {:trigger x in e2} {:trigger e2[x]} :: (forall k :: 0 <= k < |phis| ==> phis[k].x != x) ==>
      (x in e2 <==> x in e) && (x in e ==> e2[x] == e[x]))
  }

  ghost predicate Goes(t: Term, e: Env, to: Node) {
    match t
    case Jump(b) => to == b
    case Branch(c, a, b) => Ready(e, c) && to == if Value(e, c) != 0 then a else b
    case Return(_) => false
  }

  /** Control is about to enter block at, coming from block from; env is what the variables hold. */
  datatype Config = Config(at: Node, from: Node, env: Env)

  datatype Visit = Visit(envs: seq<Env>, log: seq<seq<Event>>)

  // The phis and the body of the block entered.
  ghost predicate Enters(f: Func, c: Config, v: Visit) {
    && c.at in f.blocks
    && var b := f.blocks[c.at];
       && BodyRuns(b.body, v.envs, v.log)
       && (if c.at == f.entry then v.envs[0] == c.env else PhisRun(b.phis, c.from, c.env, v.envs[0]))
  }

  ghost predicate Steps(f: Func, c: Config, v: Visit, d: Config) {
    && Enters(f, c, v)
    && var last := v.envs[|f.blocks[c.at].body|];
       Goes(f.blocks[c.at].term, last, d.at) && d.from == c.at && d.env == last
  }

  // The block entered returns these values.
  ghost predicate Finishes(f: Func, c: Config, v: Visit, values: seq<int>) {
    && Enters(f, c, v)
    && var b, last := f.blocks[c.at], v.envs[|f.blocks[c.at].body|];
       b.term.Return? && AllReady(last, b.term.uses) && values == Values(last, b.term.uses)
  }

  // A run starts at the entry with the arguments, and nothing else, defined.
  ghost predicate Runs(f: Func, run: seq<Config>, visits: seq<Visit>) {
    && |run| > 0 && |visits| == |run| - 1
    && run[0].at == f.entry && run[0].env.Keys == f.args
    && forall k, m {:trigger run[k], run[m]} :: 0 <= k < m < |run| && m == k + 1 ==> Steps(f, run[k], visits[k], run[m])
  }
}
