/** Mark-and-sweep dead code elimination (include/Optimize/DeadCode.hh, lines 273-341): what the language
    means, which instructions are kept, and why dropping the others goes unnoticed. */
module DeadCodeTheory {
  import opened SsaForm
  import opened Basis
  import opened Graphs

  /** Compute covers everything whose value depends on its operands alone: arithmetic, comparisons,
      conversions, address computations, allocas. Memory is one abstract value. */
  datatype Rhs = Compute(op: int, uses: seq<Operand>) | Load(address: Operand) | Call(callee: int, args: seq<Operand>)

  datatype Inst =
    | Def(x: Var, rhs: Rhs)
    | Store(address: Operand, value: Operand)
    | CallVoid(callee: int, args: seq<Operand>)

  datatype Block = Block(phis: seq<Phi>, body: seq<Inst>, term: Term)

  datatype Func = Func(entry: Node, blocks: map<Node, Block>)

  /** What the program cannot see into: an operation may have no result (division by zero), and a call may
      change memory unless its callee is pure. */
  datatype World = World(
    compute: (int, seq<int>) -> Option<int>,
    read: (int, int) -> int,
    write: (int, int, int) -> int,
    call: (int, seq<int>, int) -> (int, int),
    pure: set<int>)

  ghost predicate Honest(w: World) {
    forall f, args, m {:trigger w.call(f, args, m)} :: f in w.pure ==> w.call(f, args, m).0 == m
  }

  // ---------- what running means ----------

  function Values(e: Env, uses: seq<Operand>): Option<seq<int>> {
    if |uses| == 0 then Some([])
    else
      var r := Values(e, uses[..|uses| - 1]);
      if r.Some? && Ready(e, uses[|uses| - 1]) then Some(r.value + [Value(e, uses[|uses| - 1])]) else None
  }

  // What is observed: stores, and calls of functions that are not pure, with their results.
  datatype Event = Stored(address: int, value: int) | Called(callee: int, args: seq<int>, result: int)

  datatype State = State(env: Env, mem: int, log: seq<Event>)

  function RunCall(w: World, s: State, callee: int, args: seq<Operand>): Option<(State, int)> {
    var vs := Values(s.env, args);
    if vs.None? then None
    else
      var (m, r) := w.call(callee, vs.value, s.mem);
      Some((State(s.env, m, if callee in w.pure then s.log else s.log + [Called(callee, vs.value, r)]), r))
  }

  function RunInst(w: World, i: Inst, s: State): Option<State> {
    match i
    case Def(x, Compute(op, uses)) =>
      var vs := Values(s.env, uses);
      if vs.None? || w.compute(op, vs.value).None? then None
      else Some(s.(env := s.env[x := w.compute(op, vs.value).value]))
    case Def(x, Load(a)) =>
      if Ready(s.env, a) then Some(s.(env := s.env[x := w.read(s.mem, Value(s.env, a))])) else None
    case Def(x, Call(f, args)) =>
      var r := RunCall(w, s, f, args);
      if r.None? then None else Some(r.value.0.(env := s.env[x := r.value.1]))
    case Store(a, v) =>
      if Ready(s.env, a) && Ready(s.env, v) then
        Some(State(s.env, w.write(s.mem, Value(s.env, a), Value(s.env, v)),
            s.log + [Stored(Value(s.env, a), Value(s.env, v))]))
      else None
    case CallVoid(f, args) =>
      var r := RunCall(w, s, f, args);
      if r.None? then None else Some(r.value.0)
  }

  function RunBody(w: World, body: seq<Inst>, s: State): Option<State> {
    if |body| == 0 then Some(s)
    else
      var r := RunBody(w, body[..|body| - 1], s);
      if r.None? then None else RunInst(w, body[|body| - 1], r.value)
  }

  // The operand for control arriving from p.
  function Incoming(ins: seq<(Operand, Node)>, p: Node): Option<Operand> {
    if |ins| == 0 then None else if ins[0].1 == p then Some(ins[0].0) else Incoming(ins[1..], p)
  }

  // All phis read e; what they write is collected in a copy of it.
  function RunPhis(phis: seq<Phi>, p: Node, e: Env): Option<Env> {
    if |phis| == 0 then Some(e)
    else
      var phi := phis[|phis| - 1];
      var r, o := RunPhis(phis[..|phis| - 1], p, e), Incoming(phi.ins, p);
      if r.None? || o.None? || !Ready(e, o.value) then None else Some(r.value[phi.x := Value(e, o.value)])
  }

  datatype Config = At(block: Node, from: Node, state: State) | Done(values: seq<int>, state: State) | Stuck

  function RunTerm(t: Term, b: Node, s: State): Config {
    match t
    case Jump(to) => At(to, b, s)
    case Branch(c, yes, no) => if Ready(s.env, c) then At(if Value(s.env, c) != 0 then yes else no, b, s) else Stuck
    case Return(uses) => if Values(s.env, uses).Some? then Done(Values(s.env, uses).value, s) else Stuck
  }

  // One block. Stuck where the program has no defined behaviour.
  function Step(w: World, f: Func, c: Config): Config {
    if !c.At? then c
    else if c.block !in f.blocks then Stuck
    else
      var b := f.blocks[c.block];
      var e := RunPhis(b.phis, c.from, c.state.env);
      if e.None? then Stuck
      else
        var r := RunBody(w, b.body, c.state.(env := e.value));
        if r.None? then Stuck else RunTerm(b.term, c.block, r.value)
  }

  function Run(w: World, f: Func, c: Config, n: nat): Config {
    if n == 0 then c else Step(w, f, Run(w, f, c, n - 1))
  }

  // ---------- marking ----------

  /** An instruction, by where it stands. */
  datatype Site = PhiSite(b: Node, i: nat) | BodySite(b: Node, i: nat) | TermSite(b: Node)

  function PhiOperands(ins: seq<(Operand, Node)>): (r: seq<Operand>)
    ensures |r| == |ins| && forall i :: 0 <= i < |ins| ==> r[i] == ins[i].0
  {
    seq(|ins|, i requires 0 <= i < |ins| => ins[i].0)
  }

  function InstOperands(i: Inst): seq<Operand> {
    match i
    case Def(_, Compute(_, uses)) => uses
    case Def(_, Load(a)) => [a]
    case Def(_, Call(_, args)) => args
    case Store(a, v) => [a, v]
    case CallVoid(_, args) => args
  }

  function TermOperands(t: Term): seq<Operand> {
    match t case Jump(_) => [] case Branch(c, _, _) => [c] case Return(uses) => uses
  }

  predicate Exists(f: Func, s: Site) {
    && s.b in f.blocks
    && match s
       case PhiSite(b, i) => i < |f.blocks[b].phis|
       case BodySite(b, i) => i < |f.blocks[b].body|
       case TermSite(b) => true
  }

  function Operands(f: Func, s: Site): seq<Operand>
    requires Exists(f, s)
  {
    match s
    case PhiSite(b, i) => PhiOperands(f.blocks[b].phis[i].ins)
    case BodySite(b, i) => InstOperands(f.blocks[b].body[i])
    case TermSite(b) => TermOperands(f.blocks[b].term)
  }

  // is_critical, lines 327-341.
  predicate Critical(f: Func, pure: set<int>, s: Site)
    requires Exists(f, s)
  {
    match s
    case PhiSite(_, _) => false
    case BodySite(b, i) =>
      (match f.blocks[b].body[i]
       case Def(_, Call(callee, _)) => callee !in pure
       case CallVoid(callee, _) => callee !in pure
       case Store(_, _) => true
       case Def(_, _) => false)
    case TermSite(_) => true
  }

  // Somebody may notice that the instruction runs: memory or the log changes.
  ghost predicate Noticed(w: World, i: Inst, s: State) {
    var r := RunInst(w, i, s);
    r.Some? && (r.value.mem != s.mem || r.value.log != s.log)
  }

  /** Terminators are critical and phis are not. An instruction of the body is critical if and only if there is a
      world with these pure functions, and a state, in which it is noticed. */
  lemma CriticalIff(f: Func, pure: set<int>, s: Site)
    requires Exists(f, s)
    ensures s.PhiSite? ==> !Critical(f, pure, s)
    ensures s.TermSite? ==> Critical(f, pure, s)
    ensures s.BodySite? ==>
              (Critical(f, pure, s) <==>
               exists w, st :: Honest(w) && w.pure == pure && Noticed(w, f.blocks[s.b].body[s.i], st))
  {
    if s.BodySite? {
      var i := f.blocks[s.b].body[s.i];
      if Critical(f, pure, s) {
        var w := World((op, vs) => None, (m, a) => 0, (m, a, v) => 0, (callee, args, m) => (m, 0), pure);
        var uses := set o | o in InstOperands(i) && o.Use? :: o.x;
        var st := State(map x | x in uses :: 0, 0, []);
        assert forall o :: o in InstOperands(i) ==> Ready(st.env, o);
        AllHaveValues(st.env, InstOperands(i));
        assert Noticed(w, i, st);
      } else {
        forall w, st | Honest(w) && w.pure == pure ensures !Noticed(w, i, st) {
          Unnoticed(w, i, st);
        }
      }
    }
  }

  lemma {:induction false} AllHaveValues(e: Env, uses: seq<Operand>)
    requires forall o :: o in uses ==> Ready(e, o)
    ensures Values(e, uses).Some?
  {
    if |uses| > 0 { AllHaveValues(e, uses[..|uses| - 1]); }
  }

  // Calls of pure functions, and whatever computes a value only, go unnoticed.
  lemma Unnoticed(w: World, i: Inst, s: State)
    requires Honest(w)
    requires !i.Store? && (i.CallVoid? ==> i.callee in w.pure)
    requires i.Def? && i.rhs.Call? ==> i.rhs.callee in w.pure
    ensures !Noticed(w, i, s)
  {
    if i.CallVoid? && Values(s.env, i.args).Some? {
      assert w.call(i.callee, Values(s.env, i.args).value, s.mem).0 == s.mem;
    } else if i.Def? && i.rhs.Call? && Values(s.env, i.rhs.args).Some? {
      assert w.call(i.rhs.callee, Values(s.env, i.rhs.args).value, s.mem).0 == s.mem;
    }
  }

  // defs names the instruction that defines each variable; there is one (SSA).
  ghost predicate Defines(f: Func, defs: map<Var, Site>) {
    && (forall x :: x in defs ==> Exists(f, defs[x]))
    && (forall b, i {:trigger f.blocks[b].phis[i]} :: b in f.blocks && 0 <= i < |f.blocks[b].phis| ==>
          f.blocks[b].phis[i].x in defs && defs[f.blocks[b].phis[i].x] == PhiSite(b, i))
    && (forall b, i {:trigger f.blocks[b].body[i]} ::
      b in f.blocks && 0 <= i < |f.blocks[b].body| && f.blocks[b].body[i].Def? ==>
          f.blocks[b].body[i].x in defs && defs[f.blocks[b].body[i].x] == BodySite(b, i))
  }

  /** Everything critical is marked, and so is the definition of every operand of a marked instruction. */
  ghost predicate Closed(f: Func, pure: set<int>, defs: map<Var, Site>, marked: set<Site>) {
    && (forall s :: s in marked ==> Exists(f, s))
    && (forall s {:trigger s in marked} {:trigger Critical(f, pure, s)} :: Exists(f, s) && Critical(f, pure, s) ==>
      s in marked)
    && (forall s, x {:trigger Uses(f, s, x)} :: s in marked && Uses(f, s, x) && x in defs ==> defs[x] in marked)
  }

  ghost predicate Uses(f: Func, s: Site, x: Var) { Exists(f, s) && Use(x) in Operands(f, s) }

  // ---------- sweeping ----------

  function KeepPhis(phis: seq<Phi>, b: Node, marked: set<Site>, i: nat): seq<Phi>
    requires i <= |phis|
  {
    if i == 0 then [] else KeepPhis(phis, b, marked, i - 1) + if PhiSite(b, i - 1) in marked then [phis[i - 1]] else []
  }

  function KeepBody(body: seq<Inst>, b: Node, marked: set<Site>, i: nat): seq<Inst>
    requires i <= |body|
  {
    if i == 0 then [] else KeepBody(body, b, marked, i - 1) + if BodySite(b, i - 1) in marked then [body[i - 1]] else []
  }

  function SweepBlock(blk: Block, b: Node, marked: set<Site>): Block {
    Block(KeepPhis(blk.phis, b, marked, |blk.phis|), KeepBody(blk.body, b, marked, |blk.body|), blk.term)
  }

  function Sweep(f: Func, marked: set<Site>): Func {
    f.(blocks := map b | b in f.blocks :: SweepBlock(f.blocks[b], b, marked))
  }

  // ---------- the simulation ----------

  // The variables that survive: those without a definition here (arguments) and the marked ones.
  predicate Survives(defs: map<Var, Site>, marked: set<Site>, x: Var) { x in defs ==> defs[x] in marked }

  function Cut(e: Env, defs: map<Var, Site>, marked: set<Site>): Env {
    map x | x in e && Survives(defs, marked, x) :: e[x]
  }

  function CutState(s: State, defs: map<Var, Site>, marked: set<Site>): State { s.(env := Cut(s.env, defs, marked)) }

  function CutConfig(c: Config, defs: map<Var, Site>, marked: set<Site>): Config {
    match c
    case At(b, p, s) => At(b, p, CutState(s, defs, marked))
    case Done(vs, s) => Done(vs, CutState(s, defs, marked))
    case Stuck => Stuck
  }

  ghost predicate Setting(w: World, f: Func, defs: map<Var, Site>, marked: set<Site>) {
    Honest(w) && Defines(f, defs) && Closed(f, w.pure, defs, marked)
  }

  // Operands that survive have the same values.
  lemma CutReady(e: Env, defs: map<Var, Site>, marked: set<Site>, o: Operand)
    requires o.Use? ==> Survives(defs, marked, o.x)
    ensures Ready(Cut(e, defs, marked), o) <==> Ready(e, o)
    ensures Ready(e, o) ==> Value(Cut(e, defs, marked), o) == Value(e, o)
  {
  }

  lemma {:induction false} CutValues(e: Env, defs: map<Var, Site>, marked: set<Site>, uses: seq<Operand>)
    requires forall o :: o in uses && o.Use? ==> Survives(defs, marked, o.x)
    ensures Values(Cut(e, defs, marked), uses) == Values(e, uses)
  {
    if |uses| > 0 {
      CutValues(e, defs, marked, uses[..|uses| - 1]);
      CutReady(e, defs, marked, uses[|uses| - 1]);
    }
  }

  lemma CutSet(e: Env, defs: map<Var, Site>, marked: set<Site>, x: Var, n: int)
    ensures Survives(defs, marked, x) ==> Cut(e[x := n], defs, marked) == Cut(e, defs, marked)[x := n]
    ensures !Survives(defs, marked, x) ==> Cut(e[x := n], defs, marked) == Cut(e, defs, marked)
  {
  }

  // A kept instruction reads only what survives.
  lemma ReadsSurvive(w: World, f: Func, defs: map<Var, Site>, marked: set<Site>, s: Site)
    requires Setting(w, f, defs, marked) && s in marked
    ensures Exists(f, s) && forall o :: o in Operands(f, s) && o.Use? ==> Survives(defs, marked, o.x)
  {
    forall o | o in Operands(f, s) && o.Use? ensures Survives(defs, marked, o.x) {
      assert o == Use(o.x);
      assert Uses(f, s, o.x);
    }
  }

  lemma KeptInst(w: World, f: Func, defs: map<Var, Site>, marked: set<Site>, b: Node, i: nat, s: State)
    requires Setting(w, f, defs, marked) && BodySite(b, i) in marked
    ensures Exists(f, BodySite(b, i))
    ensures var inst := f.blocks[b].body[i];
            RunInst(w, inst, CutState(s, defs, marked)) ==
            if RunInst(w, inst, s).Some? then Some(CutState(RunInst(w, inst, s).value, defs, marked)) else None
  {
    hide Closed, Honest;
    var site := BodySite(b, i);
    ReadsSurvive(w, f, defs, marked, site);
    var inst := f.blocks[b].body[i];
    CutValues(s.env, defs, marked, Operands(f, site));
    match inst
    case Def(x, Compute(op, uses)) =>
      if Values(s.env, uses).Some? && w.compute(op, Values(s.env, uses).value).Some? {
        CutSet(s.env, defs, marked, x, w.compute(op, Values(s.env, uses).value).value);
      }
    case Def(x, Load(a)) =>
      assert a in Operands(f, site);
      CutReady(s.env, defs, marked, a);
      if Ready(s.env, a) { CutSet(s.env, defs, marked, x, w.read(s.mem, Value(s.env, a))); }
    case Def(x, Call(callee, args)) =>
      if RunCall(w, s, callee, args).Some? { CutSet(s.env, defs, marked, x, RunCall(w, s, callee, args).value.1); }
    case Store(a, v) =>
      assert a in Operands(f, site) && v in Operands(f, site);
      CutReady(s.env, defs, marked, a);
      CutReady(s.env, defs, marked, v);
    case CallVoid(_, _) =>
  }

  // A swept instruction leaves memory, the log and what survives alone.
  lemma SweptInst(w: World, f: Func, defs: map<Var, Site>, marked: set<Site>, b: Node, i: nat, s: State)
    requires Setting(w, f, defs, marked) && Exists(f, BodySite(b, i)) && BodySite(b, i) !in marked
    requires RunInst(w, f.blocks[b].body[i], s).Some?
    ensures CutState(RunInst(w, f.blocks[b].body[i], s).value, defs, marked) == CutState(s, defs, marked)
  {
    var inst := f.blocks[b].body[i];
    assert !Critical(f, w.pure, BodySite(b, i));
    if inst.Def? {
      assert !Survives(defs, marked, inst.x);
      CutSet(s.env, defs, marked, inst.x, RunInst(w, inst, s).value.env[inst.x]);
    }
  }

  lemma {:induction false} KeptBody(w: World, f: Func, defs: map<Var, Site>, marked: set<Site>, b: Node, k: nat,
      s: State)
    requires Setting(w, f, defs, marked) && b in f.blocks && k <= |f.blocks[b].body|
    requires RunBody(w, f.blocks[b].body[..k], s).Some?
    ensures RunBody(w, KeepBody(f.blocks[b].body, b, marked, k), CutState(s, defs, marked)) ==
            Some(CutState(RunBody(w, f.blocks[b].body[..k], s).value, defs, marked))
  {
    hide Setting, RunInst, CutState;
    var body := f.blocks[b].body;
    if k > 0 {
      assert body[..k][..k - 1] == body[..k - 1];
      KeptBody(w, f, defs, marked, b, k - 1, s);
      var mid := RunBody(w, body[..k - 1], s).value;
      if BodySite(b, k - 1) in marked {
        KeptInst(w, f, defs, marked, b, k - 1, mid);
        var kept := KeepBody(body, b, marked, k - 1);
        assert (kept + [body[k - 1]])[..|kept|] == kept;
      } else {
        SweptInst(w, f, defs, marked, b, k - 1, mid);
        assert KeepBody(body, b, marked, k) == KeepBody(body, b, marked, k - 1);
      }
    }
  }

  lemma {:induction false} IncomingAmong(ins: seq<(Operand, Node)>, p: Node)
    ensures Incoming(ins, p).Some? ==> Incoming(ins, p).value in PhiOperands(ins)
  {
    if |ins| > 0 {
      if ins[0].1 == p {
        assert PhiOperands(ins)[0] == ins[0].0;
      } else {
        IncomingAmong(ins[1..], p);
        if Incoming(ins, p).Some? {
          var i :| 0 <= i < |ins[1..]| && PhiOperands(ins[1..])[i] == Incoming(ins, p).value;
          assert PhiOperands(ins)[i + 1] == ins[1..][i].0;
        }
      }
    }
  }

  lemma {:induction false} KeptPhis(w: World, f: Func, defs: map<Var, Site>, marked: set<Site>, b: Node, k: nat,
      p: Node, e: Env)
    requires Setting(w, f, defs, marked) && b in f.blocks && k <= |f.blocks[b].phis|
    requires RunPhis(f.blocks[b].phis[..k], p, e).Some?
    ensures RunPhis(KeepPhis(f.blocks[b].phis, b, marked, k), p, Cut(e, defs, marked)) ==
            Some(Cut(RunPhis(f.blocks[b].phis[..k], p, e).value, defs, marked))
  {
    hide Closed, Honest, Cut;
    var phis := f.blocks[b].phis;
    if k > 0 {
      assert phis[..k][..k - 1] == phis[..k - 1];
      KeptPhis(w, f, defs, marked, b, k - 1, p, e);
      var phi := phis[k - 1];
      var o := Incoming(phi.ins, p).value;
      CutSet(RunPhis(phis[..k - 1], p, e).value, defs, marked, phi.x, Value(e, o));
      assert defs[phi.x] == PhiSite(b, k - 1);
      if PhiSite(b, k - 1) in marked {
        ReadsSurvive(w, f, defs, marked, PhiSite(b, k - 1));
        IncomingAmong(phi.ins, p);
        CutReady(e, defs, marked, o);
        var kept := KeepPhis(phis, b, marked, k - 1);
        assert (kept + [phi])[..|kept|] == kept;
      } else {
        assert KeepPhis(phis, b, marked, k) == KeepPhis(phis, b, marked, k - 1);
      }
    }
  }

  /** One block of the swept function does what the original block does: same successor or same returned
      values, same memory, same stores and impure calls, same values of everything that survives. */
  lemma SweepSteps(w: World, f: Func, defs: map<Var, Site>, marked: set<Site>, c: Config)
    requires Setting(w, f, defs, marked) && Step(w, f, c) != Stuck
    ensures Step(w, Sweep(f, marked), CutConfig(c, defs, marked)) == CutConfig(Step(w, f, c), defs, marked)
  {
    hide Setting, RunInst, RunBody, RunPhis, Cut, KeepPhis, KeepBody;
    if c.At? {
      var b := f.blocks[c.block];
      assert b.phis[..|b.phis|] == b.phis && b.body[..|b.body|] == b.body;
      KeptPhis(w, f, defs, marked, c.block, |b.phis|, c.from, c.state.env);
      var mid := c.state.(env := RunPhis(b.phis, c.from, c.state.env).value);
      KeptBody(w, f, defs, marked, c.block, |b.body|, mid);
      var end := RunBody(w, b.body, mid).value;
      TermReads(w, f, defs, marked, c.block);
      CutValues(end.env, defs, marked, TermOperands(b.term));
      if b.term.Branch? {
        assert b.term.cond in TermOperands(b.term);
        CutReady(end.env, defs, marked, b.term.cond);
      }
    }
  }

  lemma TermReads(w: World, f: Func, defs: map<Var, Site>, marked: set<Site>, b: Node)
    requires Setting(w, f, defs, marked) && b in f.blocks
    ensures forall o :: o in TermOperands(f.blocks[b].term) && o.Use? ==> Survives(defs, marked, o.x)
  {
    assert Exists(f, TermSite(b)) && Critical(f, w.pure, TermSite(b));
    ReadsSurvive(w, f, defs, marked, TermSite(b));
  }

  /** Sweeping preserves every run of every length: the control path, the stores, the impure calls and the
      returned values are the same. */
  lemma {:induction false} SweepRuns(w: World, f: Func, defs: map<Var, Site>, marked: set<Site>, c: Config, n: nat)
    requires Setting(w, f, defs, marked) && Run(w, f, c, n) != Stuck
    ensures Run(w, Sweep(f, marked), CutConfig(c, defs, marked), n) == CutConfig(Run(w, f, c, n), defs, marked)
  {
    hide Setting, Step, CutConfig;
    if n > 0 {
      StuckStays(w, f, c, n - 1);
      SweepRuns(w, f, defs, marked, c, n - 1);
      SweepSteps(w, f, defs, marked, Run(w, f, c, n - 1));
    }
  }

  lemma StuckStays(w: World, f: Func, c: Config, n: nat)
    ensures Run(w, f, c, n) == Stuck ==> Run(w, f, c, n + 1) == Stuck
  {
  }
}
