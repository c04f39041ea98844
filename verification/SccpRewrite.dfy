/** Replacing by what the constant propagation found (include/Optimize/SCCP.hh, rewrite, lines 38-127): by a closed
    state it changes no run. */
module SccpRewrite {
  import opened SsaForm
  import opened Graphs
  import opened Ssa
  import opened Words
  import opened Lattices
  import opened SccpSound

  // ---------- replacing uses by constants ----------

  type Consts = map<Var, int>

  // replace_all_use_with, line 60, for all variables of c.
  function NewOperand(c: Consts, o: Operand): Operand {
    match o
    case Num(_) => o
    case Use(x) => if x in c then Num(c[x]) else o
  }

  function NewOperands(c: Consts, uses: seq<Operand>): (r: seq<Operand>)
    ensures |r| == |uses| && forall i :: 0 <= i < |uses| ==> r[i] == NewOperand(c, uses[i])
  {
    seq(|uses|, i requires 0 <= i < |uses| => NewOperand(c, uses[i]))
  }

  function NewInst(c: Consts, i: Inst): Inst {
    match i
    case Effect(uses) => Effect(NewOperands(c, uses))
    case Def(x, Binary(op, a, b)) => Def(x, Binary(op, NewOperand(c, a), NewOperand(c, b)))
    case Def(x, Compare(cmp, a, b)) => Def(x, Compare(cmp, NewOperand(c, a), NewOperand(c, b)))
    case Def(x, Extend(a)) => Def(x, Extend(NewOperand(c, a)))
    case Def(x, Opaque(uses)) => Def(x, Opaque(NewOperands(c, uses)))
  }

  function NewIns(c: Consts, ins: seq<(Operand, Node)>): (r: seq<(Operand, Node)>)
    ensures |r| == |ins| && forall i :: 0 <= i < |ins| ==> r[i] == (NewOperand(c, ins[i].0), ins[i].1)
  {
    seq(|ins|, i requires 0 <= i < |ins| => (NewOperand(c, ins[i].0), ins[i].1))
  }

  function NewPhi(c: Consts, p: Phi): Phi { Phi(p.x, NewIns(c, p.ins)) }

  function NewTerm(c: Consts, t: Term): Term {
    match t
    case Jump(_) => t
    case Branch(cond, yes, no) => Branch(NewOperand(c, cond), yes, no)
    case Return(uses) => Return(NewOperands(c, uses))
  }

  function NewBlock(c: Consts, blk: Block): (r: Block)
    ensures |r.phis| == |blk.phis| && forall i :: 0 <= i < |r.phis| ==> r.phis[i] == NewPhi(c, blk.phis[i])
    ensures |r.body| == |blk.body| && forall i :: 0 <= i < |r.body| ==> r.body[i] == NewInst(c, blk.body[i])
  {
    Block(seq(|blk.phis|, i requires 0 <= i < |blk.phis| => NewPhi(c, blk.phis[i])),
          seq(|blk.body|, i requires 0 <= i < |blk.body| => NewInst(c, blk.body[i])),
          NewTerm(c, blk.term))
  }

  function NewFunc(c: Consts, f: Func): Func {
    f.(blocks := map b | b in f.blocks :: NewBlock(c, f.blocks[b]))
  }

  // ---------- cutting off what cannot be executed ----------

  // Lines 66-74: operands for edges that cannot be taken go.
  function Feasible(s: Solver, b: Node, ins: seq<(Operand, Node)>): seq<(Operand, Node)> {
    if |ins| == 0 then []
    else Feasible(s, b, ins[..|ins| - 1]) + if (ins[|ins| - 1].1, b) in s.edges then [ins[|ins| - 1]] else []
  }

  // A phi that is a constant itself keeps its operands (line 63).
  function CutPhi(s: Solver, b: Node, p: Phi): Phi {
    if s.Cell(p.x).Constant? then p else Phi(p.x, Feasible(s, b, p.ins))
  }

  // Lines 102-125: a branch on a constant becomes a jump.
  function CutTerm(s: Solver, t: Term): Term {
    match t
    case Jump(_) => t
    case Branch(c, yes, no) => if s.Get(c).Constant? then Jump(if s.Get(c).val != 0 then yes else no) else t
    case Return(_) => t
  }

  function CutBlock(s: Solver, b: Node, blk: Block): (r: Block)
    ensures |r.phis| == |blk.phis| && forall i :: 0 <= i < |r.phis| ==> r.phis[i] == CutPhi(s, b, blk.phis[i])
  {
    Block(seq(|blk.phis|, i requires 0 <= i < |blk.phis| => CutPhi(s, b, blk.phis[i])), blk.body, CutTerm(s, blk.term))
  }

  function Cut(s: Solver, f: Func): Func {
    f.(blocks := map b | b in f.blocks :: if b in s.exec then CutBlock(s, b, f.blocks[b]) else f.blocks[b])
  }

  // ---------- both ----------

  ghost predicate Gives(blk: Block, x: Var) {
    || (exists i {:trigger blk.phis[i]} :: 0 <= i < |blk.phis| && blk.phis[i].x == x)
    || (exists i {:trigger blk.body[i]} :: 0 <= i < |blk.body| && blk.body[i].Def? && blk.body[i].x == x)
  }

  // The results of executable blocks that are constant.
  ghost predicate ConstsOf(s: Solver, f: Func, c: Consts) {
    && (forall x :: x in c ==> s.Cell(x) == Constant(c[x]) && exists b ::
      b in f.blocks && b in s.exec && Gives(f.blocks[b], x))
    && (forall b, x {:trigger Gives(f.blocks[b], x)} ::
      b in f.blocks && b in s.exec && Gives(f.blocks[b], x) && s.Cell(x).Constant? ==> x in c)
  }

  /** g is f with uses of constant results replaced, phi operands of dead edges gone and branches decided. */
  ghost predicate Rewritten(s: Solver, f: Func, g: Func) {
    exists c: Consts :: ConstsOf(s, f, c) && g == NewFunc(c, Cut(s, f))
  }

  lemma ConstsWithin(s: Solver, f: Func, c: Consts, d: Consts, x: Var)
    requires ConstsOf(s, f, c) && ConstsOf(s, f, d) && x in c
    ensures x in d && d[x] == c[x]
  {
    hide Gives;
    assert s.Cell(x) == Constant(c[x]);
    var b :| b in f.blocks && b in s.exec && Gives(f.blocks[b], x);
  }

  lemma ConstsUnique(s: Solver, f: Func, c: Consts, d: Consts)
    requires ConstsOf(s, f, c) && ConstsOf(s, f, d)
    ensures c == d
  {
    hide ConstsOf;
    forall x ensures x in c <==> x in d {
      if x in c { ConstsWithin(s, f, c, d, x); }
      if x in d { ConstsWithin(s, f, d, c, x); }
    }
    forall x | x in c ensures c[x] == d[x] {
      ConstsWithin(s, f, c, d, x);
    }
  }

  /** There is only one such function. */
  lemma RewrittenOnce(s: Solver, f: Func, g: Func, h: Func)
    requires Rewritten(s, f, g) && Rewritten(s, f, h)
    ensures g == h
  {
    hide ConstsOf, NewFunc, Cut;
    var c: Consts :| ConstsOf(s, f, c) && g == NewFunc(c, Cut(s, f));
    var d: Consts :| ConstsOf(s, f, d) && h == NewFunc(d, Cut(s, f));
    ConstsUnique(s, f, c, d);
  }

  // ---------- runs are kept ----------

  lemma {:induction false} FeasibleKeeps(s: Solver, b: Node, ins: seq<(Operand, Node)>, i: nat)
    requires i < |ins| && (ins[i].1, b) in s.edges
    ensures ins[i] in Feasible(s, b, ins)
  {
    var k := |ins| - 1;
    if i < k {
      FeasibleKeeps(s, b, ins[..k], i);
    } else {
      assert ins[i] in [ins[i]];
    }
  }

  lemma CutPhiGives(s: Solver, b: Node, p: Phi, from: Node, e: Env, n: int)
    requires (from, b) in s.edges && PhiGives(p, from, e, n)
    ensures PhiGives(CutPhi(s, b, p), from, e, n)
  {
    var i :| 0 <= i < |p.ins| && p.ins[i].1 == from && Ready(e, p.ins[i].0) && Value(e, p.ins[i].0) == n;
    if !s.Cell(p.x).Constant? {
      FeasibleKeeps(s, b, p.ins, i);
      var q := CutPhi(s, b, p);
      var j :| 0 <= j < |q.ins| && q.ins[j] == p.ins[i];
    }
  }

  lemma CutEnters(s: Solver, f: Func, c: Config, v: Visit)
    requires Holds(s, f, c) && Enters(f, c, v)
    ensures Enters(Cut(s, f), c, v)
  {
    hide InstRuns, PhiGives, Agrees;
    var b := f.blocks[c.at];
    if c.at != f.entry {
      forall k | 0 <= k < |b.phis| ensures PhiGives(CutBlock(s, c.at, b).phis[k], c.from, c.env,
          v.envs[0][b.phis[k].x]) {
        CutPhiGives(s, c.at, b.phis[k], c.from, c.env, v.envs[0][b.phis[k].x]);
      }
      NewPhisRun(b.phis, CutBlock(s, c.at, b).phis, c.from, c.env, v.envs[0]);
    }
  }

  lemma NewPhisRun(phis: seq<Phi>, more: seq<Phi>, from: Node, e: Env, e2: Env)
    requires PhisRun(phis, from, e, e2) && |more| == |phis| && forall k :: 0 <= k < |phis| ==> more[k].x == phis[k].x
    requires forall k :: 0 <= k < |phis| ==> phis[k].x in e2 && PhiGives(more[k], from, e, e2[phis[k].x])
    ensures PhisRun(more, from, e, e2)
  {
    hide PhiGives;
    forall x | forall k :: 0 <= k < |more| ==>
        more[k].x != x ensures (x in e2 <==> x in e) && (x in e ==> e2[x] == e[x]) {
      assert forall k :: 0 <= k < |phis| ==> phis[k].x == more[k].x;
    }
  }

  // The constants are right in this environment.
  ghost predicate Suits(c: Consts, e: Env) { forall x :: x in c && x in e ==> e[x] == c[x] }

  lemma AgreesSuits(s: Solver, f: Func, c: Consts, e: Env)
    requires ConstsOf(s, f, c) && Agrees(s, e)
    ensures Suits(c, e)
  {
    forall x | x in c && x in e ensures e[x] == c[x] {
      assert Fits(s.Cell(x), e[x]);
    }
  }

  lemma NewOperandFits(c: Consts, e: Env, o: Operand)
    requires Suits(c, e) && Ready(e, o)
    ensures Ready(e, NewOperand(c, o)) && Value(e, NewOperand(c, o)) == Value(e, o)
  {
  }

  lemma NewOperandsFit(c: Consts, e: Env, uses: seq<Operand>)
    requires Suits(c, e) && AllReady(e, uses)
    ensures AllReady(e, NewOperands(c, uses)) && Values(e, NewOperands(c, uses)) == Values(e, uses)
  {
    hide Suits, Ready, Value, NewOperand;
    forall i | 0 <= i < |uses| ensures Ready(e, NewOperand(c, uses[i]))
        && Value(e, NewOperand(c, uses[i])) == Value(e, uses[i]) {
      NewOperandFits(c, e, uses[i]);
    }
  }

  lemma NewInstRuns(c: Consts, i: Inst, e: Env, e2: Env, log: seq<Event>)
    requires Suits(c, e) && InstRuns(i, e, e2, log)
    ensures InstRuns(NewInst(c, i), e, e2, log)
  {
    hide Suits;
    match i
    case Effect(uses) => NewOperandsFit(c, e, uses);
    case Def(x, Binary(op, a, b)) => NewOperandFits(c, e, a); NewOperandFits(c, e, b);
    case Def(x, Compare(cmp, a, b)) => NewOperandFits(c, e, a); NewOperandFits(c, e, b);
    case Def(x, Extend(a)) => NewOperandFits(c, e, a);
    case Def(x, Opaque(uses)) => NewOperandsFit(c, e, uses);
  }

  lemma NewPhiGives(c: Consts, p: Phi, from: Node, e: Env, n: int)
    requires Suits(c, e) && PhiGives(p, from, e, n)
    ensures PhiGives(NewPhi(c, p), from, e, n)
  {
    var i :| 0 <= i < |p.ins| && p.ins[i].1 == from && Ready(e, p.ins[i].0) && Value(e, p.ins[i].0) == n;
    NewOperandFits(c, e, p.ins[i].0);
    assert NewPhi(c, p).ins[i] == (NewOperand(c, p.ins[i].0), from);
  }

  lemma NewEnters(c: Consts, f: Func, conf: Config, v: Visit)
    requires Enters(f, conf, v) && Suits(c, conf.env)
        && forall k {:trigger v.envs[k]} :: 0 <= k < |v.envs| ==> Suits(c, v.envs[k])
    ensures Enters(NewFunc(c, f), conf, v)
  {
    hide Suits, InstRuns, PhiGives;
    var b := f.blocks[conf.at];
    var new_ := NewBlock(c, b);
    if conf.at != f.entry {
      forall k | 0 <= k < |b.phis| ensures PhiGives(new_.phis[k], conf.from, conf.env, v.envs[0][b.phis[k].x]) {
        NewPhiGives(c, b.phis[k], conf.from, conf.env, v.envs[0][b.phis[k].x]);
      }
      NewPhisRun(b.phis, new_.phis, conf.from, conf.env, v.envs[0]);
    }
    forall k, m | 0 <= k < |b.body| && m == k + 1 ensures InstRuns(new_.body[k], v.envs[k], v.envs[m], v.log[k]) {
      assert InstRuns(b.body[k], v.envs[k], v.envs[m], v.log[k]);
      NewInstRuns(c, b.body[k], v.envs[k], v.envs[m], v.log[k]);
    }
    assert NewFunc(c, f).blocks[conf.at] == new_;
  }

  lemma EnvsSuit(s: Solver, f: Func, c: Consts, conf: Config, v: Visit)
    requires Closed(s, f) && ConstsOf(s, f, c) && Holds(s, f, conf) && Enters(f, conf, v)
    ensures Suits(c, conf.env) && |v.envs| == |f.blocks[conf.at].body| + 1
    ensures forall k {:trigger v.envs[k]} :: 0 <= k < |v.envs| ==> Suits(c, v.envs[k]) && Agrees(s, v.envs[k])
  {
    hide Closed, ConstsOf, Agrees, Suits, InstRuns;
    AgreesSuits(s, f, c, conf.env);
    forall k | 0 <= k < |v.envs| ensures Suits(c, v.envs[k]) && Agrees(s, v.envs[k]) {
      EnterSound(s, f, conf, v, k);
      AgreesSuits(s, f, c, v.envs[k]);
    }
  }

  lemma BothEnter(s: Solver, f: Func, c: Consts, conf: Config, v: Visit)
    requires Closed(s, f) && ConstsOf(s, f, c) && Holds(s, f, conf) && Enters(f, conf, v)
    ensures Enters(NewFunc(c, Cut(s, f)), conf, v)
  {
    hide Closed, ConstsOf, Agrees, Suits, Enters;
    EnvsSuit(s, f, c, conf, v);
    CutEnters(s, f, conf, v);
    NewEnters(c, Cut(s, f), conf, v);
  }

  lemma EnvsLong(f: Func, c: Config, v: Visit)
    requires Enters(f, c, v)
    ensures c.at in f.blocks && |v.envs| == |f.blocks[c.at].body| + 1
  {
  }

  lemma NewSteps(s: Solver, f: Func, c: Consts, conf: Config, v: Visit, d: Config)
    requires Closed(s, f) && ConstsOf(s, f, c) && Holds(s, f, conf) && Steps(f, conf, v, d)
    ensures Steps(NewFunc(c, Cut(s, f)), conf, v, d)
  {
    hide Agrees, Closed, Enters, ConstsOf, Suits;
    BothEnter(s, f, c, conf, v);
    EnvsSuit(s, f, c, conf, v);
    EnvsLong(f, conf, v);
    var b, last := f.blocks[conf.at], v.envs[|f.blocks[conf.at].body|];
    if b.term.Branch? {
      NewOperandFits(c, last, b.term.cond);
      GetFits(s, last, b.term.cond);
    }
    EnvsLong(NewFunc(c, Cut(s, f)), conf, v);
  }

  /** Every run of the function is, block by block, value by value and event by event, a run of the
      rewritten one. */
  lemma RewriteKeepsRuns(s: Solver, f: Func, g: Func, run: seq<Config>, visits: seq<Visit>)
    requires Closed(s, f) && Rewritten(s, f, g) && Runs(f, run, visits)
    ensures Runs(g, run, visits)
  {
    hide Steps, Closed, Holds, ConstsOf;
    var c: Consts :| ConstsOf(s, f, c) && g == NewFunc(c, Cut(s, f));
    forall k, m | 0 <= k < m < |run| && m == k + 1 ensures Steps(g, run[k], visits[k], run[m]) {
      RunSound(s, f, run, visits, k);
      assert Steps(f, run[k], visits[k], run[m]);
      NewSteps(s, f, c, run[k], visits[k], run[m]);
    }
  }

  /** ... and returns the same values. */
  lemma RewriteKeepsReturn(s: Solver, f: Func, g: Func, run: seq<Config>, visits: seq<Visit>, v: Visit,
      values: seq<int>)
    requires Closed(s, f) && Rewritten(s, f, g) && Runs(f, run, visits) && Finishes(f, run[|run| - 1], v, values)
    ensures Finishes(g, run[|run| - 1], v, values)
  {
    hide Agrees, Closed, Enters, Steps, ConstsOf, Suits;
    var c: Consts :| ConstsOf(s, f, c) && g == NewFunc(c, Cut(s, f));
    var conf := run[|run| - 1];
    RunSound(s, f, run, visits, |run| - 1);
    BothEnter(s, f, c, conf, v);
    EnvsSuit(s, f, c, conf, v);
    EnvsLong(f, conf, v);
    NewOperandsFit(c, v.envs[|f.blocks[conf.at].body|], f.blocks[conf.at].term.uses);
    EnvsLong(g, conf, v);
  }

  // ---------- one replacement at a time ----------

  function WithPhi(f: Func, b: Node, i: nat, p: Phi): Func
    requires b in f.blocks && i < |f.blocks[b].phis|
  {
    f.(blocks := f.blocks[b := f.blocks[b].(phis := f.blocks[b].phis[i := p])])
  }

  function WithTerm(f: Func, b: Node, t: Term): Func
    requires b in f.blocks
  {
    f.(blocks := f.blocks[b := f.blocks[b].(term := t)])
  }

  lemma NothingNew(f: Func)
    ensures NewFunc(map[], f) == f
  {
    forall b | b in f.blocks ensures NewBlock(map[], f.blocks[b]) == f.blocks[b] {
      NewBlockSame(f.blocks[b]);
    }
  }

  lemma NewBlockSame(blk: Block)
    ensures NewBlock(map[], blk) == blk
  {
    forall uses: seq<Operand> ensures NewOperands(map[], uses) == uses {
      assert forall i :: 0 <= i < |uses| ==> NewOperand(map[], uses[i]) == uses[i];
    }
    forall i | 0 <= i < |blk.phis| ensures NewPhi(map[], blk.phis[i]) == blk.phis[i] {
      assert NewIns(map[], blk.phis[i].ins) == blk.phis[i].ins;
    }
    forall i | 0 <= i < |blk.body| ensures NewInst(map[], blk.body[i]) == blk.body[i] {
    }
    assert NewTerm(map[], blk.term) == blk.term;
    assert NewBlock(map[], blk).phis == blk.phis && NewBlock(map[], blk).body == blk.body;
  }

  // Replacing x after the variables of c is replacing the variables of c and x.
  lemma ReplaceMore(c: Consts, f: Func, x: Var, n: int)
    requires x in c ==> c[x] == n
    ensures NewFunc(map[x := n], NewFunc(c, f)) == NewFunc(c[x := n], f)
  {
    hide NewBlock;
    forall b | b in f.blocks
      ensures NewBlock(map[x := n], NewBlock(c, f.blocks[b])) == NewBlock(c[x := n], f.blocks[b])
    {
      ReplaceBlock(c, f.blocks[b], x, n);
    }
  }

  lemma ReplaceOperands(c: Consts, uses: seq<Operand>, x: Var, n: int)
    requires x in c ==> c[x] == n
    ensures NewOperands(map[x := n], NewOperands(c, uses)) == NewOperands(c[x := n], uses)
  {
  }

  lemma ReplaceBlock(c: Consts, blk: Block, x: Var, n: int)
    requires x in c ==> c[x] == n
    ensures NewBlock(map[x := n], NewBlock(c, blk)) == NewBlock(c[x := n], blk)
  {
    var l, r := NewBlock(map[x := n], NewBlock(c, blk)), NewBlock(c[x := n], blk);
    assert l.phis == r.phis by {
      forall i | 0 <= i < |blk.phis| ensures l.phis[i] == r.phis[i] {
        assert l.phis[i].ins == r.phis[i].ins;
      }
    }
    assert l.body == r.body by {
      forall i | 0 <= i < |blk.body| ensures l.body[i] == r.body[i] {
        ReplaceInst(c, blk.body[i], x, n);
      }
    }
    if blk.term.Return? { ReplaceOperands(c, blk.term.uses, x, n); }
  }

  lemma ReplaceInst(c: Consts, i: Inst, x: Var, n: int)
    requires x in c ==> c[x] == n
    ensures NewInst(map[x := n], NewInst(c, i)) == NewInst(c[x := n], i)
  {
    match i
    case Effect(uses) => ReplaceOperands(c, uses, x, n);
    case Def(_, Opaque(uses)) => ReplaceOperands(c, uses, x, n);
    case _ =>
  }

  lemma {:induction false} FeasibleNew(s: Solver, b: Node, c: Consts, ins: seq<(Operand, Node)>)
    ensures Feasible(s, b, NewIns(c, ins)) == NewIns(c, Feasible(s, b, ins))
  {
    if |ins| > 0 {
      var k := |ins| - 1;
      FeasibleNew(s, b, c, ins[..k]);
      assert NewIns(c, ins)[..k] == NewIns(c, ins[..k]);
      assert NewIns(c, Feasible(s, b, ins[..k]) + [ins[k]]) ==
             NewIns(c, Feasible(s, b, ins[..k])) + [NewIns(c, ins)[k]];
      assert Feasible(s, b, ins[..k]) + [] == Feasible(s, b, ins[..k]);
      assert Feasible(s, b, NewIns(c, ins[..k])) + [] == Feasible(s, b, NewIns(c, ins[..k]));
    }
  }

  // Cutting and replacing do not disturb each other.
  lemma PhiInPlace(c: Consts, f: Func, b: Node, i: nat, p: Phi)
    requires b in f.blocks && i < |f.blocks[b].phis|
    ensures i < |NewFunc(c, f).blocks[b].phis|
        && WithPhi(NewFunc(c, f), b, i, NewPhi(c, p)) == NewFunc(c, WithPhi(f, b, i, p))
  {
    var l, r := WithPhi(NewFunc(c, f), b, i, NewPhi(c, p)), NewFunc(c, WithPhi(f, b, i, p));
    assert l.blocks[b].phis == r.blocks[b].phis;
    assert l.blocks[b].body == r.blocks[b].body;
    assert l.blocks == r.blocks;
  }

  lemma TermInPlace(c: Consts, f: Func, b: Node, t: Term)
    requires b in f.blocks
    ensures WithTerm(NewFunc(c, f), b, NewTerm(c, t)) == NewFunc(c, WithTerm(f, b, t))
  {
    var l, r := WithTerm(NewFunc(c, f), b, NewTerm(c, t)), NewFunc(c, WithTerm(f, b, t));
    assert l.blocks[b].phis == r.blocks[b].phis;
    assert l.blocks[b].body == r.blocks[b].body;
    assert l.blocks == r.blocks;
  }

  lemma {:induction false} FeasibleTwice(s: Solver, b: Node, ins: seq<(Operand, Node)>)
    ensures Feasible(s, b, Feasible(s, b, ins)) == Feasible(s, b, ins)
  {
    if |ins| > 0 {
      var k := |ins| - 1;
      FeasibleTwice(s, b, ins[..k]);
      var r := Feasible(s, b, ins[..k]);
      if (ins[k].1, b) in s.edges {
        assert (r + [ins[k]])[..|r|] == r;
      } else {
        assert r + [] == r;
      }
    }
  }

  lemma CutTwice(s: Solver, b: Node, blk: Block)
    ensures CutBlock(s, b, CutBlock(s, b, blk)) == CutBlock(s, b, blk)
  {
    var l, r := CutBlock(s, b, CutBlock(s, b, blk)), CutBlock(s, b, blk);
    forall i | 0 <= i < |blk.phis| ensures l.phis[i] == r.phis[i] {
      FeasibleTwice(s, b, blk.phis[i].ins);
    }
    assert l.phis == r.phis;
  }

  lemma SameResults(s: Solver, b: Node, blk: Block, x: Var)
    ensures Gives(CutBlock(s, b, blk), x) <==> Gives(blk, x)
  {
    assert forall i :: 0 <= i < |blk.phis| ==> CutBlock(s, b, blk).phis[i].x == blk.phis[i].x;
  }

  // ---------- the blocks in order ----------

  // c holds constants of s; those that are new are results of the block.
  ghost predicate Adds(s: Solver, blk: Block, c: Consts, d: Consts) {
    && (forall x :: x in c ==> x in d && d[x] == c[x])
    && (forall x :: x in d && x !in c ==> Gives(blk, x) && s.Cell(x) == Constant(d[x]))
  }

  // After the blocks in done: the constants found in them and the function with those blocks cut.
  ghost predicate Partly(s: Solver, f: Func, done: seq<Node>, c: Consts, part: Func) {
    && part.entry == f.entry && part.args == f.args && part.blocks.Keys == f.blocks.Keys
    && (forall b :: b in f.blocks ==>
      part.blocks[b] == if b in s.exec && b in done then CutBlock(s, b, f.blocks[b]) else f.blocks[b])
    && (forall x :: x in c ==> s.Cell(x) == Constant(c[x]) && exists b ::
      b in f.blocks && b in s.exec && Gives(f.blocks[b], x))
    && (forall b, x {:trigger Gives(f.blocks[b], x)} ::
      b in f.blocks && b in s.exec && b in done && Gives(f.blocks[b], x) && s.Cell(x).Constant? ==> x in c)
  }

  lemma PartlyMore(s: Solver, f: Func, done: seq<Node>, c: Consts, part: Func, b: Node, d: Consts)
    requires Partly(s, f, done, c, part) && b in f.blocks && b in s.exec && Adds(s, part.blocks[b], c, d)
    requires forall x :: Gives(part.blocks[b], x) && s.Cell(x).Constant? ==> x in d
    ensures Partly(s, f, done + [b], d, part.(blocks := part.blocks[b := CutBlock(s, b, part.blocks[b])]))
  {
    hide Gives, CutBlock;
    var more := part.(blocks := part.blocks[b := CutBlock(s, b, part.blocks[b])]);
    CutTwice(s, b, f.blocks[b]);
    assert more.blocks.Keys == part.blocks.Keys;
    forall x ensures Gives(part.blocks[b], x) <==> Gives(f.blocks[b], x) {
      SameResults(s, b, f.blocks[b], x);
    }
    forall x | x in d ensures s.Cell(x) == Constant(d[x])
        && exists a :: a in f.blocks && a in s.exec && Gives(f.blocks[a], x) {
      if x !in c { assert Gives(f.blocks[b], x); }
    }
    forall a, x | a in f.blocks && a in s.exec && a in done + [b] && Gives(f.blocks[a], x)
        && s.Cell(x).Constant?
      ensures x in d
    {
      if a != b { assert a in done; }
    }
  }

  lemma PartlySkip(s: Solver, f: Func, done: seq<Node>, c: Consts, part: Func, b: Node)
    requires Partly(s, f, done, c, part) && !(b in f.blocks && b in s.exec)
    ensures Partly(s, f, done + [b], c, part)
  {
    hide Gives, CutBlock;
  }

  lemma PartlyAll(s: Solver, f: Func, done: seq<Node>, c: Consts, part: Func)
    requires Partly(s, f, done, c, part) && forall b :: b in f.blocks ==> b in done
    ensures Rewritten(s, f, NewFunc(c, part))
  {
    hide Gives, CutBlock, NewFunc;
    assert part.blocks.Keys == Cut(s, f).blocks.Keys;
    forall b | b in f.blocks ensures part.blocks[b] == Cut(s, f).blocks[b] {
    }
    assert part == Cut(s, f);
    assert ConstsOf(s, f, c);
  }
}
