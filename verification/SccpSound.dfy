/** What a closed state of the constant propagation says about every run. */
module SccpSound {
  import opened SsaForm
  import opened Graphs
  import opened Ssa
  import opened Lattices

  // ---------- closed means that no visit has anything to do ----------

  lemma {:induction false} PhiMergeBelow(s: Solver, b: Node, ins: seq<(Operand, Node)>, i: nat, c: Cell)
    requires i <= |ins|
    ensures Below(c, PhiMerge(s, b, ins, i, c))
    ensures PhiMerge(s, b, ins, i, c) == c <==>
            c.Over? || forall j {:trigger ins[j]} :: i <= j < |ins| && (ins[j].1, b) in s.edges ==>
                Below(s.Get(ins[j].0), c)
    decreases |ins| - i
  {
    if i < |ins| && !c.Over? {
      var d := if (ins[i].1, b) in s.edges then Merge(c, s.Get(ins[i].0)) else c;
      PhiMergeBelow(s, b, ins, i + 1, d);
    }
  }

  /** A phi, an instruction or a branch is settled exactly when visiting it changes nothing. */
  lemma SettledIff(s: Solver, b: Node, p: Phi, x: Var, r: Rhs)
    ensures PhiSettled(s, b, p) <==> VisitPhi(s, b, p) == s
    ensures DefSettled(s, x, r) <==> VisitDef(s, x, r) == s
  {
    PhiMergeBelow(s, b, p.ins, 0, s.Cell(p.x));
  }

  // ---------- soundness ----------

  // Every variable that has a value is known, and the constants are right.
  ghost predicate Agrees(s: Solver, e: Env) {
    forall x {:trigger e[x]} :: x in e ==> Fits(s.Cell(x), e[x])
  }

  predicate Fits(c: Cell, n: int) { c.Over? || c == Constant(n) }

  lemma GetFits(s: Solver, e: Env, o: Operand)
    requires Agrees(s, e) && Ready(e, o)
    ensures Fits(s.Get(o), Value(e, o))
  {
  }

  lemma InstSound(s: Solver, i: Inst, e: Env, e2: Env, log: seq<Event>)
    requires Agrees(s, e) && InstRuns(i, e, e2, log)
    requires i.Def? ==> DefSettled(s, i.x, i.rhs)
    ensures Agrees(s, e2)
  {
    if i.Def? {
      match i.rhs
      case Binary(op, a, b) => GetFits(s, e, a); GetFits(s, e, b);
      case Compare(c, a, b) => GetFits(s, e, a); GetFits(s, e, b);
      case Extend(a) => GetFits(s, e, a);
      case Opaque(_) =>
    }
  }

  lemma {:induction false} BodySound(s: Solver, body: seq<Inst>, envs: seq<Env>, log: seq<seq<Event>>, k: nat)
    requires BodyRuns(body, envs, log) && k <= |body| && Agrees(s, envs[0])
    requires forall i {:trigger body[i]} :: 0 <= i < |body| && body[i].Def? ==> DefSettled(s, body[i].x, body[i].rhs)
    ensures Agrees(s, envs[k])
    decreases k
  {
    if k > 0 {
      BodySound(s, body, envs, log, k - 1);
      assert InstRuns(body[k - 1], envs[k - 1], envs[k], log[k - 1]);
      InstSound(s, body[k - 1], envs[k - 1], envs[k], log[k - 1]);
    }
  }

  lemma PhiSound(s: Solver, b: Node, p: Phi, from: Node, e: Env, n: int)
    requires Agrees(s, e) && PhiSettled(s, b, p) && (from, b) in s.edges && PhiGives(p, from, e, n)
    ensures Fits(s.Cell(p.x), n)
  {
    var i :| 0 <= i < |p.ins| && p.ins[i].1 == from && Ready(e, p.ins[i].0) && Value(e, p.ins[i].0) == n;
    GetFits(s, e, p.ins[i].0);
  }

  lemma PhisSound(s: Solver, b: Node, phis: seq<Phi>, from: Node, e: Env, e2: Env)
    requires Agrees(s, e) && (from, b) in s.edges && PhisRun(phis, from, e, e2)
    requires forall i {:trigger phis[i]} :: 0 <= i < |phis| ==> PhiSettled(s, b, phis[i])
    ensures Agrees(s, e2)
  {
    forall x | x in e2 ensures Fits(s.Cell(x), e2[x]) {
      if k :| 0 <= k < |phis| && phis[k].x == x {
        PhiSound(s, b, phis[k], from, e, e2[x]);
      } else {
        assert x in e && e2[x] == e[x];
      }
    }
  }

  // What the solver says of a point of a run: the block and the edge into it are executable.
  ghost predicate Holds(s: Solver, f: Func, c: Config) {
    c.at in s.exec && (c.at == f.entry || (c.from, c.at) in s.edges) && Agrees(s, c.env)
  }

  lemma EnterSound(s: Solver, f: Func, c: Config, v: Visit, k: nat)
    requires Closed(s, f) && Holds(s, f, c) && Enters(f, c, v) && k <= |f.blocks[c.at].body|
    ensures Agrees(s, v.envs[k])
  {
    var b := f.blocks[c.at];
    assert BlockSettled(s, c.at, b);
    if c.at != f.entry {
      PhisSound(s, c.at, b.phis, c.from, c.env, v.envs[0]);
    }
    BodySound(s, b.body, v.envs, v.log, k);
  }

  lemma StepSound(s: Solver, f: Func, c: Config, v: Visit, d: Config)
    requires Closed(s, f) && Holds(s, f, c) && Steps(f, c, v, d)
    ensures Holds(s, f, d) && (c.at, d.at) in s.edges
  {
    hide PhisRun, Agrees;
    var b := f.blocks[c.at];
    EnterSound(s, f, c, v, |b.body|);
    assert BlockSettled(s, c.at, b);
    if b.term.Branch? {
      GetFits(s, v.envs[|b.body|], b.term.cond);
    }
  }

  /** In a closed state every run stays on executable blocks and edges, and every value marked constant has
      that constant from its definition on; nothing that has been defined is unknown. */
  lemma {:induction false} RunSound(s: Solver, f: Func, run: seq<Config>, visits: seq<Visit>, k: nat)
    requires Closed(s, f) && Runs(f, run, visits) && k < |run|
    ensures Holds(s, f, run[k])
    ensures k > 0 ==> (run[k - 1].at, run[k].at) in s.edges
    decreases k
  {
    hide Steps;
    if k == 0 {
      forall x | x in run[0].env ensures Fits(s.Cell(x), run[0].env[x]) {
        assert x in f.args;
      }
    } else {
      RunSound(s, f, run, visits, k - 1);
      assert Steps(f, run[k - 1], visits[k - 1], run[k]);
      StepSound(s, f, run[k - 1], visits[k - 1], run[k]);
    }
  }
}
