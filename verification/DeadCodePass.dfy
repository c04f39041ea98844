/** The DeadCode pass as it runs (include/Optimize/DeadCode.hh, lines 273-341), one round for one function. */
module DeadCodePass {
  import opened SsaForm
  import opened Basis
  import opened Graphs
  import opened DeadCodeTheory

  class DeadCode {
    var func: Func
    const pure: set<int>
    const defs: map<Var, Site>
    var workList: seq<Site>
    var marked: set<Site>

    constructor (f: Func, pure: set<int>, defs: map<Var, Site>)
      ensures func == f && this.pure == pure && this.defs == defs
    {
      func, this.pure, this.defs, workList, marked := f, pure, defs, [], {};
    }

    // Marked so far: only what every closed set contains; what is not queued has been followed.
    ghost predicate Marking()
      reads this
    {
      && (forall s :: s in marked ==> Exists(func, s))
      && (forall s :: s in workList ==> s in marked)
      && (forall s, x {:trigger Uses(func, s, x)} ::
        s in marked && s !in workList && Uses(func, s, x) && x in defs ==> defs[x] in marked)
      && (forall d {:trigger Closed(func, pure, defs, d)} :: Closed(func, pure, defs, d) ==> marked <= d)
    }

    // mark_critical of one instruction.
    method MarkIfCritical(s: Site)
      requires Marking() && Exists(func, s)
      modifies this`workList, this`marked
      ensures Marking() && marked == old(marked) + if Critical(func, pure, s) then {s} else {}
    {
      if Critical(func, pure, s) {
        marked := marked + {s};
        workList := workList + [s];
      }
    }

    /** mark, lines 273-292: the least set that holds the critical instructions and the definitions of the
        operands of its members. */
    method Mark()
      requires Defines(func, defs)
      modifies this`workList, this`marked
      ensures Closed(func, pure, defs, marked)
      ensures forall d {:trigger Closed(func, pure, defs, d)} :: Closed(func, pure, defs, d) ==> marked <= d
    {
      workList, marked := [], {};
      MarkCritical();
      while workList != []
        invariant Marking()
        invariant forall s {:trigger s in marked} {:trigger Critical(func, pure, s)} ::
            Exists(func, s) && Critical(func, pure, s) ==> s in marked
        decreases AllSites(func) - marked, |workList|
      {
        ghost var was := marked;
        var now := workList[0];
        MarkOperands();
        SitesLeft(func, was, marked);
      }
    }

    // Lines 277-284.
    method MarkCritical()
      requires workList == [] && marked == {}
      modifies this`workList, this`marked
      ensures Marking()
      ensures forall s {:trigger s in marked} {:trigger Critical(func, pure, s)} ::
          Exists(func, s) && Critical(func, pure, s) ==> s in marked
    {
      var todo := func.blocks.Keys;
      while todo != {}
        invariant todo <= func.blocks.Keys && Marking()
        invariant forall s {:trigger s in marked} {:trigger Critical(func, pure, s)} ::
            Exists(func, s) && s.b !in todo && Critical(func, pure, s) ==> s in marked
      {
        SomeElement(todo);
        var b :| b in todo;
        var i := 0;
        while i < |func.blocks[b].body|
          invariant 0 <= i <= |func.blocks[b].body| && Marking()
          invariant forall s {:trigger s in marked} {:trigger Critical(func, pure, s)} ::
              Exists(func, s) && s.b !in todo && Critical(func, pure, s) ==> s in marked
          invariant forall j {:trigger BodySite(b, j)} :: 0 <= j < i && Critical(func, pure, BodySite(b, j)) ==>
              BodySite(b, j) in marked
        {
          MarkIfCritical(BodySite(b, i));
          i := i + 1;
        }
        MarkIfCritical(TermSite(b));
        todo := todo - {b};
      }
    }

    // mark of one instruction, lines 293-306, after taking it off the list.
    method MarkOperands()
      requires Marking() && workList != [] && Defines(func, defs)
      modifies this`workList, this`marked
      ensures Marking() && old(marked) <= marked
      ensures marked == old(marked) ==> |workList| < |old(workList)|
    {
      var ins := workList[0];
      assert ins in workList;
      assert Exists(func, ins);
      workList := workList[1..];
      ghost var rest := workList;
      var ops := Operands(func, ins);
      var i := 0;
      while i < |ops|
        invariant 0 <= i <= |ops| && old(marked) <= marked
        invariant forall s :: s in marked ==> Exists(func, s)
        invariant forall s :: s in workList ==> s in marked
        invariant forall s, x {:trigger Uses(func, s, x)} ::
            s in marked && s != ins && s !in workList && Uses(func, s, x) && x in defs ==> defs[x] in marked
        invariant forall j {:trigger ops[j]} :: 0 <= j < i && ops[j].Use? && ops[j].x in defs ==>
            defs[ops[j].x] in marked
        invariant forall d {:trigger Closed(func, pure, defs, d)} :: Closed(func, pure, defs, d) ==> marked <= d
        invariant ins in marked && (marked == old(marked) ==> workList == rest)
      {
        if ops[i].Use? && ops[i].x in defs {
          var def := defs[ops[i].x];
          if def !in marked {
            Needed(func, pure, defs, ins, ops[i].x);
            marked := marked + {def};
            workList := workList + [def];
          }
        }
        i := i + 1;
      }
      forall x | Uses(func, ins, x) && x in defs ensures defs[x] in marked {
        var j :| 0 <= j < |ops| && ops[j] == Use(x);
      }
    }

    /** sweep, lines 308-326: what is not marked goes. */
    method Sweep() returns (changed: bool)
      modifies this`func
      ensures func == DeadCodeTheory.Sweep(old(func), marked)
      ensures changed <==> func != old(func)
    {
      var blocks: map<Node, Block> := map[];
      changed := false;
      var todo := func.blocks.Keys;
      while todo != {}
        invariant func == old(func) && todo <= func.blocks.Keys
        invariant forall b :: b in blocks <==> b in func.blocks && b !in todo
        invariant forall b :: b in blocks ==> blocks[b] == SweepBlock(func.blocks[b], b, marked)
        invariant changed <==> exists b :: b in blocks && blocks[b] != func.blocks[b]
      {
        SomeElement(todo);
        var b :| b in todo;
        var phis, one := SweepPhis(b);
        var body, two := SweepBody(b);
        var swept := Block(phis, body, func.blocks[b].term);
        KeptLength(func.blocks[b], b, marked);
        changed := changed || one || two;
        blocks := blocks[b := swept];
        todo := todo - {b};
      }
      assert blocks == DeadCodeTheory.Sweep(func, marked).blocks;
      func := func.(blocks := blocks);
    }

    method SweepPhis(b: Node) returns (kept: seq<Phi>, changed: bool)
      requires b in func.blocks
      ensures kept == KeepPhis(func.blocks[b].phis, b, marked, |func.blocks[b].phis|)
          && (changed <==> |kept| < |func.blocks[b].phis|)
    {
      kept, changed := [], false;
      var i := 0;
      while i < |func.blocks[b].phis|
        invariant 0 <= i <= |func.blocks[b].phis| && kept == KeepPhis(func.blocks[b].phis, b, marked, i)
        invariant |kept| <= i && (changed <==> |kept| < i)
      {
        if PhiSite(b, i) in marked { kept := kept + [func.blocks[b].phis[i]]; } else { changed := true; }
        i := i + 1;
      }
    }

    method SweepBody(b: Node) returns (kept: seq<Inst>, changed: bool)
      requires b in func.blocks
      ensures kept == KeepBody(func.blocks[b].body, b, marked, |func.blocks[b].body|)
          && (changed <==> |kept| < |func.blocks[b].body|)
    {
      kept, changed := [], false;
      var i := 0;
      while i < |func.blocks[b].body|
        invariant 0 <= i <= |func.blocks[b].body| && kept == KeepBody(func.blocks[b].body, b, marked, i)
        invariant |kept| <= i && (changed <==> |kept| < i)
      {
        if BodySite(b, i) in marked { kept := kept + [func.blocks[b].body[i]]; } else { changed := true; }
        i := i + 1;
      }
    }

    /** One round: no instruction that stays has an operand whose definition went, and every run that has
        defined behaviour goes through the same blocks with the same effects. */
    method Round() returns (changed: bool)
      requires Defines(func, defs)
      modifies this
      ensures func == DeadCodeTheory.Sweep(old(func), marked) && (changed <==> func != old(func))
      ensures forall s, x {:trigger Uses(old(func), s, x)} :: s in marked && Uses(old(func), s, x) && x in defs ==>
          defs[x] in marked
      ensures forall w: World, c: Config, n: nat {:trigger Run(w, old(func), c, n)} ::
                Honest(w) && w.pure == pure && Run(w, old(func), c, n) != Stuck ==>
                  Run(w, func, CutConfig(c, defs, marked), n) == CutConfig(Run(w, old(func), c, n), defs, marked)
    {
      ghost var before := func;
      Mark();
      changed := Sweep();
      forall w: World, c: Config, n: nat | Honest(w) && w.pure == pure && Run(w, before, c, n) != Stuck
        ensures Run(w, func, CutConfig(c, defs, marked), n) == CutConfig(Run(w, before, c, n), defs, marked)
      {
        SweepRuns(w, before, defs, marked, c, n);
      }
    }
  }

  ghost function AllSites(f: Func): set<Site> {
    (set b, i | b in f.blocks && 0 <= i < |f.blocks[b].phis| :: PhiSite(b, i))
    + (set b, i | b in f.blocks && 0 <= i < |f.blocks[b].body| :: BodySite(b, i))
    + (set b | b in f.blocks :: TermSite(b))
  }

  lemma SiteIn(f: Func, s: Site)
    requires Exists(f, s)
    ensures s in AllSites(f)
  {
  }

  lemma SitesLeft(f: Func, was: set<Site>, now: set<Site>)
    requires was <= now && forall s :: s in now ==> Exists(f, s)
    ensures AllSites(f) - now <= AllSites(f) - was && (was != now ==> AllSites(f) - now < AllSites(f) - was)
  {
    hide Exists, AllSites;
    if was != now {
      var s :| s in now && s !in was;
      SiteIn(f, s);
      assert s in AllSites(f) - was && s !in AllSites(f) - now;
    }
  }

  // The definition of an operand of what every closed set contains is in every closed set.
  lemma Needed(f: Func, pure: set<int>, defs: map<Var, Site>, s: Site, x: Var)
    requires Exists(f, s) && Use(x) in Operands(f, s) && x in defs
    ensures forall d {:trigger Closed(f, pure, defs, d)} :: Closed(f, pure, defs, d) && s in d ==> defs[x] in d
  {
    assert Uses(f, s, x);
  }

  lemma {:induction false} PhisLength(phis: seq<Phi>, b: Node, marked: set<Site>, i: nat)
    requires i <= |phis|
    ensures |KeepPhis(phis, b, marked, i)| <= i
        && (|KeepPhis(phis, b, marked, i)| == i ==> KeepPhis(phis, b, marked, i) == phis[..i])
  {
    if i > 0 { PhisLength(phis, b, marked, i - 1); }
  }

  lemma {:induction false} BodyLength(body: seq<Inst>, b: Node, marked: set<Site>, i: nat)
    requires i <= |body|
    ensures |KeepBody(body, b, marked, i)| <= i
        && (|KeepBody(body, b, marked, i)| == i ==> KeepBody(body, b, marked, i) == body[..i])
  {
    if i > 0 { BodyLength(body, b, marked, i - 1); }
  }

  // A block changes exactly when it loses an instruction.
  lemma KeptLength(blk: Block, b: Node, marked: set<Site>)
    ensures SweepBlock(blk, b, marked) == blk <==>
            |KeepPhis(blk.phis, b, marked, |blk.phis|)| == |blk.phis|
                && |KeepBody(blk.body, b, marked, |blk.body|)| == |blk.body|
    ensures |KeepPhis(blk.phis, b, marked, |blk.phis|)| <= |blk.phis|
        && |KeepBody(blk.body, b, marked, |blk.body|)| <= |blk.body|
  {
    PhisLength(blk.phis, b, marked, |blk.phis|);
    BodyLength(blk.body, b, marked, |blk.body|);
    assert blk.phis[..|blk.phis|] == blk.phis && blk.body[..|blk.body|] == blk.body;
  }
}
