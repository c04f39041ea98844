/** What the purity that FuncInfo finds is worth to dead code elimination: calls of pure functions leave memory
    alone, provided that get_first_addr (include/Optimize/FuncInfo.hh, lines 113-128), which follows the first
    pointer operand only, tells the truth about the others. */
module CallEffects {
  import opened Graphs
  import opened Components
  import opened FunctionInfo
  import DeadCodeTheory

  // Everything the address may stand for: any pointer operand counts, not only the first.
  function Roots(a: Address): set<Address> {
    match a
    case Gep(base) => Roots(base)
    case Mixed(ps) => if |ps| == 0 then {a} else set i, r | 0 <= i < |ps| && r in Roots(ps[i]) :: r
    case _ => {a}
  }

  ghost predicate Local(a: Address) { forall r :: r in Roots(a) ==> r.Alloca? }

  /** An access made while a call runs: by which function, and what its address stood for at that moment. */
  datatype Event = Event(who: Node, access: Access, root: Address)

  // What may happen while a call of f runs: accesses of functions that f leads to through calls, and whatever a
  // function does whose text the compiler does not have.
  ghost predicate Performs(m: Module, f: Node, events: seq<Event>) {
    forall i {:trigger events[i]} :: 0 <= i < |events| ==> May(m, f, events[i])
  }

  ghost predicate May(m: Module, f: Node, e: Event) {
    && e.who in m.funcs && Reaches(m.callers, e.who, f)
    && (m.funcs[e.who].isDeclaration
        || (e.access in m.funcs[e.who].accesses && e.root in Roots(e.access.address)))
  }

  // A store that outlives the call. Allocas belong to the frames of the call and are gone with it.
  predicate Lasting(e: Event) { e.access.Store? && !e.root.Alloca? }

  // Memory after the events; write is what a lasting store makes of it.
  function After(write: (Event, int) -> int, events: seq<Event>, mem: int): int {
    if |events| == 0 then mem
    else
      var before := After(write, events[..|events| - 1], mem);
      if Lasting(events[|events| - 1]) then write(events[|events| - 1], before) else before
  }

  // get_first_addr calls an address local only if all it may stand for is local.
  ghost predicate Straight(m: Module) {
    forall g, a {:trigger a in m.funcs[g].accesses} ::
        g in m.funcs && a in m.funcs[g].accesses && FirstAddress(a.address).Alloca? ==> Local(a.address)
  }

  // No function below f through calls is a declaration or has a store that may be lasting.
  ghost predicate OnlyLocalStores(m: Module, f: Node) {
    forall g :: g in m.funcs && Reaches(m.callers, g, f) ==> !m.funcs[g].isDeclaration && StoresLocally(m.funcs[g])
  }

  ghost predicate StoresLocally(f: Function) { forall a :: a in f.accesses && a.Store? ==> Local(a.address) }

  lemma NoAccessOutside(m: Module, f: Node, g: Node, a: Access)
    requires !m.Impure(f) && g in m.funcs && Reaches(m.callers, g, f) && a in m.funcs[g].accesses
    ensures FirstAddress(a.address).Alloca?
  {
    assert !TriviallyImpure(m.funcs[g]);
    var i :| 0 <= i < |m.funcs[g].accesses| && m.funcs[g].accesses[i] == a;
  }

  lemma PureIsLocal(m: Module, f: Node)
    requires !m.Impure(f) && Straight(m)
    ensures OnlyLocalStores(m, f)
  {
    hide Reaches, Local;
    forall g | g in m.funcs && Reaches(m.callers, g, f)
      ensures !m.funcs[g].isDeclaration && StoresLocally(m.funcs[g])
    {
      assert !TriviallyImpure(m.funcs[g]);
      forall a | a in m.funcs[g].accesses && a.Store? ensures Local(a.address) {
        NoAccessOutside(m, f, g, a);
      }
    }
  }

  // What a call of f may do to memory for good.
  lemma MayLast(m: Module, f: Node, g: Node) returns (e: Event)
    requires g in m.funcs && Reaches(m.callers, g, f)
    requires m.funcs[g].isDeclaration || !StoresLocally(m.funcs[g])
    ensures May(m, f, e) && Lasting(e)
  {
    hide Reaches;
    if m.funcs[g].isDeclaration {
      e := Event(g, Store(Outside), Outside);
    } else {
      var a :| a in m.funcs[g].accesses && a.Store? && !Local(a.address);
      var r :| r in Roots(a.address) && !r.Alloca?;
      e := Event(g, a, r);
    }
  }

  /** No call of f ever leaves a lasting store behind if and only if no function below f is a declaration and every
      store below f is to local variables, whichever pointer operand its address comes from. */
  lemma LeavesMemoryIff(m: Module, f: Node)
    ensures (forall events: seq<Event> {:trigger Performs(m, f, events)} :: Performs(m, f, events) ==>
        forall e :: e in events ==> !Lasting(e))
            <==> OnlyLocalStores(m, f)
  {
    hide Reaches, StoresLocally, Lasting, May;
    if !OnlyLocalStores(m, f) {
      var g :| g in m.funcs && Reaches(m.callers, g, f) && !(!m.funcs[g].isDeclaration && StoresLocally(m.funcs[g]));
      var e := MayLast(m, f, g);
      assert e in [e] && Performs(m, f, [e]);
    }
    forall events: seq<Event>, e | OnlyLocalStores(m, f) && Performs(m, f, events) && e in events ensures !Lasting(e) {
      var i :| 0 <= i < |events| && events[i] == e;
      DoesNotLast(m, f, e);
    }
  }

  lemma DoesNotLast(m: Module, f: Node, e: Event)
    requires OnlyLocalStores(m, f) && May(m, f, e)
    ensures !Lasting(e)
  {
    hide Reaches;
    assert StoresLocally(m.funcs[e.who]);
  }

  lemma {:induction false} NothingLasts(write: (Event, int) -> int, events: seq<Event>, mem: int)
    requires forall e :: e in events ==> !Lasting(e)
    ensures After(write, events, mem) == mem
  {
    if |events| > 0 {
      NothingLasts(write, events[..|events| - 1], mem);
    }
  }

  // The calls of a world are calls of the module: they do to memory what some sequence of events does.
  ghost predicate RunsCalls(w: DeadCodeTheory.World, m: Module, write: (Event, int) -> int) {
    forall f, args, mem {:trigger w.call(f, args, mem)} :: f in m.funcs ==>
      exists events: seq<Event> :: Performs(m, f, events) && w.call(f, args, mem).0 == After(write, events, mem)
  }

  /** Dead code elimination may rely on FuncInfo: a world in which the functions found pure are those called pure
      is honest. */
  lemma FoundPureIsHonest(w: DeadCodeTheory.World, m: Module, write: (Event, int) -> int)
    requires RunsCalls(w, m, write) && Straight(m) && forall f :: f in w.pure ==> f in m.funcs && !m.Impure(f)
    ensures DeadCodeTheory.Honest(w)
  {
    hide Performs, Straight, OnlyLocalStores;
    forall f, args, mem | f in w.pure ensures w.call(f, args, mem).0 == mem {
      var events: seq<Event> :| Performs(m, f, events) && w.call(f, args, mem).0 == After(write, events, mem);
      PureIsLocal(m, f);
      LeavesMemoryIff(m, f);
      NothingLasts(write, events, mem);
    }
  }

  // A function that stores to a local variable or to its caller's memory, whichever a choice of pointers yields.
  function Chooses(): Module {
    Module(map[0 := Function(false, false, true, [Store(Mixed([Alloca, Outside]))])],
        Graph({0}, map[0 := []], map[0 := []]))
  }

  /** Without that, FuncInfo finds a function pure whose calls can change memory. */
  lemma FoundPureWrites()
    ensures Chooses().Ok() && !Chooses().Impure(0) && !Straight(Chooses())
    ensures !OnlyLocalStores(Chooses(), 0)
  {
    var m := Chooses();
    var a := Store(Mixed([Alloca, Outside]));
    assert a in m.funcs[0].accesses;
    assert Outside in Roots(a.address) by {
      var ps := [Alloca, Outside];
      assert ps[1] == Outside && Outside in Roots(ps[1]);
    }
    ReachSelf(m.callers, 0);
    assert !StoresLocally(m.funcs[0]);
    assert !TriviallyImpure(m.funcs[0]);
  }
}
