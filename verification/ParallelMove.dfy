/** parallel_mov (src/codegen_new/codegen.cc, lines 1130-1241): a simultaneous assignment over registers
    and stack slots, made in three phases for the integers and then for the floats. */
module ParallelMove {
  import opened MoveGraph
  import opened MoveInvariant
  import opened MoveRounds
  import opened TopologicalSort

  /** An operand: a register, a constant or other value to be materialised, or a stack slot of either class. */
  datatype Arm = Reg(id: int, isFloat: bool) | Value(v: int) | IntSlot(offset: int) | FloatSlot(offset: int)

  /** What a move reads or writes. Slots of both classes are the same memory. */
  datatype Place = IntReg(id: int) | FloatReg(id: int) | Slot(offset: int) | Constant(v: int)

  function At(a: Arm): Place {
    match a
    case Reg(id, isFloat) => if isFloat then FloatReg(id) else IntReg(id)
    case Value(v) => Constant(v)
    case IntSlot(o) => Slot(o)
    case FloatSlot(o) => Slot(o)
  }

  datatype Pair = Pair(to: Arm, from: Arm)

  type Code = seq<(Place, Place)>

  predicate IsInt(m: Pair) { m.to.IntSlot? || (m.to.Reg? && !m.to.isFloat) }

  predicate IsFloat(m: Pair) { !IsInt(m) }

  predicate IsStore(m: Pair) { !m.to.Reg? }

  predicate IsRegMove(m: Pair) { m.to.Reg? && m.from.Reg? }

  predicate IsLoad(m: Pair) { m.to.Reg? && !m.from.Reg? }

  function Select(s: seq<Pair>, p: Pair -> bool): (r: seq<Pair>)
    ensures forall m :: m in r <==> m in s && p(m)
  {
    if |s| == 0 then []
    else
      assert s == s[..|s| - 1] + [s[|s| - 1]];
      Select(s[..|s| - 1], p) + if p(s[|s| - 1]) then [s[|s| - 1]] else []
  }

  lemma SelectMore(s: seq<Pair>, m: Pair, p: Pair -> bool)
    ensures Select(s + [m], p) == Select(s, p) + if p(m) then [m] else []
  {
    assert (s + [m])[..|s|] == s;
  }

  // r are the elements of s at these positions, which are all those with the property.
  ghost predicate InOrder(s: seq<Pair>, p: Pair -> bool, r: seq<Pair>, at: seq<nat>) {
    && |at| == |r|
    && (forall k :: 0 <= k < |at| ==> at[k] < |s| && r[k] == s[at[k]])
    && (forall k, l :: 0 <= k < l < |at| ==> at[k] < at[l])
    && (forall i :: 0 <= i < |s| ==> (p(s[i]) <==> i in at))
  }

  /** What is selected are all moves with the property, each once and in the order in which they were. */
  lemma {:induction false} SelectInOrder(s: seq<Pair>, p: Pair -> bool) returns (at: seq<nat>)
    ensures InOrder(s, p, Select(s, p), at)
  {
    hide InOrder, Select;
    if |s| == 0 {
      at := [];
      NoneInOrder(p);
    } else {
      var n := |s| - 1;
      var before := SelectInOrder(s[..n], p);
      assert s == s[..n] + [s[n]];
      SelectMore(s[..n], s[n], p);
      at := before + if p(s[n]) then [n] else [];
      OneMoreInOrder(s[..n], s[n], p, Select(s[..n], p), before);
    }
  }

  lemma NoneInOrder(p: Pair -> bool)
    ensures InOrder([], p, Select([], p), [])
  {
  }

  lemma OneMoreInOrder(s: seq<Pair>, m: Pair, p: Pair -> bool, r: seq<Pair>, at: seq<nat>)
    requires InOrder(s, p, r, at)
    ensures InOrder(s + [m], p, r + if p(m) then [m] else [], at + if p(m) then [|s|] else [])
  {
  }

  function Plain(s: seq<Pair>): (r: Code)
    ensures |r| == |s| && forall i :: 0 <= i < |s| ==> r[i] == (At(s[i].from), At(s[i].to))
  {
    seq(|s|, i requires 0 <= i < |s| => (At(s[i].from), At(s[i].to)))
  }

  // temp_lhs_reg and temp_float_lhs_reg.
  function Temp(ireg: bool): Place { if ireg then IntReg(11) else FloatReg(30) }

  function RegPlace(ireg: bool, id: int): Place { if ireg then IntReg(id) else FloatReg(id) }

  // Lines 1186-1202: a store, through the scratch register unless the source is a register.
  function Expand(m: Pair, ireg: bool): Code {
    if m.from.Reg? then [(At(m.from), At(m.to))] else [(At(m.from), Temp(ireg)), (Temp(ireg), At(m.to))]
  }

  function ExpandAll(s: seq<Pair>, ireg: bool): Code {
    if |s| == 0 then [] else ExpandAll(s[..|s| - 1], ireg) + Expand(s[|s| - 1], ireg)
  }

  function Lift(ms: seq<Move>, ireg: bool): (r: Code)
    ensures |r| == |ms| && forall i :: 0 <= i < |ms| ==> r[i] == (RegPlace(ireg, ms[i].0), RegPlace(ireg, ms[i].1))
  {
    seq(|ms|, i requires 0 <= i < |ms| => (RegPlace(ireg, ms[i].0), RegPlace(ireg, ms[i].1)))
  }

  // ---------- what the callers provide ----------

  ghost predicate Scratch(p: Place) {
    p == IntReg(11) || p == FloatReg(30) || (p.IntReg? && p.id in TempPool(true))
        || (p.FloatReg? && p.id in TempPool(false))
  }

  // The register moves of one class as a problem for topo_sort: who feeds each destination.
  ghost function Sources(s: seq<Pair>): map<int, int> {
    if |s| == 0 then map[]
    else
      var m := s[|s| - 1];
      if IsRegMove(m) then Sources(s[..|s| - 1])[m.to.id := m.from.id] else Sources(s[..|s| - 1])
  }

  ghost function ClassTask(s: seq<Pair>, ireg: bool): Task { TaskOf(Sources(s), Endpoints(Sources(s)), ireg) }

  // Destinations are places, and distinct ones; registers stay in their class and off the scratch registers.
  ghost predicate Callable(moves: seq<Pair>) {
    && (forall m :: m in moves ==> !m.to.Value? && (m.from.Reg? ==> m.from.isFloat == !IsInt(m)))
    && (forall m :: m in moves ==> !Scratch(At(m.to)) && !Scratch(At(m.from)))
    && Apart(moves)
    && ClassTask(Select(moves, IsInt), true).Ok() && ClassTask(Select(moves, IsFloat), false).Ok()
  }

  ghost predicate Apart(moves: seq<Pair>) {
    forall i, j {:trigger moves[i], moves[j]} :: 0 <= i < j < |moves| ==> At(moves[i].to) != At(moves[j].to)
  }

  // The code of one class: stores, the sorted register moves, loads.
  ghost predicate ClassCode(s: seq<Pair>, ireg: bool, sorted: seq<Move>, code: Code) {
    && Carries(ClassTask(s, ireg), sorted)
    && code == ExpandAll(Select(s, IsStore), ireg) + Lift(sorted, ireg) + Plain(Select(s, IsLoad))
  }

  ghost predicate CodeOf(moves: seq<Pair>, code: Code) {
    exists a: seq<Move>, b: seq<Move>, ca: Code, cb: Code ::
      ClassCode(Select(moves, IsInt), true, a, ca) && ClassCode(Select(moves, IsFloat), false, b, cb) && code == ca + cb
  }

  // ---------- emission ----------

  class Codegen {
    var code: Code

    constructor ()
      ensures code == []
    {
      code := [];
    }

    /** The whole of parallel_mov. */
    method ParallelMov(movesInput: seq<Pair>)
      requires Callable(movesInput)
      modifies this
      ensures exists more :: CodeOf(movesInput, more) && code == old(code) + more
    {
      hide Carries, Acyclic, ClassCode, ClassTask, Select, Scratch;
      var movesInt, movesFloat := Partition(movesInput);
      SelectApart(movesInput, IsInt);
      SelectApart(movesInput, IsFloat);
      ghost var start := code;
      ghost var a, ca := MoveClass(movesInt, true);
      ghost var b, cb := MoveClass(movesFloat, false);
      assert code == start + (ca + cb);
      assert CodeOf(movesInput, ca + cb);
    }

    // Lines 1137-1145.
    method Partition(movesInput: seq<Pair>) returns (movesInt: seq<Pair>, movesFloat: seq<Pair>)
      ensures movesInt == Select(movesInput, IsInt) && movesFloat == Select(movesInput, IsFloat)
      ensures forall m :: m in movesInput && (m.to.IntSlot? || (m.to.Reg? && !m.to.isFloat)) ==> m in movesInt
      ensures forall m :: m in movesInput && (m.to.FloatSlot? || (m.to.Reg? && m.to.isFloat)) ==> m in movesFloat
    {
      movesInt, movesFloat := [], [];
      var i := 0;
      while i < |movesInput|
        invariant 0 <= i <= |movesInput|
        invariant movesInt == Select(movesInput[..i], IsInt) && movesFloat == Select(movesInput[..i], IsFloat)
      {
        assert movesInput[..i + 1] == movesInput[..i] + [movesInput[i]];
        SelectMore(movesInput[..i], movesInput[i], IsInt);
        SelectMore(movesInput[..i], movesInput[i], IsFloat);
        if movesInput[i].to.IntSlot? || (movesInput[i].to.Reg? && !movesInput[i].to.isFloat) {
          movesInt := movesInt + [movesInput[i]];
        } else {
          movesFloat := movesFloat + [movesInput[i]];
        }
        i := i + 1;
      }
      assert movesInput[..i] == movesInput;
    }

    // Lines 1152-1240 for one class.
    method MoveClass(moves: seq<Pair>, ireg: bool) returns (ghost sorted: seq<Move>, ghost more: Code)
      requires Apart(moves) && InClass(moves, ireg) && ClassTask(moves, ireg).Ok()
      modifies this
      ensures ClassCode(moves, ireg, sorted, more) && code == old(code) + more
    {
      hide Carries, Describes, ExpandAll, Select, Sources, Endpoints, Acyclic, Distinct, Top, CycleTops, InClass, Apart;
      ghost var start := code;
      var nodes, edges := StoreAndCollect(moves, ireg);
      var topo := new TopoSort(nodes, edges, ireg);
      var revTopo := topo.Sort(Sources(moves));
      EmitMoves(revTopo, ireg);
      EmitLoads(moves);
      sorted := revTopo;
      ghost var x, y, z := ExpandAll(Select(moves, IsStore), ireg), Lift(sorted, ireg), Plain(Select(moves, IsLoad));
      more := x + y + z;
      assert code == start + more;
    }

    // Lines 1164-1204: stores are made at once, register moves become edges.
    method StoreAndCollect(moves: seq<Pair>, ireg: bool) returns (nodes: set<int>, edges: map<int, seq<int>>)
      requires Apart(moves) && InClass(moves, ireg)
      modifies this
      ensures code == old(code) + ExpandAll(Select(moves, IsStore), ireg)
      ensures nodes == Endpoints(Sources(moves)) && Describes(ClassTask(moves, ireg), edges)
    {
      hide Describes, ExpandAll, Expand, Select, Sources, Endpoints, ClassTask, InClass, Apart;
      nodes, edges := {}, map[];
      NothingDescribed(moves, ireg);
      ghost var start := code;
      var i := 0;
      while i < |moves|
        invariant 0 <= i <= |moves|
        invariant code == start + ExpandAll(Select(moves[..i], IsStore), ireg)
        invariant nodes == Endpoints(Sources(moves[..i])) && Describes(ClassTask(moves[..i], ireg), edges)
      {
        var m := moves[i];
        StoreMore(moves, i, ireg);
        CollectMore(moves, i, ireg, edges);
        if m.to.Reg? {
          if m.from.Reg? {
            nodes := nodes + {m.from.id, m.to.id};
            edges := edges[m.from.id := Outs(edges, m.from.id) + [m.to.id]];
          }
        } else {
          EmitStore(m, ireg);
        }
        i := i + 1;
      }
      assert moves[..i] == moves;
    }

    // Lines 1186-1202.
    method EmitStore(m: Pair, ireg: bool)
      modifies this
      ensures code == old(code) + Expand(m, ireg)
    {
      if m.from.Reg? {
        code := code + [(At(m.from), At(m.to))];
      } else {
        code := code + [(At(m.from), Temp(ireg))];
        code := code + [(Temp(ireg), At(m.to))];
      }
    }

    // Lines 1221-1226.
    method EmitMoves(revTopo: seq<Move>, ireg: bool)
      modifies this
      ensures code == old(code) + Lift(revTopo, ireg)
    {
      var i := 0;
      while i < |revTopo|
        invariant 0 <= i <= |revTopo| && code == old(code) + Lift(revTopo, ireg)[..i]
      {
        code := code + [(RegPlace(ireg, revTopo[i].0), RegPlace(ireg, revTopo[i].1))];
        i := i + 1;
      }
    }

    // Lines 1228-1239: what is not in a register yet.
    method EmitLoads(moves: seq<Pair>)
      modifies this
      ensures code == old(code) + Plain(Select(moves, IsLoad))
    {
      hide Select, Plain;
      var i := 0;
      NoLoads();
      while i < |moves|
        invariant 0 <= i <= |moves| && code == old(code) + Plain(Select(moves[..i], IsLoad))
      {
        assert moves[..i + 1] == moves[..i] + [moves[i]];
        LoadMore(moves[..i], moves[i]);
        if moves[i].to.Reg? && !moves[i].from.Reg? {
          code := code + [(At(moves[i].from), At(moves[i].to))];
        }
        i := i + 1;
      }
      assert moves[..i] == moves;
    }
  }

  lemma NoLoads()
    ensures Plain(Select([], IsLoad)) == []
  {
  }

  lemma LoadMore(s: seq<Pair>, m: Pair)
    ensures Plain(Select(s + [m], IsLoad)) == Plain(Select(s, IsLoad)) + if IsLoad(m) then [(At(m.from),
        At(m.to))] else []
  {
    SelectMore(s, m, IsLoad);
    hide Select;
    var r := Select(s, IsLoad);
    assert Plain(r + [m]) == Plain(r) + [(At(m.from), At(m.to))];
    assert r + [] == r;
  }

  lemma {:induction false} SelectApart(s: seq<Pair>, p: Pair -> bool)
    requires Apart(s)
    ensures Apart(Select(s, p))
  {
    if |s| > 0 {
      var k := |s| - 1;
      SelectApart(s[..k], p);
      assert s == s[..k] + [s[k]];
      forall m | m in s[..k] ensures At(m.to) != At(s[k].to) {
        var i :| 0 <= i < k && s[i] == m;
      }
      assert forall i :: 0 <= i < |Select(s[..k], p)| ==> Select(s[..k], p)[i] in s[..k];
    }
  }

  lemma ExpandMore(s: seq<Pair>, m: Pair, ireg: bool)
    ensures ExpandAll(s + [m], ireg) == ExpandAll(s, ireg) + Expand(m, ireg)
  {
    assert (s + [m])[..|s|] == s;
  }

  lemma StoreMore(moves: seq<Pair>, i: nat, ireg: bool)
    requires i < |moves|
    ensures ExpandAll(Select(moves[..i + 1], IsStore), ireg) ==
            ExpandAll(Select(moves[..i], IsStore), ireg) + if IsStore(moves[i]) then Expand(moves[i], ireg) else []
  {
    hide Expand, ExpandAll, Select;
    assert moves[..i + 1] == moves[..i] + [moves[i]];
    SelectMore(moves[..i], moves[i], IsStore);
    ExpandMore(Select(moves[..i], IsStore), moves[i], ireg);
    if !IsStore(moves[i]) {
      assert Select(moves[..i + 1], IsStore) == Select(moves[..i], IsStore);
    }
  }

  lemma NothingDescribed(moves: seq<Pair>, ireg: bool)
    ensures Describes(ClassTask(moves[..0], ireg), map[]) && Endpoints(Sources(moves[..0])) == {}
    ensures ExpandAll(Select(moves[..0], IsStore), ireg) == []
  {
  }

  lemma {:induction false} SourcesNot(s: seq<Pair>, b: int)
    requires forall i :: 0 <= i < |s| && IsRegMove(s[i]) ==> s[i].to.id != b
    ensures b !in Sources(s)
  {
    if |s| > 0 {
      SourcesNot(s[..|s| - 1], b);
    }
  }

  lemma {:induction false} SourcesIs(s: seq<Pair>, i: nat)
    requires i < |s| && IsRegMove(s[i]) && forall j :: i < j < |s| && IsRegMove(s[j]) ==> s[j].to.id != s[i].to.id
    ensures s[i].to.id in Sources(s) && Sources(s)[s[i].to.id] == s[i].from.id
  {
    if i < |s| - 1 {
      SourcesIs(s[..|s| - 1], i);
    }
  }

  ghost predicate InClass(s: seq<Pair>, ireg: bool) { forall m :: m in s ==> IsInt(m) == ireg }

  // One more move has been looked at.
  lemma CollectMore(moves: seq<Pair>, i: nat, ireg: bool, edges: map<int, seq<int>>)
    requires Apart(moves) && InClass(moves, ireg) && i < |moves| && Describes(ClassTask(moves[..i], ireg), edges)
    ensures var m, before, after := moves[i], Sources(moves[..i]), Sources(moves[..i + 1]);
            if IsRegMove(m) then
              && Endpoints(after) == Endpoints(before) + {m.from.id, m.to.id}
              && Describes(ClassTask(moves[..i + 1], ireg), edges[m.from.id := Outs(edges, m.from.id) + [m.to.id]])
            else after == before && Describes(ClassTask(moves[..i + 1], ireg), edges)
  {
    hide Describes;
    var m := moves[i];
    assert moves[..i + 1][..i] == moves[..i];
    if IsRegMove(m) {
      NewDestination(moves, i, ireg);
      InsertEdge(ClassTask(moves[..i], ireg), ClassTask(moves[..i + 1], ireg), edges, m.from.id, m.to.id);
      InsertEndpoints(Sources(moves[..i]), m.from.id, m.to.id);
    }
  }

  lemma NewDestination(moves: seq<Pair>, i: nat, ireg: bool)
    requires Apart(moves) && InClass(moves, ireg) && i < |moves| && IsRegMove(moves[i])
    ensures moves[i].to.id !in Sources(moves[..i])
  {
    hide Sources;
    assert moves[i] in moves;
    forall h | 0 <= h < i && IsRegMove(moves[..i][h]) ensures moves[..i][h].to.id != moves[i].to.id {
      assert moves[h] == moves[..i][h] && moves[h] in moves;
    }
    SourcesNot(moves[..i], moves[i].to.id);
  }

  lemma InsertEndpoints(src: map<int, int>, from: int, to: int)
    requires to !in src
    ensures Endpoints(src[to := from]) == Endpoints(src) + {from, to}
  {
    var after := src[to := from];
    assert after[to] == from;
    forall b | b in src ensures after[b] == src[b] && b in after {
    }
  }

  lemma InsertEdge(before: Task, after: Task, edges: map<int, seq<int>>, from: int, to: int)
    requires Describes(before, edges) && to !in before.src && after.src == before.src[to := from]
    ensures Describes(after, edges[from := Outs(edges, from) + [to]])
  {
    hide Outs, Once;
    var e := edges[from := Outs(edges, from) + [to]];
    OneMoreOut(edges, from, to);
    forall u, i | 0 <= i < |Outs(edges, u)| ensures Outs(edges, u)[i] != to {
      assert Outs(edges, u)[i] in Outs(edges, u);
    }
    StillOnce(edges, e, from, to);
  }

  lemma OneMoreOut(edges: map<int, seq<int>>, from: int, to: int)
    ensures var e := edges[from := Outs(edges, from) + [to]];
            forall u :: Outs(e, u) == if u == from then Outs(edges, u) + [to] else Outs(edges, u)
  {
  }

  lemma StillOnce(edges: map<int, seq<int>>, e: map<int, seq<int>>, from: int, to: int)
    requires Once(edges) && forall u :: Outs(e, u) == if u == from then Outs(edges, u) + [to] else Outs(edges, u)
    requires forall u, i {:trigger Outs(edges, u)[i]} :: 0 <= i < |Outs(edges, u)| ==> Outs(edges, u)[i] != to
    ensures Once(e)
  {
    hide Outs;
    forall u, i, v, j {:trigger Outs(e, u)[i], Outs(e, v)[j]}
      | 0 <= i < |Outs(e, u)| && 0 <= j < |Outs(e, v)| && Outs(e, u)[i] == Outs(e, v)[j] ensures u == v && i == j
    {
      assert i < |Outs(edges, u)| ==> Outs(e, u)[i] == Outs(edges, u)[i];
      assert j < |Outs(edges, v)| ==> Outs(e, v)[j] == Outs(edges, v)[j];
    }
  }
}
