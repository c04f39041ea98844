/** What the code of parallel_mov does: it is the simultaneous assignment exactly when no move reads a slot
    that an earlier one has already overwritten (the case the FIXME at line 1197 worries about). */
module ParallelMeaning {
  import opened MoveGraph
  import opened MoveInvariant
  import opened MoveRounds
  import opened TopologicalSort
  import opened ParallelMove

  // ---------- moves made one by one ----------

  ghost predicate ToDistinct<T>(s: seq<(T, T)>) {
    forall i, j {:trigger s[i], s[j]} :: 0 <= i < j < |s| ==> s[i].1 != s[j].1
  }

  // No move reads what an earlier one has changed.
  ghost predicate Unhindered<T>(s: seq<(T, T)>) {
    forall i, j {:trigger s[i], s[j]} :: 0 <= i < j < |s| && s[i].1 == s[j].0 ==> s[i].0 == s[i].1
  }

  ghost predicate Assigns<T>(s: seq<(T, T)>, code: seq<(T, T)>) {
    forall j {:trigger s[j]} :: 0 <= j < |s| ==> Origin(code, s[j].1) == s[j].0
  }

  lemma {:induction false} OriginStays<T>(s: seq<(T, T)>, x: T)
    requires forall i :: 0 <= i < |s| && s[i].1 == x ==> s[i].0 == x
    ensures Origin(s, x) == x
  {
    if |s| > 0 {
      OriginStays(s[..|s| - 1], x);
    }
  }

  lemma {:induction false} OriginAmong<T>(s: seq<(T, T)>, x: T)
    requires forall i :: 0 <= i < |s| && s[i].1 == x ==> forall j :: 0 <= j < i ==> s[j].1 != s[i].0
    ensures Origin(s, x) == x || exists i :: 0 <= i < |s| && s[i].1 == x && s[i].0 == Origin(s, x)
  {
    if |s| > 0 {
      var k := |s| - 1;
      if s[k].1 == x {
        OriginStays(s[..k], s[k].0);
      } else {
        OriginAmong(s[..k], x);
        if Origin(s, x) != x {
          var i :| 0 <= i < k && s[..k][i].1 == x && s[..k][i].0 == Origin(s, x);
          assert s[i] == s[..k][i];
        }
      }
    }
  }

  // The last write to a destination is the move that names it.
  lemma OriginAt<T>(s: seq<(T, T)>, j: nat)
    requires ToDistinct(s) && j < |s|
    ensures Origin(s, s[j].1) == Origin(s[..j], s[j].0)
  {
    var rest := s[j + 1..];
    assert s == (s[..j] + [s[j]]) + rest;
    OriginConcat(s[..j] + [s[j]], rest, s[j].1);
    forall i {:trigger rest[i]} | 0 <= i < |rest| ensures rest[i].1 != s[j].1 {
      assert rest[i] == s[j + 1 + i];
    }
    OriginStays(rest, s[j].1);
    OriginLast(s[..j], s[j].0, s[j].1, s[j].1);
  }

  /** Made one by one, moves with distinct destinations are a simultaneous assignment if and only if no
      move reads what an earlier one has changed. */
  lemma OneByOneIff<T>(s: seq<(T, T)>)
    requires ToDistinct(s)
    ensures Assigns(s, s) <==> Unhindered(s)
  {
    if Unhindered(s) {
      forall j | 0 <= j < |s| ensures Origin(s, s[j].1) == s[j].0 {
        OriginAt(s, j);
        assert forall i :: 0 <= i < j ==> s[..j][i] == s[i];
        OriginStays(s[..j], s[j].0);
      }
    } else {
      var j := FirstHindered(s);
      var i :| 0 <= i < j && s[i].1 == s[j].0 && s[i].0 != s[i].1;
      HinderedIsWrong(s, i, j);
    }
  }

  ghost predicate Hindered<T>(s: seq<(T, T)>, j: int) {
    0 <= j < |s| && exists i :: 0 <= i < j && s[i].1 == s[j].0 && s[i].0 != s[i].1
  }

  lemma FirstHindered<T>(s: seq<(T, T)>) returns (j: int)
    requires !Unhindered(s)
    ensures Hindered(s, j) && forall h :: 0 <= h < j ==> !Hindered(s, h)
  {
    var a, b :| 0 <= a < b < |s| && s[a].1 == s[b].0 && s[a].0 != s[a].1;
    assert Hindered(s, b);
    j := 0;
    while !Hindered(s, j)
      invariant 0 <= j <= b && forall h :: 0 <= h < j ==> !Hindered(s, h)
      decreases b - j
    {
      j := j + 1;
    }
  }

  lemma HinderedIsWrong<T>(s: seq<(T, T)>, i: nat, j: nat)
    requires ToDistinct(s) && i < j < |s| && s[i].1 == s[j].0 && s[i].0 != s[i].1
    requires forall h :: 0 <= h < j ==> !Hindered(s, h)
    ensures Origin(s, s[j].1) == s[i].0
  {
    OriginAt(s, j);
    var p := s[..j];
    assert forall h :: 0 <= h < j ==> p[h] == s[h];
    OriginAt(p, i);
    assert p[..i] == s[..i];
    forall h | 0 <= h < i && s[h].1 == s[i].0 ensures s[h].0 == s[h].1 {
      assert !Hindered(s, i);
    }
    OriginStays(s[..i], s[i].0);
  }

  // ---------- the code, block by block ----------

  // The order in which parallel_mov gets to the moves that are not between registers.
  ghost function Order(moves: seq<Pair>): Code {
    var ints, floats := Select(moves, IsInt), Select(moves, IsFloat);
    Plain(Select(ints, IsStore)) + Plain(Select(ints, IsLoad)) +
      Plain(Select(floats, IsStore)) + Plain(Select(floats, IsLoad))
  }

  // The code gives every destination what its source held and changes nothing else but scratch registers.
  ghost predicate Right(moves: seq<Pair>, code: Code) {
    && (forall m :: m in moves ==> Origin(code, At(m.to)) == At(m.from))
    && (forall x :: (forall m :: m in moves ==> At(m.to) != x) && !Scratch(x) ==> Origin(code, x) == x)
  }

  // Going through the scratch register makes no difference to anything else.
  lemma {:induction false} ExpandOrigin(s: seq<Pair>, ireg: bool, x: Place)
    requires x != Temp(ireg) && forall m :: m in s ==> At(m.to) != Temp(ireg) && At(m.from) != Temp(ireg)
    ensures Origin(ExpandAll(s, ireg), x) == Origin(Plain(s), x)
  {
    hide Expand, Origin;
    if |s| > 0 {
      var k := |s| - 1;
      var m, before := s[k], ExpandAll(s[..k], ireg);
      assert m in s;
      ExpandOrigin(s[..k], ireg, if x == At(m.to) then At(m.from) else x);
      assert Plain(s) == Plain(s[..k]) + [(At(m.from), At(m.to))];
      OriginLast(Plain(s[..k]), At(m.from), At(m.to), x);
      ExpandLast(before, m, ireg, x);
    } else {
      assert ExpandAll(s, ireg) == Plain(s);
    }
  }

  // A move over the scratch register brings what a plain move brings.
  lemma ExpandLast(before: Code, m: Pair, ireg: bool, x: Place)
    requires x != Temp(ireg) && At(m.to) != Temp(ireg) && At(m.from) != Temp(ireg)
    ensures Origin(before + Expand(m, ireg), x) == Origin(before, if x == At(m.to) then At(m.from) else x)
  {
    hide Origin;
    if m.from.Reg? {
      OriginLast(before, At(m.from), At(m.to), x);
    } else {
      assert before + Expand(m, ireg) == (before + [(At(m.from), Temp(ireg))]) + [(Temp(ireg), At(m.to))];
      OriginLast(before + [(At(m.from), Temp(ireg))], Temp(ireg), At(m.to), x);
      OriginLast(before, At(m.from), Temp(ireg), if x == At(m.to) then Temp(ireg) else x);
    }
  }

  lemma {:induction false} LiftOrigin(ms: seq<Move>, ireg: bool, n: int)
    ensures Origin(Lift(ms, ireg), RegPlace(ireg, n)) == RegPlace(ireg, Origin(ms, n))
    decreases |ms|
  {
    if |ms| > 0 {
      var k := |ms| - 1;
      LiftOrigin(ms[..k], ireg, if n == ms[k].1 then ms[k].0 else n);
      assert Lift(ms, ireg)[..k] == Lift(ms[..k], ireg);
    }
  }

  // Whether x is a register of the class.
  predicate OfClass(x: Place, ireg: bool) { if ireg then x.IntReg? else x.FloatReg? }

  // The sorted register moves leave alone what is no destination of theirs.
  lemma SortedStays(s: seq<Pair>, ireg: bool, sorted: seq<Move>, x: Place)
    requires Carries(ClassTask(s, ireg), sorted) && !Scratch(x)
    requires OfClass(x, ireg) ==> x.id !in Sources(s)
    ensures Origin(Lift(sorted, ireg), x) == x
  {
    if OfClass(x, ireg) {
      LiftOrigin(sorted, ireg, x.id);
    } else {
      OriginStays(Lift(sorted, ireg), x);
    }
  }

  // What the sources and x have in common, the origin of x has too.
  lemma {:induction false} OriginKeeps<T>(s: seq<(T, T)>, p: T -> bool, x: T)
    requires p(x) && forall i :: 0 <= i < |s| ==> p(s[i].0)
    ensures p(Origin(s, x))
  {
    if |s| > 0 {
      var k := |s| - 1;
      OriginKeeps(s[..k], p, if x == s[k].1 then s[k].0 else x);
    }
  }

  // ---------- one class ----------

  ghost predicate ClassFit(s: seq<Pair>, ireg: bool) {
    && Apart(s) && InClass(s, ireg)
    && forall m :: m in s ==>
      && !m.to.Value? && (m.from.Reg? ==> m.from.isFloat == !ireg)
      && !Scratch(At(m.to)) && !Scratch(At(m.from))
  }

  // The moves of a class that are not between registers, in the order they are made.
  ghost function ClassOrder(s: seq<Pair>): Code { Plain(Select(s, IsStore)) + Plain(Select(s, IsLoad)) }

  lemma PlainOf(s: seq<Pair>, p: Pair -> bool)
    ensures forall i :: 0 <= i < |Select(s, p)| ==>
              Select(s, p)[i] in s && p(Select(s, p)[i])
                  && Plain(Select(s, p))[i] == (At(Select(s, p)[i].from), At(Select(s, p)[i].to))
  {
  }

  lemma LoadsLeave(s: seq<Pair>, ireg: bool, x: Place)
    requires ClassFit(s, ireg) && !Scratch(x)
    ensures var y := Origin(Plain(Select(s, IsLoad)), x); !Scratch(y) && (y == x || y.Slot? || y.Constant?)
  {
    hide Scratch;
    PlainOf(s, IsLoad);
    OriginKeeps(Plain(Select(s, IsLoad)), y => !Scratch(y) && (y == x || y.Slot? || y.Constant?), x);
  }

  lemma ClassOrigin(s: seq<Pair>, ireg: bool, sorted: seq<Move>, code: Code, x: Place)
    requires ClassFit(s, ireg) && ClassCode(s, ireg, sorted, code) && !Scratch(x)
    requires OfClass(x, ireg) ==> x.id !in Sources(s)
    ensures Origin(code, x) == Origin(ClassOrder(s), x)
  {
    hide Carries, Scratch, Sources, Apart;
    var stores, loads := Select(s, IsStore), Select(s, IsLoad);
    LoadsLeave(s, ireg, x);
    var y := Origin(Plain(loads), x);
    OriginConcat(ExpandAll(stores, ireg) + Lift(sorted, ireg), Plain(loads), x);
    OriginConcat(ExpandAll(stores, ireg), Lift(sorted, ireg), y);
    SortedStays(s, ireg, sorted, y);
    TempIsScratch(ireg);
    ExpandOrigin(stores, ireg, y);
    OriginConcat(Plain(stores), Plain(loads), x);
  }

  lemma TempIsScratch(ireg: bool)
    ensures Scratch(Temp(ireg))
  {
  }

  // A register of the class that no move of it writes stays; so do registers of the other class.
  lemma ClassStays(s: seq<Pair>, ireg: bool, sorted: seq<Move>, code: Code, x: Place)
    requires ClassFit(s, ireg) && ClassCode(s, ireg, sorted, code) && !Scratch(x) && OfClass(x, !ireg)
    ensures Origin(code, x) == x
  {
    hide Carries, Scratch, Sources, Apart;
    ClassOrigin(s, ireg, sorted, code, x);
    PlainOf(s, IsStore);
    PlainOf(s, IsLoad);
    OriginStays(ClassOrder(s), x);
  }

  lemma ClassRegMove(s: seq<Pair>, ireg: bool, sorted: seq<Move>, code: Code, m: Pair)
    requires ClassFit(s, ireg) && ClassCode(s, ireg, sorted, code) && m in s && IsRegMove(m)
    ensures Origin(code, At(m.to)) == At(m.from)
  {
    hide Carries, Scratch, Sources;
    var stores, loads := Select(s, IsStore), Select(s, IsLoad);
    var i :| 0 <= i < |s| && s[i] == m;
    SourceOf(s, ireg, i);
    assert At(m.to) == RegPlace(ireg, m.to.id) && At(m.from) == RegPlace(ireg, m.from.id);
    OriginConcat(ExpandAll(stores, ireg) + Lift(sorted, ireg), Plain(loads), At(m.to));
    PlainOf(s, IsLoad);
    forall l | l in loads ensures At(l.to) != At(m.to) {
      Different(s, l, m);
    }
    OriginStays(Plain(loads), At(m.to));
    OriginConcat(ExpandAll(stores, ireg), Lift(sorted, ireg), At(m.to));
    LiftOrigin(sorted, ireg, m.to.id);
    Carried(s, ireg, sorted, m.to.id);
    TempIsScratch(ireg);
    ExpandOrigin(stores, ireg, At(m.from));
    PlainOf(s, IsStore);
    OriginStays(Plain(stores), At(m.from));
  }

  lemma Carried(s: seq<Pair>, ireg: bool, sorted: seq<Move>, b: int)
    requires Carries(ClassTask(s, ireg), sorted) && b in Sources(s)
    ensures Origin(sorted, b) == Sources(s)[b]
  {
  }

  lemma SourceOf(s: seq<Pair>, ireg: bool, i: nat)
    requires Apart(s) && InClass(s, ireg) && i < |s| && IsRegMove(s[i])
    ensures s[i].to.id in Sources(s) && Sources(s)[s[i].to.id] == s[i].from.id
  {
    assert s[i] in s;
    forall j | i < j < |s| && IsRegMove(s[j]) ensures s[j].to.id != s[i].to.id {
      assert s[j] in s;
    }
    SourcesIs(s, i);
  }

  lemma Different(s: seq<Pair>, l: Pair, m: Pair)
    requires Apart(s) && l in s && m in s && l != m
    ensures At(l.to) != At(m.to)
  {
    var i :| 0 <= i < |s| && s[i] == l;
    var j :| 0 <= j < |s| && s[j] == m;
  }

  // ---------- both classes ----------

  lemma Fits(moves: seq<Pair>)
    requires Callable(moves)
    ensures ClassFit(Select(moves, IsInt), true) && ClassFit(Select(moves, IsFloat), false)
  {
    hide Scratch, Acyclic, Select, ClassTask;
    SelectApart(moves, IsInt);
    SelectApart(moves, IsFloat);
  }

  // x is no destination of a move between registers.
  ghost predicate Beside(moves: seq<Pair>, x: Place) { forall m :: m in moves && IsRegMove(m) ==> At(m.to) != x }

  lemma BesideSources(moves: seq<Pair>, s: seq<Pair>, ireg: bool, x: Place)
    requires Beside(moves, x) && InClass(s, ireg) && OfClass(x, ireg) && forall m :: m in s ==> m in moves
    ensures x.id !in Sources(s)
  {
    forall i | 0 <= i < |s| && IsRegMove(s[i]) ensures s[i].to.id != x.id {
      assert s[i] in s;
    }
    SourcesNot(s, x.id);
  }

  lemma CodeOrigin(moves: seq<Pair>, code: Code, x: Place)
    requires Callable(moves) && CodeOf(moves, code) && !Scratch(x) && Beside(moves, x)
    ensures Origin(code, x) == Origin(Order(moves), x)
  {
    hide Scratch, Select, Sources, ClassCode, Callable, Apart, ClassTask, Beside;
    var ints, floats := Select(moves, IsInt), Select(moves, IsFloat);
    var a: seq<Move>, b: seq<Move>, ca: Code, cb: Code :| ClassCode(ints, true, a, ca)
        && ClassCode(floats, false, b, cb) && code == ca + cb;
    Fits(moves);
    if OfClass(x, false) { BesideSources(moves, floats, false, x); }
    ClassOrigin(floats, false, b, cb, x);
    var z := Origin(ClassOrder(floats), x);
    FloatsLeave(floats, x);
    if OfClass(x, true) { BesideSources(moves, ints, true, x); }
    ClassOrigin(ints, true, a, ca, z);
    OriginConcat(ca, cb, x);
    OriginConcat(ClassOrder(ints), ClassOrder(floats), x);
    assert Order(moves) == ClassOrder(ints) + ClassOrder(floats);
  }

  lemma FloatsLeave(floats: seq<Pair>, x: Place)
    requires ClassFit(floats, false) && !Scratch(x)
    ensures var z := Origin(ClassOrder(floats), x); !Scratch(z) && (z == x || !z.IntReg?)
  {
    hide Scratch;
    PlainOf(floats, IsStore);
    PlainOf(floats, IsLoad);
    OriginKeeps(ClassOrder(floats), z => !Scratch(z) && (z == x || !z.IntReg?), x);
  }

  lemma CodeRegMove(moves: seq<Pair>, code: Code, m: Pair)
    requires Callable(moves) && CodeOf(moves, code) && m in moves && IsRegMove(m)
    ensures Origin(code, At(m.to)) == At(m.from)
  {
    hide Scratch, Select, Sources, ClassCode, ClassTask, Apart, Acyclic;
    var ints, floats := Select(moves, IsInt), Select(moves, IsFloat);
    var a: seq<Move>, b: seq<Move>, ca: Code, cb: Code :| ClassCode(ints, true, a, ca)
        && ClassCode(floats, false, b, cb) && code == ca + cb;
    Fits(moves);
    OriginConcat(ca, cb, At(m.to));
    if IsInt(m) {
      ClassStays(floats, false, b, cb, At(m.to));
      ClassRegMove(ints, true, a, ca, m);
    } else {
      ClassRegMove(floats, false, b, cb, m);
      ClassStays(ints, true, a, ca, At(m.from));
    }
  }

  // ---------- the result ----------

  lemma InOrder(moves: seq<Pair>, p: (Place, Place))
    ensures p in Order(moves) <==> exists m :: m in moves && !IsRegMove(m) && p == (At(m.from), At(m.to))
  {
    hide Select;
    var ints, floats := Select(moves, IsInt), Select(moves, IsFloat);
    PlainHas(ints, IsStore, p);
    PlainHas(ints, IsLoad, p);
    PlainHas(floats, IsStore, p);
    PlainHas(floats, IsLoad, p);
    forall m | m in moves && !IsRegMove(m) && p == (At(m.from), At(m.to)) ensures p in Order(moves) {
      assert m in if IsInt(m) then ints else floats;
    }
  }

  lemma PlainHas(s: seq<Pair>, f: Pair -> bool, p: (Place, Place))
    ensures p in Plain(Select(s, f)) <==> exists m :: m in s && f(m) && p == (At(m.from), At(m.to))
  {
    var r := Select(s, f);
    if p in Plain(r) {
      var i :| 0 <= i < |r| && Plain(r)[i] == p;
      assert r[i] in r;
    }
    if m :| m in s && f(m) && p == (At(m.from), At(m.to)) {
      assert m in r;
      var i :| 0 <= i < |r| && r[i] == m;
      assert Plain(r)[i] == p;
    }
  }

  lemma ConcatDistinct<T>(a: seq<(T, T)>, b: seq<(T, T)>)
    requires ToDistinct(a) && ToDistinct(b) && forall x, y :: x in a && y in b ==> x.1 != y.1
    ensures ToDistinct(a + b)
  {
    var s := a + b;
    forall i, j | 0 <= i < j < |s| ensures s[i].1 != s[j].1 {
      assert i < |a| ==> s[i] in a;
      assert j >= |a| ==> s[j] in b && s[j] == b[j - |a|];
    }
  }

  lemma PlainDistinct(s: seq<Pair>, f: Pair -> bool)
    requires Apart(s)
    ensures ToDistinct(Plain(Select(s, f)))
  {
    SelectApart(s, f);
  }

  lemma OrderDistinct(moves: seq<Pair>)
    requires Callable(moves)
    ensures ToDistinct(Order(moves))
  {
    hide Scratch, Select, Acyclic, ClassTask;
    var ints, floats := Select(moves, IsInt), Select(moves, IsFloat);
    Fits(moves);
    PlainDistinct(ints, IsStore);
    PlainDistinct(ints, IsLoad);
    PlainDistinct(floats, IsStore);
    PlainDistinct(floats, IsLoad);
    StoresAndLoads(ints);
    StoresAndLoads(floats);
    assert Order(moves) == ClassOrder(ints) + ClassOrder(floats);
    forall x, y | x in ClassOrder(ints) && y in ClassOrder(floats) ensures x.1 != y.1 {
      OfSelected(ints, x);
      OfSelected(floats, y);
      var m :| m in ints && x == (At(m.from), At(m.to));
      var n :| n in floats && y == (At(n.from), At(n.to));
      Different(moves, m, n);
    }
    ConcatDistinct(ClassOrder(ints), ClassOrder(floats));
  }

  lemma OfSelected(s: seq<Pair>, p: (Place, Place))
    requires p in ClassOrder(s)
    ensures exists m :: m in s && p == (At(m.from), At(m.to))
  {
    hide Select;
    PlainHas(s, IsStore, p);
    PlainHas(s, IsLoad, p);
  }

  lemma StoresAndLoads(s: seq<Pair>)
    requires Apart(s)
    ensures ToDistinct(ClassOrder(s))
  {
    hide Select;
    PlainDistinct(s, IsStore);
    PlainDistinct(s, IsLoad);
    forall x, y | x in Plain(Select(s, IsStore)) && y in Plain(Select(s, IsLoad)) ensures x.1 != y.1 {
      PlainHas(s, IsStore, x);
      PlainHas(s, IsLoad, y);
    }
    ConcatDistinct(Plain(Select(s, IsStore)), Plain(Select(s, IsLoad)));
  }

  /** The code is the simultaneous assignment if and only if, in the order the moves are made, none reads a
      place that an earlier one has changed. */
  lemma RightIff(moves: seq<Pair>, code: Code)
    requires Callable(moves) && CodeOf(moves, code)
    ensures Right(moves, code) <==> Unhindered(Order(moves))
  {
    hide Callable, CodeOf, Scratch, Order, Unhindered, ToDistinct;
    var order := Order(moves);
    OrderDistinct(moves);
    OneByOneIff(order);
    forall m | m in moves ensures IsRegMove(m) ==> Origin(code, At(m.to)) == At(m.from) {
      if IsRegMove(m) { CodeRegMove(moves, code, m); }
    }
    forall m | m in moves && !IsRegMove(m) ensures Origin(code, At(m.to)) == Origin(order, At(m.to)) {
      OthersBeside(moves, m);
      CodeOrigin(moves, code, At(m.to));
    }
    if Assigns(order, order) {
      forall m | m in moves ensures Origin(code, At(m.to)) == At(m.from) {
        if !IsRegMove(m) {
          InOrder(moves, (At(m.from), At(m.to)));
          var i :| 0 <= i < |order| && order[i] == (At(m.from), At(m.to));
        }
      }
      forall x | (forall m :: m in moves ==> At(m.to) != x) && !Scratch(x) ensures Origin(code, x) == x {
        CodeOrigin(moves, code, x);
        Untouched(moves, x);
      }
    }
    if Right(moves, code) {
      forall j | 0 <= j < |order| ensures Origin(order, order[j].1) == order[j].0 {
        assert order[j] in order;
        InOrder(moves, order[j]);
      }
    }
  }

  lemma OthersBeside(moves: seq<Pair>, m: Pair)
    requires Callable(moves) && m in moves && !IsRegMove(m)
    ensures Beside(moves, At(m.to)) && !Scratch(At(m.to))
  {
    hide Scratch, Select, Acyclic, ClassTask, Apart;
    forall n | n in moves && IsRegMove(n) ensures At(n.to) != At(m.to) {
      Different(moves, n, m);
    }
  }

  lemma Untouched(moves: seq<Pair>, x: Place)
    requires forall m :: m in moves ==> At(m.to) != x
    ensures Origin(Order(moves), x) == x
  {
    hide Order;
    forall i | 0 <= i < |Order(moves)| ensures Order(moves)[i].1 != x {
      assert Order(moves)[i] in Order(moves);
      InOrder(moves, Order(moves)[i]);
    }
    OriginStays(Order(moves), x);
  }

  // No slot is both a destination and a source.
  ghost predicate SlotsApart(moves: seq<Pair>) {
    forall m, n :: m in moves && n in moves && At(m.to).Slot? ==> At(n.from) != At(m.to)
  }

  lemma ConcatUnhindered<T>(a: seq<(T, T)>, b: seq<(T, T)>)
    requires Unhindered(a) && Unhindered(b) && forall x, y :: x in a && y in b ==> x.1 != y.0
    ensures Unhindered(a + b)
  {
    var s := a + b;
    forall i, j | 0 <= i < j < |s| && s[i].1 == s[j].0 ensures s[i].0 == s[i].1 {
      assert i < |a| ==> s[i] in a;
      assert j >= |a| ==> s[j] in b && s[j] == b[j - |a|];
      assert i >= |a| ==> s[i] == b[i - |a|];
    }
  }

  // Within one kind of move, a place that is both written and read is a slot.
  lemma KindUnhindered(moves: seq<Pair>, s: seq<Pair>, f: Pair -> bool, ireg: bool)
    requires SlotsApart(moves) && ClassFit(s, ireg) && (forall m :: m in s ==> m in moves)
        && (f == IsStore || f == IsLoad)
    ensures Unhindered(Plain(Select(s, f)))
  {
    hide Select, Scratch, Apart;
    var r := Plain(Select(s, f));
    forall i, j | 0 <= i < j < |r| ensures r[i].1 != r[j].0 {
      assert r[i] in r && r[j] in r;
      PlainHas(s, f, r[i]);
      PlainHas(s, f, r[j]);
    }
  }

  lemma ClassUnhindered(moves: seq<Pair>, s: seq<Pair>, ireg: bool)
    requires SlotsApart(moves) && ClassFit(s, ireg) && forall m :: m in s ==> m in moves
    ensures Unhindered(ClassOrder(s))
  {
    hide Select, Scratch, Apart;
    KindUnhindered(moves, s, IsStore, ireg);
    KindUnhindered(moves, s, IsLoad, ireg);
    forall x, y | x in Plain(Select(s, IsStore)) && y in Plain(Select(s, IsLoad)) ensures x.1 != y.0 {
      PlainHas(s, IsStore, x);
      PlainHas(s, IsLoad, y);
    }
    ConcatUnhindered(Plain(Select(s, IsStore)), Plain(Select(s, IsLoad)));
  }

  /** When no slot is both a destination and a source, the code is the simultaneous assignment. */
  lemma SlotsApartIsRight(moves: seq<Pair>, code: Code)
    requires Callable(moves) && CodeOf(moves, code) && SlotsApart(moves)
    ensures Right(moves, code)
  {
    hide Select, Scratch, Callable, CodeOf, Right, Unhindered, Apart;
    var ints, floats := Select(moves, IsInt), Select(moves, IsFloat);
    Fits(moves);
    ClassUnhindered(moves, ints, true);
    ClassUnhindered(moves, floats, false);
    forall x, y | x in ClassOrder(ints) && y in ClassOrder(floats) ensures x.1 != y.0 {
      OfSelected(ints, x);
      OfSelected(floats, y);
      var m :| m in ints && x == (At(m.from), At(m.to));
      var n :| n in floats && y == (At(n.from), At(n.to));
      assert m in moves && n in moves;
    }
    ConcatUnhindered(ClassOrder(ints), ClassOrder(floats));
    assert Order(moves) == ClassOrder(ints) + ClassOrder(floats);
    RightIff(moves, code);
  }

  // ---------- in terms of contents ----------

  /** Right code assigns whatever the places hold. */
  lemma RightAssigns<V>(moves: seq<Pair>, code: Code, contents: Place -> V)
    requires Right(moves, code)
    ensures forall m :: m in moves ==> Run(code, contents)(At(m.to)) == contents(At(m.from))
    ensures forall x :: (forall m :: m in moves ==> At(m.to) != x) && !Scratch(x) ==>
        Run(code, contents)(x) == contents(x)
  {
    hide Scratch;
    forall x ensures Run(code, contents)(x) == contents(Origin(code, x)) {
      RunIsOrigin(code, contents, x);
    }
  }

  /** Otherwise there are contents some destination ends up wrong for. */
  lemma HinderedShows(moves: seq<Pair>, code: Code) returns (m: Pair, contents: Place -> int)
    requires Callable(moves) && CodeOf(moves, code) && !Unhindered(Order(moves))
    ensures m in moves && Run(code, contents)(At(m.to)) != contents(At(m.from))
  {
    hide Callable, CodeOf, Order, Unhindered, ToDistinct, Scratch, Origin;
    var order := Order(moves);
    OrderDistinct(moves);
    OneByOneIff(order);
    var j :| 0 <= j < |order| && Origin(order, order[j].1) != order[j].0;
    assert order[j] in order;
    InOrder(moves, order[j]);
    m :| m in moves && !IsRegMove(m) && order[j] == (At(m.from), At(m.to));
    OthersBeside(moves, m);
    CodeOrigin(moves, code, At(m.to));
    var from := At(m.from);
    contents := p => if p == from then 1 else 0;
    RunIsOrigin(code, contents, At(m.to));
  }
}
