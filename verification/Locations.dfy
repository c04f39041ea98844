/** What the finished scan promises to get_loc (src/codegen_new/regalloc.cc, lines 598-627). */
module Locations {
  import opened Basis
  import opened Intervals
  import opened LinearScan
  import opened ScanInvariant

  datatype Location = InRegister(reg: Reg) | OnStack(offset: nat) | NoLocation

  ghost predicate Done(s: Scan, orig: map<Value, Interval>, bbStarts: set<nat>) {
    s.unhandled == {} && exists p :: Inv(s, orig, bbStarts, p)
  }

  // The answer get_loc gives for v at x.
  ghost predicate LocatedAt(s: Scan, v: Value, x: nat, loc: Location) {
    match loc
    case InRegister(r) => exists it :: it in Allocated(s) && it.val == v && x in it.s && it.reg == Some(r)
    case OnStack(o) => v in s.slots && s.slots[v] == o && !Covered(Allocated(s), v, x)
    case NoLocation => v !in s.slots && !Covered(Allocated(s), v, x)
  }

  /** Every live position of a value has exactly one location, and it is never the error exit. */
  lemma LiveIsLocated(s: Scan, orig: map<Value, Interval>, bbStarts: set<nat>, v: Value, x: nat, l: Location,
      m: Location)
    requires Done(s, orig, bbStarts) && v in orig && x in orig[v].s
    requires LocatedAt(s, v, x, l) && LocatedAt(s, v, x, m)
    ensures l == m && l != NoLocation
  {
    var p :| Inv(s, orig, bbStarts, p);
    assert Covered(Pieces(s), v, x);
    var a :| a in Pieces(s) && a.val == v && x in a.s;
    assert forall b :: b in Allocated(s) ==> b in Pieces(s);
    hide Linked, Rows, Frontier;
    if a in s.stacked {
      assert v in s.slots;
    } else {
      assert Covered(Allocated(s), v, x);
    }
  }

  // Byte k of the frame belongs to v, whose slot starts at o: the bytes of its type, and the eight that a store
  // of a spilled value writes.
  predicate Owns(v: Value, o: nat, k: nat) { o <= k && (k < o + v.size || (!v.isAlloca && k < o + 8)) }

  // Two places that do not overlap: different registers, or stack slots without a common byte.
  ghost predicate Apart2(l: Location, m: Location, v: Value, w: Value) {
    match (l, m)
    case (InRegister(r), InRegister(q)) => r != q
    case (OnStack(o), OnStack(u)) => forall k :: !(Owns(v, o, k) && Owns(w, u, k))
    case _ => true
  }

  /** The bytes of a slot lie in the frame, and no two values share one. */
  lemma SlotsShareNoByte(s: Scan, v: Value, w: Value, k: nat)
    requires Slots(s) && v in s.slots && w in s.slots && Owns(v, s.slots[v], k)
    ensures k < s.stackSize && (v != w ==> !Owns(w, s.slots[w], k))
  {
  }

  /** Two different values that are live at one position are in places that do not overlap. */
  lemma LiveValuesDoNotClash(s: Scan, orig: map<Value, Interval>, bbStarts: set<nat>, x: nat,
                             v: Value, w: Value, l: Location, m: Location)
    requires Done(s, orig, bbStarts) && v != w
    requires LocatedAt(s, v, x, l) && LocatedAt(s, w, x, m)
    ensures Apart2(l, m, v, w)
  {
    var p :| Inv(s, orig, bbStarts, p);
    hide Linked, Rows, Frontier, Partition, Sorted;
    if l.OnStack? && m.OnStack? {
      hide Slots, Owns;
      forall k ensures !(Owns(v, l.offset, k) && Owns(w, m.offset, k)) {
        if Owns(v, l.offset, k) { SlotsShareNoByte(s, v, w, k); }
      }
    }
  }

  /** Where a value changes place between two neighbouring positions, a split move was recorded
      or the second position begins a block. */
  lemma ChangesAreRecorded(s: Scan, orig: map<Value, Interval>, bbStarts: set<nat>, v: Value, x: nat, l: Location,
      m: Location)
    requires Done(s, orig, bbStarts) && v in orig && x in orig[v].s && x + 1 in orig[v].s
    requires LocatedAt(s, v, x, l) && LocatedAt(s, v, x + 1, m) && l != m
    ensures Recorded(v, x + 1, s.splitMoves, bbStarts)
  {
    var p :| Inv(s, orig, bbStarts, p);
    assert Covered(Pieces(s), v, x) && Covered(Pieces(s), v, x + 1);
    var a :| a in Pieces(s) && a.val == v && x in a.s;
    var b :| b in Pieces(s) && b.val == v && x + 1 in b.s;
    if a == b {
      SamePieceSamePlace(s, orig, bbStarts, v, x, x + 1, a, l, m);
    }
  }

  lemma SamePieceSamePlace(s: Scan, orig: map<Value, Interval>, bbStarts: set<nat>, v: Value, x: nat, y: nat,
      a: Interval, l: Location, m: Location)
    requires Done(s, orig, bbStarts) && v in orig && x in orig[v].s && y in orig[v].s
    requires a in Pieces(s) && a.val == v && x in a.s && y in a.s
    requires LocatedAt(s, v, x, l) && LocatedAt(s, v, y, m)
    ensures l == m
  {
    var p :| Inv(s, orig, bbStarts, p);
    LiveIsLocated(s, orig, bbStarts, v, x, l, l);
    LiveIsLocated(s, orig, bbStarts, v, y, m, m);
    assert forall b :: b in Allocated(s) ==> b in Pieces(s);
    hide Linked, Rows, Frontier, Slots, NoClash, Done;
    if a in Allocated(s) {
      assert Covered(Allocated(s), v, x) && Covered(Allocated(s), v, y);
    }
  }
}
