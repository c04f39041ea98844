/** Lifetime intervals of include/codegen_new/regalloc.hh (struct interval_ssa).
    An interval set over instruction positions is the finite set of the positions it
    contains, so holes in a lifetime are simply positions that are missing. */
module Intervals {
  import opened Basis

  // std::numeric_limits<size_t>::max()
  const SIZE_MAX: nat := 0xFFFF_FFFF_FFFF_FFFF

  datatype Reg = Reg(id: int, isFloat: bool)

  /** What may own a register or a stack slot; an alloca owns the memory it stands for. */
  datatype Value = Value(id: nat, isFloat: bool, size: nat, isAlloca: bool)

  // A nonempty finite set has a least and a greatest element.
  lemma MinExists(s: set<nat>)
    requires s != {}
    ensures exists m :: m in s && forall x :: x in s ==> m <= x
  {
    var m :| m in s;
    while exists x :: x in s && x < m
      invariant m in s
      decreases m
    {
      var x :| x in s && x < m;
      m := x;
    }
  }

  function Min(s: set<nat>): (m: nat)
    requires s != {}
    ensures m in s && forall x :: x in s ==> m <= x
  {
    MinExists(s);
    var m :| m in s && forall x | x in s :: m <= x;
    m
  }

  lemma {:induction false} MaxExists(s: set<nat>)
    requires s != {}
    ensures exists m :: m in s && forall x :: x in s ==> x <= m
  {
    var y :| y in s;
    var t := s - {y};
    assert s == t + {y};
    if t == {} {
      assert y in s && forall x :: x in s ==> x <= y;
    } else {
      MaxExists(t);
      var m :| m in t && forall x :: x in t ==> x <= m;
      var k := if m <= y then y else m;
      assert k in s && forall x :: x in s ==> x <= k;
    }
  }

  function Max(s: set<nat>): (m: nat)
    requires s != {}
    ensures m in s && forall x :: x in s ==> x <= m
  {
    MaxExists(s);
    var m :| m in s && forall x | x in s :: x <= m;
    m
  }

  function Below(s: set<nat>, pos: nat): (r: set<nat>)
    ensures forall x :: x in r <==> x in s && x < pos
  {
    set x | x in s && x < pos
  }

  function From(s: set<nat>, pos: nat): (r: set<nat>)
    ensures forall x :: x in r <==> x in s && x >= pos
  {
    set x | x in s && x >= pos
  }

  datatype Interval = Interval(s: set<nat>, uses: set<nat>, val: Value, reg: Option<Reg>) {
    function Start(): (p: nat)
      requires s != {}
      ensures p in s && forall x :: x in s ==> p <= x
    {
      Min(s)
    }

    // One past the last position, as in a right-open interval.
    function End(): (p: nat)
      requires s != {}
      ensures p > 0 && p - 1 in s && forall x :: x in s ==> x < p
    {
      Max(s) + 1
    }

    predicate Cover(pos: nat) {
      pos in s
    }

    // The first position the two lifetimes share.
    function Intersect(other: Interval): (p: Option<nat>)
      ensures p.None? <==> s !! other.s
      ensures p.Some? ==> p.value in s && p.value in other.s
                          && forall x :: x in s && x in other.s ==> p.value <= x
    {
      assert forall x :: x in s * other.s <==> x in s && x in other.s;
      if s * other.s == {} then None else Some(Min(s * other.s))
    }

    // Start of the first segment at or behind pos; None is the end iterator of lower_bound.
    function SegmentFrom(pos: nat): (p: Option<nat>)
      ensures p.None? <==> forall x :: x in s ==> x < pos
      ensures p.Some? && !Cover(pos) ==>
                pos < p.value && p.value in s && forall x :: x in s && x >= pos ==> p.value <= x
    {
      if From(s, pos) == {} then assert forall x :: x in s && x >= pos ==> x in From(s, pos); None
      else Some(Min(From(s, pos)))
    }

    // First use at or behind pos.
    function UseFrom(pos: nat): (u: Option<nat>)
      ensures u.None? <==> forall x :: x in uses ==> x < pos
      ensures u.Some? ==> u.value in uses && u.value >= pos
                          && forall x :: x in uses && x >= pos ==> u.value <= x
    {
      if From(uses, pos) == {} then assert forall x :: x in uses && x >= pos ==> x in From(uses, pos); None
      else Some(Min(From(uses, pos)))
    }

    // First half of split(pos): keeps the register.
    function Head(pos: nat): (i: Interval)
    {
      this.(s := Below(s, pos), uses := Below(uses, pos))
    }

    // Second half of split(pos): loses the register.
    function Tail(pos: nat): (i: Interval)
    {
      this.(s := From(s, pos), uses := From(uses, pos), reg := None)
    }
  }
}
