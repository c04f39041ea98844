/** What DivisionInvariant puts in place of divisions and remainders by constants
    (include/Optimize/DivisionInvariant.hh, lines 77-237). */
module DivisionPass {
  import opened Words
  import opened Division

  /** An instruction of a replacement: operands are the dividend, a constant, or an earlier result. */
  datatype Arg = Dividend | Num(n: int) | Prev(i: nat)

  datatype Step = Step(op: Op, a: Arg, b: Arg)

  /** Keep leaves the instruction in place; As puts the value of the last step, or the dividend when there
      is none, in its place; Zero puts the constant 0. */
  datatype Replacement = Keep | As(steps: seq<Step>) | Zero

  function ArgValue(a: Arg, n: int, results: seq<int>): int {
    match a
    case Dividend => n
    case Num(c) => c
    case Prev(i) => if i < |results| then results[i] else 0
  }

  function Results(steps: seq<Step>, n: int): (r: seq<int>)
    ensures |r| == |steps|
  {
    if |steps| == 0 then []
    else
      var r, s := Results(steps[..|steps| - 1], n), steps[|steps| - 1];
      r + [Fold(s.op, ArgValue(s.a, n, r), ArgValue(s.b, n, r))]
  }

  function Outcome(r: Replacement, n: int): int
    requires !r.Keep?
  {
    if r.Zero? then 0 else if |r.steps| == 0 then n else Results(r.steps, n)[|r.steps| - 1]
  }

  ghost predicate PowerOfTwo(d: int) { exists l: nat :: Abs(d) == Pow2(l) }

  // ---------- the values on the way ----------

  // 2^l - 1 for a negative dividend, 0 otherwise: what rounds toward zero.
  function Bias(n: int, l: nat): int { if n < 0 then Pow2(l) - 1 else 0 }

  lemma Pow2Parts(l: nat)
    requires 1 <= l <= 31
    ensures Pow2(l) * Pow2(32 - l) == 0x1_0000_0000 && Pow2(l) == 2 * Pow2(l - 1)
        && Pow2(l - 1) * Pow2(32 - l) == 0x8000_0000
  {
    Pow2Thirty();
    Pow2Add(l, 32 - l);
    Pow2Add(l - 1, 32 - l);
  }

  lemma Wrapped(n: int)
    requires Int32(n)
    ensures Wrap(n) == n && Unsigned(n) == if n < 0 then n + 0x1_0000_0000 else n
  {
  }

  // Bounds that are multiples of d bound the quotient.
  lemma QuotientRange(x: int, d: int, lo: int, hi: int)
    requires d > 0 && lo * d <= x < hi * d
    ensures lo <= x / d < hi
  {
    QuotientBounds(x, d);
    var q := x / d;
    assert (q + 1) * d == q * d + d;
    if q < lo { Scale(q + 1, lo, d); }
    if q >= hi { Scale(hi, q, d); }
  }

  lemma OneLess(d: int, p: int)
    ensures (d - 1) * p == d * p - p
  {
  }

  // The unsigned shift keeps the sign bits only.
  lemma SignBits(v: int, l: nat)
    requires 1 <= l <= 31 && -Pow2(32 - l) <= v < Pow2(32 - l)
    ensures Fold(LShr, v, 32 - l) == if v < 0 then Pow2(l) - 1 else 0
  {
    hide Pow2, Wrap, Unsigned;
    var p, d := Pow2(32 - l), Pow2(l);
    Pow2Parts(l);
    Pow2Small(l);
    Pow2Small(32 - l);
    Wrapped(v);
    Wrapped(0);
    Wrapped(d - 1);
    OneLess(d, p);
    SignQuotient(v, d, p);
  }

  lemma SignQuotient(v: int, d: int, p: int)
    requires p > 0 && d * p == 0x1_0000_0000 && (d - 1) * p == d * p - p && -p <= v < p
    ensures v < 0 ==> (v + 0x1_0000_0000) / p == d - 1
    ensures v >= 0 ==> v / p == 0
  {
    if v < 0 {
      IsQuotient(v + 0x1_0000_0000, p, d - 1);
    } else {
      IsQuotient(v, p, 0);
    }
  }

  lemma Pow2Small(l: nat)
    requires l <= 31
    ensures 1 <= Pow2(l) <= 0x8000_0000 && (l <= 30 ==> Pow2(l) <= 0x4000_0000)
  {
    Pow2Thirty();
    Pow2Less(l, 31);
  }

  lemma ShiftedRange(n: int, l: nat)
    requires Int32(n) && 1 <= l <= 31
    ensures -Pow2(32 - l) <= n / Pow2(l - 1) < Pow2(32 - l)
    ensures n / Pow2(l - 1) < 0 <==> n < 0
  {
    hide Pow2;
    var d, p := Pow2(l - 1), Pow2(32 - l);
    Pow2Parts(l);
    Commute(d, p);
    QuotientRange(n, d, -p, p);
    if n < 0 {
      QuotientRange(n, d, -p, 0);
    } else {
      QuotientRange(n, d, 0, p);
    }
  }

  lemma Commute(d: int, p: int)
    ensures p * d == d * p && -p * d == -(d * p)
  {
  }

  // Adding the bias before rounding down rounds toward zero.
  lemma BiasedQuotient(n: int, l: nat)
    requires 1 <= l <= 30 && Int32(n)
    ensures (n + Bias(n, l)) / Pow2(l) == TruncDiv(n, Pow2(l)) && Int32(n + Bias(n, l))
  {
    hide Pow2;
    Pow2Small(l);
    if n < 0 {
      RoundedUp(-n, Pow2(l));
    }
  }

  lemma RoundedUp(a: int, d: int)
    requires d > 0
    ensures (-a + d - 1) / d == -(a / d)
  {
    var q := a / d;
    QuotientBounds(a, d);
    Commute(d, q);
    IsQuotient(-a + d - 1, d, -q);
  }

  lemma NegatedQuotient(n: int, l: nat)
    requires 1 <= l <= 30 && Int32(n)
    ensures TruncDiv(n, -Pow2(l)) == -TruncDiv(n, Pow2(l)) && Int32(TruncDiv(n, Pow2(l)))
        && TruncDiv(n, Pow2(l)) != -0x8000_0000
  {
    var d := Pow2(l);
    Pow2Small(l);
    assert d >= 2;
    hide Pow2;
    var a := Abs(n);
    var q := a / d;
    QuotientBounds(a, d);
    if q > a / 2 { Scale(2, d, q); }
  }

  // ---------- masking ----------

  /** Clearing the low l bits rounds down to a multiple of 2^l. */
  lemma {:induction false} MaskRoundsDown(a: nat, l: nat, bits: nat)
    requires l <= bits && a < Pow2(bits)
    ensures 0 <= Pow2(bits) - Pow2(l) && BitAnd(a, Pow2(bits) - Pow2(l), bits) == a - a % Pow2(l)
    decreases bits
  {
    hide Pow2, BitAnd;
    Pow2Less(l, bits);
    if bits == 0 {
      NothingToMask(a);
    } else {
      Pow2Twice(bits);
      if l == 0 {
        MaskRoundsDown(a / 2, 0, bits - 1);
        MaskOdd(a, bits);
      } else {
        Pow2Twice(l);
        MaskRoundsDown(a / 2, l - 1, bits - 1);
        MaskEven(a, Pow2(bits - 1) - Pow2(l - 1), bits);
        HalfRemainder(a, Pow2(l - 1));
      }
    }
  }

  lemma Pow2Twice(k: nat)
    requires k > 0
    ensures Pow2(k) == 2 * Pow2(k - 1) && Pow2(0) == 1
  {
  }

  lemma NothingToMask(a: nat)
    requires a < Pow2(0)
    ensures a == 0 && Pow2(0) == 1 && BitAnd(a, 0, 0) == 0
  {
  }

  lemma MaskOdd(a: nat, bits: nat)
    requires bits > 0 && Pow2(bits) == 2 * Pow2(bits - 1) && Pow2(0) == 1
    requires BitAnd(a / 2, Pow2(bits - 1) - Pow2(0), bits - 1) == a / 2 - a / 2 % Pow2(0)
    ensures BitAnd(a, Pow2(bits) - Pow2(0), bits) == a - a % Pow2(0)
  {
    hide Pow2;
    assert (2 * Pow2(bits - 1) - 1) / 2 == Pow2(bits - 1) - 1;
  }

  lemma MaskEven(a: nat, m: nat, bits: nat)
    requires bits > 0
    ensures BitAnd(a, 2 * m, bits) == BitAnd(a / 2, m, bits - 1) * 2
  {
  }

  lemma HalfRemainder(a: nat, p: int)
    requires p > 0
    ensures a % (2 * p) == a / 2 % p * 2 + a % 2
  {
    var h, q := a / 2, a / 2 / p;
    QuotientBounds(h, p);
    var r := h % p;
    assert h == q * p + r;
    assert q * (2 * p) == 2 * (q * p);
    IsQuotient(a, 2 * p, q);
  }

  lemma RemainderOf(x: int, d: int, q: int, r: int)
    requires d > 0 && x == q * d + r && 0 <= r < d
    ensures x % d == r
  {
    IsQuotient(x, d, q);
  }

  // The and with ~(2^l - 1), that is -2^l, in 32 bits.
  lemma MaskedWord(v: int, l: nat)
    requires 1 <= l <= 30 && Int32(v)
    ensures Fold(And, v, -Pow2(l)) == v / Pow2(l) * Pow2(l) && Int32(v / Pow2(l) * Pow2(l))
  {
    hide Pow2, BitAnd;
    var d, p := Pow2(l), Pow2(32 - l);
    Pow2Small(l);
    Pow2Thirty();
    Pow2Parts(l);
    Wrapped(v);
    Wrapped(-d);
    MaskRoundsDown(Unsigned(v), l, 32);
    Pow2Add(l, 31 - l);
    MultipleBound(v, d, Pow2(31 - l));
    Wrapped(v / d * d);
    UnsignedRemainder(v, d, p);
    WrapBack(v / d * d);
  }

  lemma UnsignedRemainder(v: int, d: int, p: int)
    requires d > 0 && d * p == 0x1_0000_0000
    ensures (v + 0x1_0000_0000) % d == v % d && v - v % d == v / d * d
  {
    var q, r := v / d, v % d;
    assert v == q * d + r;
    assert (q + p) * d == q * d + d * p;
    RemainderOf(v + 0x1_0000_0000, d, q + p, r);
  }

  lemma WrapBack(n: int)
    requires Int32(n)
    ensures Wrap(n) == n && Wrap(n + 0x1_0000_0000) == n
  {
  }

  lemma MultipleBound(v: int, d: int, h: int)
    requires Int32(v) && d > 0 && d * h == 0x8000_0000
    ensures -0x8000_0000 <= v / d * d <= v
  {
    Commute(d, h);
    QuotientRange(v, d, -h, h);
    QuotientBounds(v, d);
    Scale(-h, v / d, d);
  }

  // ---------- the sequences ----------

  function DivSteps(l: nat): seq<Step>
    requires 1 <= l <= 31
  {
    [Step(AShr, Dividend, Num(l - 1)), Step(LShr, Prev(0), Num(32 - l)), Step(Add, Dividend, Prev(1)),
        Step(AShr, Prev(2), Num(l))]
  }

  function RemSteps(d: int, l: nat): seq<Step> {
    [Step(AShr, Dividend, Num(31)), Step(LShr, Prev(0), Num(32 - l)), Step(Add, Dividend, Prev(1)),
        Step(And, Prev(2), Num(-d)),
     Step(Sub, Dividend, Prev(3))]
  }

  lemma OneMore(steps: seq<Step>, s: Step, n: int)
    ensures Results(steps + [s], n) ==
            Results(steps, n) + [Fold(s.op, ArgValue(s.a, n, Results(steps, n)), ArgValue(s.b, n, Results(steps, n)))]
  {
    assert (steps + [s])[..|steps|] == steps;
  }

  // The first three steps put the biased dividend together.
  lemma Biased(n: int, l: nat, shift: nat)
    requires 1 <= l <= 30 && Int32(n) && (shift == l - 1 || shift == 31)
    ensures var steps := [Step(AShr, Dividend, Num(shift)), Step(LShr, Prev(0), Num(32 - l)),
        Step(Add, Dividend, Prev(1))];
            |Results(steps, n)| == 3 && Results(steps, n)[2] == n + Bias(n, l)
  {
    hide Pow2, Wrap, Unsigned;
    var a, b, c := Step(AShr, Dividend, Num(shift)), Step(LShr, Prev(0), Num(32 - l)), Step(Add, Dividend, Prev(1));
    OneMore([], a, n);
    OneMore([a], b, n);
    OneMore([a, b], c, n);
    assert [a] + [b] == [a, b] && [a, b] + [c] == [a, b, c] && [] + [a] == [a];
    ShiftedSign(n, l, shift);
    SignBits(n / Pow2(shift), l);
    BiasedQuotient(n, l);
    Wrapped(n + Bias(n, l));
  }

  lemma ShiftedSign(n: int, l: nat, shift: nat)
    requires 1 <= l <= 30 && Int32(n) && (shift == l - 1 || shift == 31)
    ensures -Pow2(32 - l) <= n / Pow2(shift) < Pow2(32 - l) && (n / Pow2(shift) < 0 <==> n < 0)
  {
    hide Pow2;
    if shift == l - 1 {
      ShiftedRange(n, l);
    } else {
      Pow2Thirty();
      Pow2Small(32 - l);
      if n < 0 { IsQuotient(n, 0x8000_0000, -1); } else { IsQuotient(n, 0x8000_0000, 0); }
    }
  }

  /** The emitted sequence is truncating division by 2^l. */
  lemma DivStepsDivide(n: int, l: nat)
    requires 1 <= l <= 30 && Int32(n)
    ensures |Results(DivSteps(l), n)| == 4 && Results(DivSteps(l), n)[3] == TruncDiv(n, Pow2(l))
  {
    hide Pow2, TruncDiv, Wrap, Unsigned, Bias;
    Biased(n, l, l - 1);
    var three := [Step(AShr, Dividend, Num(l - 1)), Step(LShr, Prev(0), Num(32 - l)), Step(Add, Dividend, Prev(1))];
    OneMore(three, Step(AShr, Prev(2), Num(l)), n);
    assert DivSteps(l) == three + [Step(AShr, Prev(2), Num(l))];
    BiasedQuotient(n, l);
  }

  /** The emitted sequence is the remainder of truncating division by 2^l or -2^l. */
  lemma RemStepsRemain(n: int, d: int, l: nat)
    requires 1 <= l <= 30 && Int32(n) && Abs(d) == Pow2(l)
    ensures |Results(RemSteps(Abs(d), l), n)| == 5 && Results(RemSteps(Abs(d), l), n)[4] == Fold(SRem, n, d)
  {
    hide Pow2, TruncDiv, Wrap, Unsigned, Bias, BitAnd;
    Biased(n, l, 31);
    var three := [Step(AShr, Dividend, Num(31)), Step(LShr, Prev(0), Num(32 - l)), Step(Add, Dividend, Prev(1))];
    var mask, sub := Step(And, Prev(2), Num(-Abs(d))), Step(Sub, Dividend, Prev(3));
    OneMore(three, mask, n);
    OneMore(three + [mask], sub, n);
    assert RemSteps(Abs(d), l) == (three + [mask]) + [sub];
    BiasedQuotient(n, l);
    MaskedWord(n + Bias(n, l), l);
    NegatedQuotient(n, l);
    SameRemainder(n, d, l);
  }

  lemma SameRemainder(n: int, d: int, l: nat)
    requires 1 <= l <= 30 && Int32(n) && Abs(d) == Pow2(l) && TruncDiv(n, -Pow2(l)) == -TruncDiv(n, Pow2(l))
    ensures d != 0 && TruncRem(n, d) == n - TruncDiv(n, Pow2(l)) * Pow2(l)
  {
    hide Pow2, TruncDiv;
    if d < 0 {
      assert d == -Pow2(l);
      Commute(Pow2(l), TruncDiv(n, Pow2(l)));
      assert -Pow2(l) * -TruncDiv(n, Pow2(l)) == Pow2(l) * TruncDiv(n, Pow2(l));
    } else {
      Commute(Pow2(l), TruncDiv(n, Pow2(l)));
    }
  }

  // ---------- the pass ----------

  lemma LogOfPower(d: int, m: int, shpost: nat, l: nat)
    requires 1 <= Abs(d) < 0x8000_0000 && Chosen(Abs(d), 31, m, shpost, l)
    ensures PowerOfTwo(d) <==> Abs(d) == Pow2(l)
    ensures Abs(d) == Pow2(l) ==> l <= 30 && (l == 0 <==> Abs(d) == 1)
  {
    if PowerOfTwo(d) {
      var k: nat :| Abs(d) == Pow2(k);
      if k < l { Pow2Less(k, l - 1); }
      if k > l { Pow2Less(l, k); }
    }
    Bounded(l);
    if l > 0 { Pow2Less(1, l); }
  }

  /** divide_by_invariant, lines 169-237: a division by 1, -1 or a power of two and its negation is replaced,
      and the replacement computes the same quotient for every dividend. */
  method DivideByInvariant(d: int) returns (r: Replacement)
    requires -0x8000_0000 < d < 0x8000_0000
    ensures r.Keep? <==> d == 0 || !PowerOfTwo(d)
    ensures !r.Keep? ==> forall n {:trigger Outcome(r, n)} :: Int32(n) ==> Outcome(r, n) == Fold(SDiv, n, d)
  {
    hide Pow2, PowerOfTwo, Chosen, Results, TruncDiv, DivSteps;
    if d == 0 {
      return Keep;
    }
    var m, shpost, l := ChooseMultiplier(Abs(d), 31);
    LogOfPower(d, m, shpost, l);
    if Abs(d) == 1 { OneIsPower(d); }
    if d == 1 {
      r := As([]);
      ByOneIs();
    } else if d == -1 {
      r := As([Step(Sub, Num(0), Dividend)]);
      ByMinusOneIs();
    } else if Abs(d) == Pow2(l) {
      r := As(DivSteps(l) + if d < 0 then [Step(Sub, Num(0), Prev(3))] else []);
      forall n | Int32(n) ensures Outcome(r, n) == Fold(SDiv, n, d) {
        PowerOutcome(n, d, l);
      }
    } else {
      r := Keep;
    }
  }

  lemma ByOneIs()
    ensures forall n {:trigger Outcome(As([]), n)} :: Int32(n) ==> Outcome(As([]), n) == Fold(SDiv, n, 1)
  {
    forall n | Int32(n) ensures Outcome(As([]), n) == Fold(SDiv, n, 1) {
    }
  }

  lemma ByMinusOneIs()
    ensures var r := As([Step(Sub, Num(0), Dividend)]); forall n {:trigger Outcome(r, n)} :: Int32(n) ==>
        Outcome(r, n) == Fold(SDiv, n, -1)
  {
    var r := As([Step(Sub, Num(0), Dividend)]);
    forall n | Int32(n) ensures Outcome(r, n) == Fold(SDiv, n, -1) {
      OneMore([], Step(Sub, Num(0), Dividend), n);
      assert [] + [Step(Sub, Num(0), Dividend)] == r.steps;
    }
  }

  lemma PowerOutcome(n: int, d: int, l: nat)
    requires 1 <= l <= 30 && Int32(n) && Abs(d) == Pow2(l)
    ensures d != 0 && Outcome(As(DivSteps(l) + if d < 0 then [Step(Sub, Num(0), Prev(3))] else []), n) == Fold(SDiv,
        n, d)
  {
    hide Pow2, TruncDiv, Wrap, Results;
    DivStepsDivide(n, l);
    NegatedQuotient(n, l);
    Wrapped(TruncDiv(n, Pow2(l)));
    if d < 0 {
      assert d == -Pow2(l);
      OneMore(DivSteps(l), Step(Sub, Num(0), Prev(3)), n);
      Wrapped(-TruncDiv(n, Pow2(l)));
    } else {
      assert DivSteps(l) + [] == DivSteps(l);
    }
  }

  /** replace_srem, lines 77-149, for a constant divisor: the same for remainders. */
  method ReplaceSrem(d: int) returns (r: Replacement)
    requires -0x8000_0000 < d < 0x8000_0000
    ensures r.Keep? <==> d == 0 || !PowerOfTwo(d)
    ensures !r.Keep? ==> forall n {:trigger Outcome(r, n)} :: Int32(n) ==> Outcome(r, n) == Fold(SRem, n, d)
  {
    hide Pow2, PowerOfTwo, Chosen, Results, TruncRem, RemSteps;
    if d == 0 {
      return Keep;
    }
    if Abs(d) == 1 {
      r := Zero;
      OneIsPower(d);
      forall n | Int32(n) ensures Outcome(r, n) == Fold(SRem, n, d) {
        ZeroRemainder(n, d);
      }
      return;
    }
    var m, shpost, l := ChooseMultiplier(Abs(d), 31);
    LogOfPower(d, m, shpost, l);
    if Abs(d) == Pow2(l) {
      r := As(RemSteps(Abs(d), l));
      forall n | Int32(n) ensures Outcome(r, n) == Fold(SRem, n, d) {
        RemStepsRemain(n, d, l);
      }
    } else {
      r := Keep;
    }
  }

  lemma ZeroRemainder(n: int, d: int)
    requires Abs(d) == 1
    ensures Fold(SRem, n, d) == 0
  {
  }

  lemma OneIsPower(d: int)
    requires Abs(d) == 1
    ensures PowerOfTwo(d)
  {
    assert Abs(d) == Pow2(0);
  }
}
