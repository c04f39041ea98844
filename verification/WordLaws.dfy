/** What the folded operations mean on 32-bit integers (include/Optimize/ConstFold.hh, lines 9-100): congruences and
    ranges, the laws of division, floors, bits, and the order of the integers. */
module WordLaws {
  import opened Basis
  import opened Words
  import opened Division
  import opened DivisionPass

  // ---------- sums and products ----------

  /** Wrapping gives the one 32-bit integer that is congruent. */
  lemma WrapIsUnique(n: int, w: int)
    ensures Int32(Wrap(n)) && (Wrap(n) - n) % 0x1_0000_0000 == 0
    ensures Int32(w) && (w - n) % 0x1_0000_0000 == 0 ==> w == Wrap(n)
  {
  }

  /** Sums, differences and products are right modulo 2^32, and in range. */
  lemma SumsFold(a: int, b: int)
    ensures Int32(Fold(Add, a, b)) && (Fold(Add, a, b) - (a + b)) % 0x1_0000_0000 == 0
    ensures Int32(Fold(Sub, a, b)) && (Fold(Sub, a, b) - (a - b)) % 0x1_0000_0000 == 0
    ensures Int32(Fold(Mul, a, b)) && (Fold(Mul, a, b) - a * b) % 0x1_0000_0000 == 0
  {
    hide Wrap, Int32;
    WrapIsUnique(a + b, 0);
    WrapIsUnique(a - b, 0);
    WrapIsUnique(a * b, 0);
  }

  // ---------- quotients ----------

  // q and r are quotient and remainder of a by b, rounded toward zero.
  predicate Divides(a: int, b: int, q: int, r: int) {
    && a == q * b + r && -Abs(b) < r < Abs(b)
    && (r > 0 ==> a > 0) && (r < 0 ==> a < 0)
  }

  lemma TruncDivides(a: int, b: int)
    requires b != 0
    ensures Divides(a, b, TruncDiv(a, b), TruncRem(a, b))
  {
    hide TruncDiv, Divides;
    TruncTimes(a, b);
    RoundedIs(a, b, TruncDiv(a, b), Abs(a) % Abs(b));
  }

  lemma RoundedIs(a: int, b: int, q: int, r: int)
    requires b != 0 && 0 <= r < Abs(b) && r <= Abs(a) && q * b == if a < 0 then a + r else a - r
    ensures Divides(a, b, q, a - b * q)
  {
    assert b * q == q * b;
  }

  lemma TruncTimes(a: int, b: int)
    requires b != 0
    ensures 0 <= Abs(a) % Abs(b) < Abs(b) && Abs(a) % Abs(b) <= Abs(a)
    ensures TruncDiv(a, b) * b == if a < 0 then a + Abs(a) % Abs(b) else a - Abs(a) % Abs(b)
  {
    var x, d := Abs(a), Abs(b);
    QuotientBounds(x, d);
    Smaller(x, d);
    SignedParts(a, b, x / d, x % d);
  }

  lemma SignedParts(a: int, b: int, q: int, r: int)
    requires b != 0 && Abs(a) == q * Abs(b) + r && 0 <= r < Abs(b)
    ensures (if (a < 0) == (b < 0) then q else -q) * b == if a < 0 then a + r else a - r
  {
    if b < 0 {
      assert q * -b == -(q * b) && -q * b == -(q * b);
    } else {
      assert -q * b == -(q * b);
    }
  }

  lemma QuotientInRange(a: int, b: int)
    requires b != 0 && Int32(a) && !(a == -0x8000_0000 && b == -1)
    ensures Int32(TruncDiv(a, b)) && Int32(TruncRem(a, b))
  {
    var x, d := Abs(a), Abs(b);
    QuotientBounds(x, d);
    TruncDivides(a, b);
    Smaller(x, d);
    if x / d == 0x8000_0000 {
      assert d == 1 by { Halves(x, d); }
    }
  }

  lemma Smaller(x: int, d: int)
    requires d > 0 && x >= 0
    ensures 0 <= x / d <= x && x % d <= x
  {
    QuotientBounds(x, d);
    assert x / d * d >= x / d by { Scale(1, d, x / d); assert d * (x / d) == x / d * d; }
  }

  lemma Halves(x: int, d: int)
    requires d > 0 && 0 <= x <= 0x8000_0000 && x / d == 0x8000_0000
    ensures d == 1
  {
    QuotientBounds(x, d);
    assert x / d * d <= x;
  }

  // A quotient with this law is the truncated one.
  lemma DividesUnique(a: int, b: int, q: int, r: int, q': int, r': int)
    requires b != 0 && Divides(a, b, q, r) && Divides(a, b, q', r')
    ensures q == q' && r == r'
  {
    assert (q - q') * b == r' - r by { assert (q - q') * b == q * b - q' * b; }
    Apart(q - q', b, r' - r);
  }

  lemma Apart(k: int, b: int, n: int)
    requires k * b == n && -Abs(b) < n < Abs(b)
    ensures k == 0
  {
    if k != 0 { AtLeast(k, b); }
  }

  lemma AtLeast(k: int, b: int)
    requires k != 0
    ensures k * b >= Abs(b) || k * b <= -Abs(b)
  {
    if k > 0 {
      TimesMore(k, b);
    } else {
      TimesMore(-k, b);
      assert -k * b == -(k * b);
    }
  }

  lemma TimesMore(k: int, b: int)
    requires k >= 1
    ensures k * b >= Abs(b) || k * b <= -Abs(b)
  {
    assert k * b == b + (k - 1) * b;
    if b >= 0 { assert (k - 1) * b >= 0; } else { assert (k - 1) * b <= 0; }
  }

  /** Quotient and remainder round toward zero and are in range, except that -2^31 by -1 overflows; both are 0 for
      the divisor 0. */
  lemma QuotientsFold(a: int, b: int)
    requires Int32(a) && Int32(b)
    ensures b != 0 && !(a == -0x8000_0000 && b == -1) ==>
              && Divides(a, b, Fold(SDiv, a, b), Fold(SRem, a, b))
              && Int32(Fold(SDiv, a, b)) && Int32(Fold(SRem, a, b))
    ensures b == 0 ==> Fold(SDiv, a, b) == 0 && Fold(SRem, a, b) == 0
  {
    if b != 0 && !(a == -0x8000_0000 && b == -1) {
      hide TruncDiv, TruncRem, Divides;
      TruncDivides(a, b);
      QuotientInRange(a, b);
      WrapIsUnique(TruncDiv(a, b), TruncDiv(a, b));
      WrapIsUnique(TruncRem(a, b), TruncRem(a, b));
    }
  }

  /** A division has a result exactly when there is a quotient in range. */
  lemma QuotientDefinedIff(a: int, b: int)
    requires Int32(a) && Int32(b)
    ensures Result(SDiv, a, b).Some? <==> b != 0 && exists q, r :: Divides(a, b, q, r) && Int32(q)
    ensures Result(SRem, a, b).Some? <==> Result(SDiv, a, b).Some?
  {
    if b != 0 {
      TruncDivides(a, b);
      if a == -0x8000_0000 && b == -1 {
        forall q, r | Divides(a, b, q, r) ensures !Int32(q) {
        }
      } else {
        QuotientInRange(a, b);
      }
    }
  }

  // ---------- shifts ----------

  /** Shifting left multiplies modulo 2^32. */
  lemma ShiftLeftFolds(a: int, b: int)
    requires 0 <= b < 32
    ensures Int32(Fold(Shl, a, b)) && (Fold(Shl, a, b) - a * Pow2(b)) % 0x1_0000_0000 == 0
  {
    hide Wrap, Pow2, Int32;
    WrapIsUnique(a * Pow2(b), 0);
  }

  // The non-negative integer below 2^32 with the bits of a.
  lemma UnsignedIs(a: int)
    requires Int32(a)
    ensures Unsigned(a) == if a < 0 then a + 0x1_0000_0000 else a
    ensures 0 <= Unsigned(a) < 0x1_0000_0000 && Wrap(Unsigned(a)) == a
  {
  }

  lemma UnsignedWrap(n: int)
    requires 0 <= n < 0x1_0000_0000
    ensures Unsigned(Wrap(n)) == n && Int32(Wrap(n))
  {
  }

  lemma FloorIs(n: int, p: int)
    requires p > 0
    ensures n / p * p <= n < (n / p + 1) * p
  {
    QuotientBounds(n, p);
    assert (n / p + 1) * p == n / p * p + p;
  }

  /** Shifting right divides and rounds down: the signed value (ashr) or the unsigned one (lshr). */
  lemma ShiftRightFolds(a: int, b: int)
    requires Int32(a) && 0 <= b < 32
    ensures var q := Fold(AShr, a, b); Int32(q) && q * Pow2(b) <= a < (q + 1) * Pow2(b)
    ensures
      var q, n := Fold(LShr, a, b), if a < 0 then a + 0x1_0000_0000 else a;
      && Int32(q)
      && var u := if q < 0 then q + 0x1_0000_0000 else q; u * Pow2(b) <= n < (u + 1) * Pow2(b)
  {
    hide Pow2, Wrap, Unsigned;
    var p, n := Pow2(b), Unsigned(a);
    UnsignedIs(a);
    FloorIs(a, p);
    FloorIs(n, p);
    FloorBounds(a, p);
    FloorBounds(n, p);
    UnsignedWrap(n / p);
    UnsignedIs(Wrap(n / p));
  }

  lemma FloorBounds(n: int, p: int)
    requires p >= 1
    ensures n >= 0 ==> 0 <= n / p <= n
    ensures n < 0 ==> n <= n / p < 0
  {
    if n >= 0 {
      Smaller(n, p);
    } else {
      assert n * p <= n by { assert n * p == n + n * (p - 1); }
      QuotientRange(n, p, n, 0);
    }
  }

  /** A shift by an amount outside 0..31 has no result, any other has one; sums and products always have one. What
      an operation yields is what it is folded to. */
  lemma OthersDefinedIff(op: Op, a: int, b: int)
    ensures op == Shl || op == LShr || op == AShr ==> (Result(op, a, b).Some? <==> 0 <= b <= 31)
    ensures op == Add || op == Sub || op == Mul || op == And ==> Result(op, a, b).Some?
    ensures Result(op, a, b).Some? ==> Result(op, a, b).value == Fold(op, a, b)
  {
  }

  // ---------- bits ----------

  function Bit(n: int, k: nat): int { n / Pow2(k) % 2 }

  lemma {:induction false} BitAndBits(a: nat, b: nat, bits: nat, k: nat)
    requires k < bits
    ensures Bit(BitAnd(a, b, bits), k) == Bit(a, k) * Bit(b, k)
    decreases bits
  {
    hide Pow2, BitAnd, Bit;
    AndHalves(a, b, bits);
    if k == 0 {
      BitZero(BitAnd(a, b, bits));
      BitZero(a);
      BitZero(b);
    } else {
      BitAndBits(a / 2, b / 2, bits - 1, k - 1);
      BitOfHalf(BitAnd(a, b, bits), k);
      BitOfHalf(a, k);
      BitOfHalf(b, k);
    }
  }

  lemma AndHalves(a: nat, b: nat, bits: nat)
    requires bits > 0
    ensures BitAnd(a, b, bits) / 2 == BitAnd(a / 2, b / 2, bits - 1)
    ensures BitAnd(a, b, bits) % 2 == (a % 2) * (b % 2)
  {
    LowBit(a % 2, b % 2);
  }

  lemma BitZero(n: nat)
    ensures Bit(n, 0) == n % 2
  {
    Pow2One();
  }

  lemma LowBit(x: int, y: int)
    requires 0 <= x <= 1 && 0 <= y <= 1
    ensures x * y == if x == 1 && y == 1 then 1 else 0
  {
  }

  lemma Pow2One()
    ensures Pow2(0) == 1 && Pow2(1) == 2
  {
  }

  lemma BitOfHalf(n: nat, k: nat)
    requires k > 0
    ensures Bit(n, k) == Bit(n / 2, k - 1)
  {
    var p := Pow2(k - 1);
    HalfThenRest(n, p);
  }

  lemma HalfThenRest(n: nat, p: int)
    requires p > 0
    ensures n / (2 * p) == n / 2 / p
  {
    var q := n / 2 / p;
    QuotientBounds(n / 2, p);
    assert q * (2 * p) == 2 * (q * p);
    IsQuotient(n, 2 * p, q);
  }

  lemma {:induction false} BitAndSmall(a: nat, b: nat, bits: nat)
    ensures BitAnd(a, b, bits) < Pow2(bits)
  {
    if bits > 0 { BitAndSmall(a / 2, b / 2, bits - 1); }
  }

  /** The and of two words has the bits that both have. */
  lemma AndFolds(a: int, b: int, k: nat)
    requires Int32(a) && Int32(b) && k < 32
    ensures Int32(Fold(And, a, b))
    ensures Bit(Unsigned(Fold(And, a, b)), k) == Bit(Unsigned(a), k) * Bit(Unsigned(b), k)
  {
    hide Pow2, BitAnd, Bit;
    BitAndBits(Unsigned(a), Unsigned(b), 32, k);
    BitAndSmall(Unsigned(a), Unsigned(b), 32);
    Pow2Thirty();
    UnsignedWrap(BitAnd(Unsigned(a), Unsigned(b), 32));
  }

  // ---------- comparisons ----------

  /** Comparisons follow the order of the integers: a < b when b - a is positive, exactly one of <, = and > holds,
      and the other three are their negations. */
  lemma ComparisonsFold(a: int, b: int)
    ensures FoldCmp(Lt, a, b) == if b - a > 0 then 1 else 0
    ensures FoldCmp(Lt, a, b) + FoldCmp(Eq, a, b) + FoldCmp(Gt, a, b) == 1
    ensures FoldCmp(Gt, a, b) == FoldCmp(Lt, b, a)
    ensures FoldCmp(Ge, a, b) == 1 - FoldCmp(Lt, a, b)
    ensures FoldCmp(Le, a, b) == 1 - FoldCmp(Gt, a, b)
    ensures FoldCmp(Ne, a, b) == 1 - FoldCmp(Eq, a, b)
  {
  }
}
