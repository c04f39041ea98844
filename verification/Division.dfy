/** Division by constants (include/Optimize/DivisionInvariant.hh): the choice of a multiplier, and the shift
    sequences for powers of two. */
module Division {
  import opened Words

  // ---------- powers of two and quotients ----------

  lemma {:induction false} Pow2Add(a: nat, b: nat)
    ensures Pow2(a + b) == Pow2(a) * Pow2(b)
  {
    if b > 0 {
      Pow2Add(a, b - 1);
      assert Pow2(a + b) == 2 * Pow2(a + b - 1);
      assert Pow2(a) * Pow2(b) == 2 * (Pow2(a) * Pow2(b - 1));
    }
  }

  lemma {:induction false} Pow2Less(a: nat, b: nat)
    requires a <= b
    ensures Pow2(a) <= Pow2(b) && (a < b ==> 2 * Pow2(a) <= Pow2(b))
    decreases b
  {
    if a < b {
      Pow2Less(a, b - 1);
    }
  }

  // q is the quotient if it fits.
  lemma IsQuotient(x: int, d: int, q: int)
    requires d > 0 && q * d <= x < q * d + d
    ensures x / d == q
  {
    var r := x - q * d;
    assert x == q * d + r && 0 <= r < d;
    QuotientUnique(x, d, q, r, x / d, x % d);
  }

  lemma QuotientUnique(x: int, d: int, q: int, r: int, q': int, r': int)
    requires d > 0 && x == q * d + r && x == q' * d + r' && 0 <= r < d && 0 <= r' < d
    ensures q == q'
  {
    assert (q + 1) * d == q * d + d;
    assert (q' + 1) * d == q' * d + d;
    if q > q' { Scale(q' + 1, q, d); }
    if q < q' { Scale(q + 1, q', d); }
  }

  lemma QuotientBounds(x: int, d: int)
    requires d > 0
    ensures x / d * d <= x < x / d * d + d
  {
  }

  // Halving a quotient halves the dividend.
  lemma HalfQuotient(x: int, d: int)
    requires d > 0
    ensures (2 * x) / d / 2 == x / d
  {
    var q := (2 * x) / d;
    var h := q / 2;
    QuotientBounds(2 * x, d);
    assert 2 * h <= q <= 2 * h + 1;
    assert 2 * (h * d) <= q * d by { Scale(2 * h, q, d); assert 2 * h * d == 2 * (h * d); }
    assert q * d <= 2 * (h * d) + d by { Scale(q, 2 * h + 1, d); assert (2 * h + 1) * d == 2 * (h * d) + d; }
    IsQuotient(x, d, h);
  }

  lemma Scale(a: int, b: int, d: int)
    requires a <= b && 0 <= d
    ensures a * d <= b * d
  {
  }

  // ---------- mylog2, lines 16-24 ----------

  function PopCount(d: nat): nat { if d == 0 then 0 else d % 2 + PopCount(d / 2) }

  lemma {:induction false} PopCountSome(d: nat)
    ensures d > 0 ==> PopCount(d) > 0
  {
    if d > 0 { PopCountSome(d / 2); }
  }

  lemma {:induction false} PopCountOne(d: nat, k: nat)
    requires Pow2(k) <= d < 2 * Pow2(k)
    ensures PopCount(d) == 1 <==> d == Pow2(k)
  {
    if k > 0 {
      PopCountOne(d / 2, k - 1);
      PopCountSome(d / 2);
    } else {
      assert d == 1;
      assert PopCount(0) == 0;
    }
  }

  // The least power of two that is not below d.
  ghost predicate CeilingLog(d: int, l: nat) { d <= Pow2(l) && (l == 0 || Pow2(l - 1) < d) }

  // d has the bits of x in front of k others.
  ghost predicate Leads(d: int, x: int, k: nat) { x * Pow2(k) <= d < x * Pow2(k) + Pow2(k) }

  /** mylog2 rounds the binary logarithm up. */
  method MyLog2(d: int) returns (ret: nat)
    requires 1 <= d < 0x8000_0000
    ensures CeilingLog(d, ret) && ret <= 31
  {
    hide Leads, Pow2, PopCount;
    ret := 0;
    if PopCount(d) > 1 {
      ret := 1;
    }
    var x := d;
    ghost var k: nat := 0;
    ghost var first := ret;
    LeadsAtFirst(d);
    while x / 2 != 0
      invariant 1 <= x && Leads(d, x, k) && ret == first + k
    {
      HalfStep(d, x, k);
      x := x / 2;
      ret := ret + 1;
      k := k + 1;
    }
    LeadsAtLast(d, k);
  }

  lemma LeadsAtFirst(d: int)
    ensures Leads(d, d, 0)
  {
  }

  lemma LeadsAtLast(d: nat, k: nat)
    requires 1 <= d < 0x8000_0000 && Leads(d, 1, k)
    ensures k <= 30 && CeilingLog(d, if PopCount(d) > 1 then k + 1 else k)
  {
    PopCountOne(d, k);
    PopCountSome(d);
    Bounded(k);
  }

  lemma HalfStep(d: int, x: int, k: nat)
    requires 2 <= x && Leads(d, x, k)
    ensures Leads(d, x / 2, k + 1)
  {
    var p, h := Pow2(k), x / 2;
    assert 2 * h <= x <= 2 * h + 1;
    assert h * (2 * p) == 2 * h * p;
    Scale(2 * h, x, p);
    Scale(x, 2 * h + 1, p);
    assert (2 * h + 1) * p == 2 * h * p + p;
  }

  lemma Bounded(k: nat)
    ensures k >= 32 ==> Pow2(k - 1) >= 0x8000_0000
    ensures k >= 31 ==> Pow2(k) >= 0x8000_0000
  {
    Pow2Thirty();
    if k >= 31 { Pow2Less(31, k); }
    if k >= 32 { Pow2Less(31, k - 1); }
  }

  lemma Pow2Thirty()
    ensures Pow2(31) == 0x8000_0000 && Pow2(32) == 0x1_0000_0000
  {
    assert Pow2(8) == 256;
    Pow2Add(8, 8);
    Pow2Add(16, 16);
    assert Pow2(32) == 2 * Pow2(31);
  }

  lemma Pow2Sixty()
    ensures Pow2(62) == 0x4000_0000_0000_0000 && Pow2(63) == 0x8000_0000_0000_0000
        && Pow2(64) == 0x1_0000_0000_0000_0000
  {
    Pow2Thirty();
    Pow2Add(32, 32);
    assert Pow2(64) == 2 * Pow2(63) && Pow2(63) == 2 * Pow2(62);
  }

  // ---------- choose_multiplier, lines 26-47 ----------

  // The assertions at the end of choose_multiplier.
  ghost predicate Chosen(d: int, prec: nat, mhigh: int, shpost: nat, l: nat) {
    && CeilingLog(d, l) && shpost <= l
    && (shpost == 0 || 32 + shpost <= l + prec)
    && Pow2(32 + shpost) < mhigh * d <= Pow2(32 + shpost) + Pow2(32 + shpost) / Pow2(prec)
  }

  // m could be used with the exponent k.
  ghost predicate Multiplies(d: int, prec: nat, k: nat, m: int) {
    Pow2(k) < m * d <= Pow2(k) + Pow2(k) / Pow2(prec)
  }

  ghost predicate NoMultiplier(d: int, prec: nat, k: nat) { forall m :: !Multiplies(d, prec, k, m) }

  /** The asserted bounds hold, nothing computed on the way leaves 64 bits, and no smaller shift would do. */
  method ChooseMultiplier(d: int, prec: nat) returns (mhigh: int, shpost: nat, l: nat)
    requires 1 <= d < 0x8000_0000 && 1 <= prec <= 32
    ensures Chosen(d, prec, mhigh, shpost, l) && 0 <= mhigh * d < 0x1_0000_0000_0000_0000
    ensures shpost > 0 ==> NoMultiplier(d, prec, 31 + shpost)
  {
    hide Between, Pow2, CeilingLog, Chosen, NoMultiplier;
    l := MyLog2(d);
    shpost := l;
    FitsWord(l, prec);
    assert 0 <= Pow2(32 + l) + Pow2(32 + l - prec) < 0x1_0000_0000_0000_0000;
    var mlow := Pow2(32 + l) / d;
    mhigh := (Pow2(32 + l) + Pow2(32 + l - prec)) / d;
    FirstIsHigh(d, l, prec);
    while mlow / 2 < mhigh / 2 && shpost > 0
      invariant shpost <= l && Between(d, prec, shpost, mlow, mhigh)
    {
      Halved(d, prec, shpost, mlow, mhigh);
      mlow := mlow / 2;
      mhigh := mhigh / 2;
      shpost := shpost - 1;
    }
    EndsChosen(d, l, prec, shpost, mlow, mhigh);
    if shpost > 0 { NoneBelow(d, prec, shpost, mlow, mhigh); }
  }

  lemma NoneBelow(d: int, prec: nat, s: nat, mlow: int, mhigh: int)
    requires 0 < s && 1 <= prec && Between(d, prec, s, mlow, mhigh) && mhigh / 2 <= mlow / 2
    ensures NoMultiplier(d, prec, 31 + s)
  {
    var k := 31 + s;
    var p, e := Pow2(k), Pow2(k - prec);
    Halved(d, prec, s, mlow, mhigh);
    Pow2Add(k - prec, prec);
    IsQuotient(p, Pow2(prec), e);
    hide Pow2;
    forall m ensures !Multiplies(d, prec, k, m) {
      NoMultiple(p, e, d, m);
    }
  }

  lemma NoMultiple(p: int, e: int, d: int, m: int)
    requires d > 0 && (p + e) / d <= p / d
    ensures !(p < m * d <= p + e)
  {
    if p < m * d <= p + e {
      QuotientBounds(p, d);
      QuotientBounds(p + e, d);
      if m <= p / d { Scale(m, p / d, d); } else { Scale((p + e) / d + 1, m, d); }
    }
  }

  // The two bounds for the shift s, and the upper one is strictly above the exact multiplier.
  ghost predicate Between(d: int, prec: nat, s: nat, mlow: int, mhigh: int) {
    && d > 0 && prec <= 32
    && mlow == Pow2(32 + s) / d && mhigh == (Pow2(32 + s) + Pow2(32 + s - prec)) / d
    && Pow2(32 + s) < mhigh * d
  }

  lemma Halved(d: int, prec: nat, s: nat, mlow: int, mhigh: int)
    requires s > 0 && Between(d, prec, s, mlow, mhigh)
    ensures mlow / 2 == Pow2(32 + s - 1) / d && mhigh / 2 == (Pow2(32 + s - 1) + Pow2(32 + s - 1 - prec)) / d
    ensures mlow / 2 < mhigh / 2 ==> Between(d, prec, s - 1, mlow / 2, mhigh / 2)
  {
    assert Pow2(32 + s) == 2 * Pow2(32 + s - 1);
    assert Pow2(32 + s - prec) == 2 * Pow2(32 + s - 1 - prec);
    HalfQuotient(Pow2(32 + s - 1), d);
    HalfQuotient(Pow2(32 + s - 1) + Pow2(32 + s - 1 - prec), d);
    if mlow / 2 < mhigh / 2 {
      NextIsHigh(Pow2(32 + s - 1), d, mlow / 2, mhigh / 2);
    }
  }

  lemma EndsChosen(d: int, l: nat, prec: nat, s: nat, mlow: int, mhigh: int)
    requires 1 <= d < 0x8000_0000 && CeilingLog(d, l) && l <= 31 && s <= l && 1 <= prec <= 32
    requires Between(d, prec, s, mlow, mhigh) && (s > 0 ==> mhigh / 2 <= mlow / 2)
    ensures Chosen(d, prec, mhigh, s, l) && 0 <= mhigh * d < 0x1_0000_0000_0000_0000
  {
    hide Pow2;
    if s > 0 {
      StopsInTime(d, l, prec, s, mlow, mhigh);
    }
    UpperBound(d, prec, mhigh, s);
    FitsWord(s, prec);
  }

  lemma FitsWord(l: nat, prec: nat)
    requires l <= 31 && 1 <= prec <= 32
    ensures 0 < Pow2(32 + l) && 0 < Pow2(32 + l - prec) && Pow2(32 + l) + Pow2(32 + l - prec) < 0x1_0000_0000_0000_0000
  {
    Pow2Sixty();
    Pow2Less(32 + l, 63);
    Pow2Less(32 + l - prec, 62);
  }

  // A quotient that exceeds the one below by a whole unit is strictly too high.
  lemma NextIsHigh(p: int, d: int, low: int, high: int)
    requires d > 0 && low == p / d && low < high
    ensures p < high * d
  {
    QuotientBounds(p, d);
    Scale(low + 1, high, d);
    assert (low + 1) * d == low * d + d;
  }

  lemma FirstIsHigh(d: int, l: nat, prec: nat)
    requires 1 <= d && CeilingLog(d, l) && prec <= 32
    ensures Between(d, prec, l, Pow2(32 + l) / d, (Pow2(32 + l) + Pow2(32 + l - prec)) / d)
  {
    Pow2Less(l, 32 + l - prec);
    AtLeastOneMore(Pow2(32 + l), Pow2(32 + l - prec), d);
  }

  lemma AtLeastOneMore(p: int, e: int, d: int)
    requires 0 < d <= e
    ensures p / d < (p + e) / d && p < (p + e) / d * d
  {
    QuotientBounds(p, d);
    QuotientBounds(p + e, d);
    if (p + e) / d <= p / d { Scale((p + e) / d, p / d, d); }
    NextIsHigh(p, d, p / d, (p + e) / d);
  }

  // The loop cannot stop while the gap between the two bounds is at least d.
  lemma StopsInTime(d: int, l: nat, prec: nat, s: nat, mlow: int, mhigh: int)
    requires 1 <= d && CeilingLog(d, l) && 0 < s && prec <= 32 && mhigh / 2 <= mlow / 2
    requires Between(d, prec, s, mlow, mhigh)
    ensures 32 + s <= l + prec
  {
    Halved(d, prec, s, mlow, mhigh);
    if 32 + s - 1 - prec >= l {
      Pow2Less(l, 32 + s - 1 - prec);
      AtLeastOneMore(Pow2(32 + s - 1), Pow2(32 + s - 1 - prec), d);
    }
  }

  lemma UpperBound(d: int, prec: nat, mhigh: int, s: nat)
    requires 1 <= d && prec <= 32 && mhigh == (Pow2(32 + s) + Pow2(32 + s - prec)) / d
    ensures mhigh * d <= Pow2(32 + s) + Pow2(32 + s) / Pow2(prec)
    ensures Pow2(prec) > 0 && Pow2(32 + s) / Pow2(prec) == Pow2(32 + s - prec)
  {
    QuotientBounds(Pow2(32 + s) + Pow2(32 + s - prec), d);
    Pow2Add(32 + s - prec, prec);
    IsQuotient(Pow2(32 + s), Pow2(prec), Pow2(32 + s - prec));
  }

  /** A multiplier within the asserted bounds divides: for every n of at most prec bits, multiplying by it
      and dropping 32 + shpost bits gives n / d. */
  lemma MultiplierDivides(d: int, prec: nat, mhigh: int, shpost: nat, l: nat, n: int)
    requires 1 <= d && prec <= 32 && Chosen(d, prec, mhigh, shpost, l) && 0 <= n < Pow2(prec)
    ensures Pow2(32 + shpost) > 0 && mhigh * n / Pow2(32 + shpost) == n / d
  {
    hide Pow2;
    var p, e := Pow2(32 + shpost), Pow2(32 + shpost - prec);
    Pow2Add(32 + shpost - prec, prec);
    IsQuotient(p, Pow2(prec), e);
    var q, r := n / d, n % d;
    assert n == q * d + r && 0 <= r < d;
    LowerPart(mhigh, d, p, q, r, n);
    UpperPart(mhigh, d, p, e, Pow2(prec), q, r, n);
    IsQuotient(mhigh * n, p, q);
  }

  lemma LowerPart(m: int, d: int, p: int, q: int, r: int, n: int)
    requires 0 < d && 0 < p < m * d && n == q * d + r && 0 <= r && 0 <= q
    ensures q * p <= m * n
  {
    if m <= 0 { Scale(m, 0, d); }
    Scale(p, m * d, q);
    Spread(m, q, d, r);
    Scale(0, m, r);
  }

  lemma Spread(m: int, q: int, d: int, r: int)
    ensures m * (q * d + r) == (m * d) * q + m * r
  {
    assert m * (q * d) == (m * d) * q;
    assert m * (q * d + r) == m * (q * d) + m * r;
  }

  lemma Swap(m: int, n: int, d: int)
    ensures (m * n) * d == (m * d) * n
  {
  }

  lemma UpperPart(m: int, d: int, p: int, e: int, t: int, q: int, r: int, n: int)
    requires 0 < d && 0 < p && m * d <= p + e && 0 < e && e * t == p && 0 <= n < t && n == q * d + r && 0 <= r < d
    ensures m * n < q * p + p
  {
    Scale(m * d, p + e, n);
    assert (p + e) * n == p * n + e * n;
    assert e * n < e * t by { Scale(n + 1, t, e); assert (n + 1) * e == n * e + e; }
    Swap(m, n, d);
    assert (m * n) * d < p * n + p;
    Scale(n + 1, q * d + d, p);
    assert (n + 1) * p == p * n + p;
    Regroup(q, d, p);
    if m * n >= q * p + p {
      Scale(q * p + p, m * n, d);
    }
  }

  lemma Regroup(q: int, d: int, p: int)
    ensures (q * d + d) * p == (q * p + p) * d
  {
  }
}
