/** Division by an invariant integer: the choice of a multiplier (Granlund and Montgomery,
    "Division by Invariant Integers using Multiplication") and why it divides. */
module DivMagic {
  import opened Bits

  const T31 := 0x8000_0000

  // A predicate P is sealed as "forall u :: Unlock(u) ==> P(u)", so that the verifier unfolds it
  // only where a proof asserts Unlock(0): its products and quotients stay out of other proofs.
  predicate UnlockMagic(u: int) { true }

  predicate UnlockPair(u: int) { true }

  /** m / 2^(32 + l) is slightly more than 1 / d: enough to divide every number below 2^p. */
  ghost predicate Scales(u: int, d: nat, p: nat, m: nat, l: nat) {
    p <= 32 + l && Pow2(32 + l) < m * d <= Pow2(32 + l) + Pow2(32 + l - p)
  }

  datatype Scale = Scale(m: nat, l: nat)

  ghost predicate Magic(d: nat, p: nat, x: Scale) {
    match x
    case Scale(m_, l_) => forall u: int :: UnlockMagic(u) ==> Scales(u, d, p, x.m, x.l)
  }

  // ---------------------------------------------------------------- multiplying divides

  lemma Cancel(x: int, y: int, d: int)
    requires d > 0
    ensures x * d < y * d ==> x < y
    ensures x * d <= y * d ==> x <= y
  {
    MulStep(y, x, d);
  }

  /** n * (m * d), between multiples of k, when m * d is in (k, k + s] and n is at most t = k / s. */
  lemma Products(n: nat, md: nat, k: nat, t: nat, s: nat)
    requires s > 0 && k == t * s && k < md <= k + s && n <= t
    ensures n * k <= n * md <= n * k + k
    ensures n < t ==> n * md < n * k + k
    ensures n > 0 ==> n * k < n * md
  {
    var e := md - k;
    assert n * md == n * k + n * e;
    Spread(n, e, t, s);
  }

  lemma Spread(n: nat, e: nat, t: nat, s: nat)
    requires 0 < e <= s && n <= t
    ensures n * e <= t * s && (n < t ==> n * e < t * s) && (n > 0 ==> n * e > 0)
  {
    MulStep(n, t, s);
    assert n * e <= n * s;
  }

  /** Dividing x = m * n by k, known only through x * d. */
  lemma CaughtBelow(n: nat, d: nat, x: nat, k: nat)
    requires d > 0 && k > 0
    ensures n * k <= x * d ==> n / d * k <= x
    ensures n * k < x * d ==> n / d * k < x
  {
    var q := n / d;
    MulStep(q * d, n, k);
    MulAssoc(q, d, k);
    MulAssoc(q, k, d);
    Cancel(q * k, x, d);
    Cancel(x, q * k, d);
  }

  lemma CaughtAbove(n: nat, d: nat, x: nat, k: nat)
    requires d > 0 && k > 0
    ensures x * d <= n * k + k ==> x <= n / d * k + k
    ensures x * d < n * k + k ==> x < n / d * k + k
  {
    var q := n / d + 1;
    MulStep(n, q * d, k);
    MulAssoc(q, d, k);
    MulAssoc(q, k, d);
    assert q * k == n / d * k + k;
    Cancel(x, q * k, d);
  }

  lemma Between(n: nat, d: nat, m: nat, k: nat, t: nat, s: nat)
    requires d > 0 && s > 0 && k > 0 && k == t * s && k < m * d <= k + s && n <= t
    ensures n / d * k <= m * n <= n / d * k + k
    ensures n < t ==> m * n < n / d * k + k
    ensures n > 0 ==> n / d * k < m * n
  {
    Products(n, m * d, k, t, s);
    Swap(n, m, d);
    CaughtBelow(n, d, m * n, k);
    CaughtAbove(n, d, m * n, k);
  }

  lemma PowerParts(d: nat, p: nat, m: nat, l: nat)
    requires Magic(d, p, Scale(m, l))
    ensures d > 0 && p <= 32 + l && Pow2(32 + l) == Pow2(p) * Pow2(32 + l - p)
    ensures Pow2(32 + l) < m * d <= Pow2(32 + l) + Pow2(32 + l - p)
  {
    assert UnlockMagic(0) && Scales(0, d, p, m, l);
    Pow2Add(p, 32 + l - p);
  }

  /** For numbers below 2^p, the high part of the product is the quotient. */
  lemma MagicDivides(n: nat, d: nat, p: nat, m: nat, l: nat)
    requires Magic(d, p, Scale(m, l)) && n < Pow2(p)
    ensures d > 0 && m * n / Pow2(32 + l) == n / d
  {
    PowerParts(d, p, m, l);
    Between(n, d, m, Pow2(32 + l), Pow2(p), Pow2(32 + l - p));
    DivUnique(m * n, Pow2(32 + l), n / d);
  }

  /** For their negatives, down to -2^p, it is one less than the quotient rounded towards zero. */
  lemma MagicDividesNegative(a: nat, d: nat, p: nat, m: nat, l: nat)
    requires Magic(d, p, Scale(m, l)) && 0 < a <= Pow2(p)
    ensures d > 0 && -(m * a) / Pow2(32 + l) == -(a / d) - 1
  {
    PowerParts(d, p, m, l);
    Between(a, d, m, Pow2(32 + l), Pow2(p), Pow2(32 + l - p));
    NegativeQuotient(m * a, Pow2(32 + l), a / d);
  }

  lemma NegativeQuotient(x: int, k: int, q: int)
    requires x >= 0 && q >= 0 && k > 0 && q * k < x <= q * k + k
    ensures -x / k == -q - 1
  {
    assert (-q - 1) * k == -(q * k) - k;
    DivUnique(-x, k, -q - 1);
  }

  lemma Swap(n: nat, m: nat, d: nat)
    ensures n * (m * d) == (m * n) * d
  {
    MulAssoc(n, m, d);
  }

  // ---------------------------------------------------------------- the multiplier

  /** The index of the highest set bit, -1 for zero. */
  method TopBit(value: nat) returns (i: int)
    requires value < U32
    ensures -1 <= i < 32
    ensures value < Pow2(i + 1) && (if value > 0 then i >= 0 && Pow2(i) <= value else i == -1)
  {
    i := -1;
    var v := value;
    while v > 0
      invariant -1 <= i && v == Shr(value, i + 1)
      invariant if i >= 0 then Shr(value, i) > 0 else v == value
      decreases v
    {
      ShrNext(value, i + 1);
      v := v / 2;
      i := i + 1;
    }
    Below(value, i + 1);
    if i >= 0 {
      Below(value, i);
      HighBit(value, i);
    }
  }

  lemma HighBit(value: nat, i: nat)
    requires value < U32 && Pow2(i) <= value
    ensures i < 32
  {
    Pow2Constants();
    if i >= 32 { Pow2Mono(32, i); }
  }

  lemma {:induction false} ShrNext(v: nat, m: nat)
    ensures Shr(v, m + 1) == Shr(v, m) / 2
  {
    if m > 0 { ShrNext(v / 2, m - 1); }
  }

  lemma Below(v: nat, m: nat)
    ensures v < Pow2(m) <==> Shr(v, m) == 0
  {
    ShrIsDiv(v, m);
    DivBelow(v, 1, Pow2(m));
  }

  /** A 64-bit word. */
  function W64(x: int): nat { x % U64 }

  /** The pair that the loop halves: both quotients stay exact. */
  ghost predicate Quotients(d: nat, p: nat, l: nat, mlo: nat, mhi: nat) {
    && d > 0 && p <= 32 + l
    && mlo == Pow2(32 + l) / d
    && mhi == (Pow2(32 + l) + Pow2(32 + l - p)) / d
  }

  datatype Pair = Pair(mlo: nat, mhi: nat)

  ghost predicate QuotientsOf(u: int, d: nat, p: nat, l: nat, x: Pair) {
    Quotients(d, p, l, x.mlo, x.mhi) && x.mlo < x.mhi
  }

  ghost predicate Exact(d: nat, p: nat, l: nat, x: Pair) {
    match x
    case Pair(mlo_, mhi_) => forall u: int :: UnlockPair(u) ==> QuotientsOf(u, d, p, l, x)
  }

  lemma Open(d: nat, p: nat, l: nat, x: Pair)
    requires Exact(d, p, l, x)
    ensures Quotients(d, p, l, x.mlo, x.mhi) && x.mlo < x.mhi
  {
    assert UnlockPair(0) && QuotientsOf(0, d, p, l, x);
  }

  /** The multiplier and the shift. No 64-bit step wraps; a multiplier of more than 32 bits
      is only possible for p == 32, and it has at most 33. */
  method Multiplier(d: nat, p: nat) returns (mp: nat, l: nat)
    requires 1 <= d <= Pow2(p) && d < U32 && p <= 32
    ensures Magic(d, p, Scale(mp, l)) && l <= p
    ensures d > 1 ==> mp < 2 * U32 && l <= 32
    ensures d > 1 && p < 32 ==> mp < U32
    ensures d > 1 ==> if mp < U32 then l < p else l > 0
  {
    var top := TopBit(d - 1);
    l := top + 1;
    ShiftBounds(d, p, l);
    var mlo, mhi := InitialPair(d, p, l);
    ghost var l0 := l;
    while l > 0
      invariant l <= l0 && 0 <= mlo && 0 <= mhi && Exact(d, p, l, Pair(mlo, mhi))
      invariant d > 1 ==> mhi < 2 * U32 && (l < l0 <==> mhi < U32)
    {
      var tlo, thi := mlo / 2, mhi / 2;
      Halved(d, p, l, mlo, mhi, l == l0);
      if tlo == thi {
        break;
      }
      mlo := tlo;
      mhi := thi;
      l := l - 1;
    }
    StillMagic(d, p, l, mlo, mhi);
    return mhi, l;
  }

  lemma ShiftBounds(d: nat, p: nat, l: nat)
    requires 1 <= d <= Pow2(p) && d < U32 && p <= 32
    requires d - 1 < Pow2(l) && (d > 1 ==> l >= 1 && Pow2(l - 1) <= d - 1) && (d == 1 ==> l == 0)
    ensures l <= p && d <= Pow2(l) && (d > 1 ==> l > 0 && Pow2(l) <= 2 * d - 2)
  {
    if l > p { Pow2Mono(p, l - 1); }
  }

  /** The quotients before the loop; their 64-bit intermediate results do not wrap. */
  method InitialPair(d: nat, p: nat, l: nat) returns (mlo: nat, mhi: nat)
    requires 1 <= d < U32 && l <= p <= 32 && d <= Pow2(l)
    requires if d > 1 then l > 0 && Pow2(l) <= 2 * d - 2 else l == 0
    ensures Exact(d, p, l, Pair(mlo, mhi)) && U32 <= mhi && (d > 1 ==> mhi < 2 * U32)
  {
    mlo := LowQuotient(d, l);
    mhi := HighQuotient(d, p, l);
    StartExact(d, p, l, mlo, mhi);
  }

  method LowQuotient(d: nat, l: nat) returns (q: nat)
    requires 1 <= d <= Pow2(l) && d < U32 && l <= 32 && (if d > 1 then Pow2(l) <= 2 * d - 2 else l == 0)
    ensures q == Pow2(32 + l) / d
  {
    StartLow(d, l);
    q := ShiftDivide(Pow2(l) - d, d);
  }

  /** 2^64 does not fit, so one case is computed like the low quotient. */
  method HighQuotient(d: nat, p: nat, l: nat) returns (q: nat)
    requires 1 <= d <= Pow2(l) && d < U32 && l <= p <= 32 && (if d > 1 then Pow2(l) <= 2 * d - 2 else l == 0)
    ensures q == (Pow2(32 + l) + Pow2(32 + l - p)) / d
  {
    if l + p == 64 {
      StartHigh(d, l, p);
      q := ShiftDivide(Pow2(l) + 1 - d, d);
    } else {
      SumFits(p, l);
      q := SumDivide(Pow2(32 + l), Pow2(32 + l - p), d);
    }
  }

  /** ((x << 32) / d) + T32, in 64 bits. */
  method ShiftDivide(x: nat, d: nat) returns (q: nat)
    requires 0 < d < U32 && x <= 0x8000_0000 && x <= d
    ensures q == x * U32 / d + U32
  {
    QuotientBelow(x * U32, d);
    NoWrap(x * U32, x * U32 / d);
    q := W64(W64(x * U32) / d + U32);
  }

  lemma NoWrap(y: nat, q: nat)
    requires y <= 0x8000_0000 * U32 && q <= U32
    ensures W64(y) == y && W64(q + U32) == q + U32
  {
  }

  method SumDivide(a: nat, b: nat, d: nat) returns (q: nat)
    requires d > 0 && a + b < U64
    ensures q == (a + b) / d
  {
    var sum := W64(W64(a) + W64(b));
    SumWhole(a, b);
    q := sum / d;
  }

  lemma SumWhole(a: nat, b: nat)
    requires a + b < U64
    ensures W64(W64(a) + W64(b)) == a + b
  {
  }

  lemma StartExact(d: nat, p: nat, l: nat, mlo: nat, mhi: nat)
    requires 1 <= d <= Pow2(l) && l <= p <= 32 && (d > 1 ==> Pow2(l) <= 2 * d - 2)
    requires mlo == Pow2(32 + l) / d && mhi == (Pow2(32 + l) + Pow2(32 + l - p)) / d
    ensures Exact(d, p, l, Pair(mlo, mhi)) && U32 <= mhi && (d > 1 ==> mhi < 2 * U32)
  {
    StartApart(d, p, l);
    StartLarge(d, l);
  }

  lemma StartLarge(d: nat, l: nat)
    requires 1 <= d <= Pow2(l)
    ensures U32 <= Pow2(32 + l) / d
  {
    Pow2Add(l, 32);
    Pow2Constants();
    DivBelow(Pow2(32 + l), U32, d);
  }

  lemma SumFits(p: nat, l: nat)
    requires l <= p <= 32 && l + p != 64
    ensures Pow2(32 + l) + Pow2(32 + l - p) < U64
  {
    Pow2Mono(32 + l, 63);
    Pow2Mono(32 + l - p, 62);
    assert Pow2(63) == 2 * Pow2(62);
    Pow2Constants();
  }

  lemma QuotientBelow(x: nat, d: nat)
    requires d > 0 && x <= d * U32
    ensures 0 <= x / d <= U32
  {
    MulStep(U32 + 1, x / d, d);
  }

  lemma StartLow(d: nat, l: nat)
    requires 1 <= d <= Pow2(l) && d < U32 && l <= 32
    requires if d > 1 then Pow2(l) <= 2 * d - 2 else l == 0
    ensures Pow2(l) - d <= 0x8000_0000 && Pow2(l) - d <= d
    ensures (Pow2(l) - d) * U32 / d + U32 == Pow2(32 + l) / d
  {
    Pow2Mono(l, 32);
    Pow2Constants();
    Pow2Add(l, 32);
    Shifted(Pow2(l), d);
  }

  lemma StartHigh(d: nat, l: nat, p: nat)
    requires d <= Pow2(l) <= 2 * d - 2 && l == 32 && p == 32
    ensures 0 <= Pow2(l) + 1 - d <= 0x8000_0000 && Pow2(l) + 1 - d <= d
    ensures (Pow2(l) + 1 - d) * U32 / d + U32 == (Pow2(32 + l) + Pow2(32 + l - p)) / d
  {
    Pow2Constants();
    Shifted(U32 + 1, d);
  }

  lemma Shifted(x: nat, d: nat)
    requires 0 < d <= x
    ensures (x - d) * U32 / d + U32 == x * U32 / d
  {
    QuotientPlus((x - d) * U32, d, U32);
    assert (x - d) * U32 + d * U32 == x * U32;
  }

  lemma StartApart(d: nat, p: nat, l: nat)
    requires 1 <= d <= Pow2(l) && l <= p <= 32 && (d > 1 ==> Pow2(l) <= 2 * d - 2)
    ensures Pow2(32 + l) / d < (Pow2(32 + l) + Pow2(32 + l - p)) / d
    ensures d > 1 ==> (Pow2(32 + l) + Pow2(32 + l - p)) / d < 2 * U32
  {
    var a, b := Pow2(32 + l), Pow2(32 + l - p);
    Pow2Mono(l, 32 + l - p);
    QuotientPlus(a, d, 1);
    QuotientMono(a + d, a + b, d);
    if d > 1 {
      SumBelow(d, p, l);
      DivBelow(a + b, 2 * U32, d);
    }
  }

  lemma SumBelow(d: nat, p: nat, l: nat)
    requires l <= p <= 32 && Pow2(l) <= 2 * d - 2
    ensures Pow2(32 + l) + Pow2(32 + l - p) < 2 * U32 * d
  {
    Pow2Constants();
    Pow2Add(l, 32);
    Pow2Mono(32 + l - p, 32);
  }

  lemma QuotientPlus(x: nat, d: nat, k: nat)
    requires d > 0
    ensures x / d + k == (x + d * k) / d
  {
    var q := x / d;
    assert (q + k) * d == q * d + d * k;
    DivUnique(x + d * k, d, q + k);
  }

  lemma QuotientMono(x: nat, y: nat, d: nat)
    requires x <= y && d > 0
    ensures x / d <= y / d
  {
    MulStep(y / d + 1, x / d, d);
  }

  lemma HalfQuotient(x: nat, d: nat)
    requires d > 0
    ensures 2 * x / d / 2 == x / d
  {
    DivDiv(2 * x, d, 2);
    DivDiv(2 * x, 2, d);
    assert 2 * x / 2 == x;
  }

  /** Halving keeps the quotients exact. With p < 32 they are so far apart at first that one
      halving is always possible. */
  lemma Halved(d: nat, p: nat, l: nat, mlo: nat, mhi: nat, first: bool)
    requires Exact(d, p, l, Pair(mlo, mhi)) && l > 0 && p <= 32 && (first ==> d <= Pow2(l))
    ensures mlo / 2 < mhi / 2 ==> Exact(d, p, l - 1, Pair(mlo / 2, mhi / 2))
    ensures mlo / 2 <= mhi / 2
    ensures first && p < 32 ==> mlo / 2 < mhi / 2
  {
    Open(d, p, l, Pair(mlo, mhi));
    var a, b := Pow2(31 + l), Pow2(31 + l - p);
    HalfQuotient(a, d);
    HalfQuotient(a + b, d);
    if first && p < 32 {
      Pow2Mono(l, 31 + l - p);
      QuotientPlus(a, d, 1);
      QuotientMono(a + d, a + b, d);
    }
  }

  lemma StillMagic(d: nat, p: nat, l: nat, mlo: nat, mhi: nat)
    requires Exact(d, p, l, Pair(mlo, mhi))
    ensures Magic(d, p, Scale(mhi, l))
  {
    Open(d, p, l, Pair(mlo, mhi));
    FloorGap(Pow2(32 + l), Pow2(32 + l - p), d, mlo, mhi);
  }

  lemma FloorGap(a: nat, b: nat, d: nat, lo: nat, hi: nat)
    requires d > 0 && lo == a / d && hi == (a + b) / d && lo < hi
    ensures a < hi * d <= a + b
  {
    MulStep(lo + 1, hi, d);
    assert (lo + 1) * d == lo * d + d;
  }

  // ---------------------------------------------------------------- the parameters of a division

  /** d without its factors two, and how many there are. */
  function OddPart(d: nat): nat
    requires d > 0
  {
    if d % 2 == 0 then OddPart(d / 2) else d
  }

  function Twos(d: nat): nat
    requires d > 0
  {
    if d % 2 == 0 then Twos(d / 2) + 1 else 0
  }

  /** The condition on divisors: a power of two is one whose odd part is one. */
  lemma {:induction false} PowerOfTwo(d: nat)
    requires d > 0
    ensures OddPart(d) == 1 <==> d == Pow2(Twos(d))
    ensures d == Shl(OddPart(d), Twos(d)) && OddPart(d) > 0
  {
    if d % 2 == 0 { PowerOfTwo(d / 2); }
  }

  /** What the generator is given: with add, the multiplier has 33 bits, of which m is the low 32,
      and the shift is one more than s; without, the dividend is shifted by p first. */
  ghost predicate UParams(d: nat, add: bool, m: nat, s: nat, p: nat) {
    && m < U32 && s < 32 && p < 32
    && if add then p == 0 && Magic(d, 32, Scale(m + U32, s + 1))
       else Magic(Shr(d, p), 32 - p, Scale(m, s)) && d == Shl(Shr(d, p), p)
  }

  method UDiv(d: nat) returns (add: bool, mp: nat, sp: nat, pp: nat)
    requires 1 < d < U32 && OddPart(d) > 1
    ensures UParams(d, add, mp, sp, pp)
  {
    Fits32(d);
    var m, s := Multiplier(d, 32);
    var p := 0;
    if m >= U32 {
      var x;
      x, p := ShiftOut(d);
      m, s := Multiplier(x, 32 - p);
    }
    mp := Low32(m);
    pp := p;
    if m >= U32 {
      assert p == 0;
      AddParams(d, m, s, mp);
      return true, mp, s - 1, pp;
    }
    return false, mp, s, pp;
  }

  lemma AddParams(d: nat, m: nat, s: nat, mp: nat)
    requires Magic(d, 32, Scale(m, s)) && 0 < s <= 32 && m == mp + U32 && mp < U32
    ensures UParams(d, true, mp, s - 1, 0)
  {
    assert Scale(m, s) == Scale(mp + U32, s - 1 + 1);
  }

  /** A 64-bit multiplier, stored into 32 bits. */
  function Low32(m: nat): (r: nat)
    ensures r < U32 && (m < U32 ==> r == m) && (U32 <= m < 2 * U32 ==> r == m - U32)
  {
    m % U32
  }

  lemma Fits32(d: nat)
    requires d < U32
    ensures d <= Pow2(32)
  {
    Pow2Constants();
  }

  /** The loop that shifts factors two out of d. */
  method ShiftOut(d: nat) returns (x: nat, p: nat)
    requires 1 < d < U32 && OddPart(d) > 1
    ensures 1 < x <= d && p < 32 && x <= Pow2(32 - p) && x == Shr(d, p) && Shl(x, p) == d
  {
    x, p := d, 0;
    while x % 2 == 0
      invariant 0 < x && OddPart(x) > 1 && x == Shr(d, p) && Shl(x, p) == d
      decreases x
    {
      ShrNext(d, p);
      ShlNext(x / 2, p);
      x := x / 2;
      p := p + 1;
    }
    Reduced(d, x, p);
  }

  lemma {:induction false} ShlNext(v: nat, k: nat)
    ensures Shl(2 * v, k) == Shl(v, k + 1)
  {
    if k > 0 { ShlNext(v, k - 1); }
  }

  lemma Reduced(d: nat, x: nat, p: nat)
    requires 1 < x && d < U32 && Shl(x, p) == d
    ensures p < 32 && x <= Pow2(32 - p) && x <= d
  {
    Pow2Constants();
    ShlIsMul(x, p);
    MulStep(1, x, Pow2(p));
    assert x * 1 <= x * Pow2(p);
    if p >= 32 {
      Pow2Mono(32, p);
    } else {
      Pow2Add(32 - p, p);
      Cancel(x, Pow2(32 - p), Pow2(p));
    }
  }

  method SDiv(d: nat) returns (add: bool, mp: nat, sp: nat)
    requires 2 <= d <= T31
    ensures mp < U32 && sp < 31 && Magic(d, 31, Scale(mp, sp))
    ensures add <==> mp >= T31
  {
    Pow2Constants();
    var m, s := Multiplier(d, 31);
    mp := Low32(m);
    return m >= T31, mp, s;
  }
}
