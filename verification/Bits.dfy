/** Machine words as bounded integers, and the few facts about bits that the
    models share: powers of two, bitwise OR / AND / XOR by arithmetic, and
    numbers written out as big-endian bit strings. */
module Bits {

  type Byte = x: int | 0 <= x < 256

  const U32 := 0x1_0000_0000
  const U64 := 0x1_0000_0000_0000_0000

  function Pow2(n: nat): (r: nat)
    ensures r > 0
  {
    if n == 0 then 1 else 2 * Pow2(n - 1)
  }

  lemma {:induction false} Pow2Add(a: nat, b: nat)
    ensures Pow2(a + b) == Pow2(a) * Pow2(b)
  {
    if a > 0 {
      Pow2Add(a - 1, b);
      MulAssoc(2, Pow2(a - 1), Pow2(b));
    }
  }

  lemma {:induction false} Pow2Mono(a: nat, b: nat)
    requires a <= b
    ensures Pow2(a) <= Pow2(b)
  {
    if a < b { Pow2Mono(a, b - 1); }
  }

  /** The powers that appear as constants in the sources. */
  lemma Pow2Constants()
    ensures Pow2(0) == 1 && Pow2(1) == 2 && Pow2(2) == 4 && Pow2(3) == 8 && Pow2(4) == 16
    ensures Pow2(5) == 32 && Pow2(6) == 64 && Pow2(7) == 128 && Pow2(8) == 256
    ensures Pow2(16) == 0x10000 && Pow2(30) == 0x4000_0000 && Pow2(31) == 0x8000_0000
    ensures Pow2(32) == U32 && Pow2(63) == 0x8000_0000_0000_0000 && Pow2(64) == U64
  {
    assert Pow2(8) == 256;
    Pow2Add(8, 8);
    Pow2Add(16, 14);
    assert Pow2(14) == 16384 by { Pow2Add(8, 6); }
    Pow2Add(30, 1);
    Pow2Add(16, 16);
    Pow2Add(32, 31);
    Pow2Add(32, 32);
  }

  lemma {:induction false} MulStep(x: int, y: int, b: int)
    requires b > 0
    ensures x < y ==> x * b + b <= y * b
    ensures x <= y ==> x * b <= y * b
    decreases y - x
  {
    if x < y {
      MulStep(x, y - 1, b);
      assert (y - 1) * b == y * b - b;
    }
  }

  /** Euclidean division is determined by its defining inequalities. */
  lemma DivUnique(a: int, b: int, q: int)
    requires b > 0 && q * b <= a < q * b + b
    ensures a / b == q && a % b == a - q * b
  {
    var q', r' := a / b, a % b;
    assert a == q' * b + r';
    MulStep(q', q, b);
    MulStep(q, q', b);
  }

  lemma DivBelow(a: nat, q: nat, p: nat)
    requires p > 0
    ensures a < q * p <==> a / p < q
  {
    MulStep(q, a / p, p);
    MulStep(a / p, q, p);
  }

  lemma DivMulAdd(q: int, b: int, r: int)
    requires 0 <= r < b
    ensures (q * b + r) / b == q && (q * b + r) % b == r
  {
    DivUnique(q * b + r, b, q);
  }

  lemma MulAssoc(a: int, b: int, c: int)
    ensures (a * b) * c == a * (b * c)
  {
  }

  lemma DivDiv(x: nat, a: nat, b: nat)
    requires a > 0 && b > 0
    ensures a * b > 0 && x / a / b == x / (a * b)
  {
    var q, r := x / a, x % a;
    var q2, r2 := q / b, q % b;
    var ab := a * b;
    assert ab > 0;
    assert q * a == q2 * ab + r2 * a by {
      MulAssoc(q2, b, a);
      assert (q2 * b + r2) * a == (q2 * b) * a + r2 * a;
    }
    assert r2 * a + a <= ab by { MulStep(r2, b, a); }
    DivUnique(x, ab, q2);
  }

  lemma ModMod(x: nat, a: nat, b: nat)
    requires a > 0 && b > 0
    ensures a * b > 0 && x % (a * b) % a == x % a
  {
    var ab := a * b;
    assert ab > 0;
    var q, r := x / ab, x % ab;
    assert q * ab == (q * b) * a by { MulAssoc(q, b, a); }
    assert (q * b + r / a) * a == (q * b) * a + (r / a) * a;
    DivUnique(x, a, q * b + r / a);
  }

  // ---------------------------------------------------------------- 32-bit words

  function Word(i: int): (w: nat)
    ensures w < U32
  {
    i % U32
  }

  /** A word read as a signed number. */
  function Signed(w: nat): int {
    if w >= 0x8000_0000 then w - U32 else w
  }

  lemma SignedWord(i: int)
    requires -0x8000_0000 <= i < 0x8000_0000
    ensures Signed(Word(i)) == i
  {
    assert Word(i) == if i < 0 then i + U32 else i;
  }

  lemma WordSigned(w: nat)
    requires w < U32
    ensures Word(Signed(w)) == w && -0x8000_0000 <= Signed(w) < 0x8000_0000
  {
  }

  // ---------------------------------------------------------------- bitwise operators

  function Or(a: nat, b: nat): nat
    decreases a + b
  {
    if a == 0 then b
    else if b == 0 then a
    else 2 * Or(a / 2, b / 2) + (if a % 2 == 1 || b % 2 == 1 then 1 else 0)
  }

  /** OR of a number whose low k bits are clear with a k-bit number is their sum. */
  lemma {:induction false} OrDisjoint(h: nat, l: nat, k: nat)
    requires l < Pow2(k)
    ensures Or(Shl(h, k), l) == Shl(h, k) + l
    decreases k
  {
    if k > 0 { OrDisjoint(h, l / 2, k - 1); }
  }

  lemma {:induction false} OrCommutes(a: nat, b: nat)
    ensures Or(a, b) == Or(b, a)
    decreases a + b
  {
    if a > 0 && b > 0 { OrCommutes(a / 2, b / 2); }
  }

  // ---------------------------------------------------------------- bit strings

  /** The low n bits of v, most significant first. */
  function ToBits(v: nat, n: nat): (b: seq<bool>)
    ensures |b| == n
  {
    if n == 0 then [] else ToBits(v / 2, n - 1) + [v % 2 == 1]
  }

  /** Logical shift right, one bit at a time. */
  function Shr(v: nat, m: nat): nat {
    if m == 0 then v else Shr(v / 2, m - 1)
  }

  lemma {:induction false} ShrIsDiv(v: nat, m: nat)
    ensures Shr(v, m) == v / Pow2(m)
  {
    if m > 0 {
      ShrIsDiv(v / 2, m - 1);
      DivDiv(v, 2, Pow2(m - 1));
    }
  }

  /** A bit string cut at any point: high part and low part. */
  lemma {:induction false} ToBitsSplit(v: nat, n: nat, m: nat)
    ensures ToBits(v, n + m) == ToBits(Shr(v, m), n) + ToBits(v, m)
    decreases m
  {
    if m > 0 {
      ToBitsSplit(v / 2, n, m - 1);
      assert (ToBits(Shr(v, m), n) + ToBits(v / 2, m - 1)) + [v % 2 == 1]
          == ToBits(Shr(v, m), n) + (ToBits(v / 2, m - 1) + [v % 2 == 1]);
    }
  }

  lemma {:induction false} ToBitsInjective(v: nat, w: nat, n: nat)
    requires v < Pow2(n) && w < Pow2(n) && ToBits(v, n) == ToBits(w, n)
    ensures v == w
  {
    if n > 0 {
      var a, b := ToBits(v, n), ToBits(w, n);
      assert a[..n - 1] == ToBits(v / 2, n - 1) && b[..n - 1] == ToBits(w / 2, n - 1);
      assert a[n - 1] == (v % 2 == 1) && b[n - 1] == (w % 2 == 1);
      ToBitsInjective(v / 2, w / 2, n - 1);
    }
  }

  // ---------------------------------------------------------------- shifts

  /** Logical shift left, one bit at a time. */
  function Shl(v: nat, k: nat): nat {
    if k == 0 then v else 2 * Shl(v, k - 1)
  }

  lemma {:induction false} ShlIsMul(v: nat, k: nat)
    ensures Shl(v, k) == v * Pow2(k)
  {
    if k > 0 {
      ShlIsMul(v, k - 1);
      MulAssoc(v, Pow2(k - 1), 2);
    }
  }

  /** The number that the low k bits stand for. */
  function Low(v: nat, k: nat): (r: nat)
    ensures r < Pow2(k)
    ensures v < Pow2(k) ==> r == v
  {
    if k == 0 then 0 else 2 * Low(v / 2, k - 1) + v % 2
  }

  lemma {:induction false} LowIsMod(v: nat, k: nat)
    ensures Low(v, k) == v % Pow2(k)
  {
    SplitAt(v, k);
    ShlIsMul(Shr(v, k), k);
    DivMulAdd(Shr(v, k), Pow2(k), Low(v, k));
  }

  lemma {:induction false} SplitAt(v: nat, k: nat)
    ensures v == Shl(Shr(v, k), k) + Low(v, k)
  {
    if k > 0 { SplitAt(v / 2, k - 1); }
  }

  lemma {:induction false} ShlFits(x: nat, k: nat, s: nat)
    requires x < Pow2(k)
    ensures Shl(x, s) < Pow2(k + s)
    decreases s
  {
    if s > 0 { ShlFits(x, k, s - 1); }
  }

  lemma {:induction false} ShrFits(v: nat, k: nat, s: nat)
    requires v < Pow2(k + s)
    ensures Shr(v, s) < Pow2(k)
    decreases s
  {
    if s > 0 { ShrFits(v / 2, k, s - 1); }
  }

  lemma {:induction false} JoinFits(hi: nat, lo: nat, n: nat, r: nat)
    requires hi < Pow2(n) && lo < Pow2(r)
    ensures Shl(hi, r) + lo < Pow2(n + r)
    decreases r
  {
    if r > 0 { JoinFits(hi, lo / 2, n, r - 1); }
  }

  lemma {:induction false} LowOfShl(v: nat, n: nat, s: nat)
    ensures Low(Shl(v, s), n + s) == Shl(Low(v, n), s)
    decreases s
  {
    if s > 0 { LowOfShl(v, n, s - 1); }
  }

  lemma {:induction false} JoinBits(hi: nat, lo: nat, n: nat, r: nat)
    requires lo < Pow2(r)
    ensures ToBits(Shl(hi, r) + lo, n + r) == ToBits(hi, n) + ToBits(lo, r)
    decreases r
  {
    if r > 0 {
      JoinBits(hi, lo / 2, n, r - 1);
      assert (ToBits(hi, n) + ToBits(lo / 2, r - 1)) + [lo % 2 == 1]
          == ToBits(hi, n) + (ToBits(lo / 2, r - 1) + [lo % 2 == 1]);
    }
  }

  lemma {:induction false} ToBitsLow(v: nat, k: nat)
    ensures ToBits(Low(v, k), k) == ToBits(v, k)
  {
    if k > 0 { ToBitsLow(v / 2, k - 1); }
  }

  lemma {:induction false} ToBitsLowMore(v: nat, k: nat, n: nat)
    requires n <= k
    ensures ToBits(Low(v, k), n) == ToBits(v, n)
  {
    if n > 0 { ToBitsLowMore(v / 2, k - 1, n - 1); }
  }

  /** A byte is the low eight bits. */
  lemma LowByte(v: nat)
    ensures v % 256 == Low(v, 8) && v % U32 % 256 == Low(v, 8) && v % U64 % 256 == Low(v, 8)
  {
    LowIsMod(v, 8);
    assert Pow2(8) == 256 by { Pow2Constants(); }
    ModMod(v, 256, 0x100_0000);
    ModMod(v, 256, 0x100_0000_0000_0000);
  }

  lemma ToBitsOfByte(v: nat)
    ensures ToBits(v % 256, 8) == ToBits(v, 8)
  {
    LowByte(v);
    ToBitsLow(v, 8);
  }

  function Repeat(b: bool, n: nat): (r: seq<bool>)
    ensures |r| == n && forall i :: 0 <= i < n ==> r[i] == b
  {
    seq(n, i => b)
  }

  lemma {:induction false} ToBitsZero(n: nat)
    ensures ToBits(0, n) == Repeat(false, n)
  {
    if n > 0 { ToBitsZero(n - 1); }
  }

  lemma {:induction false} ToBitsOnes(n: nat)
    ensures ToBits(Pow2(n) - 1, n) == Repeat(true, n)
  {
    if n > 0 {
      ToBitsOnes(n - 1);
      assert (Pow2(n) - 1) / 2 == Pow2(n - 1) - 1;
    }
  }

  /** A byte string as a bit string. */
  function BytesBits(v: seq<Byte>): (b: seq<bool>)
    ensures |b| == 8 * |v|
  {
    if v == [] then [] else BytesBits(v[..|v| - 1]) + ToBits(v[|v| - 1], 8)
  }

  lemma {:induction false} BytesBitsAppend(a: seq<Byte>, b: seq<Byte>)
    ensures BytesBits(a + b) == BytesBits(a) + BytesBits(b)
    decreases |b|
  {
    if b == [] {
      assert a + b == a;
    } else {
      var i := b[..|b| - 1];
      assert (a + b)[..|a + b| - 1] == a + i;
      BytesBitsAppend(a, i);
    }
  }

  lemma BytesBitsOne(b: Byte)
    ensures BytesBits([b]) == ToBits(b, 8)
  {
    assert [b][..0] == [];
    assert BytesBits([]) == [];
  }

  lemma {:induction false} BytesBitsInjective(a: seq<Byte>, b: seq<Byte>)
    requires BytesBits(a) == BytesBits(b)
    ensures a == b
  {
    assert |a| == |b|;
    if a != [] {
      var n := |a| - 1;
      assert a[..n] + [a[n]] == a && b[..n] + [b[n]] == b;
      SameEnds(BytesBits(a[..n]), ToBits(a[n], 8), BytesBits(b[..n]), ToBits(b[n], 8));
      ByteInjective(a[n], b[n]);
      BytesBitsInjective(a[..n], b[..n]);
    }
  }

  lemma SameEnds(a: seq<bool>, u: seq<bool>, b: seq<bool>, v: seq<bool>)
    requires a + u == b + v && |u| == |v|
    ensures a == b && u == v
  {
    assert (a + u)[..|a|] == a && (b + v)[..|b|] == b;
    assert (a + u)[|a|..] == u && (b + v)[|b|..] == v;
  }

  lemma ByteInjective(x: Byte, y: Byte)
    requires ToBits(x, 8) == ToBits(y, 8)
    ensures x == y
  {
    Pow2Constants();
    ToBitsInjective(x, y, 8);
  }

  function FromBits(b: seq<bool>): (v: nat)
    ensures v < Pow2(|b|)
  {
    if b == [] then 0
    else 2 * FromBits(b[..|b| - 1]) + (if b[|b| - 1] then 1 else 0)
  }

  lemma {:induction false} ToFromBits(b: seq<bool>)
    ensures ToBits(FromBits(b), |b|) == b
  {
    if b != [] { ToFromBits(b[..|b| - 1]); }
  }

  lemma PackedByte(tail: seq<bool>)
    requires |tail| == 8
    ensures FromBits(tail) < 256 && ToBits(FromBits(tail), 8) == tail
  {
    Pow2Constants();
    ToFromBits(tail);
  }

  lemma BytesBitsSnoc(v: seq<Byte>, x: Byte)
    ensures BytesBits(v + [x]) == BytesBits(v) + ToBits(x, 8)
  {
    assert (v + [x])[..|v|] == v;
  }

  /** A bit string of whole bytes, as bytes. */
  function Pack(b: seq<bool>): (v: seq<Byte>)
    requires |b| % 8 == 0
    ensures BytesBits(v) == b
  {
    if b == [] then []
    else
      var v := Pack(b[..|b| - 8]);
      var front, tail := b[..|b| - 8], b[|b| - 8..];
      PackedByte(tail);
      BytesBitsSnoc(v, FromBits(tail));
      assert b == front + tail;
      v + [FromBits(tail)]
  }
}
