/** Numbers in groups of seven bits, the least significant first, with a continuation bit on every
    group but the last. */
module Base128 {
  import opened Bits

  /** Little-endian base 128, continuation bit set on all groups but the last. */
  function EncodeLeb(i: nat): (r: seq<Byte>)
    ensures |r| > 0
  {
    if i < 128 then [i] else [128 + i % 128] + EncodeLeb(i / 128)
  }

  /** The number of leading bytes that carry a continuation bit. */
  function Continued(p: seq<Byte>): (k: nat)
    ensures k <= |p|
  {
    if p == [] || p[0] < 128 then 0 else 1 + Continued(p[1..])
  }

  /** The number that a string of 7-bit groups stands for. */
  function LebValue(p: seq<Byte>): nat {
    if p == [] then 0 else p[0] % 128 + 128 * LebValue(p[1..])
  }

  lemma {:induction false} ContinuedAt(p: seq<Byte>, j: nat)
    requires j < |p| && Continued(p) >= j
    ensures if p[j] < 128 then Continued(p) == j else Continued(p) >= j + 1
  {
    if j > 0 { ContinuedAt(p[1..], j - 1); }
  }

  lemma {:induction false} LebSnoc(s: seq<Byte>, b: Byte)
    ensures LebValue(s + [b]) == LebValue(s) + b % 128 * Pow2(7 * |s|)
  {
    if s == [] {
      assert s + [b] == [b];
      assert [b][1..] == [];
    } else {
      LebSnoc(s[1..], b);
      assert (s + [b])[1..] == s[1..] + [b];
      Pow2Add(7, 7 * |s[1..]|);
      Pow2Constants();
      MulAssoc(b % 128, Pow2(7 * |s[1..]|), 128);
    }
  }

  lemma {:induction false} LebBound(s: seq<Byte>)
    ensures LebValue(s) < Pow2(7 * |s|)
  {
    if s != [] {
      LebBound(s[1..]);
      Pow2Add(7, 7 * |s[1..]|);
      Pow2Constants();
    }
  }

  /** The groups written for i: their continuation bits, their value, and their count. */
  lemma {:induction false} EncodeLebContinues(i: nat, rest: seq<Byte>)
    ensures Continued(EncodeLeb(i) + rest) == |EncodeLeb(i)| - 1
  {
    var e := EncodeLeb(i);
    if i >= 128 {
      EncodeLebContinues(i / 128, rest);
      assert (e + rest)[1..] == EncodeLeb(i / 128) + rest;
    }
  }

  lemma {:induction false} EncodeLebValue(i: nat)
    ensures LebValue(EncodeLeb(i)) == i
  {
    var e := EncodeLeb(i);
    if i < 128 {
      assert e == [i] && e[1..] == [];
    } else {
      EncodeLebValue(i / 128);
      assert e[1..] == EncodeLeb(i / 128);
    }
  }

  lemma {:induction false} EncodeLebCount(i: nat)
    ensures var n := |EncodeLeb(i)|;
      i < Pow2(7 * n) && (n > 1 ==> Pow2(7 * (n - 1)) <= i)
  {
    if i < 128 {
      assert Pow2(7) == 128 by { Pow2Constants(); }
    } else {
      EncodeLebCount(i / 128);
      NextGroup(i, |EncodeLeb(i / 128)|);
    }
  }

  lemma NextGroup(i: nat, n: nat)
    requires n > 0 && i >= 128
    ensures i / 128 < Pow2(7 * n) ==> i < Pow2(7 * (n + 1))
    ensures (n > 1 ==> Pow2(7 * (n - 1)) <= i / 128) ==> Pow2(7 * n) <= i
  {
    Pow2Add(7, 7 * n);
    Pow2Add(7, 7 * (n - 1));
    assert Pow2(7) == 128 && Pow2(0) == 1 by { Pow2Constants(); }
  }

  lemma {:induction false} ContinuedStable(p: seq<Byte>, q: seq<Byte>)
    ensures Continued(p + q) == if Continued(p) < |p| then Continued(p) else |p| + Continued(q)
  {
    if p == [] {
      assert p + q == q;
    } else {
      assert (p + q)[1..] == p[1..] + q;
      ContinuedStable(p[1..], q);
    }
  }

  /** The loop of both writers. */
  method AppendLeb(dst: seq<Byte>, value: nat) returns (out: seq<Byte>)
    ensures out == dst + EncodeLeb(value)
  {
    out := dst;
    var i := value;
    ghost var goal := dst + EncodeLeb(i);
    while i >= 128
      invariant 0 <= i
      invariant out + EncodeLeb(i) == goal
    {
      AppendedGroup(out, i);
      out := out + [Or(0x80, i % 128)];
      i := i / 128;
    }
    out := out + [i];
  }

  lemma AppendedGroup(out: seq<Byte>, i: nat)
    requires i >= 128
    ensures Or(0x80, i % 128) == 128 + i % 128
    ensures out + EncodeLeb(i) == (out + [Or(0x80, i % 128)]) + EncodeLeb(i / 128)
  {
    ContinuationByte(i);
  }

  lemma ContinuationByte(i: nat)
    ensures Or(0x80, i % 128) == 128 + i % 128
  {
    Pow2Constants();
    OrDisjoint(1, i % 128, 7);
    assert Shl(1, 7) == 128;
  }
}
