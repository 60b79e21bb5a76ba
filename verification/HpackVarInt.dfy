/** HPACK integers (RFC 7541, section 5.1): the encoder's and the decoder's
    loops, the functions they compute, and the exact range of values that
    survives a round trip. */
module HpackVarInt {
  import opened Base128
  import opened Bits

  datatype IntResult =
    | IntOk(value: nat, rest: seq<Byte>)
    | IntMore
    | IntOverflow

  // ---------------------------------------------------------------- specification

  lemma PrefixIsByte(n: nat)
    requires 1 <= n <= 8
    ensures 2 <= Pow2(n) <= 256
  {
    Pow2Mono(n, 8);
    Pow2Mono(1, n);
    Pow2Constants();
  }

  /** The largest value of a prefix: the groups follow it. */
  function PrefixMax(n: nat): (k: Byte)
    requires 1 <= n <= 8
    ensures k == Pow2(n) - 1
  {
    PrefixIsByte(n);
    Pow2(n) - 1
  }

  function EncodeInt(n: nat, i: nat): (r: seq<Byte>)
    requires 1 <= n <= 8
    ensures |r| > 0 && r[0] < Pow2(n)
  {
    var k := PrefixMax(n);
    if i < k then [i] else [k] + EncodeLeb(i - k)
  }

  const MAX_GROUPS := 9

  function DecodeInt(n: nat, p: seq<Byte>): (r: IntResult)
    requires 1 <= n <= 8
    ensures r.IntOk? ==> |r.rest| < |p|
  {
    if p == [] then IntMore
    else if p[0] % Pow2(n) < Pow2(n) - 1 then IntOk(p[0] % Pow2(n), p[1..])
    else DecodeGroups(p[0] % Pow2(n), p[1..])
  }

  function DecodeGroups(first: nat, q: seq<Byte>): (r: IntResult)
    ensures r.IntOk? ==> |r.rest| < |q|
  {
    var k := Continued(q);
    if k >= MAX_GROUPS then IntOverflow
    else if k == |q| then IntMore
    else IntOk(first + LebValue(q[..k + 1]), q[k + 1..])
  }

  // ---------------------------------------------------------------- implementation

  method AppendVarInt(dst: seq<Byte>, n: nat, value: nat) returns (out: seq<Byte>)
    requires 1 <= n <= 8 && value < U64
    ensures out == dst + EncodeInt(n, value)
  {
    var k := PrefixMax(n);
    if value < k {
      return dst + [value];
    }
    out := AppendLeb(dst + [k], value - k);
    ThenGroups(dst, k, EncodeLeb(value - k));
  }

  lemma ThenGroups(dst: seq<Byte>, k: Byte, groups: seq<Byte>)
    ensures (dst + [k]) + groups == dst + ([k] + groups)
  {
  }

  /** The accumulator is a 64-bit word: the additions and shifts below are taken modulo 2^64. */
  method ReadVarInt(n: nat, p: seq<Byte>) returns (r: IntResult)
    requires 1 <= n <= 8
    ensures r == DecodeInt(n, p)
  {
    if |p| == 0 {
      return IntMore;
    }
    PrefixIsByte(n);
    var i: nat := p[0];
    if n < 8 {
      i := i % Pow2(n);
    }
    assert i == p[0] % Pow2(n) by { Pow2Constants(); }
    if i < Pow2(n) - 1 {
      return IntOk(i, p[1..]);
    }
    r := ReadGroups(i, p[1..]);
  }

  /** A 64-bit word. */
  function Wrap(x: nat): nat { x % U64 }

  /** The loop of the reader, over the bytes after the prefix. */
  method ReadGroups(first: nat, p: seq<Byte>) returns (r: IntResult)
    requires first < 256
    ensures r == DecodeGroups(first, p)
  {
    var i := first;
    var q := p;
    var m: nat := 0;
    ghost var j: nat := 0;
    while |q| > 0
      invariant j < MAX_GROUPS && m == 7 * j && j <= |p| && q == p[j..]
      invariant Continued(p) >= j
      invariant i == first + LebValue(p[..j])
    {
      var b := q[0];
      q := q[1..];
      GroupStep(p, j, first);
      i := Wrap(i + Wrap(b % 128 * Pow2(m)));
      if b < 128 {
        return IntOk(i, q);
      }
      j := j + 1;
      m := m + 7;
      if m >= 63 {
        return IntOverflow;
      }
    }
    return IntMore;
  }

  /** One more group: the new value, and why the 64-bit word does not wrap. */
  lemma GroupStep(p: seq<Byte>, j: nat, first: nat)
    requires j < |p| && j < MAX_GROUPS && first < 256 && Continued(p) >= j
    ensures if p[j] < 128 then Continued(p) == j else Continued(p) >= j + 1
    ensures Wrap(first + LebValue(p[..j]) + Wrap(p[j] % 128 * Pow2(7 * j))) == first + LebValue(p[..j + 1])
  {
    var s := p[..j];
    assert p[..j + 1] == s + [p[j]];
    LebSnoc(s, p[j]);
    LebBound(s + [p[j]]);
    WithinWord(j);
    NoWrap(first, LebValue(s), p[j] % 128 * Pow2(7 * j));
    ContinuedAt(p, j);
  }

  lemma WithinWord(j: nat)
    requires j < MAX_GROUPS
    ensures Pow2(7 * (j + 1)) <= 0x8000_0000_0000_0000
  {
    Pow2Mono(7 * (j + 1), 63);
    Pow2Constants();
  }

  lemma NoWrap(first: nat, v: nat, x: nat)
    requires first < 256 && v + x < 0x8000_0000_0000_0000
    ensures Wrap(first + v + Wrap(x)) == first + (v + x)
  {
  }

  // ---------------------------------------------------------------- round trip

  /** The exact range of the integer codec: a value below 2^63 + 2^n - 1 comes back,
      with the bytes that follow it untouched; a larger one is reported as an overflow,
      never as another value. The high bits of the first byte, which carry the
      representation's tag, do not matter. */
  lemma IntRoundTrip(n: nat, i: nat, first: Byte, rest: seq<Byte>)
    requires 1 <= n <= 8 && first % Pow2(n) == EncodeInt(n, i)[0]
    ensures DecodeInt(n, EncodeInt(n, i)[0 := first] + rest)
         == if i < 0x8000_0000_0000_0000 + Pow2(n) - 1 then IntOk(i, rest) else IntOverflow
  {
    var e, k := EncodeInt(n, i), PrefixMax(n);
    TailOfUpdate(e, first, rest);
    if i < k {
      ShortRoundTrip(n, i, e[0 := first] + rest, rest);
    } else {
      assert e[1..] == EncodeLeb(i - k);
      PartsRoundTrip(n, k, i, e[0 := first] + rest, rest);
    }
  }

  lemma TailOfUpdate(e: seq<Byte>, first: Byte, rest: seq<Byte>)
    requires e != []
    ensures var w := e[0 := first] + rest; w != [] && w[0] == first && w[1..] == e[1..] + rest
  {
  }

  lemma ShortRoundTrip(n: nat, i: nat, w: seq<Byte>, rest: seq<Byte>)
    requires 1 <= n <= 8 && i < Pow2(n) - 1
    requires w != [] && w[0] % Pow2(n) == i && w[1..] == [] + rest
    ensures DecodeInt(n, w) == IntOk(i, rest)
  {
    assert [] + rest == rest;
  }

  lemma PartsRoundTrip(n: nat, k: nat, i: nat, w: seq<Byte>, rest: seq<Byte>)
    requires 1 <= n <= 8 && k == Pow2(n) - 1 <= i
    requires w != [] && w[0] % Pow2(n) == k && w[1..] == EncodeLeb(i - k) + rest
    ensures DecodeInt(n, w) == if i < 0x8000_0000_0000_0000 + k then IntOk(i, rest) else IntOverflow
  {
    GroupsRoundTrip(k, i - k, rest);
  }

  lemma GroupsRoundTrip(k: nat, i: nat, rest: seq<Byte>)
    ensures DecodeGroups(k, EncodeLeb(i) + rest)
         == if i < 0x8000_0000_0000_0000 then IntOk(k + i, rest) else IntOverflow
  {
    var t := EncodeLeb(i);
    EncodeLebContinues(i, rest);
    EncodeLebValue(i);
    EncodeLebCount(i);
    assert (t + rest)[..|t|] == t && (t + rest)[|t|..] == rest;
    if |t| <= MAX_GROUPS {
      Pow2Mono(7 * |t|, 63);
    } else {
      Pow2Mono(63, 7 * (|t| - 1));
    }
    Pow2Constants();
  }

  /** Asking for more data is the only answer that later data can change. */
  lemma IntPrefixStable(n: nat, p: seq<Byte>, q: seq<Byte>)
    requires 1 <= n <= 8 && !DecodeInt(n, p).IntMore?
    ensures DecodeInt(n, p + q) == match DecodeInt(n, p)
                                   case IntOk(v, rest) => IntOk(v, rest + q)
                                   case e => e
  {
    assert (p + q)[1..] == p[1..] + q;
    if p[0] % Pow2(n) >= Pow2(n) - 1 {
      GroupsPrefixStable(p[0] % Pow2(n), p[1..], q);
    }
  }

  lemma GroupsPrefixStable(first: nat, p: seq<Byte>, q: seq<Byte>)
    requires !DecodeGroups(first, p).IntMore?
    ensures DecodeGroups(first, p + q) == match DecodeGroups(first, p)
                                          case IntOk(v, rest) => IntOk(v, rest + q)
                                          case e => e
  {
    ContinuedStable(p, q);
    var k := Continued(p);
    if k < |p| {
      assert (p + q)[..k + 1] == p[..k + 1];
      assert (p + q)[k + 1..] == p[k + 1..] + q;
    }
  }
}
