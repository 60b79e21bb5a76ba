/** What goes over the wire, octet by octet: the forms of RFC 7541, section 6, what each does to the
    table, and that repeated fields become an index. */
module HpackWire {
  import opened Bits
  import opened Options
  import opened Base128
  import opened HpackPrefixCode
  import opened HpackVarInt
  import opened HpackHuffmanEncoder
  import opened HpackTable
  import opened HpackEncoder
  import opened HpackDecoder
  import opened HpackRun
  import opened HpackConstants

  // ---------------------------------------------------------------- integers

  /** A small number is the prefix itself. Otherwise all bits of the prefix are set, and groups of seven
      bits follow, the least significant first, each but the last with its high bit set. */
  lemma IntBytes(n: nat, i: nat)
    requires 1 <= n <= 8
    ensures var r := EncodeInt(n, i);
      if i < Pow2(n) - 1 then r == [i]
      else
        && r[0] == Pow2(n) - 1 && |r| >= 2 && LebValue(r[1..]) == i - (Pow2(n) - 1)
        && r[|r| - 1] < 128 && forall k :: 0 < k < |r| - 1 ==> r[k] >= 128
  {
    if i >= Pow2(n) - 1 {
      var groups := EncodeLeb(i - PrefixMax(n));
      assert EncodeInt(n, i)[1..] == groups;
      EncodeLebValue(i - PrefixMax(n));
      EncodeLebContinues(i - PrefixMax(n), []);
      assert groups + [] == groups;
      ContinuedBytes(groups);
    }
  }

  lemma {:induction false} ContinuedBytes(p: seq<Byte>)
    ensures forall k :: 0 <= k < Continued(p) ==> p[k] >= 128
    ensures Continued(p) < |p| ==> p[Continued(p)] < 128
  {
    if p != [] && p[0] >= 128 {
      ContinuedBytes(p[1..]);
      forall k | 0 <= k < Continued(p) ensures p[k] >= 128 {
        if k > 0 { assert p[k] == p[1..][k - 1]; }
      }
    }
  }

  // ---------------------------------------------------------------- first octets

  lemma TaggedFirst(n: nat, tag: nat, i: nat)
    requires 4 <= n <= 7 && tag <= 1
    ensures tag * Pow2(n) <= Tagged(n, tag, i)[0] < (tag + 1) * Pow2(n)
  {
    TagFits(n, tag, EncodeInt(n, i)[0]);
    assert (tag + 1) * Pow2(n) == tag * Pow2(n) + Pow2(n);
  }

  /** The first octet of a field tells what was found, and whether it is added to the table or must
      never be. */
  lemma FieldKind(c: Constants, e: EncState, f: HeaderField)
    requires c.Usable()
    ensures var b := FieldBytes(c, e, f)[0];
      && (b >= 0x80 <==> SearchTable(c, e.ents, f).full)
      && (f.sensitive <==> 0x10 <= b < 0x20)
      && (b < 0x80 && !f.sensitive && FieldSize(f) <= e.max <==> 0x40 <= b < 0x80)
      && !(0x20 <= b < 0x40)
  {
    SuffixOfItself(e.ents);
    SearchSound(c, e.ents, e.ents, f);
    PrefixPowers();
    var s, indexing := SearchTable(c, e.ents, f), ShouldIndex(e, f);
    TaggedFirst(7, 1, s.index);
    TaggedFirst(LiteralPrefix(indexing), LiteralTag(indexing, f.sensitive), s.index);
  }

  lemma SuffixOfItself(ents: seq<HeaderField>)
    ensures Suffix(ents, ents)
  {
    assert ents[0..] == ents;
  }

  lemma UpdateFirst(v: nat)
    ensures 0x20 <= SizeUpdate(v)[0] < 0x40
  {
    PrefixPowers();
    TaggedFirst(5, 1, v);
  }

  /** The first octet of a string tells whether it is in the Huffman code, which is when that is shorter. */
  lemma StringFirst(h: PrefixCode, s: seq<Byte>)
    requires h.Shaped()
    ensures EncodeString(h, s)[0] >= 0x80 <==> HuffmanLength(h, s) < |s|
  {
    PrefixPowers();
    TaggedFirst(7, 1, HuffmanLength(h, s));
    TaggedFirst(7, 0, |s|);
  }

  /** What a decoder may do after each first octet. */
  ghost predicate Does(d: DecState, b: Byte, d': DecState, fs: seq<HeaderField>) {
    if b >= 0x80 || b < 0x10 then d' == d && |fs| <= 1 && forall i :: 0 <= i < |fs| ==> !fs[i].sensitive
    else if b >= 0x40 then
      exists f: HeaderField :: !f.sensitive && d' == d.(ents := Evicted(d.ents + [f], d.max)) && (fs == [] || fs == [f])
    else if b >= 0x20 then fs == [] && d' == d.(ents := Evicted(d.ents, d'.max), max := d'.max) && d'.max <= d.allowed
    else d' == d && |fs| <= 1 && forall i :: 0 <= i < |fs| ==> fs[i].sensitive
  }

  /** An index, and a literal that is not indexed, leave the table as it is; only a literal that is never
      to be indexed gives a sensitive field; a size update gives none. */
  lemma ParsedKind(c: Constants, d: DecState, p: seq<Byte>)
    requires c.huffman.Valid() && p != [] && Parse(c, d, p).Parsed?
    ensures Does(d, p[0], Parse(c, d, p).d, Parse(c, d, p).emitted)
  {
    var b := p[0];
    if b / 128 != 1 && b / 64 == 1 {
      AddsField(c, d, p);
    } else if b / 128 != 1 && b / 32 == 0 {
      AddsNothing(c, d, p, if b / 16 == 0 then IndexedFalse else IndexedNever);
    }
  }

  lemma AddsField(c: Constants, d: DecState, p: seq<Byte>)
    requires c.huffman.Valid() && ParseLiteral(c, d, p, 6, IndexedTrue).Parsed?
    ensures var o := ParseLiteral(c, d, p, 6, IndexedTrue);
      exists f: HeaderField ::
        !f.sensitive && o.d == d.(ents := Evicted(d.ents + [f], d.max)) && (o.emitted == [] || o.emitted == [f])
  {
    var i, q := DecodeInt(6, p).value, DecodeInt(6, p).rest;
    var n := ReadName(c, d, q, i, true);
    var v := ReadString(c.huffman, d.maxStrLen, n.rest, true);
    var f := HeaderField(n.s, v.s, false);
    assert ParseLiteral(c, d, p, 6, IndexedTrue) == Emit(Added(d, f), f, v.rest);
  }

  lemma AddsNothing(c: Constants, d: DecState, p: seq<Byte>, it: IndexType)
    requires c.huffman.Valid() && !it.IndexedTrue? && ParseLiteral(c, d, p, 4, it).Parsed?
    ensures var o := ParseLiteral(c, d, p, 4, it);
      o.d == d && |o.emitted| <= 1 && forall k :: 0 <= k < |o.emitted| ==> o.emitted[k].sensitive == it.IndexedNever?
  {
  }

  // ---------------------------------------------------------------- indices

  /** The newest entry has the first index after the static table, and moves the others up by one. */
  lemma AddedShifts(c: Constants, ents: seq<HeaderField>, f: HeaderField, i: nat)
    ensures Lookup(c, ents + [f], |c.statics| + 1) == Some(f)
    ensures i > |c.statics| ==> Lookup(c, ents + [f], i + 1) == Lookup(c, ents, i)
    ensures 0 < i <= |c.statics| ==> Lookup(c, ents, i) == Some(c.statics[i - 1])
  {
  }

  // ---------------------------------------------------------------- writing a field again

  lemma NewestStays(ents: seq<HeaderField>, f: HeaderField, max: nat)
    requires FieldSize(f) <= max
    ensures var r := Evicted(ents + [f], max); r != [] && r[|r| - 1] == f
  {
    assert [f][1..] == [];
    assert TableSize([f]) == FieldSize(f);
    EvictedLongest(ents + [f], max);
    assert (ents + [f])[|ents|..] == [f];
    assert Suffix([f], ents + [f]);
  }

  lemma FoundAgain(c: Constants, ents: seq<HeaderField>, f: HeaderField)
    requires !f.sensitive && ents != []
    requires ents[|ents| - 1].name == f.name && ents[|ents| - 1].value == f.value
    ensures SearchTable(c, ents, f).full
  {
    FindFullIs(Newest(ents), f);
    assert Newest(ents)[0] == ents[|ents| - 1];
  }

  /** A field that is not sensitive and fits the table is an index when it is written again. */
  lemma SecondIsIndex(c: Constants, e: EncState, f: HeaderField)
    requires c.Usable() && !f.sensitive && FieldSize(f) <= e.max
    ensures var e1 := WriteState(c, e, f);
      var s := SearchTable(c, e1.ents, f);
      && WriteBytes(c, e1, f) == Tagged(7, 1, s.index) && WriteState(c, e1, f) == e1
      && Lookup(c, e1.ents, s.index).Some?
      && Lookup(c, e1.ents, s.index).value.name == f.name && Lookup(c, e1.ents, s.index).value.value == f.value
  {
    var e0, e1 := Announced(e), WriteState(c, e, f);
    if !SearchTable(c, e0.ents, f).full {
      NewestStays(e0.ents, f, e0.max);
      FoundAgain(c, e1.ents, f);
    }
    assert [] + FieldBytes(c, e1, f) == FieldBytes(c, e1, f);
    SuffixOfItself(e1.ents);
    SearchSound(c, e1.ents, e1.ents, f);
  }

  /** A sensitive field never enters the table. */
  lemma SensitiveStaysOut(c: Constants, e: EncState, f: HeaderField)
    requires f.sensitive
    ensures WriteState(c, e, f).ents == e.ents
  {
  }

  // ---------------------------------------------------------------- an example of the specification

  /** An index of the static table. */
  lemma IndexedStep(c: Constants, d: DecState, i: Byte, rest: seq<Byte>, out: seq<HeaderField>)
    requires c.huffman.Valid() && d.emitEnabled && d.maxStrLen == 0 && 0 < i < 127 && i <= |c.statics|
    ensures var f := HeaderField(c.statics[i - 1].name, c.statics[i - 1].value, false);
      Drain(c, d, [0x80 + i] + rest, out) == Drain(c, d, rest, out + [f])
  {
    PrefixPowers();
    var p := [0x80 + i] + rest;
    assert p[1..] == rest;
    assert DecodeInt(7, p) == IntOk(i, rest);
  }

  /** A literal with a name of the static table that is added. */
  lemma LiteralStep(c: Constants, d: DecState, i: Byte, value: seq<Byte>, rest: seq<Byte>, out: seq<HeaderField>)
    requires c.huffman.Valid() && d.emitEnabled && d.maxStrLen == 0 && 0 < i < 63 && i <= |c.statics|
    requires |value| < 127
    ensures var f := HeaderField(c.statics[i - 1].name, value, false);
      Drain(c, d, [0x40 + i] + ([|value|] + (value + rest)), out) == Drain(c, Added(d, f), rest, out + [f])
  {
    PrefixPowers();
    var q := [|value|] + (value + rest);
    var p := [0x40 + i] + q;
    var f := HeaderField(c.statics[i - 1].name, value, false);
    assert p[1..] == q && q[1..] == value + rest;
    assert (value + rest)[..|value|] == value && (value + rest)[|value|..] == rest;
    assert DecodeInt(6, p) == IntOk(i, q);
    assert DecodeInt(7, q) == IntOk(|value|, value + rest);
    assert ReadString(c.huffman, 0, q, true) == StrOk(value, rest);
    assert Lookup(c, d.ents, i) == Some(c.statics[i - 1]);
    assert LiteralName(c, d, i, q, IndexedTrue) == Emit(Added(d, f), f, rest);
    assert Parse(c, d, p) == Parsed(Added(d, f), [f], rest);
  }

  lemma FourStatics()
    ensures |STATIC_TABLE| == 61
    ensures STATIC_TABLE[0] == Pair(":authority", "") && STATIC_TABLE[1] == Pair(":method", "GET")
    ensures STATIC_TABLE[3] == Pair(":path", "/") && STATIC_TABLE[5] == Pair(":scheme", "http")
  {
    assert StaticRow(1) == (":authority", "") && StaticRow(2) == (":method", "GET");
    assert StaticRow(4) == (":path", "/") && StaticRow(6) == (":scheme", "http");
  }

  /** The first request of appendix C.3 of RFC 7541, which leaves a table of size 57. */
  lemma FirstRequest()
    ensures HPACK.Usable()
    ensures var www := Octets("www.example.com");
      var f := HeaderField(Octets(":authority"), www, false);
      var p := [0x82] + ([0x86] + ([0x84] + ([0x41] + ([0x0f] + (www + [])))));
      && Drain(HPACK, DecState([], 4096, 4096, true, 0), p, [])
         == Written(DecState([f], 4096, 4096, true, 0), [],
                    [Pair(":method", "GET"), Pair(":scheme", "http"), Pair(":path", "/"), f], None)
      && TableSize([f]) == 57
  {
    HpackUsable();
    FourStatics();
    Requested(HPACK, Octets("www.example.com"));
  }

  lemma Requested(c: Constants, www: seq<Byte>)
    requires c.huffman.Valid() && |c.statics| == 61 && |c.statics[0].name| == 10 && |www| == 15
    requires !c.statics[1].sensitive && !c.statics[3].sensitive && !c.statics[5].sensitive
    ensures var f := HeaderField(c.statics[0].name, www, false);
      var p := [0x82] + ([0x86] + ([0x84] + ([0x41] + ([0x0f] + (www + [])))));
      && Drain(c, DecState([], 4096, 4096, true, 0), p, [])
         == Written(DecState([f], 4096, 4096, true, 0), [], [c.statics[1], c.statics[5], c.statics[3], f], None)
      && TableSize([f]) == 57
  {
    var d := DecState([], 4096, 4096, true, 0);
    var f := HeaderField(c.statics[0].name, www, false);
    var a := [0x41] + ([0x0f] + (www + []));
    var m, s, p := c.statics[1], c.statics[5], c.statics[3];
    IndexedStep(c, d, 2, [0x86] + ([0x84] + a), []);
    IndexedStep(c, d, 6, [0x84] + a, [] + [m]);
    IndexedStep(c, d, 4, a, [] + [m] + [s]);
    LiteralStep(c, d, 1, www, [], [] + [m] + [s] + [p]);
    OnlyEntry(d, f);
    FourFields(m, s, p, f);
    NothingLeft(c, Added(d, f), [m, s, p, f]);
  }

  lemma OnlyEntry(d: DecState, f: HeaderField)
    requires d.ents == [] && d.max == 4096 && |f.name| == 10 && |f.value| == 15
    ensures TableSize([f]) == 57 && Added(d, f) == d.(ents := [f])
  {
    assert [f][1..] == [];
    assert TableSize([f]) == 57;
    assert [] + [f] == [f];
  }

  lemma FourFields(m: HeaderField, s: HeaderField, p: HeaderField, f: HeaderField)
    ensures [] + [m] + [s] + [p] + [f] == [m, s, p, f]
  {
  }

  lemma NothingLeft(c: Constants, d: DecState, out: seq<HeaderField>)
    requires c.huffman.Valid()
    ensures Drain(c, d, [], out) == Written(d, [], out, None)
  {
  }

  // ---------------------------------------------------------------- the order of the static table

  /** The texts are equal up to k, where a is smaller; the end of a text counts as the largest letter, or
      else as the smallest. */
  predicate Differs(a: string, b: string, k: nat, endIsLast: bool) {
    && k <= |a| && k <= |b| && (forall j :: 0 <= j < k ==> a[j] == b[j])
    && if k == |a| then !endIsLast && k < |b| else if k == |b| then endIsLast else a[k] < b[k]
  }

  ghost predicate RowBefore(a: (string, string), b: (string, string)) {
    (exists k :: Differs(a.0, b.0, k, true)) || (a.0 == b.0 && exists k :: Differs(a.1, b.1, k, false))
  }

  lemma Ordered0(i: nat)
    requires 1 <= i < 11
    ensures RowBefore(StaticRow(i), StaticRow(i + 1))
  {
    assert Differs(":authority", ":method", 1, true);
    assert Differs("GET", "POST", 0, false);
    assert Differs(":method", ":path", 1, true);
    assert Differs("/", "/index.html", 1, false);
    assert Differs(":path", ":scheme", 1, true);
    assert Differs("http", "https", 4, false);
    assert Differs(":scheme", ":status", 2, true);
    assert Differs("200", "204", 2, false);
    assert Differs("204", "206", 2, false);
    assert Differs("206", "304", 0, false);
  }

  lemma Ordered1(i: nat)
    requires 11 <= i < 21
    ensures RowBefore(StaticRow(i), StaticRow(i + 1))
  {
    assert Differs("304", "400", 0, false);
    assert Differs("400", "404", 2, false);
    assert Differs("404", "500", 0, false);
    assert Differs(":status", "accept-charset", 0, true);
    assert Differs("accept-charset", "accept-encoding", 7, true);
    assert Differs("accept-encoding", "accept-language", 7, true);
    assert Differs("accept-language", "accept-ranges", 7, true);
    assert Differs("accept-ranges", "accept", 6, true);
    assert Differs("accept", "access-control-allow-origin", 4, true);
    assert Differs("access-control-allow-origin", "age", 1, true);
  }

  lemma Ordered2(i: nat)
    requires 21 <= i < 31
    ensures RowBefore(StaticRow(i), StaticRow(i + 1))
  {
    assert Differs("age", "allow", 1, true);
    assert Differs("allow", "authorization", 1, true);
    assert Differs("authorization", "cache-control", 0, true);
    assert Differs("cache-control", "content-disposition", 1, true);
    assert Differs("content-disposition", "content-encoding", 8, true);
    assert Differs("content-encoding", "content-language", 8, true);
    assert Differs("content-language", "content-length", 9, true);
    assert Differs("content-length", "content-location", 9, true);
    assert Differs("content-location", "content-range", 8, true);
    assert Differs("content-range", "content-type", 8, true);
  }

  lemma Ordered3(i: nat)
    requires 31 <= i < 41
    ensures RowBefore(StaticRow(i), StaticRow(i + 1))
  {
    assert Differs("content-type", "cookie", 2, true);
    assert Differs("cookie", "date", 0, true);
    assert Differs("date", "etag", 0, true);
    assert Differs("etag", "expect", 1, true);
    assert Differs("expect", "expires", 3, true);
    assert Differs("expires", "from", 0, true);
    assert Differs("from", "host", 0, true);
    assert Differs("host", "if-match", 0, true);
    assert Differs("if-match", "if-modified-since", 4, true);
    assert Differs("if-modified-since", "if-none-match", 3, true);
  }

  lemma Ordered4(i: nat)
    requires 41 <= i < 51
    ensures RowBefore(StaticRow(i), StaticRow(i + 1))
  {
    assert Differs("if-none-match", "if-range", 3, true);
    assert Differs("if-range", "if-unmodified-since", 3, true);
    assert Differs("if-unmodified-since", "last-modified", 0, true);
    assert Differs("last-modified", "link", 1, true);
    assert Differs("link", "location", 1, true);
    assert Differs("location", "max-forwards", 0, true);
    assert Differs("max-forwards", "proxy-authenticate", 0, true);
    assert Differs("proxy-authenticate", "proxy-authorization", 10, true);
    assert Differs("proxy-authorization", "range", 0, true);
    assert Differs("range", "referer", 1, true);
  }

  lemma Ordered5(i: nat)
    requires 51 <= i < 61
    ensures RowBefore(StaticRow(i), StaticRow(i + 1))
  {
    assert Differs("referer", "refresh", 3, true);
    assert Differs("refresh", "retry-after", 2, true);
    assert Differs("retry-after", "server", 0, true);
    assert Differs("server", "set-cookie", 2, true);
    assert Differs("set-cookie", "strict-transport-security", 1, true);
    assert Differs("strict-transport-security", "transfer-encoding", 0, true);
    assert Differs("transfer-encoding", "user-agent", 0, true);
    assert Differs("user-agent", "vary", 0, true);
    assert Differs("vary", "via", 1, true);
    assert Differs("via", "www-authenticate", 0, true);
  }

  /** The static table is in the order of names, then of values: every entry has its place. */
  lemma StaticOrder(i: nat)
    requires 0 < i < STATICS
    ensures RowBefore(StaticRow(i), StaticRow(i + 1))
  {
    if i < 11 { Ordered0(i); } else if i < 21 { Ordered1(i); } else if i < 31 { Ordered2(i); }
    else if i < 41 { Ordered3(i); } else if i < 51 { Ordered4(i); } else { Ordered5(i); }
  }
}
