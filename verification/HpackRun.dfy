/** Whole runs of an HPACK connection: the decoder gives back exactly the fields that were
    written, and the two dynamic tables stay synchronised (RFC 7541, sections 2.3, 4 and 6). */
module HpackRun {
  import opened Bits
  import opened Options
  import opened HpackPrefixCode
  import opened HpackHuffmanEncoder
  import opened HpackHuffmanDecoder
  import opened HpackVarInt
  import opened HpackTable
  import opened HpackEncoder
  import opened HpackDecoder

  // ---------------------------------------------------------------- reading what was written

  lemma TaggedRead(n: nat, tag: nat, i: nat, rest: seq<Byte>)
    requires 4 <= n <= 7 && tag <= 1 && i < 0x8000_0000_0000_0000
    ensures DecodeInt(n, Tagged(n, tag, i) + rest) == IntOk(i, rest)
    ensures (Tagged(n, tag, i) + rest)[0] / Pow2(n) == tag
  {
    var x := EncodeInt(n, i)[0];
    TaggedIs(n, tag, i, x);
    DivMulAdd(tag, Pow2(n), x);
    IntRoundTrip(n, i, tag * Pow2(n) + x, rest);
  }

  lemma TaggedIs(n: nat, tag: nat, i: nat, x: nat)
    requires 4 <= n <= 7 && tag <= 1 && x == EncodeInt(n, i)[0]
    ensures tag * Pow2(n) + x < 256 && Tagged(n, tag, i) == EncodeInt(n, i)[0 := tag * Pow2(n) + x]
  {
    TagFits(n, tag, x);
  }

  lemma PrefixPowers()
    ensures Pow2(7) == 128 && Pow2(6) == 64 && Pow2(5) == 32 && Pow2(4) == 16
  {
    Pow2Constants();
  }

  lemma StringRead(h: PrefixCode, s: seq<Byte>, rest: seq<Byte>)
    requires h.Valid() && |s| < MEMORY
    ensures ReadString(h, 0, EncodeString(h, s) + rest, true) == StrOk(s, rest)
  {
    var n := HuffmanLength(h, s);
    PrefixPowers();
    if n < |s| {
      LengthAgrees(h, s);
      HuffmanRoundTrip(h, s, 0);
      StringParts(h, Tagged(7, 1, n), HuffmanBytes(h, s), rest, n, 1);
    } else {
      StringParts(h, Tagged(7, 0, |s|), s, rest, |s|, 0);
    }
  }

  /** A length, that many bytes, and what follows them. */
  lemma StringParts(h: PrefixCode, p: seq<Byte>, v: seq<Byte>, rest: seq<Byte>, n: nat, tag: nat)
    requires h.Valid() && n == |v| < MEMORY && tag <= 1 && p == Tagged(7, tag, n)
    ensures ReadString(h, 0, p + v + rest, true) == if tag == 0 then StrOk(v, rest) else DecodeHuffman(h, 0, v, rest)
  {
    PrefixPowers();
    TaggedRead(7, tag, n, v + rest);
    assert p + v + rest == p + (v + rest);
    assert (v + rest)[..n] == v && (v + rest)[n..] == rest;
  }

  lemma LiteralRead(c: Constants, d: DecState, f: HeaderField, i: nat, it: IndexType,
                    name: seq<Byte>, value: seq<Byte>, rest: seq<Byte>)
    requires c.huffman.Valid() && InMemory(f) && d.emitEnabled && d.maxStrLen == 0
    requires f.sensitive == it.IndexedNever?
    requires i > 0 ==> Lookup(c, d.ents, i).Some? && Lookup(c, d.ents, i).value.name == f.name
    requires name == (if i == 0 then EncodeString(c.huffman, f.name) else [])
    requires value == EncodeString(c.huffman, f.value)
    ensures LiteralName(c, d, i, name + value + rest, it)
         == Parsed(if it.IndexedTrue? then Added(d, f) else d, [f], rest)
  {
    var q := value + rest;
    ThreeParts(name, value, rest);
    ValueRead(c, d, f, it, rest);
    if i == 0 {
      NameRead(c, d, f, it, name + q, q);
    } else {
      NameLooked(c, d, f, i, it, q);
    }
  }

  lemma ThreeParts(a: seq<Byte>, b: seq<Byte>, c: seq<Byte>)
    ensures a + b + c == a + (b + c)
    ensures a == [] ==> a + (b + c) == b + c
  {
  }

  lemma NameRead(c: Constants, d: DecState, f: HeaderField, it: IndexType, p: seq<Byte>, q: seq<Byte>)
    requires c.huffman.Valid() && InMemory(f) && d.emitEnabled && d.maxStrLen == 0
    requires p == EncodeString(c.huffman, f.name) + q
    ensures LiteralName(c, d, 0, p, it) == LiteralValue(c, d, f.name, q, it, true)
  {
    StringRead(c.huffman, f.name, q);
  }

  lemma NameLooked(c: Constants, d: DecState, f: HeaderField, i: nat, it: IndexType, q: seq<Byte>)
    requires c.huffman.Valid() && d.emitEnabled && i > 0
    requires Lookup(c, d.ents, i).Some? && Lookup(c, d.ents, i).value.name == f.name
    ensures LiteralName(c, d, i, q, it) == LiteralValue(c, d, f.name, q, it, true)
  {
  }

  lemma ValueRead(c: Constants, d: DecState, f: HeaderField, it: IndexType, rest: seq<Byte>)
    requires c.huffman.Valid() && InMemory(f) && d.emitEnabled && d.maxStrLen == 0
    requires f.sensitive == it.IndexedNever?
    ensures LiteralValue(c, d, f.name, EncodeString(c.huffman, f.value) + rest, it, true)
         == Parsed(if it.IndexedTrue? then Added(d, f) else d, [f], rest)
  {
    StringRead(c.huffman, f.value, rest);
  }

  /** How the decoder classifies a literal of the encoder. */
  function TypeOf(indexing: bool, sensitive: bool): IndexType {
    if indexing then IndexedTrue else if sensitive then IndexedNever else IndexedFalse
  }

  lemma LiteralParsed(c: Constants, d: DecState, f: HeaderField, i: nat, indexing: bool, rest: seq<Byte>)
    requires c.huffman.Valid() && InMemory(f) && d.emitEnabled && d.maxStrLen == 0
    requires !(indexing && f.sensitive) && i < 0x8000_0000_0000_0000
    requires i > 0 ==> Lookup(c, d.ents, i).Some? && Lookup(c, d.ents, i).value.name == f.name
    ensures Parse(c, d, Literal(c.huffman, f, i, indexing) + rest)
         == Parsed(if indexing then Added(d, f) else d, [f], rest)
  {
    var h, it := c.huffman, TypeOf(indexing, f.sensitive);
    var name := if i == 0 then EncodeString(h, f.name) else [];
    var prefix := Tagged(LiteralPrefix(indexing), LiteralTag(indexing, f.sensitive), i);
    LiteralRead(c, d, f, i, it, name, EncodeString(h, f.value), rest);
    LiteralFrom(c, d, i, indexing, f.sensitive, name + EncodeString(h, f.value) + rest,
                LiteralPrefix(indexing), LiteralTag(indexing, f.sensitive));
    FourParts(prefix, name, EncodeString(h, f.value), rest);
  }

  lemma FourParts(a: seq<Byte>, b: seq<Byte>, c: seq<Byte>, d: seq<Byte>)
    ensures (a + b + c) + d == a + (b + c + d)
  {
  }

  lemma LiteralFrom(c: Constants, d: DecState, i: nat, indexing: bool, sensitive: bool, strings: seq<Byte>,
      n: nat, tag: nat)
    requires c.huffman.Valid() && !(indexing && sensitive) && i < 0x8000_0000_0000_0000
    requires n == LiteralPrefix(indexing) && tag == LiteralTag(indexing, sensitive)
    ensures Parse(c, d, Tagged(n, tag, i) + strings) == LiteralName(c, d, i, strings, TypeOf(indexing, sensitive))
  {
    var p := Tagged(n, tag, i) + strings;
    TaggedRead(n, tag, i, strings);
    LiteralKind(c, d, p, n, tag, indexing, sensitive);
    IndexThenName(c, d, p, n, i, strings, TypeOf(indexing, sensitive));
  }

  lemma IndexThenName(c: Constants, d: DecState, p: seq<Byte>, n: nat, i: nat, q: seq<Byte>, it: IndexType)
    requires c.huffman.Valid() && 1 <= n <= 8 && DecodeInt(n, p) == IntOk(i, q)
    ensures ParseLiteral(c, d, p, n, it) == LiteralName(c, d, i, q, it)
  {
  }

  lemma LiteralKind(c: Constants, d: DecState, p: seq<Byte>, n: nat, tag: nat, indexing: bool, sensitive: bool)
    requires c.huffman.Valid() && p != [] && !(indexing && sensitive)
    requires n == LiteralPrefix(indexing) && tag == LiteralTag(indexing, sensitive) && p[0] / Pow2(n) == tag
    ensures Parse(c, d, p) == ParseLiteral(c, d, p, n, TypeOf(indexing, sensitive))
  {
    PrefixPowers();
    LiteralBits(p[0], indexing, sensitive);
  }

  lemma LiteralBits(b: Byte, indexing: bool, sensitive: bool)
    requires if indexing then b / 64 == 1 else b / 16 == if sensitive then 1 else 0
    ensures b / 128 != 1 && (!indexing ==> b / 64 != 1)
  {
  }

  lemma IndexedParsed(c: Constants, d: DecState, f: HeaderField, i: nat, rest: seq<Byte>)
    requires c.huffman.Valid() && d.emitEnabled && d.maxStrLen == 0 && i < 0x8000_0000_0000_0000
    requires Lookup(c, d.ents, i).Some? && !f.sensitive
    requires Lookup(c, d.ents, i).value.name == f.name && Lookup(c, d.ents, i).value.value == f.value
    ensures Parse(c, d, Tagged(7, 1, i) + rest) == Parsed(d, [f], rest)
  {
    TaggedRead(7, 1, i, rest);
    PrefixPowers();
  }

  lemma UpdateParsed(c: Constants, d: DecState, v: nat, rest: seq<Byte>)
    requires c.huffman.Valid() && v < U32
    ensures Parse(c, d, SizeUpdate(v) + rest)
         == if v > d.allowed then Fatal(SizeUpdateTooLarge, d) else Parsed(Resized(d, v), [], rest)
  {
    TaggedRead(5, 1, v, rest);
    PrefixPowers();
    UpdateKind((SizeUpdate(v) + rest)[0]);
  }

  lemma UpdateKind(b: Byte)
    requires b / 32 == 1
    ensures b / 128 != 1 && b / 64 != 1 && b / 16 != 0 && b / 16 != 1
  {
  }

  function Resized(d: DecState, v: nat): DecState {
    d.(ents := Evicted(d.ents, v), max := v)
  }

  // ---------------------------------------------------------------- synchronisation

  /** The encoder's table is the newest part of the decoder's, and the encoder may still
      shrink it to every size it is going to announce. */
  ghost predicate Synced(e: EncState, d: DecState) {
    && e.Valid() && TableSize(e.ents) <= e.minSize && e.max <= d.allowed
    && (!e.update ==> e.minSize == UINT32_MAX && e.max <= d.max)
    && Suffix(e.ents, d.ents)
    && d.emitEnabled && d.maxStrLen == 0
  }

  lemma StartSynced(max: nat)
    requires INITIAL_TABLE_SIZE <= max < U32
    ensures Synced(NewEncoder(), DecState([], max, max, true, 0))
  {
  }

  lemma SetMaxSynced(e: EncState, d: DecState, v: nat)
    requires Synced(e, d) && v < U32 && (v <= d.allowed || e.limit <= d.allowed)
    ensures Synced(SetMax(e, v), d)
  {
    Shrunk(e, d, if v > e.limit then e.limit else v);
  }

  lemma SetLimitSynced(e: EncState, d: DecState, v: nat)
    requires Synced(e, d) && v < U32
    ensures Synced(SetLimit(e, v), d)
  {
    Shrunk(e, d, v);
  }

  lemma Shrunk(e: EncState, d: DecState, v: nat)
    requires Suffix(e.ents, d.ents)
    ensures var a := Evicted(e.ents, v);
      Suffix(a, d.ents) && TableSize(a) <= v && (TableSize(e.ents) <= v ==> a == e.ents)
  {
    EvictedLongest(e.ents, v);
    EvictedFits(e.ents, v);
    SuffixTransitive(Evicted(e.ents, v), e.ents, d.ents);
  }

  lemma KeptByEviction(a: seq<HeaderField>, b: seq<HeaderField>, v: nat)
    requires Suffix(a, b) && TableSize(a) <= v
    ensures Suffix(a, Evicted(b, v))
  {
    EvictedLongest(b, v);
  }

  /** The decoder after the announcements of e. */
  function Heard(e: EncState, d: DecState): DecState {
    if !e.update then d
    else if e.minSize < e.max then Resized(Resized(d, e.minSize), e.max)
    else Resized(d, e.max)
  }

  lemma HeardSynced(e: EncState, d: DecState)
    requires Synced(e, d)
    ensures Synced(Announced(e), Heard(e, d))
  {
    if e.update {
      if e.minSize < e.max {
        KeptByEviction(e.ents, d.ents, e.minSize);
        KeptByEviction(e.ents, Evicted(d.ents, e.minSize), e.max);
      } else {
        KeptByEviction(e.ents, d.ents, e.max);
      }
    }
  }

  lemma UpdatesDrained(c: Constants, e: EncState, d: DecState, rest: seq<Byte>, out: seq<HeaderField>)
    requires c.huffman.Valid() && Synced(e, d)
    ensures Drain(c, d, Updates(e) + rest, out) == Drain(c, Heard(e, d), rest, out)
  {
    if e.update {
      var last := SizeUpdate(e.max) + rest;
      if e.minSize < e.max {
        assert Updates(e) + rest == SizeUpdate(e.minSize) + last;
        UpdateDrained(c, d, e.minSize, last, out);
        UpdateDrained(c, Resized(d, e.minSize), e.max, rest, out);
      } else {
        assert Updates(e) + rest == last;
        UpdateDrained(c, d, e.max, rest, out);
      }
    } else {
      assert Updates(e) + rest == rest;
    }
  }

  lemma UpdateDrained(c: Constants, d: DecState, v: nat, rest: seq<Byte>, out: seq<HeaderField>)
    requires c.huffman.Valid() && v < U32 && v <= d.allowed
    ensures Drain(c, d, SizeUpdate(v) + rest, out) == Drain(c, Resized(d, v), rest, out)
  {
    UpdateParsed(c, d, v, rest);
    assert out + [] == out;
  }

  /** The decoder after the bytes of f alone. */
  function Got(c: Constants, e: EncState, d: DecState, f: HeaderField): DecState {
    if !SearchTable(c, e.ents, f).full && ShouldIndex(e, f) then Added(d, f) else d
  }

  lemma FieldParsed(c: Constants, e: EncState, d: DecState, f: HeaderField, rest: seq<Byte>)
    requires c.Usable() && Synced(e, d) && InMemory(f) && |e.ents| < MEMORY
    ensures Parse(c, d, FieldBytes(c, e, f) + rest) == Parsed(Got(c, e, d, f), [f], rest)
  {
    SearchSound(c, e.ents, d.ents, f);
    var s := SearchTable(c, e.ents, f);
    if s.full {
      IndexedParsed(c, d, f, s.index, rest);
    } else {
      LiteralParsed(c, d, f, s.index, ShouldIndex(e, f), rest);
    }
  }

  lemma GotSynced(c: Constants, e: EncState, d: DecState, f: HeaderField)
    requires Synced(e, d) && !e.update
    ensures Synced(Indexed(c, e, f), Got(c, e, d, f))
  {
    if !SearchTable(c, e.ents, f).full && ShouldIndex(e, f) {
      BothAdd(e.ents, d.ents, f, e.max, d.max);
    }
  }

  lemma BothAdd(a: seq<HeaderField>, b: seq<HeaderField>, f: HeaderField, m: nat, n: nat)
    requires Suffix(a, b) && m <= n
    ensures Suffix(Evicted(a + [f], m), Evicted(b + [f], n)) && TableSize(Evicted(a + [f], m)) <= m
  {
    EvictedLongest(a + [f], m);
    SuffixSnoc(a, b, f);
    SuffixTransitive(Evicted(a + [f], m), a + [f], b + [f]);
    KeptByEviction(Evicted(a + [f], m), b + [f], n);
  }

  lemma SuffixSnoc(a: seq<HeaderField>, b: seq<HeaderField>, f: HeaderField)
    requires Suffix(a, b)
    ensures Suffix(a + [f], b + [f])
  {
    assert (b + [f])[|b| - |a|..] == b[|b| - |a|..] + [f];
  }

  // ---------------------------------------------------------------- runs

  datatype Op =
    | WriteField(f: HeaderField)
    | SetMaxDynamicTableSize(v: nat)
    | SetMaxDynamicTableSizeLimit(v: nat)

  function Next(c: Constants, e: EncState, op: Op): EncState {
    match op
    case WriteField(f) => WriteState(c, e, f)
    case SetMaxDynamicTableSize(v) => SetMax(e, v)
    case SetMaxDynamicTableSizeLimit(v) => SetLimit(e, v)
  }

  function Output(c: Constants, e: EncState, op: Op): seq<Byte>
    requires c.huffman.Shaped()
  {
    match op
    case WriteField(f) => WriteBytes(c, e, f)
    case _ => []
  }

  function EndState(c: Constants, e: EncState, ops: seq<Op>): EncState
    decreases |ops|
  {
    if ops == [] then e else EndState(c, Next(c, e, ops[0]), ops[1..])
  }

  function AllOutput(c: Constants, e: EncState, ops: seq<Op>): seq<Byte>
    requires c.huffman.Shaped()
    decreases |ops|
  {
    if ops == [] then [] else Output(c, e, ops[0]) + AllOutput(c, Next(c, e, ops[0]), ops[1..])
  }

  function FieldsOf(op: Op): seq<HeaderField> {
    match op
    case WriteField(f) => [f]
    case _ => []
  }

  function Fields(ops: seq<Op>): seq<HeaderField> {
    if ops == [] then [] else FieldsOf(ops[0]) + Fields(ops[1..])
  }

  /** The calls of a run are possible, and the decoder allows each size that they ask for. */
  predicate Permitted(c: Constants, e: EncState, ops: seq<Op>, allowed: nat)
    decreases |ops|
  {
    ops == [] || (OpPermitted(e, ops[0], allowed) && Permitted(c, Next(c, e, ops[0]), ops[1..], allowed))
  }

  predicate OpPermitted(e: EncState, op: Op, allowed: nat) {
    match op
    case WriteField(f) => InMemory(f)
    case SetMaxDynamicTableSize(v) => v < U32 && (v <= allowed || e.limit <= allowed)
    case SetMaxDynamicTableSizeLimit(v) => v < U32
  }

  /** The decoder after the output of one call. */
  function Follow(c: Constants, e: EncState, d: DecState, op: Op): DecState {
    match op
    case WriteField(f) => Got(c, Announced(e), Heard(e, d), f)
    case _ => d
  }

  lemma OpSynced(c: Constants, e: EncState, d: DecState, op: Op)
    requires c.Usable() && Synced(e, d) && OpPermitted(e, op, d.allowed)
    ensures Synced(Next(c, e, op), Follow(c, e, d, op)) && Follow(c, e, d, op).allowed == d.allowed
  {
    match op
    case WriteField(f) =>
      HeardSynced(e, d);
      GotSynced(c, Announced(e), Heard(e, d), f);
    case SetMaxDynamicTableSize(v) => SetMaxSynced(e, d, v);
    case SetMaxDynamicTableSizeLimit(v) => SetLimitSynced(e, d, v);
  }

  lemma OpDrained(c: Constants, e: EncState, d: DecState, op: Op, rest: seq<Byte>, out: seq<HeaderField>)
    requires c.Usable() && Synced(e, d) && OpPermitted(e, op, d.allowed) && |e.ents| < MEMORY
    ensures Drain(c, d, Output(c, e, op) + rest, out) == Drain(c, Follow(c, e, d, op), rest, out + FieldsOf(op))
  {
    assert [] + rest == rest && out + [] == out;
    match op
    case WriteField(f) =>
      var e', d' := Announced(e), Heard(e, d);
      var p := FieldBytes(c, e', f) + rest;
      assert WriteBytes(c, e, f) + rest == Updates(e) + p;
      UpdatesDrained(c, e, d, p, out);
      HeardSynced(e, d);
      FieldParsed(c, e', d', f, rest);
    case _ =>
  }

  lemma Grows(c: Constants, e: EncState, op: Op)
    ensures |Next(c, e, op).ents| <= |e.ents| + 1
  {
  }

  /** The decoder after the output of a run. */
  function FollowAll(c: Constants, e: EncState, d: DecState, ops: seq<Op>): DecState
    decreases |ops|
  {
    if ops == [] then d else FollowAll(c, Next(c, e, ops[0]), Follow(c, e, d, ops[0]), ops[1..])
  }

  /** In every run the encoder's table stays the newest part of the decoder's. */
  lemma {:induction false} RunSynced(c: Constants, e: EncState, d: DecState, ops: seq<Op>)
    requires c.Usable() && Synced(e, d) && Permitted(c, e, ops, d.allowed)
    ensures Synced(EndState(c, e, ops), FollowAll(c, e, d, ops))
    decreases |ops|
  {
    if ops != [] {
      OpSynced(c, e, d, ops[0]);
      RunSynced(c, Next(c, e, ops[0]), Follow(c, e, d, ops[0]), ops[1..]);
    }
  }

  /** Decoding the output of a run, from any synchronised pair, emits exactly the fields written,
      in order and with their sensitivity. */
  lemma {:induction false} RunDecodes(c: Constants, e: EncState, d: DecState, ops: seq<Op>, rest: seq<Byte>,
      out: seq<HeaderField>)
    requires c.Usable() && Synced(e, d) && Permitted(c, e, ops, d.allowed) && |e.ents| + |ops| < MEMORY
    ensures Drain(c, d, AllOutput(c, e, ops) + rest, out) == Drain(c, FollowAll(c, e, d, ops), rest, out + Fields(ops))
    decreases |ops|
  {
    if ops == [] {
      assert [] + rest == rest && out + [] == out;
    } else {
      var op, later := ops[0], ops[1..];
      var e1, d1 := Next(c, e, op), Follow(c, e, d, op);
      OpSynced(c, e, d, op);
      Grows(c, e, op);
      OpDrained(c, e, d, op, AllOutput(c, e1, later) + rest, out);
      RunDecodes(c, e1, d1, later, rest, out + FieldsOf(op));
      ThenLater(c, d, d1, FollowAll(c, e1, d1, later), Output(c, e, op), AllOutput(c, e1, later), rest, out,
                FieldsOf(op), Fields(later));
    }
  }

  lemma ThenLater(c: Constants, d: DecState, d1: DecState, d2: DecState, x: seq<Byte>, y: seq<Byte>, rest: seq<Byte>,
                  out: seq<HeaderField>, fx: seq<HeaderField>, fy: seq<HeaderField>)
    requires c.huffman.Valid()
    requires Drain(c, d, x + (y + rest), out) == Drain(c, d1, y + rest, out + fx)
    requires Drain(c, d1, y + rest, out + fx) == Drain(c, d2, rest, out + fx + fy)
    ensures Drain(c, d, (x + y) + rest, out) == Drain(c, d2, rest, out + (fx + fy))
  {
    assert x + (y + rest) == (x + y) + rest;
    assert out + fx + fy == out + (fx + fy);
  }

  /** The whole connection, from a new encoder and a new decoder of at least its size, whatever
      the pieces in which the output arrives. */
  lemma ConnectionRoundTrip(c: Constants, max: nat, ops: seq<Op>, ps: seq<seq<Byte>>)
    requires c.Usable() && INITIAL_TABLE_SIZE <= max < U32 && |ops| < MEMORY
    requires Permitted(c, NewEncoder(), ops, max)
    requires Concat(ps) == AllOutput(c, NewEncoder(), ops)
    ensures var w := WriteAll(c, DecState([], max, max, true, 0), [], ps, []);
      && w.emitted == Fields(ops) && w.err == None && w.saved == []
      && Synced(EndState(c, NewEncoder(), ops), w.d)
      && Suffix(EndState(c, NewEncoder(), ops).ents, w.d.ents)
  {
    var e, d := NewEncoder(), DecState([], max, max, true, 0);
    StartSynced(max);
    var d' := FollowAll(c, e, d, ops);
    RunSynced(c, e, d, ops);
    RunDecodes(c, e, d, ops, [], []);
    ChunksDoNotMatter(c, d, [], ps, []);
    var b := AllOutput(c, e, ops);
    assert b + [] == b && [] + b == b && [] + Fields(ops) == Fields(ops);
    NothingWritten(c, d, b, d', Fields(ops));
  }

  lemma NothingWritten(c: Constants, d: DecState, b: seq<Byte>, d': DecState, fs: seq<HeaderField>)
    requires c.huffman.Valid() && Drain(c, d, b, []) == Drain(c, d', [], fs)
    ensures Write(c, d, [], b, []) == Written(d', [], fs, None)
  {
    assert [] + b == b;
  }
}
