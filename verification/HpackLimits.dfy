/** The limits of both ends, by the calls that set them: the encoder's table never exceeds the limit in
    force, nor does any size that it announces; the decoder's table never exceeds what it allows, and it
    emits no string longer than it was told to. */
module HpackLimits {
  import opened Bits
  import opened Options
  import opened HpackPrefixCode
  import opened HpackVarInt
  import opened HpackTable
  import opened HpackEncoder
  import opened HpackDecoder
  import opened HpackRun

  // ---------------------------------------------------------------- the encoder's settings, by its calls

  function Smaller(a: nat, b: nat): nat { if a < b then a else b }

  /** The limit in force: the last one set, 4096 before any. */
  function LimitIn(ops: seq<Op>): nat {
    if ops == [] then 4096
    else
      match ops[|ops| - 1]
      case SetMaxDynamicTableSizeLimit(v) => v
      case _ => LimitIn(ops[..|ops| - 1])
  }

  /** The size of the table: the last one asked for, cut by the limits since. */
  function SizeIn(ops: seq<Op>): nat {
    if ops == [] then 4096
    else
      var before := ops[..|ops| - 1];
      match ops[|ops| - 1]
      case SetMaxDynamicTableSize(v) => Smaller(v, LimitIn(before))
      case SetMaxDynamicTableSizeLimit(v) => Smaller(SizeIn(before), v)
      case WriteField(_) => SizeIn(before)
  }

  /** The smallest size asked for since the last field, if there is one. */
  function LeastIn(ops: seq<Op>): Option<nat> {
    if ops == [] then None
    else
      var before := ops[..|ops| - 1];
      match ops[|ops| - 1]
      case SetMaxDynamicTableSize(v) =>
        var v' := Smaller(v, LimitIn(before));
        Some(if LeastIn(before).Some? then Smaller(v', LeastIn(before).value) else v')
      case SetMaxDynamicTableSizeLimit(_) => LeastIn(before)
      case WriteField(_) => None
  }

  /** A size has been asked for, or the table cut, since the last field. */
  function ChangedIn(ops: seq<Op>): bool {
    if ops == [] then false
    else
      var before := ops[..|ops| - 1];
      match ops[|ops| - 1]
      case SetMaxDynamicTableSize(_) => true
      case SetMaxDynamicTableSizeLimit(v) => ChangedIn(before) || v < SizeIn(before)
      case WriteField(_) => false
  }

  lemma {:induction false} EndStateSnoc(c: Constants, e: EncState, ops: seq<Op>, op: Op)
    ensures EndState(c, e, ops + [op]) == Next(c, EndState(c, e, ops), op)
    decreases |ops|
  {
    if ops == [] {
      assert ops + [op] == [op] && [op][1..] == [];
    } else {
      assert (ops + [op])[1..] == ops[1..] + [op] && (ops + [op])[0] == ops[0];
      EndStateSnoc(c, Next(c, e, ops[0]), ops[1..], op);
    }
  }

  predicate Words(ops: seq<Op>) {
    forall i :: 0 <= i < |ops| ==> !ops[i].WriteField? ==> ops[i].v < U32
  }

  /** The settings of the encoder after a run are those that its calls say, and its table fits. */
  lemma {:induction false} SettingsInRun(c: Constants, ops: seq<Op>)
    requires Words(ops)
    ensures var e := EndState(c, NewEncoder(), ops);
      && e.limit == LimitIn(ops) && e.max == SizeIn(ops) && e.update == ChangedIn(ops)
      && e.minSize == (if LeastIn(ops).Some? then LeastIn(ops).value else UINT32_MAX)
      && TableSize(e.ents) <= SizeIn(ops) <= LimitIn(ops) < U32
      && (LeastIn(ops).Some? ==> ChangedIn(ops))
    decreases |ops|
  {
    if ops != [] {
      var before, op := ops[..|ops| - 1], ops[|ops| - 1];
      assert before + [op] == ops;
      SettingsInRun(c, before);
      EndStateSnoc(c, NewEncoder(), before, op);
      SettingsStep(c, EndState(c, NewEncoder(), before), op);
    }
  }

  lemma SettingsStep(c: Constants, e: EncState, op: Op)
    requires TableSize(e.ents) <= e.max && (!e.update ==> e.minSize == UINT32_MAX)
    ensures TableSize(Next(c, e, op).ents) <= Next(c, e, op).max
  {
    match op
    case WriteField(f) => EvictedFits(e.ents + [f], e.max);
    case SetMaxDynamicTableSize(v) => EvictedFits(e.ents, Smaller(v, e.limit));
    case SetMaxDynamicTableSizeLimit(v) => EvictedFits(e.ents, v);
  }

  /** What is announced before the next field, by the calls; no size is above the limit in force. */
  lemma AnnouncedInRun(c: Constants, ops: seq<Op>)
    requires Words(ops)
    ensures var size, least := SizeIn(ops), LeastIn(ops);
      && size <= LimitIn(ops)
      && Updates(EndState(c, NewEncoder(), ops))
         == if !ChangedIn(ops) then []
            else (if least.Some? && least.value < size then SizeUpdate(least.value) else []) + SizeUpdate(size)
  {
    SettingsInRun(c, ops);
  }

  /** A size that is asked for is given, up to the limit in force. */
  lemma SizeGiven(c: Constants, ops: seq<Op>, v: nat)
    requires Words(ops) && v < U32
    ensures EndState(c, NewEncoder(), ops + [SetMaxDynamicTableSize(v)]).max == Smaller(v, LimitIn(ops))
  {
    var more := ops + [SetMaxDynamicTableSize(v)];
    assert more[..|more| - 1] == ops;
    SettingsInRun(c, more);
  }

  // ---------------------------------------------------------------- permitted runs, by their calls

  predicate CallPermitted(ops: seq<Op>, i: nat, allowed: nat)
    requires i < |ops|
  {
    match ops[i]
    case WriteField(f) => InMemory(f)
    case SetMaxDynamicTableSize(v) => v < U32 && (v <= allowed || LimitIn(ops[..i]) <= allowed)
    case SetMaxDynamicTableSizeLimit(v) => v < U32
  }

  predicate AllPermitted(ops: seq<Op>, allowed: nat) {
    forall i: nat :: i < |ops| ==> CallPermitted(ops, i, allowed)
  }

  lemma {:induction false} PermittedSnoc(c: Constants, e: EncState, ops: seq<Op>, op: Op, allowed: nat)
    ensures Permitted(c, e, ops + [op], allowed)
       <==> Permitted(c, e, ops, allowed) && OpPermitted(EndState(c, e, ops), op, allowed)
    decreases |ops|
  {
    if ops == [] {
      assert ops + [op] == [op] && [op][1..] == [];
    } else {
      assert (ops + [op])[1..] == ops[1..] + [op] && (ops + [op])[0] == ops[0];
      PermittedSnoc(c, Next(c, e, ops[0]), ops[1..], op, allowed);
    }
  }

  /** A run is permitted exactly when the decoder allows each size asked for, or the limit in force. */
  lemma {:induction false} PermittedByCalls(c: Constants, ops: seq<Op>, allowed: nat)
    ensures Permitted(c, NewEncoder(), ops, allowed) <==> AllPermitted(ops, allowed)
    decreases |ops|
  {
    if ops != [] {
      var n := |ops| - 1;
      var before, op := ops[..n], ops[n];
      assert before + [op] == ops;
      PermittedByCalls(c, before, allowed);
      PermittedSnoc(c, NewEncoder(), before, op, allowed);
      forall i: nat | i < n ensures CallPermitted(ops, i, allowed) <==> CallPermitted(before, i, allowed) {
        assert ops[..i] == before[..i];
      }
      if AllPermitted(before, allowed) {
        PermittedWords(before, allowed);
        SettingsInRun(c, before);
      }
      assert CallPermitted(ops, n, allowed) <==> CallPermitted(before + [op], n, allowed);
    }
  }

  lemma PermittedWords(ops: seq<Op>, allowed: nat)
    requires AllPermitted(ops, allowed)
    ensures Words(ops)
  {
    forall i | 0 <= i < |ops| ensures !ops[i].WriteField? ==> ops[i].v < U32 {
      assert CallPermitted(ops, i, allowed);
    }
  }

  // ---------------------------------------------------------------- the decoder's limits

  predicate Short(f: HeaderField, maxStrLen: nat) {
    maxStrLen == 0 || (|f.name| <= maxStrLen && |f.value| <= maxStrLen)
  }

  predicate AllShort(fs: seq<HeaderField>, maxStrLen: nat) {
    forall i :: 0 <= i < |fs| ==> Short(fs[i], maxStrLen)
  }

  /** The table fits its size, and that is allowed. */
  ghost predicate Within(d: DecState, d': DecState) {
    && TableSize(d'.ents) <= d'.max <= d'.allowed
    && d'.allowed == d.allowed && d'.maxStrLen == d.maxStrLen && d'.emitEnabled == d.emitEnabled
  }

  ghost predicate OutcomeWithin(d: DecState, o: Outcome) {
    match o
    case NeedMore => true
    case Fatal(_, d') => Within(d, d')
    case Parsed(d', fs, rest) => Within(d, d') && AllShort(fs, d.maxStrLen)
  }

  lemma ValueWithin(c: Constants, d: DecState, name: seq<Byte>, q: seq<Byte>, it: IndexType, want: bool)
    requires c.huffman.Valid() && Within(d, d)
    ensures OutcomeWithin(d, LiteralValue(c, d, name, q, it, want))
  {
    match ReadString(c.huffman, d.maxStrLen, q, want)
    case StrOk(value, _) => EvictedFits(d.ents + [HeaderField(name, value, false)], d.max);
    case _ =>
  }

  lemma LiteralWithin(c: Constants, d: DecState, p: seq<Byte>, n: nat, it: IndexType)
    requires c.huffman.Valid() && 1 <= n <= 8 && Within(d, d)
    ensures OutcomeWithin(d, ParseLiteral(c, d, p, n, it))
  {
    match DecodeInt(n, p)
    case IntOk(i, q) =>
      var want := d.emitEnabled || it.IndexedTrue?;
      match ReadName(c, d, q, i, want) {
        case StrOk(name, rest) => ValueWithin(c, d, name, rest, it, want);
        case _ =>
      }
    case _ =>
  }

  lemma UpdateWithin(d: DecState, p: seq<Byte>)
    requires Within(d, d)
    ensures OutcomeWithin(d, ParseSizeUpdate(d, p))
  {
    match DecodeInt(5, p)
    case IntOk(v, _) => EvictedFits(d.ents, v);
    case _ =>
  }

  lemma IndexedWithin(c: Constants, d: DecState, p: seq<Byte>)
    requires Within(d, d)
    ensures OutcomeWithin(d, ParseIndexed(c, d, p))
  {
  }

  lemma ParseWithin(c: Constants, d: DecState, p: seq<Byte>)
    requires c.huffman.Valid() && p != [] && Within(d, d)
    ensures OutcomeWithin(d, Parse(c, d, p))
  {
    var b := p[0];
    if b / 128 == 1 {
      IndexedWithin(c, d, p);
    } else if b / 64 == 1 {
      LiteralWithin(c, d, p, 6, IndexedTrue);
    } else if b / 16 == 0 {
      LiteralWithin(c, d, p, 4, IndexedFalse);
    } else if b / 16 == 1 {
      LiteralWithin(c, d, p, 4, IndexedNever);
    } else if b / 32 == 1 {
      UpdateWithin(d, p);
    }
  }

  /** Whatever arrives in whatever pieces: the table stays within the size that is allowed, no string
      that is emitted is longer than the limit, and what is kept for later is bounded by it. */
  lemma {:induction false} DecoderWithin(c: Constants, d: DecState, saved: seq<Byte>, ps: seq<seq<Byte>>,
      out: seq<HeaderField>)
    requires c.huffman.Valid() && Within(d, d) && AllShort(out, d.maxStrLen)
    requires d.maxStrLen > 0 ==> |saved| <= 2 * (d.maxStrLen + 8)
    ensures var w := WriteAll(c, d, saved, ps, out);
      Within(d, w.d) && AllShort(w.emitted, d.maxStrLen) && (d.maxStrLen > 0 ==> |w.saved| <= 2 * (d.maxStrLen + 8))
    decreases |ps|
  {
    if ps != [] {
      var w := Write(c, d, saved, ps[0], out);
      if ps[0] != [] { DrainWithin(c, d, saved + ps[0], out); }
      if w.err.None? { DecoderWithin(c, w.d, w.saved, ps[1..], w.emitted); }
    }
  }

  lemma {:induction false} DrainWithin(c: Constants, d: DecState, b: seq<Byte>, out: seq<HeaderField>)
    requires c.huffman.Valid() && Within(d, d) && AllShort(out, d.maxStrLen)
    ensures var w := Drain(c, d, b, out);
      Within(d, w.d) && AllShort(w.emitted, d.maxStrLen) && (d.maxStrLen > 0 ==> |w.saved| <= 2 * (d.maxStrLen + 8))
    decreases |b|
  {
    if b != [] {
      ParseWithin(c, d, b);
      match Parse(c, d, b)
      case Parsed(d', fs, rest) => DrainWithin(c, d', rest, out + fs);
      case _ =>
    }
  }

  // ---------------------------------------------------------------- decoding without emitting

  function Muted(d: DecState): DecState {
    d.(emitEnabled := false)
  }

  /** The same outcome without the fields; an error may go unnoticed. */
  predicate Silenced(o: Outcome, q: Outcome) {
    match o
    case NeedMore => q == NeedMore
    case Fatal(_, _) => true
    case Parsed(d', _, rest) => q == Parsed(Muted(d'), [], rest)
  }

  lemma StringUnread(h: PrefixCode, maxLen: nat, p: seq<Byte>)
    requires h.Valid()
    ensures match ReadString(h, maxLen, p, true)
            case StrOk(_, rest) => ReadString(h, maxLen, p, false) == StrOk([], rest)
            case StrMore => ReadString(h, maxLen, p, false) == StrMore
            case StrFailed(_) => true
  {
  }

  lemma ValueMuted(c: Constants, d: DecState, name: seq<Byte>, q: seq<Byte>, it: IndexType)
    requires c.huffman.Valid()
    ensures Silenced(LiteralValue(c, d, name, q, it, true), LiteralValue(c, Muted(d), name, q, it, true))
    ensures !it.IndexedTrue? ==>
      Silenced(LiteralValue(c, d, name, q, it, true), LiteralValue(c, Muted(d), [], q, it, false))
      && Silenced(LiteralValue(c, d, name, q, it, true), LiteralValue(c, Muted(d), name, q, it, false))
      && Silenced(LiteralValue(c, d, name, q, it, false), LiteralValue(c, Muted(d), name, q, it, false))
  {
    StringUnread(c.huffman, d.maxStrLen, q);
  }

  lemma NameMuted(c: Constants, d: DecState, i: nat, q: seq<Byte>, it: IndexType)
    requires c.huffman.Valid()
    ensures Silenced(LiteralName(c, d, i, q, it), LiteralName(c, Muted(d), i, q, it))
  {
    var want := d.emitEnabled || it.IndexedTrue?;
    StringUnread(c.huffman, d.maxStrLen, q);
    match ReadName(c, d, q, i, want)
    case StrOk(name, rest) => ValueMuted(c, d, name, rest, it);
    case _ =>
  }

  lemma ParseMuted(c: Constants, d: DecState, p: seq<Byte>)
    requires c.huffman.Valid() && p != []
    ensures Silenced(Parse(c, d, p), Parse(c, Muted(d), p))
  {
    var b := p[0];
    if b / 128 != 1 && (b / 64 == 1 || b / 32 == 0) {
      var n, it := if b / 64 == 1 then 6 else 4,
                   if b / 64 == 1 then IndexedTrue else if b / 16 == 0 then IndexedFalse else IndexedNever;
      LiteralMuted(c, d, p, n, it);
    }
  }

  lemma LiteralMuted(c: Constants, d: DecState, p: seq<Byte>, n: nat, it: IndexType)
    requires c.huffman.Valid() && 1 <= n <= 8
    ensures Silenced(ParseLiteral(c, d, p, n, it), ParseLiteral(c, Muted(d), p, n, it))
  {
    match DecodeInt(n, p)
    case IntOk(i, q) => NameMuted(c, d, i, q, it);
    case _ =>
  }

  /** With the callback disabled input that can be decoded leaves the same table and the same rest,
      and emits nothing: a server may stop listening and stay synchronised. */
  lemma {:induction false} MutedSameTable(c: Constants, d: DecState, b: seq<Byte>, out: seq<HeaderField>,
      kept: seq<HeaderField>)
    requires c.huffman.Valid() && Drain(c, d, b, out).err.None?
    ensures var w := Drain(c, d, b, out);
      Drain(c, Muted(d), b, kept) == Written(Muted(w.d), w.saved, kept, None)
    decreases |b|
  {
    if b != [] {
      ParseMuted(c, d, b);
      match Parse(c, d, b)
      case Parsed(d', fs, rest) =>
        MutedSameTable(c, d', rest, out + fs, kept);
        assert kept + [] == kept;
      case _ =>
    }
  }
}
