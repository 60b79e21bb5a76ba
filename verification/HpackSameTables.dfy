/** When the two dynamic tables are not only synchronised but equal: the announced sizes
    ("the smallest, then the present one", RFC 7541, section 4.2) stand for a whole sequence of
    resizes only as far as each of them lowered the smallest size. */
module HpackSameTables {
  import opened HpackTable
  import opened HpackEncoder
  import opened HpackDecoder
  import opened HpackRun

  /** Equal tables, up to what the encoder has still to announce. */
  ghost predicate Same(e: EncState, d: DecState) {
    if e.update then e.minSize <= e.max && e.ents == Evicted(d.ents, e.minSize)
    else e.ents == d.ents && e.max == d.max && e.minSize == UINT32_MAX
  }

  /** A limit below the size of the table truncates the table, but is not remembered as a
      smallest size. */
  predicate Cuts(e: EncState, op: Op) {
    op.SetMaxDynamicTableSizeLimit? && op.v < e.max
  }

  predicate NeverCuts(c: Constants, e: EncState, ops: seq<Op>)
    decreases |ops|
  {
    ops == [] || (!Cuts(e, ops[0]) && NeverCuts(c, Next(c, e, ops[0]), ops[1..]))
  }

  lemma HeardSame(e: EncState, d: DecState)
    requires Same(e, d)
    ensures Same(Announced(e), Heard(e, d))
  {
    if e.update {
      EvictedTwice(d.ents, e.minSize, e.max);
    }
  }

  lemma SetMaxSame(e: EncState, d: DecState, size: nat)
    requires Same(e, d) && e.Valid() && size < 0x1_0000_0000
    ensures Same(SetMax(e, size), d)
  {
    var v := if size > e.limit then e.limit else size;
    if e.update {
      EvictedTwice(d.ents, e.minSize, v);
    }
  }

  lemma OpSame(c: Constants, e: EncState, d: DecState, op: Op)
    requires Same(e, d) && e.Valid() && OpPermitted(e, op, d.allowed) && !Cuts(e, op)
    ensures Same(Next(c, e, op), Follow(c, e, d, op))
  {
    match op
    case WriteField(f) => HeardSame(e, d);
    case SetMaxDynamicTableSize(v) => SetMaxSame(e, d, v);
    case SetMaxDynamicTableSizeLimit(v) =>
  }

  /** In a run whose limits never cut, the tables are equal whenever nothing is pending, so in
      particular after every field. */
  lemma {:induction false} TablesEqual(c: Constants, e: EncState, d: DecState, ops: seq<Op>)
    requires c.Usable() && Synced(e, d) && Same(e, d) && Permitted(c, e, ops, d.allowed) && NeverCuts(c, e, ops)
    ensures Same(EndState(c, e, ops), FollowAll(c, e, d, ops))
    ensures !EndState(c, e, ops).update ==> EndState(c, e, ops).ents == FollowAll(c, e, d, ops).ents
    decreases |ops|
  {
    if ops != [] {
      OpSynced(c, e, d, ops[0]);
      OpSame(c, e, d, ops[0]);
      TablesEqual(c, Next(c, e, ops[0]), Follow(c, e, d, ops[0]), ops[1..]);
    }
  }

  /** Both ends new, and of the same size. */
  lemma NewTablesEqual(c: Constants, ops: seq<Op>)
    requires c.Usable() && NeverCuts(c, NewEncoder(), ops)
    requires Permitted(c, NewEncoder(), ops, INITIAL_TABLE_SIZE)
    ensures var d := DecState([], INITIAL_TABLE_SIZE, INITIAL_TABLE_SIZE, true, 0);
      Same(EndState(c, NewEncoder(), ops), FollowAll(c, NewEncoder(), d, ops))
  {
    StartSynced(INITIAL_TABLE_SIZE);
    TablesEqual(c, NewEncoder(), DecState([], INITIAL_TABLE_SIZE, INITIAL_TABLE_SIZE, true, 0), ops);
  }

  // ---------------------------------------------------------------- exactly when

  predicate Setter(op: Op) {
    !op.WriteField?
  }

  /** The smallest size that the encoder's table has had during some resizes. */
  function Lowest(c: Constants, e: EncState, ops: seq<Op>): nat
    decreases |ops|
  {
    if ops == [] then e.max
    else
      var m := Lowest(c, Next(c, e, ops[0]), ops[1..]);
      if e.max < m then e.max else m
  }

  /** The smallest size that will be announced. */
  function Least(e: EncState): nat {
    if e.minSize < e.max then e.minSize else e.max
  }

  lemma {:induction false} ResizesEvict(c: Constants, e: EncState, ops: seq<Op>)
    requires TableSize(e.ents) <= e.max && forall op :: op in ops ==> Setter(op)
    ensures var e' := EndState(c, e, ops);
      && e'.ents == Evicted(e.ents, Lowest(c, e, ops))
      && (e'.update || (e'.ents == e.ents && e'.max == e.max && e'.minSize == e.minSize))
    decreases |ops|
  {
    if ops == [] {
      EvictedFits(e.ents, e.max);
    } else {
      var op, e1 := ops[0], Next(c, e, ops[0]);
      assert Setter(op);
      EvictedFits(e.ents, e1.max);
      ResizesEvict(c, e1, ops[1..]);
      var m := Lowest(c, e1, ops[1..]);
      LowestBelow(c, e1, ops[1..]);
      EvictedTwice(e.ents, e1.max, m);
      EvictedTwice(e.ents, e.max, m);
      EvictedFits(e.ents, e.max);
      if e1.update { StaysPending(c, e1, ops[1..]); }
    }
  }

  /** Nothing is announced below the smallest size. */
  lemma {:induction false} LeastAbove(c: Constants, e: EncState, ops: seq<Op>, x: nat)
    requires x <= e.minSize && x <= Lowest(c, e, ops) && forall op :: op in ops ==> Setter(op)
    ensures x <= Least(EndState(c, e, ops))
    decreases |ops|
  {
    if ops != [] {
      assert Setter(ops[0]);
      LowestBelow(c, Next(c, e, ops[0]), ops[1..]);
      LeastAbove(c, Next(c, e, ops[0]), ops[1..], x);
    }
  }

  lemma LowestBelow(c: Constants, e: EncState, ops: seq<Op>)
    ensures Lowest(c, e, ops) <= e.max
  {
  }

  lemma {:induction false} StaysPending(c: Constants, e: EncState, ops: seq<Op>)
    requires e.update && forall op :: op in ops ==> Setter(op)
    ensures EndState(c, e, ops).update
    decreases |ops|
  {
    if ops != [] {
      assert Setter(ops[0]);
      StaysPending(c, Next(c, e, ops[0]), ops[1..]);
    }
  }

  /** What the decoder is left with after the announcement. */
  lemma HeardLeast(e: EncState, d: DecState)
    ensures e.update ==> Heard(e, d).ents == Evicted(d.ents, Least(e))
  {
    EvictedTwice(d.ents, e.minSize, e.max);
  }

  /** Equal tables, any resizes, and then their announcement: the tables are equal again if and
      only if what eviction to the smallest size announced leaves of the table would have fitted
      into the smallest size that the encoder's table has had. */
  lemma EqualExactlyWhen(c: Constants, e: EncState, d: DecState, ops: seq<Op>)
    requires e.Valid() && Same(e, d) && !e.update && forall op :: op in ops ==> Setter(op)
    ensures var e' := EndState(c, e, ops);
      Announced(e').ents == Heard(e', d).ents
      <==> TableSize(Evicted(e.ents, Least(e'))) <= Lowest(c, e, ops)
  {
    var e', low := EndState(c, e, ops), Lowest(c, e, ops);
    ResizesEvict(c, e, ops);
    LowestBelow(c, e, ops);
    LeastAbove(c, e, ops, low);
    HeardLeast(e', d);
    EvictedFits(e.ents, low);
    EvictedFits(e.ents, e.max);
    EvictedFits(e.ents, Least(e'));
    EvictedTwice(e.ents, Least(e'), low);
    EvictedFits(Evicted(e.ents, Least(e')), low);
  }

  /** A run that loses equality: the table is emptied by a limit that nobody announces. */
  lemma UnannouncedCut(c: Constants, f: HeaderField, g: HeaderField)
    requires c.Usable() && !f.sensitive && g.sensitive && InMemory(f) && InMemory(g)
    requires FieldSize(f) <= INITIAL_TABLE_SIZE && FieldSize(f) > 0 && !Search(c.statics, f).full
    ensures var ops := [WriteField(f), SetMaxDynamicTableSizeLimit(0), SetMaxDynamicTableSizeLimit(4096),
                        SetMaxDynamicTableSize(4096), WriteField(g)];
      var d := DecState([], INITIAL_TABLE_SIZE, INITIAL_TABLE_SIZE, true, 0);
      && Permitted(c, NewEncoder(), ops, INITIAL_TABLE_SIZE)
      && EndState(c, NewEncoder(), ops).ents == [] && !EndState(c, NewEncoder(), ops).update
      && FollowAll(c, NewEncoder(), d, ops).ents == [f]
  {
    var l0, lm, m := SetMaxDynamicTableSizeLimit(0), SetMaxDynamicTableSizeLimit(4096), SetMaxDynamicTableSize(4096);
    var d := DecState([], INITIAL_TABLE_SIZE, INITIAL_TABLE_SIZE, true, 0);
    var full := EncState([f], 4096, UINT32_MAX, 4096, false);
    var d1 := DecState([f], 4096, 4096, true, 0);
    FirstAdded(c, f);
    FirstOp(c, NewEncoder(), d, WriteField(f), [l0, lm, m, WriteField(g)]);
    FirstOp(c, full, d1, l0, [lm, m, WriteField(g)]);
    SizeOfOne(f);
    var cut := EncState([], 0, UINT32_MAX, 0, true);
    FirstOp(c, cut, d1, lm, [m, WriteField(g)]);
    FirstOp(c, cut.(limit := 4096), d1, m, [WriteField(g)]);
    var grown := EncState([], 4096, 4096, 4096, true);
    FirstOp(c, grown, d1, WriteField(g), []);
  }

  lemma FirstOp(c: Constants, e: EncState, d: DecState, op: Op, later: seq<Op>)
    requires c.Usable()
    ensures EndState(c, e, [op] + later) == EndState(c, Next(c, e, op), later)
    ensures FollowAll(c, e, d, [op] + later) == FollowAll(c, Next(c, e, op), Follow(c, e, d, op), later)
    ensures Permitted(c, e, [op] + later, d.allowed)
        <==> OpPermitted(e, op, d.allowed) && Permitted(c, Next(c, e, op), later, d.allowed)
  {
    assert ([op] + later)[1..] == later;
  }

  lemma SizeOfOne(f: HeaderField)
    ensures TableSize([f]) == FieldSize(f) && TableSize([]) == 0
    ensures FieldSize(f) > 0 ==> Evicted([f], 0) == []
    ensures FieldSize(f) <= 4096 ==> Evicted([f], 4096) == [f]
  {
    assert [f][1..] == [];
  }

  lemma FirstAdded(c: Constants, f: HeaderField)
    requires c.Usable() && !f.sensitive && FieldSize(f) <= 4096 && !Search(c.statics, f).full
    ensures Next(c, NewEncoder(), WriteField(f)) == EncState([f], 4096, UINT32_MAX, 4096, false)
    ensures Follow(c, NewEncoder(), DecState([], 4096, 4096, true, 0), WriteField(f))
         == DecState([f], 4096, 4096, true, 0)
  {
    SizeOfOne(f);
    assert [] + [f] == [f];
  }
}
