/** The linker's side of the pc/line tables: it writes what a value is from instruction to instruction,
    and the reader finds that value for every pc. */
module PcTab {
  import opened Base128
  import opened Bits
  import opened Options
  import opened PcLine

  /** An instruction and the value that holds from it on. */
  datatype Ins = Ins(pc: nat, value: int)

  predicate Int32s(x: int) {
    -0x8000_0000 <= x < 0x8000_0000
  }

  /** A signed number as an unsigned one, the sign in the lowest bit. */
  function Zig(d: int): nat {
    if d < 0 then -2 * d - 1 else 2 * d
  }

  lemma ZigzagZig(d: int)
    ensures Zigzag(Zig(d)) == d
    ensures Int32s(d) ==> Zig(d) < U32
    ensures Zig(d) == 0 <==> d == 0
  {
  }

  // ---------------------------------------------------------------- the bytes of some rows

  /** How many quanta d is, by subtraction. */
  function Quanta(d: nat, q: nat): nat {
    if q == 0 || d < q then 0 else 1 + Quanta(d - q, q)
  }

  predicate Multiple(d: nat, q: nat) {
    d == 0 || (0 < q <= d && Multiple(d - q, q))
  }

  lemma {:induction false} QuantaIs(d: nat, q: nat)
    requires q > 0
    ensures Quanta(d, q) == d / q && (Multiple(d, q) <==> d % q == 0)
  {
    if d >= q {
      QuantaIs(d - q, q);
      DivStep(d, q);
    }
  }

  lemma DivStep(d: nat, q: nat)
    requires 0 < q <= d
    ensures d / q == 1 + (d - q) / q && d % q == (d - q) % q
  {
    var k, r := (d - q) / q, (d - q) % q;
    assert (k + 1) * q == k * q + q;
    DivUnique(d, q, k + 1);
  }

  lemma {:induction false} QuantaBack(d: nat, q: nat)
    requires Multiple(d, q)
    ensures Quanta(d, q) <= d && Quanta(d, q) * q == d
  {
    if d > 0 {
      QuantaBack(d - q, q);
      assert (1 + Quanta(d - q, q)) * q == q + Quanta(d - q, q) * q;
    }
  }

  /** The differences of two values, and of two pcs in quanta. */
  function Pair(pc: nat, value: int, row: Row, quantum: nat): seq<Byte>
    requires pc <= row.end
  {
    EncodeLeb(Zig(Int32(row.value - value))) + EncodeLeb(Quanta(row.end - pc, quantum))
  }

  /** A row that starts at pc, after one with a value. */
  predicate Fits(pc: nat, value: int, row: Row, quantum: nat) {
    && pc < row.end < U64 && row.end - pc < U32 && Multiple(row.end - pc, quantum)
    && Int32s(row.value)
  }

  /** Rows that can be written: from one to the next the value changes, and the pc by quanta. */
  predicate Writable(pc: nat, value: int, rows: seq<Row>, quantum: nat, first: bool)
    decreases |rows|
  {
    rows == [] ||
    (Fits(pc, value, rows[0], quantum) && (first || rows[0].value != value)
     && Writable(rows[0].end, rows[0].value, rows[1..], quantum, false))
  }

  function Pairs(pc: nat, value: int, rows: seq<Row>, quantum: nat, first: bool): seq<Byte>
    requires Writable(pc, value, rows, quantum, first)
    decreases |rows|
  {
    if rows == [] then []
    else Pair(pc, value, rows[0], quantum) + Pairs(rows[0].end, rows[0].value, rows[1..], quantum, false)
  }

  // ---------------------------------------------------------------- reading them

  // Where bytes stand is sealed: it is opened only where they are cut, and read.
  predicate UnlockAt(u: int) { true }

  ghost predicate AtFull(u: int, data: seq<Byte>, p: nat, b: seq<Byte>) {
    p + |b| <= |data| && data[p..p + |b|] == b
  }

  /** These bytes stand at p. */
  ghost predicate At(data: seq<Byte>, p: nat, b: seq<Byte>) {
    forall u: int :: UnlockAt(u) ==> AtFull(u, data, p, b)
  }

  lemma AtIs(data: seq<Byte>, p: nat, b: seq<Byte>)
    ensures At(data, p, b) <==> p + |b| <= |data| && data[p..p + |b|] == b
  {
    assert UnlockAt(0);
    if At(data, p, b) { assert AtFull(0, data, p, b); }
  }

  lemma TwoAt(data: seq<Byte>, p: nat, a: seq<Byte>, b: seq<Byte>)
    requires At(data, p, a + b)
    ensures At(data, p, a) && At(data, p + |a|, b)
  {
    AtIs(data, p, a + b);
    AtIs(data, p, a);
    AtIs(data, p + |a|, b);
    var c := data[p..p + |a + b|];
    assert c[..|a|] == a && c[|a|..] == b;
    assert data[p..p + |a|] == c[..|a|] && data[p + |a|..p + |a| + |b|] == c[|a|..];
  }

  lemma VarintRead(data: seq<Byte>, p: nat, x: nat)
    requires At(data, p, EncodeLeb(x)) && x < U32
    ensures Varint(data, p) == Some((x, p + |EncodeLeb(x)|))
  {
    var g := EncodeLeb(x);
    AtIs(data, p, g);
    var rest := data[p + |g|..];
    assert data[p..] == g + rest;
    EncodeLebContinues(x, rest);
    EncodeLebValue(x);
    LebLength(x);
  }

  lemma LebLength(x: nat)
    requires x < U32
    ensures |EncodeLeb(x)| <= MAX_VARINT
  {
    EncodeLebCount(x);
    Pow2Constants();
    Pow2Mono(32, 35);
    var n := |EncodeLeb(x)|;
    if n > MAX_VARINT { Pow2Mono(35, 7 * (n - 1)); }
  }

  // Reads is sealed: it is opened for one row at a time.
  predicate UnlockReads(u: int) { true }

  ghost predicate ReadsFull(u: int, t: Table, p: nat, entry: nat, pc: nat, value: int, rows: seq<Row>) {
    Rows(t, p, entry, pc, value) == Some(rows)
  }

  /** The program from p on is these rows. */
  ghost predicate Reads(t: Table, p: nat, entry: nat, pc: nat, value: int, rows: seq<Row>) {
    forall u: int :: UnlockReads(u) ==> ReadsFull(u, t, p, entry, pc, value, rows)
  }

  lemma ReadsIs(t: Table, p: nat, entry: nat, pc: nat, value: int, rows: seq<Row>)
    requires Reads(t, p, entry, pc, value, rows)
    ensures Rows(t, p, entry, pc, value) == Some(rows)
  {
    assert UnlockReads(0) && ReadsFull(0, t, p, entry, pc, value, rows);
  }

  lemma ReadsMade(t: Table, p: nat, entry: nat, pc: nat, value: int, rows: seq<Row>)
    requires Rows(t, p, entry, pc, value) == Some(rows)
    ensures Reads(t, p, entry, pc, value, rows)
  {
  }

  lemma RowsOn(t: Table, p: nat, entry: nat, pc: nat, value: int, u: nat, p1: nat, d: nat, p2: nat, row: Row,
      more: seq<Row>)
    requires Varint(t.data, p) == Some((u, p1)) && Varint(t.data, p1) == Some((d, p2)) && (u != 0 || pc == entry)
    requires row == NextRow(t.quantum, pc, value, u, d)
    requires Rows(t, p2, entry, row.end, row.value) == Some(more)
    ensures Rows(t, p, entry, pc, value) == Some([row] + more)
  {
  }

  lemma RowsStep(t: Table, p: nat, entry: nat, pc: nat, value: int, u: nat, p1: nat, d: nat, p2: nat, row: Row,
      more: seq<Row>)
    requires Varint(t.data, p) == Some((u, p1)) && Varint(t.data, p1) == Some((d, p2)) && (u != 0 || pc == entry)
    requires row == NextRow(t.quantum, pc, value, u, d)
    requires Reads(t, p2, entry, row.end, row.value, more)
    ensures Reads(t, p, entry, pc, value, [row] + more)
  {
    ReadsIs(t, p2, entry, row.end, row.value, more);
    RowsOn(t, p, entry, pc, value, u, p1, d, p2, row, more);
    ReadsMade(t, p, entry, pc, value, [row] + more);
  }

  lemma RowRead(t: Table, p: nat, entry: nat, pc: nat, value: int, row: Row, u: nat, n: nat, a: seq<Byte>,
      b: seq<Byte>, more: seq<Row>)
    requires Fits(pc, value, row, t.quantum) && Int32s(value) && (pc == entry || row.value != value)
    requires u == Zig(Int32(row.value - value)) && n == Quanta(row.end - pc, t.quantum)
    requires a == EncodeLeb(u) && b == EncodeLeb(n) && At(t.data, p, a + b)
    requires Reads(t, p + |a + b|, entry, row.end, row.value, more)
    ensures Reads(t, p, entry, pc, value, [row] + more)
  {
    NumbersOf(pc, value, row, t.quantum, u, n);
    TwoAt(t.data, p, a, b);
    VarintRead(t.data, p, u);
    VarintRead(t.data, p + |a|, n);
    RowsStep(t, p, entry, pc, value, u, p + |a|, n, p + |a + b|, row, more);
  }

  lemma OneRow(t: Table, p: nat, entry: nat, pc: nat, value: int, row: Row, a: seq<Byte>, more: seq<Row>)
    requires Fits(pc, value, row, t.quantum) && Int32s(value) && (pc == entry || row.value != value)
    requires a == Pair(pc, value, row, t.quantum) && At(t.data, p, a)
    requires Reads(t, p + |a|, entry, row.end, row.value, more)
    ensures Reads(t, p, entry, pc, value, [row] + more)
  {
    var u, n := Zig(Int32(row.value - value)), Quanta(row.end - pc, t.quantum);
    RowRead(t, p, entry, pc, value, row, u, n, EncodeLeb(u), EncodeLeb(n), more);
  }

  lemma NumbersOf(pc: nat, value: int, row: Row, quantum: nat, u: nat, n: nat)
    requires Fits(pc, value, row, quantum) && Int32s(value)
    requires u == Zig(Int32(row.value - value)) && n == Quanta(row.end - pc, quantum)
    ensures u < U32 && n < U32 && (u == 0 <==> row.value == value)
    ensures row == NextRow(quantum, pc, value, u, n)
  {
    DeltaBack(value, row.value);
    ZigzagZig(Int32(row.value - value));
    QuantaBack(row.end - pc, quantum);
  }

  /** Adding a 32-bit difference, in 32 bits, gives the second value. */
  lemma DeltaBack(a: int, b: int)
    requires Int32s(a) && Int32s(b)
    ensures Int32(a + Int32(b - a)) == b && (Int32(b - a) == 0 <==> a == b) && Int32s(Int32(b - a))
  {
  }

  lemma EndRead(t: Table, p: nat, entry: nat, pc: nat, value: int)
    requires At(t.data, p, [0]) && pc != entry
    ensures Reads(t, p, entry, pc, value, [])
  {
    assert [0] == EncodeLeb(0);
    VarintRead(t.data, p, 0);
    ReadsMade(t, p, entry, pc, value, []);
  }

  lemma MoreRows(t: Table, p: nat, entry: nat, pc: nat, value: int, rows: seq<Row>, first: bool, a: seq<Byte>)
    requires Writable(pc, value, rows, t.quantum, first) && Int32s(value) && (first ==> pc == entry) && rows != []
    requires a == Pair(pc, value, rows[0], t.quantum) && At(t.data, p, a)
    requires Reads(t, p + |a|, entry, rows[0].end, rows[0].value, rows[1..])
    ensures Reads(t, p, entry, pc, value, rows)
  {
    OneRow(t, p, entry, pc, value, rows[0], a, rows[1..]);
    FirstAndMore(rows);
  }

  lemma FrontRow(data: seq<Byte>, p: nat, pc: nat, value: int, rows: seq<Row>, quantum: nat, first: bool,
      bytes: seq<Byte>) returns (a: seq<Byte>, b: seq<Byte>)
    requires Writable(pc, value, rows, quantum, first) && rows != []
    requires bytes == Pairs(pc, value, rows, quantum, first) && At(data, p, bytes)
    ensures pc < rows[0].end && Int32s(rows[0].value) && Writable(rows[0].end, rows[0].value, rows[1..], quantum, false)
    ensures a == Pair(pc, value, rows[0], quantum)
    ensures b == Pairs(rows[0].end, rows[0].value, rows[1..], quantum, false)
    ensures At(data, p, a) && At(data, p + |a|, b) && p + |a| + |b| == p + |bytes|
  {
    a := Pair(pc, value, rows[0], quantum);
    b := Pairs(rows[0].end, rows[0].value, rows[1..], quantum, false);
    assert bytes == a + b;
    TwoAt(data, p, a, b);
  }

  /** A program that was written is read as its rows, whatever stands around it. */
  lemma {:induction false} RowsRead(t: Table, p: nat, entry: nat, pc: nat, value: int, rows: seq<Row>, first: bool,
      bytes: seq<Byte>)
    requires Writable(pc, value, rows, t.quantum, first) && Int32s(value) && entry <= pc
    requires (first <==> pc == entry) && (rows == [] ==> !first)
    requires bytes == Pairs(pc, value, rows, t.quantum, first) && At(t.data, p, bytes) && At(t.data, p + |bytes|, [0])
    ensures Reads(t, p, entry, pc, value, rows)
    decreases |rows|
  {
    if rows == [] {
      EndRead(t, p, entry, pc, value);
    } else {
      var a, b := FrontRow(t.data, p, pc, value, rows, t.quantum, first, bytes);
      RowsRead(t, p + |a|, entry, rows[0].end, rows[0].value, rows[1..], false, b);
      MoreRows(t, p, entry, pc, value, rows, first, a);
    }
  }

  lemma FirstAndMore(rows: seq<Row>)
    requires rows != []
    ensures [rows[0]] + rows[1..] == rows
  {
  }

  // ---------------------------------------------------------------- the rows of a function

  /** Where the instruction after k is, or the function ends. */
  function After(ins: seq<Ins>, end: nat, k: nat): nat
    requires k < |ins|
  {
    if k + 1 < |ins| then ins[k + 1].pc else end
  }

  /** The code of a function: the first instruction is at its entry, and none before the one it follows;
      pcs are multiples of a quantum apart. */
  predicate Code(ins: seq<Ins>, entry: nat, end: nat, quantum: nat) {
    && entry < end < U64 && end - entry < U32 && quantum > 0 && Multiple(end - entry, quantum)
    && (ins != [] ==> ins[0].pc == entry)
    && forall k: nat :: k < |ins| ==> Placed(ins, entry, end, quantum, k)
  }

  predicate Placed(ins: seq<Ins>, entry: nat, end: nat, quantum: nat, k: nat)
    requires k < |ins|
  {
    && entry <= ins[k].pc <= After(ins, end, k) && ins[k].pc < end && Int32s(ins[k].value)
    && Multiple(ins[k].pc - entry, quantum)
  }

  lemma {:induction false} ValueSnoc(rows: seq<Row>, row: Row, x: nat)
    requires forall i: nat :: i + 1 < |rows| ==> rows[i].end <= rows[i + 1].end
    ensures ValueAt(rows + [row], x)
         == if rows != [] && x < rows[|rows| - 1].end then ValueAt(rows, x) else if x < row.end then row.value else -1
    decreases |rows|
  {
    if rows == [] {
      assert rows + [row] == [row] && [row][1..] == [];
    } else {
      assert (rows + [row])[1..] == rows[1..] + [row] && (rows + [row])[0] == rows[0];
      ValueSnoc(rows[1..], row, x);
      RowsEnd(rows, |rows| - 1);
    }
  }

  lemma {:induction false} RowsEnd(rows: seq<Row>, k: nat)
    requires k < |rows| && forall i: nat :: i + 1 < |rows| ==> rows[i].end <= rows[i + 1].end
    ensures rows[0].end <= rows[k].end
  {
    if k > 0 { RowsEnd(rows, k - 1); }
  }

  function EndOf(pc: nat, rows: seq<Row>): nat {
    if rows == [] then pc else rows[|rows| - 1].end
  }

  function LastValue(value: int, rows: seq<Row>): int {
    if rows == [] then value else rows[|rows| - 1].value
  }

  lemma {:induction false} WritableSnoc(pc: nat, value: int, rows: seq<Row>, quantum: nat, first: bool, row: Row)
    requires Writable(pc, value, rows, quantum, first) && Fits(EndOf(pc, rows), LastValue(value, rows), row, quantum)
    requires (first && rows == []) || row.value != LastValue(value, rows)
    ensures Writable(pc, value, rows + [row], quantum, first)
    decreases |rows|
  {
    var all := rows + [row];
    if rows == [] {
      assert all == [row] && all[1..] == [];
    } else {
      assert all[1..] == rows[1..] + [row] && all[0] == rows[0];
      WritableSnoc(rows[0].end, rows[0].value, rows[1..], quantum, false, row);
    }
  }

  lemma {:induction false} PairsSnoc(pc: nat, value: int, rows: seq<Row>, quantum: nat, first: bool, row: Row)
    requires Writable(pc, value, rows, quantum, first) && Writable(pc, value, rows + [row], quantum, first)
    requires EndOf(pc, rows) <= row.end
    ensures Pairs(pc, value, rows + [row], quantum, first)
         == Pairs(pc, value, rows, quantum, first) + Pair(EndOf(pc, rows), LastValue(value, rows), row, quantum)
    decreases |rows|
  {
    var all := rows + [row];
    if rows == [] {
      assert all == [row] && all[1..] == [];
      NothingElse(Pair(pc, value, row, quantum));
    } else {
      var head, more := rows[0], rows[1..];
      assert all[1..] == more + [row] && all[0] == head;
      PairsSnoc(head.end, head.value, more, quantum, false, row);
      Regroup(Pair(pc, value, head, quantum), Pairs(head.end, head.value, more, quantum, false),
              Pair(EndOf(pc, rows), LastValue(value, rows), row, quantum));
    }
  }

  lemma Regroup(a: seq<Byte>, b: seq<Byte>, c: seq<Byte>)
    ensures (a + b) + c == a + (b + c)
  {
  }

  lemma NothingElse(a: seq<Byte>)
    ensures [] + a == a && a + [] == a
  {
  }

  lemma {:induction false} MultipleOf(a: nat, b: nat, q: nat)
    requires a <= b && Multiple(a, q) && Multiple(b, q)
    ensures Multiple(b - a, q)
  {
    if a > 0 {
      MultipleOf(a - q, b - q, q);
      assert (b - q) - (a - q) == b - a;
    }
  }

  // ---------------------------------------------------------------- the writer

  /** The difference of two values as the code computes it, in 32 bits. */
  function Delta(val: int, oldval: int): nat {
    var delta := (val - oldval) % U32;
    if delta >= 0x8000_0000 then Or(1, U32 - 1 - 2 * delta % U32) else 2 * delta % U32
  }

  lemma DeltaIsZig(val: int, oldval: int)
    requires Int32s(val) && Int32s(oldval)
    ensures Delta(val, oldval) == Zig(Int32(val - oldval)) < U32
  {
    var delta := (val - oldval) % U32;
    var d := Int32(val - oldval);
    assert d == if delta >= 0x8000_0000 then delta - U32 else delta;
    if delta >= 0x8000_0000 {
      var x := U32 - 1 - 2 * delta % U32;
      assert x == -2 * d - 1;
      assert Or(1, x) == x;
    }
  }

  /** Where the scan is: the rows that are finished, and the one that is open from pc on. */
  datatype Scan = Scan(rows: seq<Row>, pc: nat, oldval: int, started: bool)

  /** The value that x has so far. */
  function Seen(s: Scan, x: nat): int {
    if x < s.pc then ValueAt(s.rows, x) else s.oldval
  }

  /** The first k instructions have their values, all along. */
  ghost predicate Covered(ins: seq<Ins>, end: nat, k: nat, s: Scan) {
    forall i: nat, x: nat :: i < k <= |ins| && ins[i].pc <= x < After(ins, end, i) ==> Seen(s, x) == ins[i].value
  }

  function Next(ins: seq<Ins>, end: nat, k: nat): nat {
    if k < |ins| then ins[k].pc else end
  }

  ghost predicate Scanned(ins: seq<Ins>, entry: nat, end: nat, quantum: nat, k: nat, s: Scan) {
    && Covered(ins, end, k, s) && Writable(entry, -1, s.rows, quantum, true)
    && Int32s(s.oldval) && EndOf(entry, s.rows) == s.pc && entry <= s.pc && Multiple(s.pc - entry, quantum)
    && (if s.started
        then s.pc < Next(ins, end, k) && (s.rows == [] || s.oldval != LastValue(-1, s.rows))
        else s.rows == [] && s.oldval == -1 && (ins != [] ==> Next(ins, end, k) == entry))
  }

  /** Closes the open row where instruction k begins. */
  function Closed(s: Scan, pc: nat): Scan {
    Scan(s.rows + [Row(s.oldval, pc)], pc, s.oldval, true)
  }

  lemma {:induction false} WritableRises(pc: nat, value: int, rows: seq<Row>, quantum: nat, first: bool)
    requires Writable(pc, value, rows, quantum, first)
    ensures forall i: nat :: i + 1 < |rows| ==> rows[i].end <= rows[i + 1].end
    decreases |rows|
  {
    if rows != [] {
      WritableRises(rows[0].end, rows[0].value, rows[1..], quantum, false);
      forall i: nat | i + 1 < |rows| ensures rows[i].end <= rows[i + 1].end {
        if i > 0 { assert rows[i] == rows[1..][i - 1] && rows[i + 1] == rows[1..][i]; }
      }
    }
  }

  /** Closing a row changes no value below its end. */
  lemma ClosedSees(s: Scan, entry: nat, quantum: nat, pc: nat, x: nat)
    requires Writable(entry, -1, s.rows, quantum, true) && EndOf(entry, s.rows) == s.pc && s.pc <= pc
    requires s.rows == [] ==> entry <= x
    ensures x < pc ==> ValueAt(Closed(s, pc).rows, x) == Seen(s, x)
  {
    WritableRises(entry, -1, s.rows, quantum, true);
    ValueSnoc(s.rows, Row(s.oldval, pc), x);
  }

  lemma {:induction false} PcsRise(ins: seq<Ins>, entry: nat, end: nat, quantum: nat, i: nat, k: nat)
    requires Code(ins, entry, end, quantum) && i < k <= |ins|
    ensures After(ins, end, i) <= Next(ins, end, k)
    decreases k
  {
    if i < k - 1 {
      PcsRise(ins, entry, end, quantum, i, k - 1);
      assert Placed(ins, entry, end, quantum, k - 1);
    }
  }

  /** What the loop does with an instruction where the value changes. */
  function Emitted(s: Scan, pc: nat, val: int): Scan {
    if s.started then Closed(s, pc).(oldval := val) else Scan([], s.pc, val, true)
  }

  lemma SkipScanned(ins: seq<Ins>, entry: nat, end: nat, quantum: nat, k: nat, s: Scan)
    requires Code(ins, entry, end, quantum) && k < |ins| && Scanned(ins, entry, end, quantum, k, s)
    requires (s.started && ins[k].value == s.oldval) || ins[k].pc == After(ins, end, k)
    ensures Scanned(ins, entry, end, quantum, k + 1, s)
  {
    assert Placed(ins, entry, end, quantum, k);
    assert Next(ins, end, k + 1) == After(ins, end, k);
  }

  lemma EmitScanned(ins: seq<Ins>, entry: nat, end: nat, quantum: nat, k: nat, s: Scan)
    requires Code(ins, entry, end, quantum) && k < |ins| && Scanned(ins, entry, end, quantum, k, s)
    requires ins[k].pc < After(ins, end, k) && (s.started ==> ins[k].value != s.oldval)
    ensures Scanned(ins, entry, end, quantum, k + 1, Emitted(s, ins[k].pc, ins[k].value))
    ensures s.started ==> Fits(s.pc, LastValue(-1, s.rows), Row(s.oldval, ins[k].pc), quantum)
  {
    var pc, s' := ins[k].pc, Emitted(s, ins[k].pc, ins[k].value);
    assert Placed(ins, entry, end, quantum, k);
    assert Next(ins, end, k + 1) == After(ins, end, k);
    if s.started {
      MultipleOf(s.pc - entry, pc - entry, quantum);
      assert (pc - entry) - (s.pc - entry) == pc - s.pc;
      WritableSnoc(entry, -1, s.rows, quantum, true, Row(s.oldval, pc));
    }
    forall i: nat, x: nat | i < k + 1 && ins[i].pc <= x < After(ins, end, i) ensures Seen(s', x) == ins[i].value {
      assert Placed(ins, entry, end, quantum, i);
      if i < k {
        PcsRise(ins, entry, end, quantum, i, k);
        if s.started { ClosedSees(s, entry, quantum, pc, x); }
      }
    }
  }

  /** All rows, when the function ends. */
  lemma EndScanned(ins: seq<Ins>, entry: nat, end: nat, quantum: nat, s: Scan)
    requires Code(ins, entry, end, quantum) && Scanned(ins, entry, end, quantum, |ins|, s) && s.started
    ensures var rows := Closed(s, end).rows;
      && Fits(s.pc, LastValue(-1, s.rows), Row(s.oldval, end), quantum)
      && Writable(entry, -1, rows, quantum, true)
      && forall i: nat, x: nat :: i < |ins| && ins[i].pc <= x < After(ins, end, i) ==> ValueAt(rows, x) == ins[i].value
  {
    var rows := Closed(s, end).rows;
    MultipleOf(s.pc - entry, end - entry, quantum);
    assert (end - entry) - (s.pc - entry) == end - s.pc;
    WritableSnoc(entry, -1, s.rows, quantum, true, Row(s.oldval, end));
    forall i: nat, x: nat | i < |ins| && ins[i].pc <= x < After(ins, end, i) ensures ValueAt(rows, x) == ins[i].value {
      assert Placed(ins, entry, end, quantum, i);
      PcsRise(ins, entry, end, quantum, i, |ins|);
      ClosedSees(s, entry, quantum, end, x);
    }
  }

  /** The bytes so far: the finished rows, and the value of the open one. */
  ghost predicate Written(entry: nat, quantum: nat, s: Scan, dst: seq<Byte>) {
    && Writable(entry, -1, s.rows, quantum, true)
    && dst == if s.started
              then Pairs(entry, -1, s.rows, quantum, true) + EncodeLeb(Zig(Int32(s.oldval - LastValue(-1, s.rows))))
              else []
  }

  lemma ClosedWritten(entry: nat, quantum: nat, s: Scan, dst: seq<Byte>, pc: nat)
    requires Written(entry, quantum, s, dst) && s.started && EndOf(entry, s.rows) == s.pc <= pc
    requires Writable(entry, -1, Closed(s, pc).rows, quantum, true)
    ensures dst + EncodeLeb(Quanta(pc - s.pc, quantum)) == Pairs(entry, -1, Closed(s, pc).rows, quantum, true)
  {
    var row := Row(s.oldval, pc);
    PairsSnoc(entry, -1, s.rows, quantum, true, row);
    Regroup(Pairs(entry, -1, s.rows, quantum, true), EncodeLeb(Zig(Int32(s.oldval - LastValue(-1, s.rows)))),
            EncodeLeb(Quanta(pc - s.pc, quantum)));
  }

  /** A number of quanta is appended. */
  method AddQuanta(dst: seq<Byte>, d: nat, quantum: nat) returns (out: seq<Byte>)
    requires quantum > 0
    ensures out == dst + EncodeLeb(Quanta(d, quantum))
  {
    QuantaIs(d, quantum);
    out := AppendLeb(dst, d / quantum);
  }

  /** The difference of two values is appended. */
  method AddDelta(dst: seq<Byte>, val: int, oldval: int) returns (out: seq<Byte>)
    requires Int32s(val) && Int32s(oldval)
    ensures out == dst + EncodeLeb(Zig(Int32(val - oldval)))
  {
    DeltaIsZig(val, oldval);
    out := AppendLeb(dst, Delta(val, oldval));
  }

  /** What an instruction appends where the value changes. */
  function EmittedBytes(dst: seq<Byte>, s: Scan, pc: nat, val: int, quantum: nat): seq<Byte>
    requires s.pc <= pc
  {
    (if s.started then dst + EncodeLeb(Quanta(pc - s.pc, quantum)) else dst)
    + EncodeLeb(Zig(Int32(val - s.oldval)))
  }

  lemma EmittedWritten(entry: nat, quantum: nat, s: Scan, dst: seq<Byte>, pc: nat, val: int)
    requires Written(entry, quantum, s, dst) && EndOf(entry, s.rows) == s.pc <= pc
    requires !s.started ==> s.rows == [] && s.oldval == -1
    requires Writable(entry, -1, Emitted(s, pc, val).rows, quantum, true)
    ensures Written(entry, quantum, Emitted(s, pc, val), EmittedBytes(dst, s, pc, val, quantum))
  {
    if s.started { ClosedWritten(entry, quantum, s, dst, pc); }
  }

  lemma EmitOk(ins: seq<Ins>, entry: nat, end: nat, quantum: nat, k: nat, s: Scan, dst: seq<Byte>)
    requires Code(ins, entry, end, quantum) && k < |ins| && Scanned(ins, entry, end, quantum, k, s)
    requires ins[k].pc < After(ins, end, k) && (s.started ==> ins[k].value != s.oldval)
    requires Written(entry, quantum, s, dst)
    ensures s.pc <= ins[k].pc && Int32s(ins[k].value) && Int32s(s.oldval)
    ensures var s' := Emitted(s, ins[k].pc, ins[k].value);
      && Scanned(ins, entry, end, quantum, k + 1, s')
      && Written(entry, quantum, s', EmittedBytes(dst, s, ins[k].pc, ins[k].value, quantum))
  {
    assert Placed(ins, entry, end, quantum, k);
    EmitScanned(ins, entry, end, quantum, k, s);
    EmittedWritten(entry, quantum, s, dst, ins[k].pc, ins[k].value);
  }

  /** One instruction where the value changes. */
  method Emit(dst: seq<Byte>, p: Ins, quantum: nat, pc: nat, oldval: int, started: bool, ghost s: Scan)
    returns (out: seq<Byte>)
    requires quantum > 0 && pc <= p.pc && Int32s(p.value) && Int32s(oldval)
    requires s.oldval == oldval && s.pc == pc && s.started == started
    ensures out == EmittedBytes(dst, s, p.pc, p.value, quantum)
  {
    out := dst;
    if started {
      out := AddQuanta(out, p.pc - pc, quantum);
    }
    out := AddDelta(out, p.value, oldval);
  }

  /** The end of the last row, and of the table. */
  method Finish(dst: seq<Byte>, ghost ins: seq<Ins>, ghost entry: nat, end: nat, quantum: nat, pc: nat, ghost s: Scan)
    returns (out: seq<Byte>, ghost rows: seq<Row>)
    requires Code(ins, entry, end, quantum) && Scanned(ins, entry, end, quantum, |ins|, s)
    requires Written(entry, quantum, s, dst) && s.pc == pc && s.started
    ensures Writable(entry, -1, rows, quantum, true) && rows != [] && EndOf(entry, rows) == end
    ensures out == Pairs(entry, -1, rows, quantum, true) + [0]
    ensures Gives(rows, ins, end)
  {
    EndScanned(ins, entry, end, quantum, s);
    ClosedWritten(entry, quantum, s, dst, end);
    rows := Closed(s, end).rows;
    out := AddQuanta(dst, end - pc, quantum);
    out := AppendLeb(out, 0);
  }

  /** The table of values of a function: an entry where the value changes at a true instruction. */
  method FuncPcTab(ins: seq<Ins>, entry: nat, end: nat, quantum: nat) returns (dst: seq<Byte>, ghost rows: seq<Row>)
    requires Code(ins, entry, end, quantum)
    ensures Writable(entry, -1, rows, quantum, true) && (rows == [] <==> ins == [])
    ensures rows != [] ==> EndOf(entry, rows) == end
    ensures dst == if ins == [] then [] else Pairs(entry, -1, rows, quantum, true) + [0]
    ensures Gives(rows, ins, end)
  {
    var oldval, pc, started := -1, entry, false;
    ghost var s := Scan([], entry, -1, false);
    dst, rows := [], [];
    for k := 0 to |ins|
      invariant Scanned(ins, entry, end, quantum, k, s) && Written(entry, quantum, s, dst)
      invariant s.oldval == oldval && s.pc == pc && s.started == started
      invariant (k == |ins| > 0 ==> started) && (started ==> k > 0)
    {
      var p := ins[k];
      assert Placed(ins, entry, end, quantum, k);
      if (p.value == oldval && started) || (k + 1 < |ins| && ins[k + 1].pc == p.pc) {
        SkipScanned(ins, entry, end, quantum, k, s);
        continue;
      }
      EmitOk(ins, entry, end, quantum, k, s, dst);
      dst := Emit(dst, p, quantum, pc, oldval, started, s);
      s := Emitted(s, p.pc, p.value);
      if started {
        pc := p.pc;
      }
      oldval, started := p.value, true;
    }
    if started {
      dst, rows := Finish(dst, ins, entry, end, quantum, pc, s);
    }
  }

  /** Rows that give every instruction its value. */
  ghost predicate Gives(rows: seq<Row>, ins: seq<Ins>, end: nat) {
    forall i: nat, x: nat :: i < |ins| && ins[i].pc <= x < After(ins, end, i) ==> ValueAt(rows, x) == ins[i].value
  }

  /** Rows that were written increase up to the end of the function. */
  lemma {:induction false} WritableIncreases(pc: nat, value: int, rows: seq<Row>, quantum: nat, first: bool, end: nat)
    requires Writable(pc, value, rows, quantum, first) && EndOf(pc, rows) <= end
    ensures Increasing(pc, rows, end) && pc <= EndOf(pc, rows) && Start(pc, rows, |rows|) == EndOf(pc, rows)
    decreases |rows|
  {
    if rows != [] {
      var row, more := rows[0], rows[1..];
      WritableIncreases(row.end, row.value, more, quantum, false, end);
      forall k: nat | k < |rows| ensures GoodRow(pc, rows, end, k) {
        if k > 0 {
          assert GoodRow(row.end, more, end, k - 1);
          assert Start(pc, rows, k) == Start(row.end, more, k - 1);
        }
      }
    }
  }

  /** The bytes of a function's table stand at an offset. */
  ghost predicate Holds(t: Table, off: nat, entry: nat, end: nat, rows: seq<Row>) {
    && Writable(entry, -1, rows, t.quantum, true) && rows != [] && EndOf(entry, rows) == end && InTable(t, off)
    && var bytes := Pairs(entry, -1, rows, t.quantum, true) + [0];
       off + |bytes| <= |t.data| && t.data[off..off + |bytes|] == bytes
  }

  /** What the linker wrote is what the reader of the tables finds: for every pc of an instruction, the
      value that holds there. It is a program that the search backwards can use, up to the end. */
  lemma ReadBack(t: Table, off: nat, ins: seq<Ins>, entry: nat, end: nat, rows: seq<Row>,
      i: nat, x: nat)
    requires Holds(t, off, entry, end, rows) && Gives(rows, ins, end)
    ensures Program(t, off, entry) == Some(rows) && GoodProgram(t, off, entry, end)
    ensures Start(entry, rows, |rows|) == end
    ensures i < |ins| && ins[i].pc <= x < After(ins, end, i) ==> ValueIn(t, off, entry, x) == ins[i].value
  {
    var bytes := Pairs(entry, -1, rows, t.quantum, true);
    AtIs(t.data, off, bytes + [0]);
    TwoAt(t.data, off, bytes, [0]);
    RowsRead(t, off, entry, entry, -1, rows, true, bytes);
    ReadsIs(t, off, entry, entry, -1, rows);
    WritableIncreases(entry, -1, rows, t.quantum, true, end);
  }

  /** With the table of its files and that of its lines in place, each pc of a function has the file and the
      line of its instruction; the two go by the same instructions. */
  lemma LinkedLookup(t: Table, f: nat, files: seq<Ins>, lines: seq<Ins>, a: seq<Row>, b: seq<Row>, k: nat, pc: nat)
    requires Readable(t) && Contains(t, pc, f) && |files| == |lines| && k < |files|
    requires forall i :: 0 <= i < |files| ==> files[i].pc == lines[i].pc
    requires Holds(t, t.funcs[f].pcfile, t.funcs[f].entry, t.entries[f + 1], a) && Gives(a, files, t.entries[f + 1])
    requires Holds(t, t.funcs[f].pcline, t.funcs[f].entry, t.entries[f + 1], b) && Gives(b, lines, t.entries[f + 1])
    requires files[k].pc <= pc < After(files, t.entries[f + 1], k)
    ensures Where(t, pc) == if lines[k].value < 0 || files[k].value <= 0 || files[k].value >= |t.files| then None
                            else Some((t.files[files[k].value], lines[k].value))
  {
    var end, fn := t.entries[f + 1], t.funcs[f];
    ReadBack(t, fn.pcfile, files, fn.entry, end, a, k, pc);
    ReadBack(t, fn.pcline, lines, fn.entry, end, b, k, pc);
    forall i: nat | Contains(t, pc, i) ensures i == f { OneFunc(t, pc, i, f); }
  }
}
