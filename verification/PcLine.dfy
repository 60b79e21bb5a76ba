/** The Go 1.2 pc/line tables: delta-encoded programs that give a value for every pc of a
    function, searched forwards (pc to file and line) and backwards (file and line to pc). */
module PcLine {
  import opened Base128
  import opened Bits
  import opened Options

  /** The function records; their programs start at offsets into the data. */
  datatype Func = Func(entry: nat, pcfile: nat, pcline: nat)

  /** data is the whole table as bytes; entries holds one pc for each function and a last one for
      the end of the text; files are the strings of the file table, by number. */
  datatype Table = Table(data: seq<Byte>, quantum: nat, entries: seq<nat>, funcs: seq<Func>, files: seq<string>)

  // ---------------------------------------------------------------- programs

  const MAX_VARINT := 5

  /** A 32-bit number in groups of seven bits, and where it ends; None if it does not end in the
      data, or not after five bytes. */
  function Varint(data: seq<Byte>, p: nat): (r: Option<(nat, nat)>)
    ensures r.Some? ==> p < r.value.1 <= |data| && r.value.0 < U32
  {
    if p >= |data| then None
    else
      var k := Continued(data[p..]);
      if p + k >= |data| || k >= MAX_VARINT then None
      else Some((LebValue(data[p..p + k + 1]) % U32, p + k + 1))
  }

  function Int32(x: int): int {
    (x + 0x8000_0000) % U32 - 0x8000_0000
  }

  function Zigzag(u: nat): int {
    if u % 2 == 1 then -(u / 2) - 1 else u / 2
  }

  /** A program, decoded: value holds for the pcs from the end of the row before up to end. */
  datatype Row = Row(value: int, end: nat)

  /** The row of two numbers that were read. */
  function NextRow(quantum: nat, pc: nat, value: int, u: nat, d: nat): Row {
    Row(Int32(value + Zigzag(u)), (pc + d * quantum % U32) % U64)
  }

  /** The rows from p on; the program ends at a zero delta that is not its first. */
  function Rows(t: Table, p: nat, entry: nat, pc: nat, value: int): Option<seq<Row>>
    decreases |t.data| - p
  {
    match Varint(t.data, p)
    case None => None
    case Some((u, p1)) =>
      if u == 0 && pc != entry then Some([])
      else
        match Varint(t.data, p1)
        case None => None
        case Some((d, p2)) =>
          var row := NextRow(t.quantum, pc, value, u, d);
          match Rows(t, p2, entry, row.end, row.value)
          case None => None
          case Some(rows) => Some([row] + rows)
  }

  function Program(t: Table, off: nat, entry: nat): Option<seq<Row>> {
    Rows(t, off, entry, entry, -1)
  }

  function Start(entry: nat, rows: seq<Row>, k: nat): nat
    requires k <= |rows|
  {
    if k == 0 then entry else rows[k - 1].end
  }

  predicate GoodRow(entry: nat, rows: seq<Row>, end: nat, k: nat)
    requires k < |rows|
  {
    Start(entry, rows, k) < rows[k].end <= end
  }

  /** The pc deltas are not zero, and no pc wraps or leaves the function. */
  predicate Increasing(entry: nat, rows: seq<Row>, end: nat) {
    forall k: nat :: k < |rows| ==> GoodRow(entry, rows, end, k)
  }

  predicate InTable(t: Table, off: nat) {
    0 < off < |t.data|
  }

  /** A program whose offset lies in the table can be decoded to its end. */
  ghost predicate Decodes(t: Table, off: nat, entry: nat) {
    InTable(t, off) ==> Program(t, off, entry).Some?
  }

  /** What a forward lookup needs. */
  ghost predicate Readable(t: Table) {
    && |t.entries| == |t.funcs| + 1
    && Sorted(t.entries)
    && forall i: nat :: i < |t.funcs| ==> ReadableFunc(t, i)
  }

  ghost predicate ReadableFunc(t: Table, i: nat)
    requires i < |t.funcs|
  {
    Decodes(t, t.funcs[i].pcfile, t.funcs[i].entry) && Decodes(t, t.funcs[i].pcline, t.funcs[i].entry)
  }

  ghost predicate GoodProgram(t: Table, off: nat, entry: nat, end: nat) {
    && InTable(t, off)
    && Program(t, off, entry).Some?
    && Increasing(entry, Program(t, off, entry).value, end)
  }

  /** What the linker guarantees, and the search backwards needs. */
  ghost predicate WellFormed(t: Table) {
    && Readable(t)
    && forall i: nat :: i < |t.funcs| ==> GoodFunc(t, i)
  }

  ghost predicate GoodFunc(t: Table, i: nat)
    requires i < |t.funcs| && |t.entries| == |t.funcs| + 1
  {
    var f := t.funcs[i];
    && f.entry == t.entries[i]
    && GoodProgram(t, f.pcfile, f.entry, t.entries[i + 1])
    && GoodProgram(t, f.pcline, f.entry, t.entries[i + 1])
    && SameRange(f.entry, Program(t, f.pcfile, f.entry).value, Program(t, f.pcline, f.entry).value)
  }

  /** Two programs of a function cover the same pcs. */
  predicate SameRange(entry: nat, a: seq<Row>, b: seq<Row>) {
    Start(entry, a, |a|) == Start(entry, b, |b|)
  }

  predicate Sorted(s: seq<nat>) {
    forall i: nat, j: nat :: i <= j < |s| ==> s[i] <= s[j]
  }

  // ---------------------------------------------------------------- values

  /** The value of the first row that ends above the target. */
  function ValueAt(rows: seq<Row>, target: nat): int {
    if rows == [] then -1
    else if target < rows[0].end then rows[0].value
    else ValueAt(rows[1..], target)
  }

  /** In a good program, that is the row which contains the target. */
  lemma {:induction false} ValueOfRow(entry: nat, rows: seq<Row>, end: nat, k: nat, target: nat)
    requires Increasing(entry, rows, end) && k < |rows| && Start(entry, rows, k) <= target < rows[k].end
    ensures ValueAt(rows, target) == rows[k].value
    decreases k
  {
    if k > 0 {
      var rest := rows[1..];
      TailIncreasing(entry, rows, end);
      assert Start(rows[0].end, rest, k - 1) == Start(entry, rows, k);
      StartsRise(rows[0].end, rest, end, k - 1);
      ValueOfRow(rows[0].end, rest, end, k - 1, target);
    }
  }

  /** A value that is not -1 comes from a row that contains the target. */
  lemma {:induction false} RowOfValue(entry: nat, rows: seq<Row>, end: nat, target: nat) returns (k: nat)
    requires Increasing(entry, rows, end) && entry <= target && ValueAt(rows, target) != -1
    ensures k < |rows| && Start(entry, rows, k) <= target < rows[k].end && rows[k].value == ValueAt(rows, target)
    decreases |rows|
  {
    k := 0;
    if target >= rows[0].end {
      TailIncreasing(entry, rows, end);
      k := RowOfValue(rows[0].end, rows[1..], end, target);
      assert Start(rows[0].end, rows[1..], k) == Start(entry, rows, k + 1);
      k := k + 1;
    }
  }

  lemma TailIncreasing(entry: nat, rows: seq<Row>, end: nat)
    requires Increasing(entry, rows, end) && rows != []
    ensures Increasing(rows[0].end, rows[1..], end)
  {
    var rest := rows[1..];
    forall j: nat | j < |rest| ensures GoodRow(rows[0].end, rest, end, j) {
      assert GoodRow(entry, rows, end, j + 1);
    }
  }

  lemma {:induction false} StartsRise(entry: nat, rows: seq<Row>, end: nat, k: nat)
    requires Increasing(entry, rows, end) && k <= |rows|
    ensures entry <= Start(entry, rows, k) && (k > 0 ==> entry < Start(entry, rows, k) <= end)
  {
    if k > 0 {
      StartsRise(entry, rows, end, k - 1);
      assert GoodRow(entry, rows, end, k - 1);
    }
  }

  ghost predicate Contains(t: Table, pc: nat, i: nat) {
    i < |t.funcs| && |t.entries| == |t.funcs| + 1 && t.entries[i] <= pc < t.entries[i + 1]
  }

  lemma OneFunc(t: Table, pc: nat, i: nat, j: nat)
    requires Sorted(t.entries) && Contains(t, pc, i) && Contains(t, pc, j)
    ensures i == j
  {
    NotLater(t, pc, i, j);
    NotLater(t, pc, j, i);
  }

  lemma NotLater(t: Table, pc: nat, i: nat, j: nat)
    requires Sorted(t.entries) && Contains(t, pc, i) && j <= |t.funcs|
    ensures i < j ==> pc < t.entries[j]
  {
    if i < j { assert t.entries[i + 1] <= t.entries[j]; }
  }

  /** The value of a program for a pc, -1 when there is no program or no row for it. */
  function ValueIn(t: Table, off: nat, entry: nat, pc: nat): int
    requires Decodes(t, off, entry)
  {
    if InTable(t, off) then ValueAt(Program(t, off, entry).value, pc) else -1
  }

  /** File and line of a pc. */
  ghost function Where(t: Table, pc: nat): Option<(string, int)>
    requires Readable(t)
  {
    if exists i: nat :: Contains(t, pc, i) then
      var i: nat :| Contains(t, pc, i);
      assert ReadableFunc(t, i);
      WhereIn(t, i, pc)
    else None
  }

  function WhereIn(t: Table, i: nat, pc: nat): Option<(string, int)>
    requires i < |t.funcs|
    requires Decodes(t, t.funcs[i].pcfile, t.funcs[i].entry) && Decodes(t, t.funcs[i].pcline, t.funcs[i].entry)
  {
    var f := t.funcs[i];
    var line := ValueIn(t, f.pcline, f.entry, pc);
    var file := ValueIn(t, f.pcfile, f.entry, pc);
    if line < 0 || file <= 0 || file >= |t.files| then None else Some((t.files[file], line))
  }

  // ---------------------------------------------------------------- implementation

  method ReadVarint(data: seq<Byte>, start: nat) returns (v: nat, p: nat)
    requires Varint(data, start).Some?
    ensures Varint(data, start) == Some((v, p))
  {
    v, p := 0, start;
    var shift: nat := 0;
    ghost var j: nat := 0;
    while true
      invariant j < MAX_VARINT && shift == 7 * j && p == start + j < |data|
      invariant Continued(data[start..]) >= j
      invariant v == LebValue(data[start..p])
      decreases |data| - p
    {
      var b := data[p];
      GroupRead(data, start, j, v);
      v := Or(v, Shl(b % 128, shift) % U32);
      p := p + 1;
      if b < 128 {
        return;
      }
      j := j + 1;
      shift := shift + 7;
    }
  }

  /** One more group of a varint. */
  lemma GroupRead(data: seq<Byte>, start: nat, j: nat, v: nat)
    requires start + j < |data| && j < MAX_VARINT
    requires Continued(data[start..]) >= j && v == LebValue(data[start..start + j])
    ensures var b := data[start + j];
      && (if b < 128 then Continued(data[start..]) == j else Continued(data[start..]) >= j + 1)
      && Or(v, Shl(b % 128, 7 * j) % U32) == LebValue(data[start..start + j + 1]) % U32
      && (j + 1 < MAX_VARINT ==> LebValue(data[start..start + j + 1]) % U32 == LebValue(data[start..start + j + 1]))
  {
    var q, b := data[start..], data[start + j];
    assert q[j] == b;
    ContinuedAt(q, j);
    assert data[start..start + j + 1] == data[start..start + j] + [b];
    LebSnoc(data[start..start + j], b);
    LebBound(data[start..start + j]);
    LebBound(data[start..start + j + 1]);
    ShlIsMul(b % 128, 7 * j);
    OrGroup(v, b % 128, 7 * j, 32);
    if j + 1 < MAX_VARINT { SmallWord(j + 1, LebValue(data[start..start + j + 1])); }
  }

  lemma OrShifted(v: nat, g: nat, shift: nat, w: nat)
    requires v < Pow2(shift) && shift <= w
    ensures Or(v, Low(Shl(g, shift), w)) == v + Low(Shl(g, shift), w) < Pow2(w)
  {
    LowOfShl(g, w - shift, shift);
    OrBelow(v, Low(g, w - shift), shift, w);
  }

  lemma OrBelow(v: nat, h: nat, shift: nat, w: nat)
    requires v < Pow2(shift) && shift <= w && h < Pow2(w - shift)
    ensures Or(v, Shl(h, shift)) == v + Shl(h, shift) < Pow2(w)
  {
    OrCommutes(v, Shl(h, shift));
    OrDisjoint(h, v, shift);
    JoinFits(h, v, w - shift, shift);
  }

  /** OR-ing in the next group is adding it, in 32 bits. */
  lemma OrGroup(v: nat, g: nat, shift: nat, w: nat)
    requires v < Pow2(shift) && shift <= 28 && w == 32
    ensures Or(v, Shl(g, shift) % U32) == (v + Shl(g, shift)) % U32
  {
    OrShifted(v, g, shift, w);
    LowWord(Shl(g, shift), w);
    SumWord(v, Shl(g, shift), Or(v, Shl(g, shift) % U32));
  }

  lemma SumWord(v: nat, x: nat, o: nat)
    requires o == v + x % U32 < U32
    ensures o == (v + x) % U32
  {
    AddLow(v, x);
  }

  lemma LowWord(x: nat, w: nat)
    requires w == 32
    ensures Low(x, w) == x % U32 && Pow2(w) == U32
  {
    Pow2Constants();
    LowIsMod(x, w);
  }

  lemma AddLow(v: nat, x: nat)
    ensures v + x % U32 < U32 ==> (v + x) % U32 == v + x % U32
  {
    if v + x % U32 < U32 { DivMulAdd(x / U32, U32, v + x % U32); }
  }

  lemma SmallWord(j: nat, x: nat)
    requires j < MAX_VARINT && x < Pow2(7 * j)
    ensures x % U32 == x
  {
    Pow2Mono(7 * j, 28);
    Pow2Constants();
  }

  /** One step of a program: the cursor, the pc and the value move on, until the end. */
  method Step(t: Table, start: nat, pc: nat, value: int, ghost entry: nat, first: bool)
    returns (more: bool, p: nat, pc': nat, value': int)
    requires Rows(t, start, entry, pc, value).Some? && first == (pc == entry)
    ensures var rows := Rows(t, start, entry, pc, value).value;
      && more == (rows != [])
      && (more ==> rows[0] == Row(value', pc') && Rows(t, p, entry, pc', value') == Some(rows[1..]))
  {
    var uvdelta;
    uvdelta, p := ReadVarint(t.data, start);
    if uvdelta == 0 && !first {
      return false, p, pc, value;
    }
    var vdelta := Zigzag(uvdelta);
    var pcdelta;
    pcdelta, p := ReadVarint(t.data, p);
    pcdelta := pcdelta * t.quantum % U32;
    value' := Int32(value + vdelta);
    pc' := (pc + pcdelta) % U64;
    more := true;
    ghost var rest := Rows(t, p, entry, pc', value').value;
    assert ([Row(value', pc')] + rest)[1..] == rest;
  }

  method PcValue(t: Table, off: nat, entry: nat, target: nat) returns (v: int)
    requires Decodes(t, off, entry)
    ensures v == ValueIn(t, off, entry, target)
  {
    if off == 0 || off >= |t.data| {
      return -1;
    }
    var val, pc, p := -1, entry, off;
    var more := true;
    ghost var all := Program(t, off, entry).value;
    while true
      invariant Rows(t, p, entry, pc, val).Some?
      invariant ValueAt(Rows(t, p, entry, pc, val).value, target) == ValueAt(all, target)
      decreases |Rows(t, p, entry, pc, val).value|
    {
      more, p, pc, val := Step(t, p, pc, val, entry, pc == entry);
      if !more {
        return -1;
      }
      if target < pc {
        return val;
      }
    }
  }

  /** The function that contains a pc: found whenever there is one. */
  method FindFunc(t: Table, pc: nat) returns (r: Option<nat>)
    requires |t.entries| == |t.funcs| + 1 && Sorted(t.entries)
    ensures r.Some? ==> Contains(t, pc, r.value)
    ensures r.None? ==> forall i: nat :: !Contains(t, pc, i)
  {
    if pc < t.entries[0] || pc >= t.entries[|t.funcs|] {
      forall i: nat ensures !Contains(t, pc, i) { Outside(t, pc, i); }
      return None;
    }
    var f, nf: nat := 0, |t.funcs|;
    while nf > 0
      invariant 0 <= f && f + nf <= |t.funcs|
      invariant forall i: nat :: Contains(t, pc, i) ==> f <= i < f + nf
    {
      var m := nf / 2;
      var fm := f + m;
      if t.entries[fm] <= pc < t.entries[fm + 1] {
        return Some(fm);
      } else if pc < t.entries[fm] {
        forall i: nat | Contains(t, pc, i) ensures i < fm { Left(t, pc, i, fm); }
        nf := m;
      } else {
        forall i: nat | Contains(t, pc, i) ensures i > fm { Right(t, pc, i, fm); }
        f := f + m + 1;
        nf := nf - (m + 1);
      }
    }
    return None;
  }

  lemma Outside(t: Table, pc: nat, i: nat)
    requires |t.entries| == |t.funcs| + 1 && Sorted(t.entries)
    requires pc < t.entries[0] || pc >= t.entries[|t.funcs|]
    ensures !Contains(t, pc, i)
  {
  }

  lemma Left(t: Table, pc: nat, i: nat, m: nat)
    requires Sorted(t.entries) && Contains(t, pc, i) && m < |t.entries| && pc < t.entries[m]
    ensures i < m
  {
  }

  lemma Right(t: Table, pc: nat, i: nat, m: nat)
    requires Sorted(t.entries) && Contains(t, pc, i) && m < |t.funcs| && pc >= t.entries[m + 1]
    ensures i > m
  {
  }

  lemma WhereIs(t: Table, pc: nat, i: nat)
    requires Readable(t) && Contains(t, pc, i)
    ensures ReadableFunc(t, i) && Where(t, pc) == WhereIn(t, i, pc)
  {
    assert ReadableFunc(t, i);
    var j: nat :| Contains(t, pc, j) && Where(t, pc) == WhereIn(t, j, pc);
    OneFunc(t, pc, i, j);
  }

  method FileLine(t: Table, pc: nat) returns (r: Option<(string, int)>)
    requires Readable(t)
    ensures r == Where(t, pc)
  {
    var i := FindFunc(t, pc);
    if i.None? {
      return None;
    }
    WhereIs(t, pc, i.value);
    var f := t.funcs[i.value];
    var lno := PcValue(t, f.pcline, f.entry, pc);
    var fno := PcValue(t, f.pcfile, f.entry, pc);
    if lno < 0 || fno <= 0 || fno >= |t.files| {
      return None;
    }
    return Some((t.files[fno], lno));
  }

  // ---------------------------------------------------------------- from file and line to pc

  /** The rows of a function's file program and line program. */
  ghost function FileRows(t: Table, i: nat): seq<Row>
    requires WellFormed(t) && i < |t.funcs|
  {
    assert GoodFunc(t, i);
    Program(t, t.funcs[i].pcfile, t.funcs[i].entry).value
  }

  ghost function LineRows(t: Table, i: nat): seq<Row>
    requires WellFormed(t) && i < |t.funcs|
  {
    assert GoodFunc(t, i);
    Program(t, t.funcs[i].pcline, t.funcs[i].entry).value
  }

  /** pc is in row j of the file program and in row k of the line program of function i. */
  ghost predicate InRows(t: Table, i: nat, j: nat, k: nat, pc: nat)
    requires WellFormed(t) && i < |t.funcs|
  {
    var entry := t.funcs[i].entry;
    && j < |FileRows(t, i)| && k < |LineRows(t, i)|
    && Start(entry, FileRows(t, i), j) <= pc < FileRows(t, i)[j].end
    && Start(entry, LineRows(t, i), k) <= pc < LineRows(t, i)[k].end
  }

  /** The two programs say that pc has this file number and line. */
  ghost predicate At(t: Table, pc: nat, fno: int, line: int)
    requires WellFormed(t)
  {
    exists i: nat :: Contains(t, pc, i)
      && ValueAt(FileRows(t, i), pc) == fno && ValueAt(LineRows(t, i), pc) == line
  }

  lemma RowsAt(t: Table, i: nat, j: nat, k: nat, pc: nat)
    requires WellFormed(t) && i < |t.funcs| && InRows(t, i, j, k, pc)
    ensures At(t, pc, FileRows(t, i)[j].value, LineRows(t, i)[k].value)
  {
    assert GoodFunc(t, i);
    var entry, end := t.funcs[i].entry, t.entries[i + 1];
    StartsRise(entry, FileRows(t, i), end, j);
    assert GoodRow(entry, FileRows(t, i), end, j);
    assert Contains(t, pc, i);
    ValueOfRow(entry, FileRows(t, i), end, j, pc);
    ValueOfRow(entry, LineRows(t, i), end, k, pc);
  }

  /** What the programs say is what the forward lookup finds. */
  lemma AtWhere(t: Table, pc: nat, fno: int, line: int)
    requires WellFormed(t) && At(t, pc, fno, line)
    ensures Where(t, pc) == if 0 < fno < |t.files| && line >= 0 then Some((t.files[fno], line)) else None
  {
    var i: nat :| Contains(t, pc, i)
      && ValueAt(FileRows(t, i), pc) == fno && ValueAt(LineRows(t, i), pc) == line;
    assert GoodFunc(t, i);
    WhereIs(t, pc, i);
  }

  /** What the two rows say is what the forward lookup finds. */
  lemma RowsAgree(t: Table, i: nat, j: nat, k: nat, pc: nat)
    requires WellFormed(t) && i < |t.funcs| && InRows(t, i, j, k, pc)
    requires 0 < FileRows(t, i)[j].value < |t.files| && LineRows(t, i)[k].value >= 0
    ensures Where(t, pc) == Some((t.files[FileRows(t, i)[j].value], LineRows(t, i)[k].value))
  {
    RowsAt(t, i, j, k, pc);
    AtWhere(t, pc, FileRows(t, i)[j].value, LineRows(t, i)[k].value);
  }

  /** A row of the line program with this line overlaps a row of the file program with this file. */
  ghost predicate Hit(t: Table, i: nat, j: nat, k: nat, fno: int, line: int)
    requires WellFormed(t) && i < |t.funcs|
  {
    var entry := t.funcs[i].entry;
    && j < |FileRows(t, i)| && k < |LineRows(t, i)|
    && FileRows(t, i)[j].value == fno && LineRows(t, i)[k].value == line
    && Start(entry, FileRows(t, i), j) < LineRows(t, i)[k].end
    && Start(entry, LineRows(t, i), k) < FileRows(t, i)[j].end
  }

  predicate First(t: Table, file: string, fno: nat) {
    0 < fno < |t.files| && t.files[fno] == file && forall j :: 0 < j < fno ==> t.files[j] != file
  }

  /** The number of a file: the first with this name. */
  method FileNumber(t: Table, file: string) returns (r: Option<nat>)
    ensures r.Some? ==> First(t, file, r.value)
    ensures r.None? ==> forall fno: nat :: !First(t, file, fno)
  {
    var fno := 1;
    while fno < |t.files|
      invariant 1 <= fno
      invariant forall j :: 0 < j < fno && j < |t.files| ==> t.files[j] != file
    {
      if t.files[fno] == file {
        return Some(fno);
      }
      fno := fno + 1;
    }
    return None;
  }

  lemma AtIsHit(t: Table, pc: nat, fno: nat, line: nat) returns (i: nat, j: nat, k: nat)
    requires WellFormed(t) && At(t, pc, fno, line)
    ensures i < |t.funcs| && Hit(t, i, j, k, fno, line)
  {
    i :| Contains(t, pc, i) && ValueAt(FileRows(t, i), pc) == fno && ValueAt(LineRows(t, i), pc) == line;
    assert GoodFunc(t, i);
    j := RowOfValue(t.funcs[i].entry, FileRows(t, i), t.entries[i + 1], pc);
    k := RowOfValue(t.funcs[i].entry, LineRows(t, i), t.entries[i + 1], pc);
  }

  predicate Distinct(files: seq<string>) {
    forall a, b :: 0 < a < b < |files| ==> files[a] != files[b]
  }

  /** Where the forward lookup gives a file, it has its number there; the only one if names are distinct. */
  lemma WhereIsAt(t: Table, pc: nat, file: string, line: int) returns (fno: nat)
    requires WellFormed(t) && Distinct(t.files) && Where(t, pc) == Some((file, line))
    ensures First(t, file, fno) && At(t, pc, fno, line) && line >= 0
  {
    var i: nat :| Contains(t, pc, i);
    WhereIs(t, pc, i);
    assert GoodFunc(t, i);
    fno := ValueAt(FileRows(t, i), pc);
  }

  /** No pc has the line and the first number of the file. */
  ghost predicate Missing(t: Table, file: string, line: int)
    requires WellFormed(t)
  {
    forall pc: nat, fno: nat :: First(t, file, fno) ==> !At(t, pc, fno, line)
  }

  lemma NoHits(t: Table, file: string, line: nat, fno: nat)
    requires WellFormed(t) && First(t, file, fno)
    requires forall i: nat, j: nat, k: nat :: i < |t.funcs| ==> !Hit(t, i, j, k, fno, line)
    ensures Missing(t, file, line)
  {
    forall pc: nat, f: nat | First(t, file, f) ensures !At(t, pc, f, line) {
      if At(t, pc, f, line) {
        var i, j, k := AtIsHit(t, pc, f, line);
        assert false;
      }
    }
  }

  lemma MissingWhere(t: Table, file: string, line: int)
    requires WellFormed(t) && Missing(t, file, line) && Distinct(t.files)
    ensures forall pc: nat :: Where(t, pc) != Some((file, line))
  {
    forall pc: nat ensures Where(t, pc) != Some((file, line)) {
      if Where(t, pc) == Some((file, line)) {
        var fno := WhereIsAt(t, pc, file, line);
        assert false;
      }
    }
  }

  /** The pc found is mapped back to the file and the line; none is found exactly when none has that
      line and the first number of the file, so with distinct names exactly when there is none. */
  method File2Pc(t: Table, file: string, line: int) returns (r: Option<nat>)
    requires WellFormed(t)
    ensures r.Some? && line >= 0 ==> Where(t, r.value) == Some((file, line))
    ensures line >= 0 ==> (r.None? <==> Missing(t, file, line))
    ensures line >= 0 && Distinct(t.files) ==> (r.None? <==> forall pc: nat :: Where(t, pc) != Some((file, line)))
  {
    ghost var fno;
    r, fno := Search(t, file, line);
    if r.Some? {
      AtWhere(t, r.value, fno, line);
    } else if line >= 0 && Distinct(t.files) {
      MissingWhere(t, file, line);
    }
  }

  /** The loop over the functions. */
  method Search(t: Table, file: string, line: int) returns (r: Option<nat>, ghost fno: nat)
    requires WellFormed(t)
    ensures r.Some? ==> First(t, file, fno) && At(t, r.value, fno, line)
    ensures r.None? && line >= 0 ==> Missing(t, file, line)
  {
    var found := FileNumber(t, file);
    fno := 0;
    if found.None? {
      return None, fno;
    }
    fno := found.value;
    for i := 0 to |t.funcs|
      invariant forall x: nat, j: nat, k: nat :: x < i ==> !Hit(t, x, j, k, fno, line)
    {
      r := SearchFunc(t, i, found.value, line);
      if r.Some? {
        return;
      }
    }
    if line >= 0 { NoHits(t, file, line, fno); }
    return None, fno;
  }

  /** Cursors of the two programs: j and k rows have been read. */
  ghost predicate FileCursor(t: Table, i: nat, j: nat, p: nat, pc: nat, value: int)
    requires WellFormed(t) && i < |t.funcs|
  {
    j <= |FileRows(t, i)| && pc == Start(t.funcs[i].entry, FileRows(t, i), j)
    && Rows(t, p, t.funcs[i].entry, pc, value) == Some(FileRows(t, i)[j..])
  }

  ghost predicate LineCursor(t: Table, i: nat, k: nat, p: nat, pc: nat, value: int)
    requires WellFormed(t) && i < |t.funcs|
  {
    k <= |LineRows(t, i)| && pc == Start(t.funcs[i].entry, LineRows(t, i), k)
    && Rows(t, p, t.funcs[i].entry, pc, value) == Some(LineRows(t, i)[k..])
  }

  lemma StartCursors(t: Table, i: nat)
    requires WellFormed(t) && i < |t.funcs|
    ensures FileCursor(t, i, 0, t.funcs[i].pcfile, t.funcs[i].entry, -1)
    ensures LineCursor(t, i, 0, t.funcs[i].pcline, t.funcs[i].entry, -1)
  {
    assert GoodFunc(t, i);
  }

  lemma {:induction false} StartsGrow(entry: nat, rows: seq<Row>, end: nat, j: nat, k: nat)
    requires Increasing(entry, rows, end) && j <= k <= |rows|
    ensures Start(entry, rows, j) <= Start(entry, rows, k)
    decreases k - j
  {
    if j < k {
      StartsGrow(entry, rows, end, j, k - 1);
      assert GoodRow(entry, rows, end, k - 1);
    }
  }

  /** Line row z is of another line, or ends before pc. */
  ghost predicate Passed(t: Table, i: nat, z: nat, line: int, pc: nat)
    requires WellFormed(t) && i < |t.funcs|
  {
    z < |LineRows(t, i)| && (LineRows(t, i)[z].value != line || LineRows(t, i)[z].end <= pc)
  }

  lemma StaysPassed(t: Table, i: nat, k: nat, line: int, pc: nat, later: nat)
    requires WellFormed(t) && i < |t.funcs| && pc <= later
    requires forall z: nat :: z < k ==> Passed(t, i, z, line, pc)
    ensures forall z: nat :: z < k ==> Passed(t, i, z, line, later)
  {
    forall z: nat | z < k ensures Passed(t, i, z, line, later) { assert Passed(t, i, z, line, pc); }
  }

  /** File row j has been searched: the line rows before k end before it or are of another
      line, and row k, if there is one, starts after it. */
  lemma RowSearched(t: Table, i: nat, j: nat, k: nat, fno: int, line: int, z: nat)
    requires WellFormed(t) && i < |t.funcs| && j < |FileRows(t, i)| && k <= |LineRows(t, i)|
    requires FileRows(t, i)[j].value != fno || Start(t.funcs[i].entry, LineRows(t, i), k) >= FileRows(t, i)[j].end
    requires FileRows(t, i)[j].value == fno && z < k ==>
      Passed(t, i, z, line, Start(t.funcs[i].entry, FileRows(t, i), j))
    ensures !Hit(t, i, j, z, fno, line)
  {
    assert GoodFunc(t, i);
    if k <= z <= |LineRows(t, i)| {
      StartsGrow(t.funcs[i].entry, LineRows(t, i), t.entries[i + 1], k, z);
    }
  }

  /** The first j file rows have been searched in vain. */
  ghost predicate RowsDone(t: Table, i: nat, j: nat, fno: int, line: int)
    requires WellFormed(t) && i < |t.funcs|
  {
    forall y: nat, z: nat :: y < j ==> !Hit(t, i, y, z, fno, line)
  }

  lemma OneMoreRow(t: Table, i: nat, j: nat, k: nat, fno: int, line: int)
    requires WellFormed(t) && i < |t.funcs| && j < |FileRows(t, i)| && k <= |LineRows(t, i)|
    requires RowsDone(t, i, j, fno, line)
    requires FileRows(t, i)[j].value != fno || Start(t.funcs[i].entry, LineRows(t, i), k) >= FileRows(t, i)[j].end
    requires forall z: nat :: z < k ==> Passed(t, i, z, line, Start(t.funcs[i].entry, FileRows(t, i), j))
    ensures RowsDone(t, i, j + 1, fno, line)
  {
    forall z: nat ensures !Hit(t, i, j, z, fno, line) {
      RowSearched(t, i, j, k, fno, line, z);
    }
  }

  method SearchFunc(t: Table, i: nat, fno: nat, line: int) returns (r: Option<nat>)
    requires WellFormed(t) && i < |t.funcs| && 0 < fno < |t.files|
    ensures r.Some? ==> At(t, r.value, fno, line)
    ensures r.None? ==> forall j: nat, k: nat :: !Hit(t, i, j, k, fno, line)
  {
    StartCursors(t, i);
    var func := t.funcs[i];
    var fp, lp := func.pcfile, func.pcline;
    var fval, lval := -1, -1;
    var fpc, lpc := func.entry, func.entry;
    var fstartpc := fpc;
    ghost var j: nat, k: nat := 0, 0;
    while true
      invariant 0 <= fp && 0 <= fpc && FileCursor(t, i, j, fp, fpc, fval) && fstartpc == fpc
      invariant 0 <= lp && 0 <= lpc && LineCursor(t, i, k, lp, lpc, lval)
      invariant RowsDone(t, i, j, fno, line)
      invariant forall z: nat :: z < k ==> Passed(t, i, z, line, fpc)
      decreases |FileRows(t, i)| - j
    {
      var more;
      more, fp, fpc, fval := FileStep(t, i, j, fp, fpc, fval);
      if !more {
        return None;
      }
      if fval == fno && fstartpc < fpc {
        r, lp, lpc, lval, k := SearchLines(t, i, j, k, fno, line, fstartpc, fpc, lp, lpc, lval);
        if r.Some? {
          return;
        }
      }
      OneMoreRow(t, i, j, k, fno, line);
      StaysPassed(t, i, k, line, fstartpc, fpc);
      fstartpc := fpc;
      j := j + 1;
    }
  }

  method FileStep(t: Table, i: nat, ghost j: nat, start: nat, pc: nat, value: int)
    returns (more: bool, p: nat, pc': nat, value': int)
    requires WellFormed(t) && i < |t.funcs| && FileCursor(t, i, j, start, pc, value)
    ensures more == (j < |FileRows(t, i)|)
    ensures more ==> FileCursor(t, i, j + 1, p, pc', value') && value' == FileRows(t, i)[j].value && pc < pc'
  {
    ghost var rows := FileRows(t, i);
    more, p, pc', value' := Step(t, start, pc, value, t.funcs[i].entry, pc == t.funcs[i].entry);
    if more {
      assert rows[j..][1..] == rows[j + 1..];
      assert GoodFunc(t, i) && GoodRow(t.funcs[i].entry, rows, t.entries[i + 1], j);
    }
  }

  method LineStep(t: Table, i: nat, ghost k: nat, start: nat, pc: nat, value: int)
    returns (more: bool, p: nat, pc': nat, value': int)
    requires WellFormed(t) && i < |t.funcs| && LineCursor(t, i, k, start, pc, value)
    ensures more == (k < |LineRows(t, i)|)
    ensures more ==> LineCursor(t, i, k + 1, p, pc', value') && LineRows(t, i)[k] == Row(value', pc') && pc < pc'
  {
    ghost var rows := LineRows(t, i);
    more, p, pc', value' := Step(t, start, pc, value, t.funcs[i].entry, pc == t.funcs[i].entry);
    if more {
      assert rows[k..][1..] == rows[k + 1..];
      assert GoodFunc(t, i) && GoodRow(t.funcs[i].entry, rows, t.entries[i + 1], k);
    }
  }

  /** The line program reaches as far as the file program. */
  lemma MoreLines(t: Table, i: nat, j: nat, k: nat)
    requires WellFormed(t) && i < |t.funcs| && j < |FileRows(t, i)| && k <= |LineRows(t, i)|
    requires Start(t.funcs[i].entry, LineRows(t, i), k) < FileRows(t, i)[j].end
    ensures k < |LineRows(t, i)|
  {
    assert GoodFunc(t, i);
    StartsGrow(t.funcs[i].entry, FileRows(t, i), t.entries[i + 1], j + 1, |FileRows(t, i)|);
  }

  /** The inner loop: file row j covers the pcs from fstartpc to fpc. */
  method SearchLines(t: Table, i: nat, ghost j: nat, ghost k0: nat, fno: nat, line: int, fstartpc: nat, fpc: nat,
                     lp0: nat, lpc0: nat, lval0: int)
    returns (r: Option<nat>, lp: nat, lpc: nat, lval: int, ghost k: nat)
    requires WellFormed(t) && i < |t.funcs| && j < |FileRows(t, i)| && 0 < fno < |t.files|
    requires FileRows(t, i)[j] == Row(fno, fpc)
    requires fstartpc == Start(t.funcs[i].entry, FileRows(t, i), j) && fstartpc < fpc
    requires LineCursor(t, i, k0, lp0, lpc0, lval0)
    requires forall z: nat :: z < k0 ==> Passed(t, i, z, line, fstartpc)
    ensures r.Some? ==> At(t, r.value, fno, line)
    ensures r.None? ==> LineCursor(t, i, k, lp, lpc, lval) && lpc >= fpc
    ensures r.None? ==> forall z: nat :: z < k ==> Passed(t, i, z, line, fstartpc)
  {
    lp, lpc, lval, k := lp0, lpc0, lval0, k0;
    var lstartpc := lpc;
    while lpc < fpc
      invariant 0 <= lp && 0 <= lpc && LineCursor(t, i, k, lp, lpc, lval) && lstartpc == lpc
      invariant forall z: nat :: z < k ==> Passed(t, i, z, line, fstartpc)
      decreases |LineRows(t, i)| - k
    {
      var more;
      MoreLines(t, i, j, k);
      more, lp, lpc, lval := LineStep(t, i, k, lp, lpc, lval);
      if !more {
        break;
      }
      r := TestLine(t, i, j, k, fno, line, lval, fstartpc, fpc, lstartpc, lpc);
      if r.Some? {
        return;
      }
      lstartpc := lpc;
      k := k + 1;
    }
    r := None;
  }

  /** The tests of the inner loop on line row k, which ends at lpc. */
  method TestLine(ghost t: Table, ghost i: nat, ghost j: nat, ghost k: nat, ghost fno: nat, line: int, lval: int,
                  fstartpc: nat, ghost fpc: nat, lstartpc: nat, lpc: nat)
    returns (r: Option<nat>)
    requires WellFormed(t) && i < |t.funcs| && j < |FileRows(t, i)| && k < |LineRows(t, i)| && 0 < fno < |t.files|
    requires FileRows(t, i)[j] == Row(fno, fpc)
    requires fstartpc == Start(t.funcs[i].entry, FileRows(t, i), j) && fstartpc < fpc
    requires LineRows(t, i)[k] == Row(lval, lpc) && lstartpc == Start(t.funcs[i].entry, LineRows(t, i), k)
    requires lstartpc < fpc && lstartpc < lpc
    ensures r.Some? ==> At(t, r.value, fno, line)
    ensures r.None? ==> Passed(t, i, k, line, fstartpc)
  {
    if lval == line {
      if fstartpc <= lstartpc {
        LineFound(t, i, j, k, lstartpc, fstartpc, fpc, lstartpc, fno, line);
        return Some(lstartpc);
      }
      if fstartpc < lpc {
        LineFound(t, i, j, k, fstartpc, fstartpc, fpc, lstartpc, fno, line);
        return Some(fstartpc);
      }
    }
    return None;
  }

  lemma LineFound(t: Table, i: nat, j: nat, k: nat, pc: nat, fstartpc: nat, fpc: nat, lstartpc: nat, fno: nat,
      line: int)
    requires WellFormed(t) && i < |t.funcs| && j < |FileRows(t, i)| && k < |LineRows(t, i)| && 0 < fno < |t.files|
    requires FileRows(t, i)[j] == Row(fno, fpc) && fstartpc == Start(t.funcs[i].entry, FileRows(t, i), j)
    requires LineRows(t, i)[k].value == line && lstartpc == Start(t.funcs[i].entry, LineRows(t, i), k)
    requires fstartpc <= pc < fpc && lstartpc <= pc < LineRows(t, i)[k].end
    ensures At(t, pc, fno, line)
  {
    RowsAt(t, i, j, k, pc);
  }

  // ---------------------------------------------------------------- a repeated name

  /** One function of one byte, in file number 2 and line 5; both file numbers have the same name. */
  const TWINS: Table := Table([0, 6, 1, 0, 12, 1, 0], 1, [0, 1], [Func(0, 1, 4)], ["", "a", "a"])

  lemma SmallVarint(data: seq<Byte>, p: nat, b: Byte)
    requires p < |data| && data[p] == b < 128
    ensures Varint(data, p) == Some((b, p + 1))
  {
    assert data[p..][0] == b && Continued(data[p..]) == 0;
    var g := data[p..p + 1];
    assert g == [b] && g[1..] == [];
    assert LebValue(g) == b % 128 + 128 * LebValue(g[1..]);
  }

  /** One row and the end. */
  lemma OneRow(t: Table, p: nat, u: Byte, value: int)
    requires p + 2 < |t.data| && 0 < u < 128 && t.data[p] == u && t.data[p + 1] == 1 && t.data[p + 2] == 0
    requires t.quantum == 1 && value == Int32(-1 + Zigzag(u))
    ensures Program(t, p, 0) == Some([Row(value, 1)])
  {
    SmallVarint(t.data, p, u);
    SmallVarint(t.data, p + 1, 1);
    SmallVarint(t.data, p + 2, 0);
    assert Rows(t, p + 2, 0, 1, value) == Some([]);
    assert (0 + 1 * t.quantum % U32) % U64 == 1;
    assert [Row(value, 1)] + [] == [Row(value, 1)];
    assert Rows(t, p, 0, 0, -1) == Some([Row(value, 1)]);
  }

  /** A table of one function of one byte, with one row in each program. */
  ghost predicate Single(t: Table, file: int, line: int) {
    && t.entries == [0, 1] && t.funcs == [Func(0, 1, 4)] && |t.data| > 4
    && Program(t, 1, 0) == Some([Row(file, 1)]) && Program(t, 4, 0) == Some([Row(line, 1)])
  }

  lemma SingleFormed(t: Table, file: int, line: int)
    requires Single(t, file, line)
    ensures WellFormed(t) && At(t, 0, file, line)
  {
    assert GoodRow(0, [Row(file, 1)], 1, 0) && GoodRow(0, [Row(line, 1)], 1, 0);
    assert ReadableFunc(t, 0) && GoodFunc(t, 0);
    assert Contains(t, 0, 0);
  }

  lemma SingleOnly(t: Table, file: int, line: int, pc: nat, fno: int, l: int)
    requires Single(t, file, line) && WellFormed(t) && At(t, pc, fno, l)
    ensures fno == file && l == line
  {
    assert [Row(file, 1)][1..] == [] && [Row(line, 1)][1..] == [];
  }

  /** The file and the line of pc 0 are not found. */
  lemma TwinsMiss()
    ensures WellFormed(TWINS) && Where(TWINS, 0) == Some(("a", 5)) && Missing(TWINS, "a", 5)
  {
    OneRow(TWINS, 1, 6, 2);
    OneRow(TWINS, 4, 12, 5);
    SingleFormed(TWINS, 2, 5);
    AtWhere(TWINS, 0, 2, 5);
    SingleMissing(TWINS);
  }

  lemma SingleMissing(t: Table)
    requires Single(t, 2, 5) && WellFormed(t) && t.files == ["", "a", "a"]
    ensures Missing(t, "a", 5)
  {
    forall pc: nat, fno: nat | First(t, "a", fno) ensures !At(t, pc, fno, 5) {
      assert fno != 2 by { assert t.files[1] == "a"; }
      if At(t, pc, fno, 5) { SingleOnly(t, 2, 5, pc, fno, 5); }
    }
  }
}
