/** Any mix of calls on a buffered reader delivers the bytes of the file along its position. Two
    runs show where that ends: a line search and a seek that go wrong. */
module BioStream {
  import opened Bits
  import opened Bio

  datatype Op = Getc | Ungetc | Read(count: nat) | Rdline(delim: Byte) | Seek(target: nat)

  /** What a call did. A call that gives bytes gives them; failed says that a read has failed. A
      search without a line has seen so many bytes after having lost so many. */
  datatype Event =
    | Got(c: Byte)
    | End(failed: bool)
    | Undone
    | Piece(bytes: seq<Byte>, count: nat, failed: bool)
    | Line(bytes: seq<Byte>, delim: Byte)
    | NoLine(delim: Byte, lost: nat, seen: nat)
    | Sought(target: nat)
    | Refused

  /** A file, what its reads do, and the size of the buffer. */
  datatype World = World(content: seq<Byte>, plan: nat -> int, bsize: int)

  /** What a caller knows between calls: the position, how many reads of the file there were, how
      many bytes can be pushed back, and how many have been and wait to be read again; whether any
      seek is safe, whether the end has just been met, and whether a read has failed. */
  datatype Status =
    Status(pos: int, calls: nat, credit: nat, pushed: nat, sure: bool, ended: bool, broken: bool)

  // ---------------------------------------------------------------- the plain stream

  ghost predicate At(content: seq<Byte>, pos: int, bytes: seq<Byte>) {
    bytes != [] ==> 0 <= pos && pos + |bytes| <= |content| && bytes == content[pos..pos + |bytes|]
  }

  /** The kind of event that answers a call. */
  predicate Answers(op: Op, e: Event) {
    match op
    case Getc => e.Got? || e.End?
    case Ungetc => e.Undone? || e.Refused?
    case Read(count) => e.Piece? && e.count == count
    case Rdline(delim) => (e.Line? && e.delim == delim) || (e.NoLine? && e.delim == delim)
    case Seek(target) => e == Sought(target) || e.Refused?
  }

  /** A seek is safe when nothing has made the reader doubtful, when it goes no further back than
      the bytes that can be pushed back, and when it goes back further than the buffer. */
  predicate Safe(s: Status, target: int, bsize: int) {
    s.sure || s.ended || target >= s.pos - s.credit || target < s.pos - bsize
  }

  /** The calls that are refused: a push-back beyond the count, a seek that is not safe, and both of
      them once a read has failed. */
  predicate IsRefused(s: Status, op: Op, bsize: int) {
    match op
    case Ungetc => s.broken || s.credit == 0
    case Seek(target) => s.broken || !Safe(s, target, bsize)
    case _ => false
  }

  function Given(e: Event): seq<Byte> {
    match e
    case Got(c) => [c]
    case Piece(bytes, _, _) => bytes
    case Line(bytes, _) => bytes
    case _ => []
  }

  /** The most reads of the file that a call makes: all of them but the last give bytes to it. */
  function MostCalls(e: Event): nat {
    match e
    case Got(_) => 1
    case End(_) => 1
    case Piece(bytes, _, _) => |bytes| + 1
    case Line(bytes, _) => |bytes|
    case NoLine(_, _, seen) => seen + 1
    case _ => 0
  }

  ghost predicate Failing(w: World, s: Status, calls: nat) {
    s.broken || LastFailed(w.plan, s.calls, calls)
  }

  /** What a plain stream does with some reads of the file. A failure is reported exactly when the
      last read of the call failed, or one of an earlier call. Without one all bytes asked for are
      given up to the end of the file, and a line that is not found is not within a buffer of the
      position. */
  ghost predicate Right(w: World, s: Status, e: Event, calls: nat) {
    && s.calls <= calls <= s.calls + MostCalls(e) && AllRead(w.plan, s.calls, calls - 1)
    && var failing := Failing(w, s, calls);
       match e
       case Got(c) => !failing && At(w.content, s.pos, [c])
       case End(failed) => failed == failing && (!failed ==> s.pos >= |w.content|)
       case Piece(bytes, count, failed) =>
         && failed == failing && At(w.content, s.pos, bytes) && |bytes| <= count
         && (s.broken ==> bytes == []) && (failed && !s.broken ==> |bytes| < count)
         && (|bytes| < count && !failed ==> s.pos + |bytes| >= |w.content|)
       case Line(bytes, delim) =>
         && !failing && At(w.content, s.pos, bytes) && LineOf(w.content, s.pos, |bytes|, delim)
       case NoLine(delim, lost, seen) =>
         && lost <= Least(s.pushed, UNGET) && NoneOf(w.content, s.pos + lost, seen, delim)
         && (!failing ==> seen == Ahead(w, s.pos + lost))
       case _ => true
  }

  /** How many bytes from a position on fit into the buffer. */
  function Ahead(w: World, pos: int): int {
    if pos >= |w.content| then 0 else Least(w.bsize, |w.content| - pos)
  }

  // ---------------------------------------------------------------- what a caller knows

  function Next(pos: int, e: Event): int {
    match e
    case Undone => pos - 1
    case NoLine(_, lost, _) => pos + lost
    case Sought(target) => target
    case _ => pos + |Given(e)|
  }

  /** How many bytes can be pushed back after a call. */
  function Credit(s: Status, e: Event, bsize: int): nat {
    match e
    case Got(_) => 1 + Least(s.credit, UNGET)
    case End(_) => if s.ended || s.broken then s.credit else Max(0, Least(s.credit, bsize))
    case Undone => Max(0, s.credit - 1)
    case Piece(bytes, _, _) => if bytes == [] then s.credit else 1
    case Line(bytes, _) => |bytes|
    case NoLine(_, _, _) => 0
    case Sought(_) => 0
    case Refused => s.credit
  }

  function Max(x: int, y: int): int { if x < y then y else x }

  /** How many of the bytes pushed back may still wait after a call. */
  function Pushed(s: Status, e: Event): nat {
    match e
    case Undone => s.pushed + 1
    case Refused => s.pushed
    case NoLine(_, _, _) => 0
    case Sought(target) => if target < s.pos then 0 else Max(0, s.pushed - (target - s.pos))
    case _ => Max(0, s.pushed - |Given(e)|)
  }

  /** Bgetc at the end makes the reader doubtful, unless the end has been met before; a search that
      fails, a seek right after the end, and one further than the buffer make it sure. */
  function Sure(s: Status, e: Event, bsize: int): bool {
    match e
    case End(_) => s.ended && s.sure
    case NoLine(_, _, _) => true
    case Sought(target) => s.sure || s.ended || target < s.pos - bsize || target > s.pos + bsize
    case _ => s.sure
  }

  /** The end is met when fewer bytes come than were asked for; asking again forgets it. */
  function Ended(ended: bool, e: Event): bool {
    match e
    case End(failed) => !ended && !failed
    case Piece(bytes, count, failed) => if |bytes| < count then !failed else if count == 0 then ended else false
    case Refused => ended
    case _ => false
  }

  predicate Fails(e: Event) {
    (e.End? && e.failed) || (e.Piece? && e.failed)
  }

  function Then(s: Status, e: Event, calls: nat, bsize: int): Status {
    Status(Next(s.pos, e), calls, Credit(s, e, bsize), Pushed(s, e), Sure(s, e, bsize),
           Ended(s.ended, e), s.broken || Fails(e))
  }

  /** One call of a plain stream. */
  ghost predicate Step(w: World, s: Status, op: Op, e: Event, t: Status) {
    && Answers(op, e) && (e.Refused? <==> IsRefused(s, op, w.bsize))
    && Right(w, s, e, t.calls) && t == Then(s, e, t.calls, w.bsize)
  }

  /** A run of a plain stream: each call has its answer. */
  ghost predicate Run(w: World, s: Status, ops: seq<Op>, log: seq<Event>, t: Status)
    decreases |log|
  {
    if log == [] then ops == [] && s == t
    else
      && ops != []
      && exists m :: Run(w, s, Front(ops), Front(log), m) && Step(w, m, Last(ops), Last(log), t)
  }

  function Front<T>(s: seq<T>): seq<T>
    requires s != []
  {
    s[..|s| - 1]
  }

  function Last<T>(s: seq<T>): T
    requires s != []
  {
    s[|s| - 1]
  }

  lemma LastStep(w: World, s: Status, ops: seq<Op>, log: seq<Event>, t: Status) returns (m: Status)
    requires Run(w, s, ops, log, t) && log != []
    ensures ops != [] && Run(w, s, Front(ops), Front(log), m) && Step(w, m, Last(ops), Last(log), t)
  {
    m :| Run(w, s, Front(ops), Front(log), m) && Step(w, m, Last(ops), Last(log), t);
  }

  lemma RunGrows(w: World, s: Status, ops: seq<Op>, log: seq<Event>, m: Status, op: Op, e: Event, t: Status)
    requires Run(w, s, ops, log, m) && Step(w, m, op, e, t)
    ensures Run(w, s, ops + [op], log + [e], t)
  {
    assert Front(ops + [op]) == ops && Front(log + [e]) == log;
  }

  // ---------------------------------------------------------------- runs without push-back

  function Delivered(log: seq<Event>): seq<Byte> {
    if log == [] then [] else Delivered(Front(log)) + Given(Last(log))
  }

  /** Nothing is pushed back, and there is no seek. */
  predicate Onward(log: seq<Event>) {
    forall i :: 0 <= i < |log| ==> Forward(log[i])
  }

  predicate Forward(e: Event) {
    !e.Undone? && !e.Sought?
  }

  /** Then the bytes delivered are those of the file between the two positions. */
  lemma {:induction false} InOrder(w: World, s: Status, ops: seq<Op>, log: seq<Event>, t: Status)
    requires Run(w, s, ops, log, t) && Onward(log) && s.pushed == 0
    ensures t.pos == s.pos + |Delivered(log)| && t.pushed == 0
    ensures At(w.content, s.pos, Delivered(log))
    decreases |log|
  {
    if log != [] {
      var m := LastStep(w, s, ops, log, t);
      OnwardInit(log);
      InOrder(w, s, Front(ops), Front(log), m);
      InOrderStep(w, s.pos, Delivered(Front(log)), m, Last(log), t.calls, t.pos);
    }
  }

  lemma InOrderStep(w: World, from: int, a: seq<Byte>, m: Status, e: Event, calls: nat, to: int)
    requires At(w.content, from, a) && m.pos == from + |a|
    requires Right(w, m, e, calls) && m.pushed == 0 && Forward(e) && to == Next(m.pos, e)
    ensures At(w.content, from, a + Given(e)) && to == from + |a + Given(e)|
  {
    GivenAt(w, m, e, calls);
    Joined(w.content, from, a, Given(e));
  }

  lemma OnwardInit(log: seq<Event>)
    requires Onward(log) && log != []
    ensures Onward(Front(log)) && Forward(Last(log))
  {
  }

  lemma GivenAt(w: World, s: Status, e: Event, calls: nat)
    requires Right(w, s, e, calls) && s.pushed == 0 && Forward(e)
    ensures At(w.content, s.pos, Given(e)) && Next(s.pos, e) == s.pos + |Given(e)|
  {
  }

  lemma Joined(content: seq<Byte>, from: int, a: seq<Byte>, b: seq<Byte>)
    requires At(content, from, a) && At(content, from + |a|, b)
    ensures At(content, from, a + b)
  {
    if a != [] && b != [] {
      Split(content, from, from + |a|, from + |a| + |b|);
    }
  }

  // ---------------------------------------------------------------- one call

  ghost function WorldOf(b: BioBuf): World {
    World(b.file.content, b.file.plan, b.bsize)
  }

  ghost predicate Ready(b: BioBuf, s: Status)
    reads b, b.buf, b.file
  {
    && b.Valid() && s.pos == b.Pos() && s.calls == b.file.calls
    && s.credit <= b.Behind() && -b.icount <= b.bsize + s.pushed && (s.sure ==> b.Sound())
    && s.ended == (b.state == AtEof) && s.broken == (b.state == Inactive)
  }

  /** The count of the bytes to push back is exact as long as reads give one byte each. */
  method DoGetc(b: BioBuf, ghost s: Status) returns (e: Event, ghost t: Status)
    requires Ready(b, s)
    modifies b, b.buf, b.file
    ensures Step(WorldOf(b), s, Getc, e, t) && Ready(b, t)
    ensures old(b.icount) == 0 && b.file.plan(old(b.file.calls)) == 0 && s.credit == old(b.Behind()) ==>
      b.icount == 0 && t.credit == b.Behind() && (e == End(false) && !s.ended ==> b.gbuf == b.bbuf)
      && (s.ended ==> b.gbuf == old(b.gbuf))
  {
    var c := b.Bgetc();
    if c == EOF {
      e := End(b.state == Inactive);
    } else {
      e := Got(c);
      RightGot(WorldOf(b), s, c, b.file.calls);
    }
    t := Then(s, e, b.file.calls, b.bsize);
  }

  lemma RightGot(w: World, s: Status, c: Byte, calls: nat)
    requires s.calls <= calls <= s.calls + 1 && !Failing(w, s, calls)
    requires 0 <= s.pos < |w.content| && c == w.content[s.pos]
    ensures Right(w, s, Got(c), calls)
  {
  }

  method DoUngetc(b: BioBuf, s: Status) returns (e: Event, ghost t: Status)
    requires Ready(b, s)
    modifies b
    ensures Step(WorldOf(b), s, Ungetc, e, t) && Ready(b, t)
  {
    if s.credit == 0 {
      return Refused, s;
    }
    var r := b.Bungetc();
    e := if r == EOF then Refused else Undone;
    t := Then(s, e, b.file.calls, b.bsize);
  }

  method DoRead(b: BioBuf, count: nat, ghost s: Status) returns (e: Event, ghost t: Status)
    requires Ready(b, s)
    modifies b, b.buf, b.file
    ensures Step(WorldOf(b), s, Read(count), e, t) && Ready(b, t)
  {
    var p := new Byte[count];
    var r := b.Bread(p, count);
    e := Piece(p[..r], count, b.state == Inactive);
    t := Then(s, e, b.file.calls, b.bsize);
  }

  method DoRdline(b: BioBuf, delim: Byte, ghost s: Status) returns (e: Event, ghost t: Status)
    requires Ready(b, s)
    modifies b, b.buf, b.file
    ensures Step(WorldOf(b), s, Rdline(delim), e, t) && Ready(b, t)
    ensures e.NoLine? ==> e.lost == Max(0, -old(b.icount) - b.bsize)
  {
    e := Search(b, delim);
    if e.Line? {
      var n := |e.bytes|;
      t := Status(s.pos + n, b.file.calls, n, Max(0, s.pushed - n), s.sure, false, s.broken);
      LineStep(WorldOf(b), s, e.bytes, n, delim, b.file.calls);
    } else {
      t := Status(s.pos + e.lost, b.file.calls, 0, 0, true, false, s.broken);
      NoLineStep(WorldOf(b), s, delim, e.lost, e.seen, b.file.calls);
    }
  }

  /** Brdline, with the line copied out. */
  method Search(b: BioBuf, delim: Byte) returns (e: Event)
    requires b.Valid()
    modifies b, b.buf, b.file
    ensures b.Valid() && (e.NoLine? || old(b.Sound()) ==> b.Sound())
    ensures e == if e.Line? then Line(e.bytes, delim) else NoLine(delim, Max(0, -old(b.icount) - b.bsize), -b.icount)
    ensures e.NoLine? ==> e.lost <= UNGET
    ensures old(b.file.calls) <= b.file.calls <= old(b.file.calls) + MostCalls(e)
    ensures AllRead(b.file.plan, old(b.file.calls), b.file.calls - 1)
    ensures b.state == if old(b.icount) == 0 && old(b.state) == AtEof then Active else old(b.state)
    ensures e.Line? ==> !LastFailed(b.file.plan, old(b.file.calls), b.file.calls) && b.state == Active
    ensures e.Line? ==> LineOf(b.file.content, old(b.Pos()), |e.bytes|, delim)
    ensures e.Line? ==> e.bytes == b.file.content[old(b.Pos())..old(b.Pos()) + |e.bytes|]
    ensures e.Line? ==> b.Pos() == old(b.Pos()) + |e.bytes| && b.Behind() >= |e.bytes|
    ensures -b.icount <= b.bsize || (e.Line? && b.icount == old(b.icount) + |e.bytes|)
    ensures e.NoLine? ==> b.Pos() == old(b.Pos()) + e.lost && NoneOf(b.file.content, b.Pos(), e.seen, delim)
    ensures e.NoLine? && old(b.state) != Inactive && !LastFailed(b.file.plan, old(b.file.calls), b.file.calls) ==>
      e.seen == b.Ahead()
  {
    var back := -b.icount;
    BufferHolds(b);
    var line := b.Brdline(delim);
    if line >= 0 {
      e := Line(b.buf[..][line..line + b.rdline], delim);
    } else {
      e := NoLine(delim, Max(0, back - b.bsize), -b.icount);
    }
  }

  lemma NoLineStep(w: World, s: Status, delim: Byte, lost: nat, seen: nat, calls: nat)
    requires s.calls <= calls <= s.calls + seen + 1 && AllRead(w.plan, s.calls, calls - 1)
    requires lost <= Least(s.pushed, UNGET) && NoneOf(w.content, s.pos + lost, seen, delim)
    requires !Failing(w, s, calls) ==> seen == Ahead(w, s.pos + lost)
    ensures var e := NoLine(delim, lost, seen);
      Step(w, s, Rdline(delim), e, Status(s.pos + lost, calls, 0, 0, true, false, s.broken))
  {
  }

  lemma LineStep(w: World, s: Status, bytes: seq<Byte>, n: int, delim: Byte, calls: nat)
    requires s.calls <= calls <= s.calls + n && AllRead(w.plan, s.calls, calls - 1) && !Failing(w, s, calls)
    requires LineOf(w.content, s.pos, n, delim) && bytes == w.content[s.pos..s.pos + n]
    ensures var e := Line(bytes, delim);
      Step(w, s, Rdline(delim), e, Status(s.pos + n, calls, n, Max(0, s.pushed - n), s.sure, false, s.broken))
  {
  }

  lemma BufferHolds(b: BioBuf)
    requires b.Valid()
    ensures -b.icount <= b.buf.Length
  {
    TailIs(b.buf[..], b.file.content, b.offset, b.kept);
  }

  method DoSeek(b: BioBuf, target: nat, s: Status) returns (e: Event, ghost t: Status)
    requires Ready(b, s)
    modifies b, b.file
    ensures Step(WorldOf(b), s, Seek(target), e, t) && Ready(b, t)
  {
    if s.broken || !Safe(s, target, b.bsize) {
      return Refused, s;
    }
    var r := b.Bseek(target, 0);
    e := Sought(target);
    t := Then(s, e, b.file.calls, b.bsize);
  }

  /** A caller that counts can always tell what a call will be refused for, and what it may rely on. */
  method Do(b: BioBuf, op: Op, s: Status) returns (e: Event, ghost t: Status)
    requires Ready(b, s)
    modifies b, b.buf, b.file
    ensures Step(WorldOf(b), s, op, e, t) && Ready(b, t)
  {
    match op
    case Getc => e, t := DoGetc(b, s);
    case Ungetc => e, t := DoUngetc(b, s);
    case Read(count) => e, t := DoRead(b, count, s);
    case Rdline(delim) => e, t := DoRdline(b, delim, s);
    case Seek(target) => e, t := DoSeek(b, target, s);
  }

  // ---------------------------------------------------------------- any run

  /** Every run of calls on a new reader, over every file and every pattern of short and failing
      reads, is a run of the plain stream. */
  method Drive(file: File, size: nat, ops: seq<Op>) returns (log: seq<Event>, ghost end: Status)
    requires size > UNGET
    modifies file
    ensures Run(World(file.content, file.plan, size - UNGET), Start(old(file.pos), old(file.calls)), ops, log, end)
    ensures end.calls == file.calls
  {
    var b := new BioBuf(file, size);
    ghost var w := WorldOf(b);
    var start := Start(file.pos, file.calls);
    var s := start;
    log := [];
    for k := 0 to |ops|
      invariant fresh(b) && fresh(b.buf) && b.file == file && w == WorldOf(b) && b.bsize == size - UNGET
      invariant Ready(b, s) && Run(w, start, ops[..k], log, s)
    {
      ghost var t: Status;
      var e: Event;
      e, t := Do(b, ops[k], s);
      RunGrows(w, start, ops[..k], log, s, ops[k], e, t);
      OneMore(ops, k);
      log := log + [e];
      s := Then(s, e, file.calls, b.bsize);
    }
    assert ops[..|ops|] == ops;
    end := s;
  }

  /** What is known of a new reader. */
  function Start(pos: int, calls: nat): Status {
    Status(pos, calls, 0, 0, true, false, false)
  }

  lemma OneMore(ops: seq<Op>, k: nat)
    requires k < |ops|
    ensures ops[..k] + [ops[k]] == ops[..k + 1]
  {
  }

  // ---------------------------------------------------------------- where it ends

  /** Two bytes pushed back onto a full buffer, and a search that finds no line: the byte at 1 was
      to be read next, and the position is 2. */
  method LineLosesByte(file: File) returns (b: BioBuf, line: int)
    requires (forall k: nat :: file.plan(k) >= 9) && file.pos == 0 && file.content == [10, 11, 12, 13]
    modifies file
    ensures b.Valid() && line == -1 && b.Pos() == 2
  {
    b := new BioBuf(file, UNGET + 2);
    var c := b.Bgetc();
    c := b.Bgetc();
    c := b.Bgetc();
    var r := b.Bungetc();
    r := b.Bungetc();
    assert b.Pos() == 1 && b.state == Active && -b.icount == b.bsize + 1;
    line := b.Brdline(99);
    if line >= 0 {
      NoDelimiter(file.content, 1, b.rdline, 99);
    }
  }

  lemma NoDelimiter(content: seq<Byte>, start: int, n: int, c: Byte)
    requires c !in content
    ensures !LineOf(content, start, n, c)
  {
  }

  /** The last byte pushed back after the end of the file, and a seek to 1: the seek stays in the
      buffer, and the byte that would be read next is the one at 6. */
  method SeekReadsStale(file: File) returns (b: BioBuf, r: int)
    requires (forall k: nat :: file.plan(k) >= 9) && file.pos == 0 && file.content == [10, 11, 12, 13, 14, 15, 16]
    modifies file
    ensures r == 1 == b.Pos() && b.state == Active && 0 < -b.icount <= b.buf.Length
    ensures b.buf[b.ebuf + b.icount] == 16 != file.content[1]
  {
    b := new BioBuf(file, UNGET + 6);
    var c := b.Bgetc();
    while b.icount < 0
      invariant b.Valid() && fresh(b) && fresh(b.buf) && b.file == file && b.state == Active
      invariant b.offset == 6 && b.kept == 6 && b.buf.Length == UNGET + 6
      decreases -b.icount
    {
      c := b.Bgetc();
    }
    c := b.Bgetc();
    assert b.buf[b.bbuf] == file.content[6] && b.icount == 0 && b.kept == 5;
    c := b.Bgetc();
    var u := b.Bungetc();
    assert b.gbuf == b.bbuf && b.icount == -1 && b.Pos() == 6;
    r := b.Bseek(1, 0);
  }

  /** Nothing more could be promised from what a caller knows: when a file of any length has been read
      in pieces of one byte, and its end has been met twice, every seek that is not safe leaves more
      bytes to be read than the buffer holds. */
  method UnsafeSeek(content: seq<Byte>, size: nat, target: nat)
    returns (b: BioBuf, ghost log: seq<Event>, ghost s: Status)
    requires size > UNGET
    ensures Run(World(content, OneEach, size - UNGET), Start(0, 0), Gets(|content| + 2), log, s)
    ensures !s.broken && (!Safe(s, target, size - UNGET) ==> b.Pos() == target && -b.icount > b.kept)
  {
    b, log, s := EndTwice(content, size);
    if target < b.offset {
      var r := b.Bseek(target, 0);
    }
  }

  /** Then the bytes that can be pushed back are all that the buffer holds, but it claims to be full. */
  method EndTwice(content: seq<Byte>, size: nat) returns (b: BioBuf, ghost log: seq<Event>, ghost s: Status)
    requires size > UNGET
    ensures fresh(b) && fresh(b.buf) && fresh(b.file) && b.Valid() && b.bsize == size - UNGET
    ensures Run(World(content, OneEach, size - UNGET), Start(0, 0), Gets(|content| + 2), log, s)
    ensures !s.broken && b.state == Active && s.pos == b.Pos()
    ensures b.icount == 0 && s.credit == b.kept && b.gbuf == b.bbuf
  {
    var file := new File(content, OneEach);
    b := new BioBuf(file, size);
    ghost var w := WorldOf(b);
    log, s := [], Start(0, 0);
    for k := 0 to |content| + 2
      invariant fresh(b) && fresh(b.buf) && fresh(file) && b.file == file && w == WorldOf(b)
      invariant OneByOne(b, w, k, log, s)
    {
      log, s := GetOne(b, w, k, log, s);
    }
  }

  /** So many bytes have been asked for one by one; k may pass the end of the file by two. */
  ghost predicate OneByOne(b: BioBuf, w: World, k: nat, log: seq<Event>, s: Status)
    reads b, b.buf, b.file
  {
    && Ready(b, s) && Run(w, Start(0, 0), Gets(k), log, s)
    && b.icount == 0 && s.credit == b.kept && !s.broken
    && Phase(s, k, |w.content|) && (k > |w.content| ==> b.gbuf == b.bbuf)
  }

  method GetOne(b: BioBuf, ghost w: World, ghost k: nat, ghost log: seq<Event>, ghost s: Status)
    returns (ghost more: seq<Event>, ghost t: Status)
    requires OneByOne(b, w, k, log, s) && w == WorldOf(b) && w.plan == OneEach && k <= |w.content| + 1
    modifies b, b.buf, b.file
    ensures OneByOne(b, w, k + 1, more, t) && w == WorldOf(b)
  {
    var e: Event;
    e, t := DoGetc(b, s);
    PhaseStep(w, s, k, e, t);
    RunGrows(w, Start(0, 0), Gets(k), log, s, Getc, e, t);
    OneGet(k);
    more := log + [e];
  }

  predicate Phase(s: Status, k: nat, n: nat) {
    if k <= n then s.pos == k && !s.ended else s.pos == n && s.ended == (k == n + 1)
  }

  lemma PhaseStep(w: World, s: Status, k: nat, e: Event, t: Status)
    requires w.plan == OneEach && !s.broken && Phase(s, k, |w.content|) && k <= |w.content| + 1
    requires Step(w, s, Getc, e, t)
    requires e.End? || k < |w.content|
    ensures Phase(t, k + 1, |w.content|) && !t.broken
    ensures k >= |w.content| ==> e == End(false)
  {
  }

  lemma OneGet(k: nat)
    ensures Gets(k) + [Getc] == Gets(k + 1)
  {
  }

  /** A plan of reads that give one byte each. */
  function OneEach(k: nat): int {
    0
  }

  function Gets(n: nat): seq<Op> {
    seq(n, _ => Getc)
  }
}
