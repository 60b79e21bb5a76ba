/** The buffered reader: data is right-aligned in its buffer, icount counts it as a negative
    number, and reads may be short. It refines a plain byte stream with a position. */
module Bio {
  import opened Bits

  const UNGET := 4
  const EOF := -1

  function Least(x: int, y: int): int { if x < y then x else y }

  /** s with the bytes from at on replaced by piece. */
  function Spliced(s: seq<Byte>, at: int, piece: seq<Byte>): (r: seq<Byte>)
    requires 0 <= at && at + |piece| <= |s|
    ensures |r| == |s| && r[at..at + |piece|] == piece
  {
    s[..at] + piece + s[at + |piece|..]
  }

  lemma SplicedEnd(s: seq<Byte>, at: int, piece: seq<Byte>)
    requires 0 <= at && at + |piece| == |s|
    ensures Spliced(s, at, piece)[at..] == piece
  {
  }

  lemma SplicedFront(s: seq<Byte>, at: int, piece: seq<Byte>, from: int)
    requires 0 <= from <= at && at + |piece| <= |s|
    ensures Spliced(s, at, piece)[from..at] == s[from..at]
  {
  }

  lemma Split(s: seq<Byte>, x: int, y: int, z: int)
    requires 0 <= x <= y <= z <= |s|
    ensures s[x..z] == s[x..y] + s[y..z]
  {
  }

  lemma Sub(s: seq<Byte>, x: int, y: int, m: int, n: int)
    requires 0 <= x <= y <= |s| && 0 <= m <= n <= y - x
    ensures s[x..y][m..n] == s[x + m..x + n]
  {
    var a, b := s[x..y][m..n], s[x + m..x + n];
    assert |a| == |b| == n - m;
    forall k | 0 <= k < n - m ensures a[k] == b[k] {
      assert a[k] == s[x..y][m + k] == s[x + m + k];
    }
  }

  /** An open file. Its reads are numbered, and the plan says what each does: it fails where the plan
      is negative, and otherwise returns at most that many bytes and one more. It returns at least one
      byte, except at the end of the file. */
  class File {
    const content: seq<Byte>
    const plan: nat -> int
    var pos: nat
    var calls: nat

    constructor (content: seq<Byte>, plan: nat -> int)
      ensures this.content == content && this.plan == plan && pos == 0 && calls == 0
    {
      this.content := content;
      this.plan := plan;
      pos, calls := 0, 0;
    }

    /** What read k returns that asks for max bytes at a position. */
    function Gives(k: nat, max: int, at: int): (n: int)
      requires max > 0
      ensures n <= max && (n < 0 <==> plan(k) < 0) && (n < 0 ==> n == -1)
      ensures n == 0 <==> plan(k) >= 0 && at >= |content|
      ensures n > 0 ==> at + n <= |content|
    {
      if plan(k) < 0 then -1
      else if at >= |content| then 0
      else Least(Least(max, |content| - at), plan(k) + 1)
    }

    method Read(dst: array<Byte>, at: nat, max: nat) returns (n: int)
      requires max > 0 && at + max <= dst.Length
      modifies this, dst
      ensures n == Gives(old(calls), max, old(pos)) && calls == old(calls) + 1
      ensures n <= 0 ==> pos == old(pos) && dst[..] == old(dst[..])
      ensures n > 0 ==> pos == old(pos) + n <= |content|
      ensures n > 0 ==> dst[..] == Spliced(old(dst[..]), at, content[old(pos)..old(pos) + n])
    {
      n := Gives(calls, max, pos);
      calls := calls + 1;
      if n > 0 {
        forall k | 0 <= k < n {
          dst[at + k] := content[pos + k];
        }
        pos := pos + n;
      }
    }

    method Lseek(n: int, base: nat) returns (r: int)
      requires base <= 2
      modifies this
      ensures var target := n + (if base == 0 then 0 else if base == 1 then old(pos) else |content|);
        if target >= 0 then r == target && pos == target else r == -1 && pos == old(pos)
      ensures calls == old(calls)
    {
      var target := n + (if base == 0 then 0 else if base == 1 then pos else |content|);
      if target < 0 {
        return -1;
      }
      pos := target;
      return target;
    }
  }

  /** None of these reads fails. */
  ghost predicate AllRead(plan: nat -> int, from: int, to: int) {
    forall k: nat :: from <= k < to ==> plan(k) >= 0
  }

  /** The last of these reads fails. */
  ghost predicate LastFailed(plan: nat -> int, from: nat, to: nat) {
    from < to && plan(to - 1) < 0
  }

  lemma OneMoreRead(plan: nat -> int, from: nat, to: nat)
    requires from <= to && AllRead(plan, from, to)
    ensures if plan(to) < 0 then LastFailed(plan, from, to + 1)
            else AllRead(plan, from, to + 1) && !LastFailed(plan, from, to + 1)
  {
  }

  /** memmove: the ranges may overlap. */
  method Move(a: array<Byte>, dst: nat, src: nat, n: nat)
    requires dst + n <= a.Length && src + n <= a.Length
    modifies a
    ensures a[..] == Spliced(old(a[..]), dst, old(a[..])[src..src + n])
  {
    forall k | 0 <= k < n {
      a[dst + k] := a[src + k];
    }
  }

  /** Right-aligns n bytes from src on, unless they are at the end already. */
  method MoveToEnd(a: array<Byte>, src: nat, n: nat)
    requires src + n <= a.Length
    modifies a
    ensures |a[..]| == old(|a[..]|) && a[..][a.Length - n..] == old(a[..])[src..src + n]
    ensures forall k :: 0 <= k < a.Length - n ==> a[k] == old(a[k])
  {
    ghost var before := a[..];
    if src + n < a.Length {
      Move(a, a.Length - n, src, n);
      SplicedEnd(before, a.Length - n, before[src..src + n]);
    } else {
      assert before[src..] == before[src..src + n];
    }
  }

  /** Appends n bytes of a to the first r bytes of p. */
  method CopyBytes(p: array<Byte>, r: nat, a: array<Byte>, from: nat, n: nat)
    requires p != a && r + n <= p.Length && from + n <= a.Length
    modifies p
    ensures p[..r + n] == old(p[..r]) + a[..][from..from + n]
  {
    forall k | 0 <= k < n {
      p[r + k] := a[from + k];
    }
  }

  /** memchr. */
  method Find(a: array<Byte>, from: nat, n: nat, c: Byte) returns (r: int)
    requires from + n <= a.Length
    ensures r == -1 || from <= r < from + n
    ensures if r == -1 then c !in a[..][from..from + n] else a[..][r] == c && c !in a[..][from..r]
  {
    for k := from to from + n
      invariant c !in a[..][from..k]
    {
      if a[k] == c {
        return k;
      }
      assert a[..][from..k + 1] == a[..][from..k] + [a[k]];
    }
    return -1;
  }

  datatype State = Inactive | Active | AtEof

  // TailOf and HeadOf are sealed: only the lemmas about them unfold them.
  predicate UnlockTail(u: int) { true }

  predicate UnlockHead(u: int) { true }

  ghost predicate TailBody(u: int, a: seq<Byte>, content: seq<Byte>, offset: int, count: int) {
    && 0 <= count <= |a| && count <= offset
    && (count > 0 ==> offset <= |content| && a[|a| - count..] == content[offset - count..offset])
  }

  ghost predicate HeadBody(u: int, a: seq<Byte>, content: seq<Byte>, offset: int, i: int) {
    && 0 <= i <= offset && UNGET + i <= |a|
    && (i > 0 ==> offset <= |content| && a[UNGET..UNGET + i] == content[offset - i..offset])
  }

  /** The last count bytes of a buffer are those of the file before offset. */
  ghost predicate TailOf(a: seq<Byte>, content: seq<Byte>, offset: int, count: int) {
    forall u: int :: UnlockTail(u) ==> TailBody(u, a, content, offset, count)
  }

  /** i bytes at the start of the buffer proper are those of the file before offset. */
  ghost predicate HeadOf(a: seq<Byte>, content: seq<Byte>, offset: int, i: int) {
    forall u: int :: UnlockHead(u) ==> HeadBody(u, a, content, offset, i)
  }

  lemma TailIs(a: seq<Byte>, content: seq<Byte>, offset: int, count: int)
    requires TailOf(a, content, offset, count)
    ensures 0 <= count <= |a| && count <= offset
    ensures count > 0 ==> offset <= |content| && a[|a| - count..] == content[offset - count..offset]
  {
    assert UnlockTail(0) && TailBody(0, a, content, offset, count);
  }

  lemma HeadIs(a: seq<Byte>, content: seq<Byte>, offset: int, i: int)
    requires HeadOf(a, content, offset, i)
    ensures 0 <= i <= offset && UNGET + i <= |a|
    ensures i > 0 ==> offset <= |content| && a[UNGET..UNGET + i] == content[offset - i..offset]
  {
    assert UnlockHead(0) && HeadBody(0, a, content, offset, i);
  }

  lemma TailShorter(a: seq<Byte>, content: seq<Byte>, offset: int, count: int, fewer: int)
    requires TailOf(a, content, offset, count) && 0 <= fewer <= count
    ensures TailOf(a, content, offset, fewer)
    ensures count <= |a| && count <= offset && (count > 0 ==> offset <= |content|)
    ensures fewer > 0 ==> a[|a| - fewer] == content[offset - fewer]
  {
    TailIs(a, content, offset, count);
    if fewer > 0 {
      Sub(a, |a| - count, |a|, count - fewer, count);
      Sub(content, offset - count, offset, count - fewer, count);
      assert a[|a| - fewer..] == content[offset - fewer..offset];
      assert a[|a| - fewer] == a[|a| - fewer..][0] == content[offset - fewer..offset][0];
    }
  }

  /** The last bytes of a0 have been copied to the front, and n bytes read after them. */
  ghost predicate Saved(a0: seq<Byte>, a: seq<Byte>, content: seq<Byte>, offset: int, n: int) {
    && |a0| == |a| > UNGET && 0 <= n <= |a| - UNGET && 0 <= offset && (n > 0 ==> offset + n <= |content|)
    && a[..UNGET] == a0[|a0| - UNGET..] && a[UNGET + n..] == a0[UNGET + n..]
    && (n > 0 ==> a[UNGET..UNGET + n] == content[offset..offset + n])
  }

  lemma SavedAndRead(a0: seq<Byte>, a1: seq<Byte>, a2: seq<Byte>, at: int, content: seq<Byte>, offset: int, n: int)
    requires Saved(a0, a1, content, offset, 0) && at == UNGET
    requires 0 < n <= |a0| - UNGET && 0 <= offset && offset + n <= |content|
    requires a2 == Spliced(a1, at, content[offset..offset + n])
    ensures Saved(a0, a2, content, offset, n)
  {
    assert a2[..UNGET] == a1[..UNGET];
    assert a2[UNGET + n..] == a1[UNGET..][n..] == a0[UNGET..][n..];
  }

  lemma SavedNothing(a0: seq<Byte>, a1: seq<Byte>, at: int, from: int, content: seq<Byte>, offset: int)
    requires |a0| > UNGET && 0 <= offset && at == 0 && from == |a0| - UNGET
    requires a1 == Spliced(a0, at, a0[from..from + UNGET])
    ensures Saved(a0, a1, content, offset, 0)
  {
  }

  /** The first byte of the buffer proper. */
  lemma SavedFirst(a0: seq<Byte>, a: seq<Byte>, content: seq<Byte>, offset: int, n: int)
    requires Saved(a0, a, content, offset, n)
    ensures a[UNGET] == if n > 0 then content[offset] else a0[UNGET]
  {
    if n > 0 {
      assert a[UNGET] == a[UNGET..UNGET + n][0] == content[offset..offset + n][0];
    } else {
      assert a[UNGET] == a[UNGET..][0] == a0[UNGET..][0];
    }
  }

  lemma SavedOnly(a0: seq<Byte>, a: seq<Byte>, content: seq<Byte>, offset: int, kept: nat)
    requires Saved(a0, a, content, offset, 0) && TailOf(a0, content, offset, kept)
    ensures TailOf(a, content, offset, Least(kept, |a| - UNGET))
  {
    TailIs(a0, content, offset, kept);
    var count := Least(kept, |a| - UNGET);
    TailShorter(a0, content, offset, kept, count);
    TailIs(a0, content, offset, count);
    Sub(a, UNGET, |a|, |a| - UNGET - count, |a| - UNGET);
    Sub(a0, UNGET, |a|, |a| - UNGET - count, |a| - UNGET);
    assert a[|a| - count..] == a0[|a| - count..];
  }

  lemma TailMade(a: seq<Byte>, content: seq<Byte>, offset: int, count: int)
    requires 0 <= count <= |a| && count <= offset
    requires count > 0 ==> offset <= |content| && a[|a| - count..] == content[offset - count..offset]
    ensures TailOf(a, content, offset, count)
  {
  }

  /** Right-aligned again: the old last bytes come before the new ones. */
  lemma Refilled(a0: seq<Byte>, a: seq<Byte>, b: seq<Byte>, content: seq<Byte>, offset: int, n: int, kept: nat)
    requires Saved(a0, a, content, offset, n) && n > 0 && |b| == |a| && TailOf(a0, content, offset, kept)
    requires b[|b| - n - UNGET..] == a[..UNGET + n]
    ensures TailOf(b, content, offset + n, n + Least(kept, UNGET))
  {
    var m := Least(kept, UNGET);
    LastOf(a0, content, offset, kept, m);
    SavedParts(a0, a, b, content, offset, n, m);
    Split(content, offset - m, offset, offset + n);
    TailMade(b, content, offset + n, n + m);
  }

  /** The last m of the kept bytes. */
  lemma LastOf(a: seq<Byte>, content: seq<Byte>, offset: int, kept: int, m: int)
    requires TailOf(a, content, offset, kept) && 0 <= m <= kept && 0 <= offset <= |content|
    ensures m <= |a| && m <= offset && a[|a| - m..] == content[offset - m..offset]
  {
    TailShorter(a, content, offset, kept, m);
    TailIs(a, content, offset, m);
  }

  lemma SavedParts(a0: seq<Byte>, a: seq<Byte>, b: seq<Byte>, content: seq<Byte>, offset: int, n: int, m: int)
    requires Saved(a0, a, content, offset, n) && n > 0 && |b| == |a| && 0 <= m <= UNGET
    requires b[|b| - n - UNGET..] == a[..UNGET + n]
    ensures b[|b| - n - m..] == a0[|a0| - m..] + content[offset..offset + n]
  {
    Sub(b, |b| - n - UNGET, |b|, UNGET - m, UNGET + n);
    Sub(a, 0, UNGET + n, UNGET - m, UNGET + n);
    assert b[|b| - n - m..] == a[UNGET - m..UNGET + n] == a[UNGET - m..UNGET] + a[UNGET..UNGET + n];
    Sub(a, 0, UNGET, UNGET - m, UNGET);
    Sub(a0, |a0| - UNGET, |a0|, UNGET - m, UNGET);
    assert a[UNGET - m..UNGET] == a0[|a0| - m..];
  }

  /** n more bytes copied out of the buffer are the next n bytes of the stream. */
  lemma Delivered(before: seq<Byte>, more: seq<Byte>, a: seq<Byte>, content: seq<Byte>, offset: int,
      icount: int, start: int)
    requires 0 < |more| <= -icount <= |a| && TailOf(a, content, offset, -icount) && offset + icount == start + |before|
    requires |before| > 0 ==> 0 <= start && start + |before| <= |content| && before == content[start..start + |before|]
    requires more == a[|a| + icount..|a| + icount + |more|]
    ensures 0 <= start && start + |before| + |more| <= |content|
    ensures before + more == content[start..start + |before| + |more|]
  {
    var i := -icount;
    TailIs(a, content, offset, i);
    LineAt(a, content, offset, i, |more|);
    Split(content, start, start + |before|, start + |before| + |more|);
  }

  lemma NextOut(before: seq<Byte>, a: seq<Byte>, content: seq<Byte>, offset: int, kept: nat, icount: int,
      from: int, n: int, start: int)
    requires TailOf(a, content, offset, kept) && 0 < n <= -icount <= kept && offset + icount == start + |before|
    requires |before| > 0 ==> 0 <= start && start + |before| <= |content| && before == content[start..start + |before|]
    requires from == |a| + icount
    ensures 0 <= from && from + n <= |a| && 0 <= start && start + |before| + n <= |content|
    ensures before + a[from..from + n] == content[start..start + |before| + n]
  {
    TailShorter(a, content, offset, kept, -icount);
    Delivered(before, a[from..from + n], a, content, offset, icount, start);
  }

  lemma Moved(a: seq<Byte>, b: seq<Byte>, content: seq<Byte>, offset: int, i: int)
    requires TailOf(a, content, offset, i) && 0 <= i && UNGET + i <= |a| && b == Spliced(a, UNGET, a[|a| - i..|a|])
    ensures HeadOf(b, content, offset, i)
  {
    TailIs(a, content, offset, i);
    assert a[|a| - i..|a|] == a[|a| - i..];
  }

  lemma Aligned(a: seq<Byte>, b: seq<Byte>, content: seq<Byte>, offset: int, i: int)
    requires HeadOf(a, content, offset, i) && |b| == |a| && 0 <= i
    requires UNGET + i <= |a| && b[|b| - i..] == a[UNGET..UNGET + i]
    ensures TailOf(b, content, offset, i)
  {
    HeadIs(a, content, offset, i);
  }

  lemma HeadGrows(a: seq<Byte>, b: seq<Byte>, at: int, content: seq<Byte>, offset: int, i: int, j: int)
    requires HeadOf(a, content, offset, i) && 0 < j && 0 <= i && at == UNGET + i && at + j <= |a|
    requires 0 <= offset && offset + j <= |content| && b == Spliced(a, at, content[offset..offset + j])
    ensures HeadOf(b, content, offset + j, i + j)
  {
    HeadIs(a, content, offset, i);
    Split(b, UNGET, UNGET + i, UNGET + i + j);
    SplicedFront(a, at, content[offset..offset + j], UNGET);
    Split(content, offset - i, offset, offset + j);
  }

  lemma EmptyHead(a: seq<Byte>, content: seq<Byte>, offset: int)
    requires |a| > UNGET && 0 <= offset
    ensures HeadOf(a, content, offset, 0)
  {
  }

  lemma EmptyTail(a: seq<Byte>, content: seq<Byte>, offset: int)
    ensures 0 <= offset ==> TailOf(a, content, offset, 0)
  {
  }

  lemma LineAt(a: seq<Byte>, content: seq<Byte>, offset: int, i: int, n: int)
    requires TailOf(a, content, offset, i) && 0 <= n <= i && i > 0
    ensures i <= |a| && i <= offset <= |content| && a[|a| - i..|a| - i + n] == content[offset - i..offset - i + n]
  {
    TailIs(a, content, offset, i);
    Sub(a, |a| - i, |a|, 0, n);
    Sub(content, offset - i, offset, 0, n);
    assert a[|a| - i..|a|] == a[|a| - i..];
  }

  /** n bytes of the file from start on, the last of them the first delimiter. */
  ghost predicate LineOf(content: seq<Byte>, start: int, n: int, c: Byte) {
    0 <= start && 0 < n && start + n <= |content| && content[start + n - 1] == c && c !in content[start..start + n - 1]
  }

  /** No delimiter in n bytes of the file. */
  ghost predicate NoneOf(content: seq<Byte>, start: int, n: int, c: Byte) {
    n > 0 ==> 0 <= start && start + n <= |content| && c !in content[start..start + n]
  }

  /** The delimiter at ep, in the last i bytes of the buffer. */
  lemma FoundIn(a: seq<Byte>, content: seq<Byte>, offset: int, i: int, ip: int, ep: int, c: Byte)
    requires TailOf(a, content, offset, i) && i > 0 && 0 <= ip == |a| - i <= ep < |a| && a[ep] == c && c !in a[ip..ep]
    ensures LineOf(content, offset - i, ep - ip + 1, c) && ep - ip + 1 <= i
    ensures a[ip..ep + 1] == content[offset - i..offset - i + ep - ip + 1]
  {
    var n := ep - ip + 1;
    LineAt(a, content, offset, i, n);
    LineAt(a, content, offset, i, n - 1);
    assert a[ep] == a[ip..ip + n][n - 1] == content[offset - i..offset - i + n][n - 1];
  }

  lemma NotIn(a: seq<Byte>, content: seq<Byte>, offset: int, i: int, c: Byte)
    requires TailOf(a, content, offset, i) && 0 <= i <= |a| && c !in a[|a| - i..|a|]
    ensures NoneOf(content, offset - i, i, c)
  {
    if i > 0 { LineAt(a, content, offset, i, i); }
  }

  lemma HeadPart(a: seq<Byte>, content: seq<Byte>, offset: int, i: int, m: int, n: int)
    requires HeadOf(a, content, offset, i) && i > 0 && 0 <= m <= n <= i
    ensures UNGET + i <= |a| && i <= offset <= |content|
    ensures a[UNGET + m..UNGET + n] == content[offset - i + m..offset - i + n]
  {
    HeadIs(a, content, offset, i);
    Sub(a, UNGET, UNGET + i, m, n);
    Sub(content, offset - i, offset, m, n);
  }

  lemma Single(a: seq<Byte>, x: nat, b: seq<Byte>, y: nat)
    requires x < |a| && y < |b| && a[x..x + 1] == b[y..y + 1]
    ensures a[x] == b[y]
  {
    assert a[x] == a[x..x + 1][0] == b[y..y + 1][0];
  }

  /** The delimiter at ep, in the piece read last, which starts at ip. */
  lemma FoundAtHead(a: seq<Byte>, content: seq<Byte>, offset: int, i: int, ip: int, ep: int, c: Byte)
    requires HeadOf(a, content, offset, i) && i > 0
    requires UNGET <= ip <= ep < UNGET + i <= |a| && a[ep] == c && c !in a[ip..ep]
    requires NoneOf(content, offset - i, ip - UNGET, c)
    ensures LineOf(content, offset - i, ep - UNGET + 1, c)
  {
    var n, m := ep - UNGET + 1, ip - UNGET;
    HeadPart(a, content, offset, i, m, n - 1);
    HeadPart(a, content, offset, i, n - 1, n);
    Single(a, ep, content, offset - i + n - 1);
    Split(content, offset - i, offset - i + m, offset - i + n - 1);
  }

  lemma NotAtHead(a: seq<Byte>, content: seq<Byte>, offset: int, i: int, ip: int, c: Byte)
    requires HeadOf(a, content, offset, i) && i > 0 && UNGET <= ip <= UNGET + i <= |a| && c !in a[ip..UNGET + i]
    requires NoneOf(content, offset - i, ip - UNGET, c)
    ensures NoneOf(content, offset - i, i, c)
  {
    var m := ip - UNGET;
    HeadPart(a, content, offset, i, m, i);
    Split(content, offset - i, offset - i + m, offset);
  }

  class BioBuf {
    const file: File
    const buf: array<Byte>
    var icount: int
    var rdline: int
    var state: State
    var offset: int
    var gbuf: int
    /** How many bytes at the end of the buffer are the file's last bytes before offset. */
    ghost var kept: nat

    const bsize: int := buf.Length - UNGET
    const bbuf: int := UNGET
    const ebuf: int := buf.Length

    /** The last count bytes of the buffer are the bytes of the file before offset. */
    ghost predicate Tail(count: int)
      reads this, buf
    {
      TailOf(buf[..], file.content, offset, count)
    }

    ghost predicate Valid()
      reads this, buf, file
    {
      && buf.Length > UNGET
      && offset == file.pos
      && icount <= 0 && 0 <= icount + kept
      && Tail(kept)
      && bbuf <= gbuf <= ebuf
      && (state != Active ==> icount == 0)
      && (state == AtEof ==> offset >= |file.content|)
    }

    /** The position of the next byte in the stream. */
    ghost function Pos(): int
      reads this
    {
      offset + icount
    }

    /** How many bytes can be pushed back. */
    ghost function Behind(): int
      reads this
    {
      kept + icount
    }

    /** The bytes from gbuf on are good: always, except after an end of file in Bgetc. */
    ghost predicate Sound()
      reads this
    {
      ebuf - gbuf <= kept
    }

    constructor (file: File, size: nat)
      requires size > UNGET
      ensures Valid() && fresh(buf) && this.file == file && buf.Length == size
      ensures offset == file.pos && icount == 0 && state == Active && kept == 0 && Sound()
    {
      this.file := file;
      buf := new Byte[size];
      icount, rdline, state, offset := 0, 0, Active, file.pos;
      kept := 0;
      new;
      gbuf := ebuf;
    }

    /** The next byte of the stream, or EOF. */
    method Bgetc() returns (c: int)
      requires Valid()
      modifies this, buf, file
      ensures Valid()
      ensures c != EOF ==> 0 <= old(Pos()) < |file.content| && c == file.content[old(Pos())] && Pos() == old(Pos()) + 1
      ensures c == EOF ==> Pos() == old(Pos())
      ensures c == EOF && state != Inactive ==> Pos() >= |file.content|
      ensures c != EOF && old(Sound()) ==> Sound()
      ensures c != EOF ==> Behind() >= 1 + Least(old(Behind()), UNGET)
      ensures c == EOF ==> Behind() >= Least(old(Behind()), bsize)
      ensures file.calls == old(file.calls) + if old(icount) == 0 && old(state) == Active then 1 else 0
      ensures c != EOF ==> old(state) == state == Active && !LastFailed(file.plan, old(file.calls), file.calls)
      ensures c == EOF ==>
        state == if old(state) == Inactive || LastFailed(file.plan, old(file.calls), file.calls) then Inactive
                 else if old(state) == AtEof then Active else AtEof
      ensures c == EOF ==> icount == 0
      ensures c == EOF && old(state) != Active ==> gbuf == old(gbuf) && kept == old(kept)
      ensures old(icount) == 0 ==> -icount <= bsize
      ensures old(icount) < 0 ==> c != EOF && offset == old(offset) && kept == old(kept) && state == old(state)
      ensures old(icount) < 0 ==> icount == old(icount) + 1 && gbuf == old(gbuf) && buf[..] == old(buf[..])
      ensures old(icount) == 0 && old(state) == Active ==>
        var n := file.Gives(old(file.calls), bsize, old(offset));
        if n > 0
        then
          && c != EOF && offset == old(offset) + n && kept == n + Least(old(kept), UNGET)
          && (n + UNGET < bsize ==> buf[bbuf] == file.content[old(offset)])
        else c == EOF && gbuf == bbuf && kept == Least(old(kept), bsize) && buf[bbuf] == old(buf[bbuf])
    {
      if icount == 0 {
        if state != Active {
          if state == AtEof {
            state := Active;
          }
          return EOF;
        }
        var n := Refill();
        if n <= 0 {
          return EOF;
        }
      }
      TailShorter(buf[..], file.content, offset, kept, -icount);
      c := buf[ebuf + icount];
      icount := icount + 1;
    }

    /** The next buffer, after the last bytes of the one before. */
    method Refill() returns (n: int)
      requires Valid() && state == Active && icount == 0
      modifies this, buf, file
      ensures Valid() && Pos() == old(Pos())
      ensures n > 0 ==> icount == -n && state == Active && Sound() && kept == n + Least(old(kept), UNGET)
      ensures n <= 0 ==> icount == 0 && (n == 0 ==> state == AtEof) && (n < 0 ==> state == Inactive)
      ensures n <= 0 ==> gbuf == bbuf && kept == Least(old(kept), bsize) && buf[bbuf] == old(buf[bbuf])
      ensures n == 0 ==> Pos() >= |file.content|
      ensures n > 0 ==> offset == old(offset) + n && 0 <= old(offset) < |file.content|
      ensures n > 0 && n + UNGET < bsize ==> buf[bbuf] == file.content[old(offset)]
      ensures n == file.Gives(old(file.calls), bsize, old(offset)) && file.calls == old(file.calls) + 1
    {
      ghost var a0, content := buf[..], file.content;
      n := ReadSaved();
      SavedFirst(a0, buf[..], content, offset, if n > 0 then n else 0);
      gbuf := bbuf;
      if n <= 0 {
        NothingRead(n, a0);
        return;
      }
      AlignSaved(n, a0, kept);
      gbuf := ebuf - n;
      kept := n + Least(kept, UNGET);
      icount := -n;
      offset := offset + n;
    }

    /** At the end, or after a failure; the saving may have shifted the oldest bytes out. */
    method NothingRead(n: int, ghost a0: seq<Byte>)
      requires buf.Length > UNGET && offset == file.pos && icount == 0 && gbuf == bbuf && n <= 0
      requires TailOf(a0, file.content, offset, kept) && Saved(a0, buf[..], file.content, offset, 0)
      requires n == 0 ==> offset >= |file.content|
      modifies `state, `kept
      ensures Valid() && state == (if n < 0 then Inactive else AtEof) && kept == Least(old(kept), bsize)
    {
      state := AtEof;
      if n < 0 {
        state := Inactive;
      }
      SavedOnly(a0, buf[..], file.content, offset, kept);
      kept := Least(kept, bsize);
    }

    /** Right-aligns n bytes and those saved before them; a full buffer is aligned already. */
    method AlignSaved(n: int, ghost a0: seq<Byte>, ghost kept: nat)
      requires 0 < n <= bsize && Saved(a0, buf[..], file.content, offset, n) && TailOf(a0, file.content, offset, kept)
      modifies buf
      ensures TailOf(buf[..], file.content, offset + n, n + Least(kept, UNGET))
      ensures n + UNGET < bsize ==> buf[bbuf] == old(buf[bbuf])
    {
      ghost var a := buf[..];
      MoveToEnd(buf, bbuf - UNGET, n + UNGET);
      assert a[0..n + UNGET] == a[..UNGET + n];
      Refilled(a0, a, buf[..], file.content, offset, n, kept);
    }

    /** memmove of the last bytes before the buffer proper, and a read into it. */
    method ReadSaved() returns (n: int)
      requires buf.Length > UNGET && 0 <= offset == file.pos
      modifies buf, file
      ensures -1 <= n <= bsize && file.pos == offset + (if n > 0 then n else 0)
      ensures n == 0 ==> offset >= |file.content|
      ensures n > 0 ==> offset + n <= |file.content|
      ensures Saved(old(buf[..]), buf[..], file.content, offset, if n > 0 then n else 0)
      ensures n == file.Gives(old(file.calls), bsize, offset) && file.calls == old(file.calls) + 1
    {
      ghost var a0 := buf[..];
      Move(buf, bbuf - UNGET, ebuf - UNGET, UNGET);
      ghost var a1 := buf[..];
      SavedNothing(a0, a1, bbuf - UNGET, ebuf - UNGET, file.content, offset);
      n := ReadBuffer();
      if n > 0 {
        SavedAndRead(a0, a1, buf[..], bbuf, file.content, offset, n);
      }
    }

    /** One read into the whole buffer proper. */
    method ReadBuffer() returns (n: int)
      requires buf.Length > UNGET && 0 <= offset == file.pos
      modifies buf, file
      ensures -1 <= n <= bsize && file.pos == offset + (if n > 0 then n else 0)
      ensures n <= 0 ==> buf[..] == old(buf[..])
      ensures n == 0 ==> offset >= |file.content|
      ensures n > 0 ==>
        offset + n <= |file.content| && buf[..] == Spliced(old(buf[..]), bbuf, file.content[offset..offset + n])
      ensures n == file.Gives(old(file.calls), bsize, offset) && file.calls == old(file.calls) + 1
    {
      n := file.Read(buf, bbuf, bsize);
    }

    /** Pushes the last byte back. The state stays good exactly as long as that byte is retained. */
    method Bungetc() returns (r: int)
      requires Valid()
      modifies `icount, `state
      ensures Valid() <==> old(state) == Inactive || old(Behind()) > 0
      ensures old(Sound()) ==> Sound()
      ensures r == if old(state) == Inactive then EOF else 1
      ensures r == 1 ==> state == Active && Pos() == old(Pos()) - 1 && Behind() == old(Behind()) - 1
      ensures r == EOF ==> state == Inactive && icount == old(icount)
    {
      if state == AtEof {
        state := Active;
      }
      if state != Active {
        return EOF;
      }
      icount := icount - 1;
      return 1;
    }

    /** Delivers count bytes of the stream, or as many as there are. */
    method Bread(p: array<Byte>, count: nat) returns (r: nat)
      requires Valid() && count <= p.Length && p != buf
      modifies this, buf, file, p
      ensures Valid() && (old(Sound()) ==> Sound())
      ensures r <= count && Pos() == old(Pos()) + r
      ensures r > 0 ==> 0 <= old(Pos()) && old(Pos()) + r <= |file.content|
      ensures r > 0 ==> p[..r] == file.content[old(Pos())..old(Pos()) + r]
      ensures r < count && state != Inactive ==> Pos() >= |file.content|
      ensures if r <= old(-icount) then Behind() == old(Behind()) + r else Behind() >= 1
      ensures -icount <= bsize || icount == old(icount) + r
      ensures r > 0 ==> old(state) == Active
      ensures old(file.calls) <= file.calls <= old(file.calls) + r + 1
      ensures AllRead(file.plan, old(file.calls), file.calls - 1)
      ensures LastFailed(file.plan, old(file.calls), file.calls) ==> r < count && old(state) == Active
      ensures state ==
        if r == count then old(state)
        else if old(state) == Inactive || LastFailed(file.plan, old(file.calls), file.calls) then Inactive
        else AtEof
    {
      var c := count;
      r := 0;
      ghost var start := Pos();
      while c > 0
        invariant Valid() && c >= 0 && r + c == count && Pos() == start + r
        invariant old(Sound()) ==> Sound()
        invariant old(file.calls) <= file.calls <= old(file.calls) + r + if icount < 0 then 1 else 0
        invariant AllRead(file.plan, old(file.calls), file.calls) && state == old(state)
        invariant -icount <= bsize || icount == old(icount) + r
        invariant r > 0 || old(file.calls) < file.calls ==> state == Active
        invariant
          || (r <= old(-icount) && kept == old(kept) && icount == old(icount) + r)
          || (r > old(-icount) && Behind() >= 1)
          || (c > 0 && icount < 0 && r >= old(-icount))
        invariant r > 0 ==> 0 <= start && start + r <= |file.content| && p[..r] == file.content[start..start + r]
        decreases c, -icount == 0
      {
        var n := -icount;
        if n > c {
          n := c;
        }
        if n == 0 {
          if state != Active {
            break;
          }
          var i := Fill();
          if i <= 0 {
            break;
          }
          continue;
        }
        CopyOut(p, r, n, start);
        c := c - n;
        icount := icount + n;
        r := r + n;
      }
    }

    method CopyOut(p: array<Byte>, r: int, n: int, ghost start: int)
      requires Valid() && p != buf && 0 < n <= -icount && 0 <= r && r + n <= p.Length && Pos() == start + r
      requires r > 0 ==> 0 <= start && start + r <= |file.content| && p[..r] == file.content[start..start + r]
      modifies p
      ensures 0 <= start && start + r + n <= |file.content| && p[..r + n] == file.content[start..start + r + n]
    {
      ghost var before := p[..r];
      var from := ebuf + icount;
      NextOut(before, buf[..], file.content, offset, kept, icount, from, n, start);
      CopyBytes(p, r, buf, from, n);
    }

    /** Reads into the empty buffer and right-aligns what has come. */
    method Fill() returns (i: int)
      requires Valid() && state == Active && icount == 0
      modifies this, buf, file
      ensures Valid() && Pos() == old(Pos()) && (old(Sound()) ==> Sound())
      ensures i > 0 ==> icount == -i >= -bsize && state == Active
      ensures i <= 0 ==> icount == 0 && kept == old(kept) && state == (if i < 0 then Inactive else AtEof)
      ensures i == 0 ==> Pos() >= |file.content|
      ensures (i < 0 <==> file.plan(old(file.calls)) < 0) && file.calls == old(file.calls) + 1
    {
      ghost var a := buf[..];
      i := ReadBuffer();
      if i <= 0 {
        state := AtEof;
        if i < 0 {
          state := Inactive;
        }
        return;
      }
      EmptyHead(a, file.content, offset);
      HeadGrows(a, buf[..], bbuf, file.content, offset, 0, i);
      offset := offset + i;
      AlignHead(i);
      gbuf := ebuf - i;
      icount := -i;
    }

    /** The bytes of the file from the position on, as far as they fit into the buffer. */
    ghost function Ahead(): int
      reads this
    {
      if Pos() >= |file.content| then 0 else Least(bsize, |file.content| - Pos())
    }

    /** The next line with its delimiter, as a part of the buffer; null when none is complete in the
        buffer. Then nothing is consumed exactly when no more than a buffer had been pushed back. */
    method Brdline(delim: Byte) returns (line: int)
      requires Valid()
      modifies this, buf, file
      ensures Valid() && (line < 0 || old(Sound()) ==> Sound())
      ensures line >= 0 ==> Line(line, old(Pos()), delim) && Behind() >= rdline
      ensures line < 0 ==> line == -1 && Pos() == if old(-icount) > bsize then old(offset) - bsize else old(Pos())
      ensures line < 0 ==> (Pos() == old(Pos()) <==> old(-icount) <= bsize)
      ensures line < 0 ==> NoneOf(file.content, Pos(), -icount, delim)
      ensures old(file.calls) <= file.calls <= old(file.calls) + if line < 0 then -icount + 1 else rdline
      ensures AllRead(file.plan, old(file.calls), file.calls - 1)
      ensures line >= 0 ==> !LastFailed(file.plan, old(file.calls), file.calls)
      ensures line >= 0 ==> old(state) == Active && (-icount <= bsize || icount == old(icount) + rdline)
      ensures line < 0 ==> -icount <= bsize
      ensures line < 0 && old(state) != Inactive && !LastFailed(file.plan, old(file.calls), file.calls) ==>
        -icount == Ahead()
      ensures state == if old(icount) == 0 && old(state) == AtEof then Active else old(state)
    {
      var i := -icount;
      if i == 0 {
        if state != Active {
          if state == AtEof {
            state := Active;
          }
          rdline := 0;
          gbuf := ebuf;
          return -1;
        }
      }
      line := TryBuffered(i, delim);
      if line != -1 {
        return;
      }
      MoveDown(i);
      gbuf := bbuf;
      line := Hunt(i, delim);
    }

    /** First try in the remainder of the buffer. */
    method TryBuffered(i: int, delim: Byte) returns (line: int)
      requires Valid() && i == -icount && state == Active
      modifies this`rdline, this`icount
      ensures line == -1 || (line >= 0 && icount == old(icount) + rdline)
      ensures line == -1 ==> icount == old(icount) && NoneOf(file.content, offset - i, i, delim)
      ensures line >= 0 ==> Valid() && Line(line, old(Pos()), delim) && Behind() >= rdline
    {
      TailShorter(buf[..], file.content, offset, kept, i);
      var ip := ebuf - i;
      var ep := Find(buf, ip, i, delim);
      if ep != -1 {
        FoundIn(buf[..], file.content, offset, i, ip, ep, delim);
        rdline := ep - ip + 1;
        icount := icount + rdline;
        return ip;
      }
      NotIn(buf[..], file.content, offset, i, delim);
      return -1;
    }

    /** Copies the remainder to the beginning of the buffer, if it fits. */
    method MoveDown(i: int)
      requires Valid() && i == -icount
      modifies buf
      ensures i < bsize ==> HeadOf(buf[..], file.content, offset, i)
      ensures i >= bsize ==> buf[..] == old(buf[..])
    {
      TailShorter(buf[..], file.content, offset, kept, i);
      ghost var a := buf[..];
      if i < bsize {
        Move(buf, bbuf, ebuf - i, i);
        Moved(a, buf[..], file.content, offset, i);
      }
    }

    /** What Brdline returns: a slice of the buffer that is the next line of the stream. */
    ghost predicate Line(line: int, start: int, delim: Byte)
      reads this, buf
    {
      && 0 <= line && 0 < rdline && line + rdline <= buf.Length && Pos() == start + rdline
      && LineOf(file.content, start, rdline, delim)
      && buf[..][line..line + rdline] == file.content[start..start + rdline]
    }

    /** The second half of Brdline: i0 bytes without the delimiter are at the start of the buffer, or
        fill it. */
    method Hunt(i0: int, delim: Byte) returns (line: int)
      requires buf.Length > UNGET && 0 <= offset == file.pos && gbuf == bbuf && icount == -i0 <= 0
      requires state == Active
      requires if i0 < bsize then HeadOf(buf[..], file.content, offset, i0) else i0 <= kept && Tail(kept)
      requires NoneOf(file.content, offset - i0, i0, delim)
      modifies this, buf, file
      ensures Valid() && Sound()
      ensures line >= 0 ==> Line(line, old(Pos()), delim) && Behind() >= rdline
      ensures line < 0 ==> line == -1 && Pos() == if i0 > bsize then old(offset) - bsize else old(Pos())
      ensures line < 0 ==> NoneOf(file.content, Pos(), -icount, delim)
      ensures old(file.calls) <= file.calls <= old(file.calls) + if line < 0 then -icount + 1 else rdline
      ensures AllRead(file.plan, old(file.calls), file.calls - 1)
      ensures line >= 0 ==> !LastFailed(file.plan, old(file.calls), file.calls)
      ensures -icount <= bsize
      ensures line < 0 && !LastFailed(file.plan, old(file.calls), file.calls) ==> -icount == Ahead()
      ensures state == old(state)
    {
      if i0 >= bsize {
        TailIs(buf[..], file.content, offset, kept);
        rdline := bsize;
        icount := -bsize;
        return -1;
      }
      line := ReadLine(i0, delim);
    }

    /** What the loop of Brdline keeps: i bytes of the stream from start on, without the delimiter. */
    ghost predicate Hunting(i: int, start: int, delim: Byte)
      reads this, buf, file
    {
      && buf.Length > UNGET && 0 <= i <= bsize && 0 <= offset == file.pos && offset - i == start
      && gbuf == bbuf && state == Active
      && HeadOf(buf[..], file.content, offset, i) && NoneOf(file.content, start, i, delim)
    }

    /** The loop of Brdline: appends to the buffer, looking for the delimiter. */
    method ReadLine(i0: int, delim: Byte) returns (line: int)
      requires Hunting(i0, Pos(), delim) && icount == -i0 && i0 < bsize
      modifies this, buf, file
      ensures Valid() && Sound()
      ensures line >= 0 ==> Line(line, old(Pos()), delim) && Behind() >= rdline
      ensures line < 0 ==> line == -1 && Pos() == old(Pos()) && NoneOf(file.content, Pos(), -icount, delim)
      ensures old(file.calls) <= file.calls <= old(file.calls) + if line < 0 then -icount + 1 else rdline
      ensures AllRead(file.plan, old(file.calls), file.calls - 1)
      ensures line >= 0 ==> !LastFailed(file.plan, old(file.calls), file.calls)
      ensures -icount <= bsize
      ensures line < 0 && !LastFailed(file.plan, old(file.calls), file.calls) ==> -icount == Ahead()
      ensures state == old(state)
    {
      var i := i0;
      var ip := bbuf + i;
      ghost var start := Pos();
      while i < bsize
        invariant Hunting(i, start, delim) && ip == bbuf + i && i0 <= i
        invariant old(file.calls) <= file.calls <= old(file.calls) + i - i0
        invariant AllRead(file.plan, old(file.calls), file.calls)
        decreases bsize - i
      {
        ghost var calls := file.calls;
        var j, ep := ReadMore(i, ip, start, delim);
        OneMoreRead(file.plan, old(file.calls), calls);
        if j <= 0 {
          PutBack(i, start, delim);
          return -1;
        }
        i := i + j;
        if ep != -1 {
          line := TakeLine(i, ep - bbuf + 1, delim);
          return;
        }
        ip := ip + j;
      }
      PutBack(i, start, delim);
      return -1;
    }

    /** No delimiter: the i bytes stay to be read. */
    method PutBack(i: int, ghost start: int, ghost delim: Byte)
      requires Hunting(i, start, delim)
      modifies `icount, `kept, `rdline, `gbuf, buf
      ensures Valid() && Sound() && icount == -i && Pos() == start && NoneOf(file.content, start, i, delim)
      ensures i == bsize || offset >= |file.content| ==> -icount == Ahead()
    {
      HeadIs(buf[..], file.content, offset, i);
      AlignHead(i);
      rdline := i;
      icount := -i;
      gbuf := ebuf - i;
    }

    /** Copies i bytes back up and resets everything; the first j of them are the line. */
    method TakeLine(i: int, j: int, ghost delim: Byte) returns (line: int)
      requires buf.Length > UNGET && 0 <= offset == file.pos && 0 < j <= i <= bsize && state == Active
      requires HeadOf(buf[..], file.content, offset, i) && LineOf(file.content, offset - i, j, delim)
      modifies this, buf
      ensures state == old(state)
      ensures Valid() && Sound() && line >= 0 && Line(line, old(offset) - i, delim)
      ensures Behind() >= rdline == j && icount == j - i
    {
      AlignHead(i);
      line := ebuf - i;
      gbuf := line;
      rdline := j;
      icount := j - i;
      LineAt(buf[..], file.content, offset, i, j);
    }

    /** One read behind i bytes, and the search for the delimiter in what has come. */
    method ReadMore(i: int, ip: int, ghost start: int, delim: Byte) returns (j: int, ep: int)
      requires Hunting(i, start, delim) && i < bsize && ip == bbuf + i
      modifies this`offset, buf, file
      ensures j <= 0 ==> ep == -1 && Hunting(i, start, delim)
      ensures file.calls == old(file.calls) + 1 && (j < 0 <==> file.plan(old(file.calls)) < 0)
      ensures j == 0 ==> offset >= |file.content|
      ensures j > 0 ==>
        i + j <= bsize && offset == file.pos == start + i + j && HeadOf(buf[..], file.content, offset, i + j)
      ensures j > 0 && ep == -1 ==> Hunting(i + j, start, delim)
      ensures j > 0 && ep != -1 ==> ip <= ep < bbuf + i + j && LineOf(file.content, start, ep - bbuf + 1, delim)
    {
      j := ReadBehind(i, ip);
      ep := -1;
      if j > 0 {
        ep := FindInPiece(i + j, ip, j, delim);
      }
    }

    /** One read behind i bytes. */
    method ReadBehind(i: int, ip: int) returns (j: int)
      requires buf.Length > UNGET && 0 <= offset == file.pos && 0 <= i < bsize && ip == bbuf + i
      requires HeadOf(buf[..], file.content, offset, i)
      modifies this`offset, buf, file
      ensures j <= 0 ==> offset == old(offset) == file.pos && buf[..] == old(buf[..])
      ensures file.calls == old(file.calls) + 1 && (j < 0 <==> file.plan(old(file.calls)) < 0)
      ensures j == 0 ==> offset >= |file.content|
      ensures j > 0 ==>
        i + j <= bsize && offset == file.pos == old(offset) + j && HeadOf(buf[..], file.content, offset, i + j)
    {
      ghost var a := buf[..];
      j := file.Read(buf, ip, bsize - i);
      if j > 0 {
        HeadGrows(a, buf[..], ip, file.content, offset, i, j);
        offset := offset + j;
      }
    }

    method FindInPiece(i: int, ip: int, j: int, delim: Byte) returns (ep: int)
      requires 0 < j <= i && bbuf <= ip && ip + j == bbuf + i <= buf.Length
      requires HeadOf(buf[..], file.content, offset, i) && NoneOf(file.content, offset - i, i - j, delim)
      ensures ep == -1 ==> NoneOf(file.content, offset - i, i, delim)
      ensures ep != -1 ==> ip <= ep < bbuf + i && LineOf(file.content, offset - i, ep - bbuf + 1, delim)
    {
      ep := Find(buf, ip, j, delim);
      if ep != -1 {
        FoundAtHead(buf[..], file.content, offset, i, ip, ep, delim);
      } else {
        NotAtHead(buf[..], file.content, offset, i, ip, delim);
      }
    }

    /** Moves i bytes from the start to the end of the buffer; a full buffer is in place. */
    method AlignHead(i: int)
      requires buf.Length > UNGET && 0 <= i <= bsize && HeadOf(buf[..], file.content, offset, i)
      modifies buf, `kept
      ensures kept == i && Tail(kept)
    {
      ghost var a := buf[..];
      MoveToEnd(buf, bbuf, i);
      kept := i;
      Aligned(a, buf[..], file.content, offset, i);
    }

    ghost function Target(off: int, base: nat): int
      reads this
    {
      if base == 0 then off else if base == 1 then Pos() + off else |file.content| + off
    }

    /** What Bseek takes for a target inside the buffer. */
    ghost predicate InBuffer(target: int, base: nat)
      reads this
    {
      var d := target - Pos();
      && base != 2 && gbuf - ebuf <= d <= ebuf - gbuf
      && (if d >= 0 then icount + d <= 0 else ebuf - gbuf >= -(icount + d))
    }

    /** Moves to a position of the stream: within the buffer if that seems to contain it, with a
        system call otherwise. The state is good unless an active reader is sent back further than
        its buffer reaches; that takes a window that is not sound. */
    method Bseek(off: int, base: nat) returns (r: int)
      requires Valid() && base <= 2
      modifies this, file
      ensures old(state) == Inactive ==> r == EOF && Valid() && unchanged(this)
      ensures old(state) != Inactive && old(Target(off, base)) >= 0 ==>
        r == old(Target(off, base)) == Pos() && state == Active
      ensures old(state) == Active && old(Target(off, base)) >= 0 ==>
        (Valid() <==> !(old(InBuffer(Target(off, base), base)) && old(Target(off, base)) < old(offset - kept)))
      ensures old(state) != Inactive && old(Target(off, base)) >= 0 && (old(state) == AtEof || old(Sound())) ==>
        Valid() && Sound()
      ensures old(state) == Active && old(Target(off, base)) >= 0 && !old(InBuffer(Target(off, base), base)) ==>
        Valid() && Sound() && icount == 0
      ensures old(state) == AtEof && old(Target(off, base)) >= 0 ==> icount == 0
      ensures file.calls == old(file.calls)
      ensures old(state) == Active && old(InBuffer(Target(off, base), base)) ==>
        r == Pos() && offset == old(offset) && kept == old(kept)
      ensures old(state) != Inactive && old(Target(off, base)) < 0
        && !(old(state) == Active && old(InBuffer(Target(off, base), base)))
        ==> r == offset == -1 && icount == 0 && gbuf == ebuf && state == Active && file.pos == old(file.pos)
    {
      if state == Inactive {
        return EOF;
      }
      if state == AtEof {
        state := Active;
        icount := 0;
        gbuf := ebuf;
      }
      var n, b := off, base;
      if b == 1 {
        n := n + offset + icount;
        b := 0;
      }
      if b == 0 {
        var d := n - (offset + icount);
        var bufsz := ebuf - gbuf;
        if -bufsz <= d <= bufsz {
          icount := icount + d;
          if d >= 0 {
            if icount <= 0 {
              return n;
            }
          } else if bufsz >= -icount {
            return n;
          }
        }
      }
      n := file.Lseek(n, b);
      icount := 0;
      gbuf := ebuf;
      offset := n;
      kept := 0;
      EmptyTail(buf[..], file.content, offset);
      return n;
    }
  }
}
