/** Header fields, the dynamic table with its evictions, and the two searches (RFC 7541,
    sections 2.3 and 4). Sizes are 32-bit words that wrap, as in the package. */
module HpackTable {
  import opened Bits
  import opened Options
  import opened HpackPrefixCode

  datatype HeaderField = HeaderField(name: seq<Byte>, value: seq<Byte>, sensitive: bool)

  /** What the package takes from its tables: the Huffman code and the static entries. */
  datatype Constants = Constants(huffman: PrefixCode, statics: seq<HeaderField>) {
    ghost predicate Usable() {
      && huffman.Valid()
      && |statics| < 0x1_0000
    }
  }

  // ---------------------------------------------------------------- sizes and eviction

  function FieldSize(f: HeaderField): nat {
    (|f.name| + |f.value| + 32) % U32
  }

  function TableSize(ents: seq<HeaderField>): (n: nat)
    ensures n < U32
  {
    if ents == [] then 0 else (FieldSize(ents[0]) + TableSize(ents[1..])) % U32
  }

  /** The table after the oldest entries (the front) have been dropped until it fits. */
  function Evicted(ents: seq<HeaderField>, max: nat): (r: seq<HeaderField>)
    ensures |r| <= |ents|
  {
    if TableSize(ents) <= max then ents else Evicted(ents[1..], max)
  }

  ghost predicate Suffix(a: seq<HeaderField>, b: seq<HeaderField>) {
    |a| <= |b| && b[|b| - |a|..] == a
  }

  /** Eviction keeps the longest suffix that fits: it is a suffix, it fits, and every suffix
      that fits is a suffix of it. */
  lemma {:induction false} EvictedLongest(ents: seq<HeaderField>, max: nat)
    ensures Suffix(Evicted(ents, max), ents) && TableSize(Evicted(ents, max)) <= max
    ensures forall s :: Suffix(s, ents) && TableSize(s) <= max ==> Suffix(s, Evicted(ents, max))
  {
    if TableSize(ents) > max {
      EvictedLongest(ents[1..], max);
      SuffixTail(Evicted(ents, max), ents);
      forall s | Suffix(s, ents) && TableSize(s) <= max ensures Suffix(s, Evicted(ents, max)) {
        SuffixTail(s, ents);
      }
    } else {
      assert ents[0..] == ents;
    }
  }

  /** The suffixes of a table are the table and the suffixes of what follows its oldest entry. */
  lemma SuffixTail(s: seq<HeaderField>, ents: seq<HeaderField>)
    requires ents != []
    ensures Suffix(s, ents) <==> s == ents || Suffix(s, ents[1..])
  {
    assert ents[0..] == ents;
    if |s| < |ents| {
      assert ents[1..][|ents| - 1 - |s|..] == ents[|ents| - |s|..];
    }
  }

  /** Evicting twice is evicting once, to the smaller size. */
  lemma {:induction false} EvictedTwice(ents: seq<HeaderField>, a: nat, b: nat)
    ensures Evicted(Evicted(ents, a), b) == Evicted(ents, if a < b then a else b)
  {
    if TableSize(ents) > a {
      EvictedTwice(ents[1..], a, b);
    }
  }

  lemma {:induction false} EvictedFits(ents: seq<HeaderField>, max: nat)
    ensures TableSize(Evicted(ents, max)) <= max
    ensures TableSize(ents) <= max ==> Evicted(ents, max) == ents
  {
    if TableSize(ents) > max { EvictedFits(ents[1..], max); }
  }

  lemma {:induction false} TableSizeSnoc(ents: seq<HeaderField>, f: HeaderField)
    ensures TableSize(ents + [f]) == (TableSize(ents) + FieldSize(f)) % U32
  {
    if ents == [] {
      assert ents + [f] == [f];
      assert [f][1..] == [];
    } else {
      assert (ents + [f])[1..] == ents[1..] + [f];
      TableSizeSnoc(ents[1..], f);
      AddWraps(FieldSize(ents[0]), TableSize(ents[1..]), FieldSize(f));
    }
  }

  lemma AddWraps(a: nat, b: nat, c: nat)
    ensures (a + (b + c) % U32) % U32 == ((a + b) % U32 + c) % U32
  {
  }

  lemma {:induction false} SuffixTransitive(a: seq<HeaderField>, b: seq<HeaderField>, c: seq<HeaderField>)
    requires Suffix(a, b) && Suffix(b, c)
    ensures Suffix(a, c)
  {
    assert c[|c| - |a|..] == c[|c| - |b|..][|b| - |a|..];
  }

  // ---------------------------------------------------------------- sizes in octets

  /** All names and values of a table, one after the other. */
  function Contents(ents: seq<HeaderField>): seq<Byte> {
    if ents == [] then [] else Contents(ents[..|ents| - 1]) + (ents[|ents| - 1].name + ents[|ents| - 1].value)
  }

  /** The size of section 4.1 of RFC 7541: the octets of all names and values, and 32 for each entry. */
  function Charged(ents: seq<HeaderField>): nat {
    |Contents(ents)| + 32 * |ents|
  }

  /** As long as that fits a 32-bit word it is the size of the table. */
  lemma {:induction false} SizeInOctets(ents: seq<HeaderField>)
    requires Charged(ents) < U32
    ensures TableSize(ents) == Charged(ents)
    decreases |ents|
  {
    if ents != [] {
      var front, f := ents[..|ents| - 1], ents[|ents| - 1];
      assert front + [f] == ents;
      TableSizeSnoc(front, f);
      ChargedSnoc(ents);
      SizeInOctets(front);
      SmallSum(Charged(front), |f.name| + |f.value| + 32);
    }
  }

  lemma ChargedSnoc(ents: seq<HeaderField>)
    requires ents != []
    ensures var f := ents[|ents| - 1];
      Charged(ents) == Charged(ents[..|ents| - 1]) + (|f.name| + |f.value| + 32)
  {
  }

  lemma SmallSum(a: nat, b: nat)
    requires a + b < U32
    ensures (a + b % U32) % U32 == a + b
  {
  }

  lemma {:induction false} SuffixCharged(a: seq<HeaderField>, b: seq<HeaderField>)
    requires Suffix(a, b)
    ensures Charged(a) <= Charged(b)
    decreases |a|
  {
    if a != [] {
      var x, y := a[..|a| - 1], b[..|b| - 1];
      assert y[|y| - |x|..] == b[|b| - |a|..][..|a| - 1];
      assert a[|a| - 1] == b[|b| - 1];
      SuffixCharged(x, y);
    }
  }

  /** What eviction leaves is charged with at most max, and every longer suffix with more. */
  lemma EvictedInOctets(ents: seq<HeaderField>, max: nat, s: seq<HeaderField>)
    requires Charged(ents) < U32
    ensures Suffix(Evicted(ents, max), ents) && Charged(Evicted(ents, max)) <= max
    ensures Suffix(s, ents) ==> (Charged(s) <= max <==> |s| <= |Evicted(ents, max)|)
  {
    var r := Evicted(ents, max);
    EvictedLongest(ents, max);
    SuffixCharged(r, ents);
    SizeInOctets(r);
    if Suffix(s, ents) {
      SuffixCharged(s, ents);
      SizeInOctets(s);
      if |s| <= |r| {
        assert r[|r| - |s|..] == s by { assert ents[|ents| - |r|..][|r| - |s|..] == ents[|ents| - |s|..]; }
        SuffixCharged(s, r);
      }
    }
  }

  // ---------------------------------------------------------------- searching

  /** An index into a table, counted from one (zero: not found), and whether the value
      matches as well as the name. */
  datatype Found = Found(index: nat, full: bool)

  /** The first entry with the name of f. */
  function FindName(tab: seq<HeaderField>, f: HeaderField): (i: nat)
    ensures i <= |tab|
  {
    if tab == [] then 0
    else if tab[0].name == f.name then 1
    else
      var i := FindName(tab[1..], f);
      if i == 0 then 0 else i + 1
  }

  /** The first entry with the name and the value of f. */
  function FindFull(tab: seq<HeaderField>, f: HeaderField): (i: nat)
    ensures i <= |tab|
  {
    if tab == [] then 0
    else if tab[0].name == f.name && tab[0].value == f.value then 1
    else
      var i := FindFull(tab[1..], f);
      if i == 0 then 0 else i + 1
  }

  /** A sensitive field is never matched by value. */
  function Search(tab: seq<HeaderField>, f: HeaderField): Found {
    if !f.sensitive && FindFull(tab, f) != 0 then Found(FindFull(tab, f), true)
    else Found(FindName(tab, f), false)
  }

  /** Dynamic entries in the order of their indices: the newest first. */
  function Newest(ents: seq<HeaderField>): (r: seq<HeaderField>)
    ensures |r| == |ents|
  {
    seq(|ents|, i requires 0 <= i < |ents| => ents[|ents| - 1 - i])
  }

  /** The static table first; the dynamic table when there is no full match in it. */
  function SearchTable(c: Constants, ents: seq<HeaderField>, f: HeaderField): Found {
    var s := Search(c.statics, f);
    if s.full then s
    else
      var d := Search(Newest(ents), f);
      if d.full || (s.index == 0 && d.index != 0) then Found(d.index + |c.statics|, d.full)
      else Found(s.index, false)
  }

  /** The entry at an index, the static entries before the dynamic ones. */
  function Lookup(c: Constants, ents: seq<HeaderField>, i: nat): Option<HeaderField> {
    if i < 1 || i > |c.statics| + |ents| then None
    else if i <= |c.statics| then Some(c.statics[i - 1])
    else Some(ents[|ents| - (i - |c.statics|)])
  }

  lemma {:induction false} FindNameIs(tab: seq<HeaderField>, f: HeaderField)
    ensures var i := FindName(tab, f);
      && (i > 0 ==> tab[i - 1].name == f.name)
      && (forall j :: 0 <= j < (if i > 0 then i - 1 else |tab|) ==> tab[j].name != f.name)
  {
    if tab != [] { FindNameIs(tab[1..], f); }
  }

  lemma {:induction false} FindFullIs(tab: seq<HeaderField>, f: HeaderField)
    ensures var i := FindFull(tab, f);
      && (i > 0 ==> tab[i - 1].name == f.name && tab[i - 1].value == f.value)
      && (forall j :: 0 <= j < (if i > 0 then i - 1 else |tab|) ==> tab[j].name != f.name || tab[j].value != f.value)
  {
    if tab != [] { FindFullIs(tab[1..], f); }
  }

  /** What the searches find is what the decoder will look up, even in a longer table: the
      index counts from the newest entry, so older entries at the front do not matter. */
  lemma SearchSound(c: Constants, ents: seq<HeaderField>, more: seq<HeaderField>, f: HeaderField)
    requires Suffix(ents, more)
    ensures var r := SearchTable(c, ents, f);
      && (r.full ==> r.index != 0 && !f.sensitive)
      && (r.index != 0 ==> var e := Lookup(c, more, r.index);
            e.Some? && e.value.name == f.name && (r.full ==> e.value.value == f.value))
  {
    FindNameIs(c.statics, f);
    FindFullIs(c.statics, f);
    FindNameIs(Newest(ents), f);
    FindFullIs(Newest(ents), f);
    var i := Search(Newest(ents), f).index;
    if i != 0 {
      assert more[|more| - i] == more[|more| - |ents|..][|ents| - i];
    }
  }

  // ---------------------------------------------------------------- the table in memory

  class DynamicTable {
    var ents: seq<HeaderField>
    var size: nat
    var maxSize: nat
    var allowedMaxSize: nat

    ghost predicate Valid()
      reads this
    {
      size == TableSize(ents) && size <= maxSize < U32 && allowedMaxSize < U32
    }

    constructor (max: nat, allowed: nat)
      requires max < U32 && allowed < U32
      ensures Valid() && ents == [] && maxSize == max && allowedMaxSize == allowed
    {
      ents, size := [], 0;
      allowedMaxSize := allowed;
      maxSize := max;
    }

    method SetMaxSize(v: nat)
      requires Valid() && v < U32
      modifies this
      ensures Valid() && maxSize == v && allowedMaxSize == old(allowedMaxSize)
      ensures ents == Evicted(old(ents), v)
    {
      maxSize := v;
      Evict();
    }

    method Add(f: HeaderField)
      requires Valid()
      modifies this
      ensures Valid() && maxSize == old(maxSize) && allowedMaxSize == old(allowedMaxSize)
      ensures ents == Evicted(old(ents) + [f], maxSize)
    {
      TableSizeSnoc(ents, f);
      ents := ents + [f];
      size := (size + FieldSize(f)) % U32;
      Evict();
    }

    /** Drops entries from the front while the size, a 32-bit word, is over the maximum. */
    method Evict()
      requires size == TableSize(ents) && maxSize < U32 && allowedMaxSize < U32
      modifies this
      ensures Valid() && maxSize == old(maxSize) && allowedMaxSize == old(allowedMaxSize)
      ensures ents == Evicted(old(ents), maxSize)
    {
      while size > maxSize
        invariant size == TableSize(ents) && maxSize == old(maxSize) && allowedMaxSize == old(allowedMaxSize)
        invariant Evicted(ents, maxSize) == Evicted(old(ents), maxSize)
        decreases |ents|
      {
        DropFirst(ents);
        size := (size - FieldSize(ents[0])) % U32;
        ents := ents[1..];
      }
    }

    /** Looks for f from the newest entry to the oldest. */
    method SearchNewest(f: HeaderField) returns (r: Found)
      ensures r == Search(Newest(ents), f)
    {
      r := SearchLoop(Newest(ents), f);
    }
  }

  lemma DropFirst(ents: seq<HeaderField>)
    requires TableSize(ents) > 0
    ensures ents != []
    ensures (TableSize(ents) - FieldSize(ents[0])) % U32 == TableSize(ents[1..])
  {
    SubWraps(FieldSize(ents[0]), TableSize(ents[1..]));
  }

  lemma SubWraps(a: nat, b: nat)
    requires a < U32 && b < U32
    ensures ((a + b) % U32 - a) % U32 == b
  {
    assert (a + b) % U32 == if a + b < U32 then a + b else a + b - U32;
  }

  /** The loop of both searches, over a table in index order: it remembers the first entry
      with the right name and stops at the first one with the right value. */
  method SearchLoop(tab: seq<HeaderField>, f: HeaderField) returns (r: Found)
    ensures r == Search(tab, f)
  {
    var i := 0;
    for k := 0 to |tab|
      invariant i == FindName(tab[..k], f)
      invariant f.sensitive || FindFull(tab[..k], f) == 0
    {
      assert tab[..k + 1] == tab[..k] + [tab[k]];
      FindSnoc(tab[..k], tab[k], f);
      FindPrefix(tab, k + 1, f);
      if tab[k].name != f.name {
        continue;
      }
      if i == 0 {
        i := k + 1;
      }
      if f.sensitive {
        continue;
      }
      if tab[k].value != f.value {
        continue;
      }
      return Found(k + 1, true);
    }
    assert tab[..|tab|] == tab;
    return Found(i, false);
  }

  lemma {:induction false} FindSnoc(tab: seq<HeaderField>, e: HeaderField, f: HeaderField)
    ensures FindName(tab + [e], f)
         == if FindName(tab, f) != 0 then FindName(tab, f) else if e.name == f.name then |tab| + 1 else 0
    ensures FindFull(tab + [e], f)
         == if FindFull(tab, f) != 0 then FindFull(tab, f)
            else if e.name == f.name && e.value == f.value then |tab| + 1 else 0
  {
    if tab == [] {
      assert tab + [e] == [e];
      assert [e][1..] == [];
    } else {
      assert (tab + [e])[1..] == tab[1..] + [e];
      FindSnoc(tab[1..], e, f);
    }
  }

  lemma {:induction false} FindPrefix(tab: seq<HeaderField>, k: nat, f: HeaderField)
    requires k <= |tab|
    ensures FindFull(tab[..k], f) != 0 ==> FindFull(tab, f) == FindFull(tab[..k], f)
    decreases |tab| - k
  {
    if k == |tab| {
      assert tab[..k] == tab;
    } else {
      assert tab[..k + 1] == tab[..k] + [tab[k]];
      FindSnoc(tab[..k], tab[k], f);
      FindPrefix(tab, k + 1, f);
    }
  }
}
