/** The index of an embedded file system: a list sorted by directory and element, searched by
    bisection. */
module Embed {
  import opened Bits
  import opened Options
  import opened PathText

  // ---------------------------------------------------------------- strings in order

  predicate Less(a: Text, b: Text)
    decreases |a|
  {
    if b == [] then false
    else if a == [] then true
    else if a[0] != b[0] then a[0] < b[0]
    else Less(a[1..], b[1..])
  }

  lemma {:induction false} LessTotal(a: Text, b: Text)
    ensures Less(a, b) || a == b || Less(b, a)
    decreases |a|
  {
    if a != [] && b != [] && a[0] == b[0] {
      LessTotal(a[1..], b[1..]);
      assert a == [a[0]] + a[1..] && b == [b[0]] + b[1..];
    }
  }

  lemma {:induction false} LessNotSelf(a: Text)
    ensures !Less(a, a)
    decreases |a|
  {
    if a != [] { LessNotSelf(a[1..]); }
  }

  lemma {:induction false} LessTransitive(a: Text, b: Text, c: Text)
    requires Less(a, b) && Less(b, c)
    ensures Less(a, c)
    decreases |a|
  {
    if a != [] && a[0] == b[0] && b[0] == c[0] { LessTransitive(a[1..], b[1..], c[1..]); }
  }

  // ---------------------------------------------------------------- names

  /** The index of the last slash, or -1. */
  function LastSlash(s: Text): (i: int)
    ensures -1 <= i < |s|
    ensures i >= 0 ==> s[i] == SLASH
    ensures forall k :: i < k < |s| ==> s[k] != SLASH
  {
    if s == [] then -1
    else if s[|s| - 1] == SLASH then |s| - 1
    else LastSlash(s[..|s| - 1])
  }

  function TrimSlash(name: Text): Text {
    if name != [] && name[|name| - 1] == SLASH then name[..|name| - 1] else name
  }

  datatype Key = Key(dir: Text, elem: Text)

  /** The directory and the element of a name; a slash at its end does not matter. */
  function KeyOf(name: Text): Key {
    var t := TrimSlash(name);
    var i := LastSlash(t);
    if i < 0 then Key([DOT], t) else Key(t[..i], t[i + 1..])
  }

  predicate IsDir(name: Text) {
    name != [] && name[|name| - 1] == SLASH
  }

  method Split(name0: Text) returns (dir: Text, elem: Text, isDir: bool)
    requires name0 != []
    ensures Key(dir, elem) == KeyOf(name0) && isDir == IsDir(name0)
  {
    var name := name0;
    isDir := false;
    if name[|name| - 1] == SLASH {
      isDir := true;
      name := name[..|name| - 1];
    }
    var i := |name| - 1;
    while i >= 0 && name[i] != SLASH
      invariant -1 <= i < |name|
      invariant forall k :: i < k < |name| ==> name[k] != SLASH
    {
      i := i - 1;
    }
    LastSlashIs(name, i);
    if i < 0 {
      return [DOT], name, isDir;
    }
    return name[..i], name[i + 1..], isDir;
  }

  lemma LastSlashIs(s: Text, i: int)
    requires -1 <= i < |s| && (i >= 0 ==> s[i] == SLASH) && forall k :: i < k < |s| ==> s[k] != SLASH
    ensures LastSlash(s) == i
  {
  }

  // ---------------------------------------------------------------- valid names

  /** Elements between slashes, none empty, "." or "..". */
  predicate Elements(name: Text)
    decreases |name|
  {
    var n := Stop(name);
    var e := name[..n];
    e != [] && e != [DOT] && e != [DOT, DOT] && (n == |name| || Elements(name[n + 1..]))
  }

  /** fs.ValidPath; utf8 tells which texts are well-formed. */
  predicate ValidPath(utf8: Text -> bool, name: Text) {
    utf8(name) && (name == [DOT] || Elements(name))
  }

  lemma {:induction false} NoSlashAtEnd(name: Text)
    requires Elements(name)
    ensures name != [] && name[|name| - 1] != SLASH
    decreases |name|
  {
    var n := Stop(name);
    if n < |name| {
      NoSlashAtEnd(name[n + 1..]);
      assert name[n + 1..][|name| - n - 2] == name[|name| - 1];
    }
  }

  lemma NoDotFirst(name: Text)
    ensures |name| >= 2 && name[0] == DOT && name[1] == SLASH ==> !Elements(name)
  {
    if |name| >= 2 && name[0] == DOT && name[1] == SLASH {
      StopIs(name, 1);
      assert name[..1] == [DOT];
    }
  }

  /** No valid name says that it is in ".". */
  lemma DotDirectory(a: Text)
    requires Elements(a)
    ensures LastSlash(a) >= 0 ==> a[..LastSlash(a)] != [DOT]
  {
    var i := LastSlash(a);
    NoDotFirst(a);
    assert i > 0 ==> a[..i][0] == a[0];
  }

  lemma Parts(a: Text, i: nat)
    requires i < |a| && a[i] == SLASH
    ensures a == a[..i] + [SLASH] + a[i + 1..]
  {
  }

  /** The name in a directory. */
  function Whole(k: Key): Text {
    if k.dir == [DOT] then k.elem else k.dir + [SLASH] + k.elem
  }

  /** A valid name is put together again from its directory and element. */
  lemma KeyDetermines(a: Text)
    requires Elements(a)
    ensures Whole(KeyOf(a)) == a
  {
    NoSlashAtEnd(a);
    DotDirectory(a);
    var i := LastSlash(a);
    if i >= 0 { Parts(a, i); }
  }

  // ---------------------------------------------------------------- the list

  datatype File = File(name: Text, data: seq<Byte>)

  predicate KeyLess(a: Key, b: Key) {
    Less(a.dir, b.dir) || (a.dir == b.dir && Less(a.elem, b.elem))
  }

  lemma KeyLessTransitive(a: Key, b: Key, c: Key)
    requires KeyLess(a, b) && KeyLess(b, c)
    ensures KeyLess(a, c)
  {
    if Less(a.dir, b.dir) && Less(b.dir, c.dir) { LessTransitive(a.dir, b.dir, c.dir); }
    if Less(a.elem, b.elem) && Less(b.elem, c.elem) { LessTransitive(a.elem, b.elem, c.elem); }
  }

  lemma KeyLessTotal(a: Key, b: Key)
    ensures KeyLess(a, b) || a == b || KeyLess(b, a)
    ensures !(KeyLess(a, b) && KeyLess(b, a)) && !KeyLess(a, a)
  {
    LessTotal(a.dir, b.dir);
    LessTotal(a.elem, b.elem);
    LessNotSelf(a.dir);
    LessNotSelf(a.elem);
    if KeyLess(a, b) && KeyLess(b, a) {
      KeyLessTransitive(a, b, a);
    }
  }

  /** Valid names, strictly in order. */
  ghost predicate Index(utf8: Text -> bool, files: seq<File>) {
    && (forall i :: 0 <= i < |files| ==> Elements(TrimSlash(files[i].name)) && utf8(TrimSlash(files[i].name)))
    && (forall i, j :: 0 <= i < j < |files| ==> KeyLess(KeyOf(files[i].name), KeyOf(files[j].name)))
  }

  lemma NamesNotEmpty(utf8: Text -> bool, files: seq<File>, i: nat)
    requires Index(utf8, files) && i < |files|
    ensures files[i].name != [] && KeyOf(files[i].name) == KeyOf(TrimSlash(files[i].name))
  {
    NoSlashAtEnd(TrimSlash(files[i].name));
  }

  // ---------------------------------------------------------------- bisection

  predicate Rising(n: nat, f: int -> bool) {
    forall i, j :: 0 <= i < j < n && f(i) ==> f(j)
  }

  /** The first index where f holds, or n, if f does not fall back. */
  method SortSearch(n: nat, f: int -> bool) returns (i: nat)
    ensures i <= n
    ensures (i > 0 ==> !f(i - 1)) && (i < n ==> f(i))
    ensures Rising(n, f) ==> forall k :: 0 <= k < n ==> (f(k) <==> i <= k)
  {
    var j: nat;
    i, j := 0, n;
    while i < j
      invariant i <= j <= n
      invariant (i > 0 ==> !f(i - 1)) && (j < n ==> f(j))
    {
      var h := (i + j) / 2;
      if !f(h) {
        i := h + 1;
      } else {
        j := h;
      }
    }
  }

  /** What the searches ask of an entry. */
  predicate AtLeast(files: seq<File>, key: Key, i: int) {
    0 <= i < |files| && !KeyLess(KeyOf(files[i].name), key)
  }

  predicate DirAtLeast(files: seq<File>, dir: Text, i: int) {
    0 <= i < |files| && !Less(KeyOf(files[i].name).dir, dir)
  }

  predicate DirAfter(files: seq<File>, dir: Text, i: int) {
    0 <= i < |files| && Less(dir, KeyOf(files[i].name).dir)
  }

  lemma AtLeastRises(utf8: Text -> bool, files: seq<File>, key: Key, i: int, j: int)
    requires Index(utf8, files) && 0 <= i < j < |files| && AtLeast(files, key, i)
    ensures AtLeast(files, key, j)
  {
    if KeyLess(KeyOf(files[j].name), key) {
      KeyLessTransitive(KeyOf(files[i].name), KeyOf(files[j].name), key);
    }
  }

  lemma DirRises(utf8: Text -> bool, files: seq<File>, dir: Text, i: int, j: int)
    requires Index(utf8, files) && 0 <= i < j < |files|
    ensures DirAtLeast(files, dir, i) ==> DirAtLeast(files, dir, j)
    ensures DirAfter(files, dir, i) ==> DirAfter(files, dir, j)
  {
    var a, b := KeyOf(files[i].name).dir, KeyOf(files[j].name).dir;
    assert KeyLess(KeyOf(files[i].name), KeyOf(files[j].name));
    if Less(a, b) && Less(b, dir) { LessTransitive(a, b, dir); }
    if Less(dir, a) && Less(a, b) { LessTransitive(dir, a, b); }
  }

  method SearchKey(utf8: Text -> bool, files: seq<File>, key: Key) returns (i: nat)
    requires Index(utf8, files)
    ensures i <= |files| && forall k :: 0 <= k < |files| ==> (AtLeast(files, key, k) <==> i <= k)
  {
    var f := (k: int) => AtLeast(files, key, k);
    forall a, b | 0 <= a < b < |files| && f(a) ensures f(b) {
      AtLeastRises(utf8, files, key, a, b);
    }
    i := SortSearch(|files|, f);
    assert forall k :: 0 <= k < |files| ==> f(k) == AtLeast(files, key, k);
  }

  method SearchDir(utf8: Text -> bool, files: seq<File>, dir: Text) returns (i: nat)
    requires Index(utf8, files)
    ensures i <= |files| && forall k :: 0 <= k < |files| ==> (DirAtLeast(files, dir, k) <==> i <= k)
  {
    var f := (k: int) => DirAtLeast(files, dir, k);
    forall a, b | 0 <= a < b < |files| && f(a) ensures f(b) {
      DirRises(utf8, files, dir, a, b);
    }
    i := SortSearch(|files|, f);
    assert forall k :: 0 <= k < |files| ==> f(k) == DirAtLeast(files, dir, k);
  }

  method SearchAfter(utf8: Text -> bool, files: seq<File>, dir: Text) returns (i: nat)
    requires Index(utf8, files)
    ensures i <= |files| && forall k :: 0 <= k < |files| ==> (DirAfter(files, dir, k) <==> i <= k)
  {
    var f := (k: int) => DirAfter(files, dir, k);
    forall a, b | 0 <= a < b < |files| && f(a) ensures f(b) {
      DirRises(utf8, files, dir, a, b);
    }
    i := SortSearch(|files|, f);
    assert forall k :: 0 <= k < |files| ==> f(k) == DirAfter(files, dir, k);
  }

  // ---------------------------------------------------------------- looking up

  datatype Found = NotFound | RootDir | Entry(i: nat)

  /** The entry of a name, which there can be only one of. */
  ghost predicate IsEntry(files: seq<File>, i: nat, name: Text) {
    i < |files| && TrimSlash(files[i].name) == name
  }

  lemma OneEntry(utf8: Text -> bool, files: seq<File>, i: nat, j: nat, name: Text)
    requires Index(utf8, files) && IsEntry(files, i, name) && IsEntry(files, j, name)
    ensures i == j
  {
    NamesNotEmpty(utf8, files, i);
    NamesNotEmpty(utf8, files, j);
    KeyLessTotal(KeyOf(name), KeyOf(name));
  }

  /** The search stops at the entry of a name, if there is one. */
  lemma SearchMeets(utf8: Text -> bool, files: seq<File>, i: nat, j: nat, name: Text)
    requires Index(utf8, files) && IsEntry(files, j, name)
    requires forall k :: 0 <= k < |files| ==> (AtLeast(files, KeyOf(name), k) <==> i <= k)
    ensures i == j
  {
    NamesNotEmpty(utf8, files, j);
    KeyLessTotal(KeyOf(name), KeyOf(name));
    assert AtLeast(files, KeyOf(name), j);
    assert i < j ==> KeyLess(KeyOf(files[i].name), KeyOf(files[j].name));
    assert i < |files| ==> AtLeast(files, KeyOf(name), i);
  }

  /** The root, the entry with that name, or nothing if there is none. */
  ghost predicate Names(utf8: Text -> bool, list: Option<seq<File>>, name: Text, r: Found) {
    match r
    case RootDir => name == [DOT] && utf8(name)
    case Entry(i) => list.Some? && IsEntry(list.value, i, name)
    case NotFound => !(name == [DOT] && utf8(name)) && (list.Some? ==> forall i :: !IsEntry(list.value, i, name))
  }

  /** A name stands for one thing only. */
  lemma NamesOne(utf8: Text -> bool, list: Option<seq<File>>, name: Text, a: Found, b: Found)
    requires list.Some? ==> Index(utf8, list.value)
    requires Names(utf8, list, name, a) && Names(utf8, list, name, b)
    ensures a == b
  {
    if list.Some? {
      BadNamesMissing(utf8, list.value, name);
      if a.Entry? && b.Entry? { OneEntry(utf8, list.value, a.i, b.i, name); }
    }
  }

  /** An entry is found if and only if there is one with that name. */
  method Lookup(utf8: Text -> bool, list: Option<seq<File>>, name: Text) returns (r: Found)
    requires list.Some? ==> Index(utf8, list.value)
    ensures Names(utf8, list, name, r)
  {
    if list.Some? { BadNamesMissing(utf8, list.value, name); }
    if !ValidPath(utf8, name) {
      return NotFound;
    }
    if name == [DOT] {
      return RootDir;
    }
    if list.None? {
      return NotFound;
    }
    r := LookupEntry(utf8, list.value, name);
  }

  /** The search of Lookup. */
  method LookupEntry(utf8: Text -> bool, files: seq<File>, name: Text) returns (r: Found)
    requires Index(utf8, files) && Elements(name)
    ensures r != RootDir && (r.Entry? ==> IsEntry(files, r.i, name))
    ensures r == NotFound ==> forall i :: !IsEntry(files, i, name)
  {
    NoSlashAtEnd(name);
    var dir, elem, _ := Split(name);
    var i := SearchKey(utf8, files, Key(dir, elem));
    forall j | IsEntry(files, j, name) ensures i == j {
      SearchMeets(utf8, files, i, j, name);
    }
    if i < |files| && TrimSlash(files[i].name) == name {
      return Entry(i);
    }
    return NotFound;
  }

  lemma BadNamesMissing(utf8: Text -> bool, files: seq<File>, name: Text)
    requires Index(utf8, files)
    ensures !ValidPath(utf8, name) || name == [DOT] ==> forall i :: !IsEntry(files, i, name)
  {
    StopIs([DOT], 1);
    assert [DOT][..1] == [DOT];
  }

  // ---------------------------------------------------------------- directories

  /** The entries of a directory, in order. */
  function Listed(files: seq<File>, dir: Text): seq<File> {
    if files == [] then []
    else
      var last := files[|files| - 1];
      Listed(files[..|files| - 1], dir) + (if KeyOf(last.name).dir == dir then [last] else [])
  }

  lemma ListedSnoc(files: seq<File>, n: nat, dir: Text)
    requires n < |files|
    ensures Listed(files[..n + 1], dir)
         == Listed(files[..n], dir) + (if KeyOf(files[n].name).dir == dir then [files[n]] else [])
  {
    assert files[..n + 1][..n] == files[..n];
  }

  /** The part of a run that lies before n. */
  function Upto(files: seq<File>, i: nat, j: nat, n: nat): seq<File>
    requires i <= j <= |files| && n <= |files|
  {
    if n <= i then [] else if n <= j then files[i..n] else files[i..j]
  }

  lemma UptoSnoc(files: seq<File>, i: nat, j: nat, n: nat)
    requires i <= j <= |files| && n < |files|
    ensures Upto(files, i, j, n + 1) == Upto(files, i, j, n) + (if i <= n < j then [files[n]] else [])
  {
  }

  /** Entries that all come in one run. */
  lemma {:induction false} ListedIs(files: seq<File>, dir: Text, i: nat, j: nat, n: nat)
    requires i <= j <= |files| && n <= |files|
    requires forall k :: 0 <= k < |files| ==> (KeyOf(files[k].name).dir == dir <==> i <= k < j)
    ensures Listed(files[..n], dir) == Upto(files, i, j, n)
    decreases n
  {
    if n > 0 {
      ListedIs(files, dir, i, j, n - 1);
      ListedSnoc(files, n - 1, dir);
      UptoSnoc(files, i, j, n - 1);
    }
  }

  lemma InDir(files: seq<File>, dir: Text, k: nat)
    requires k < |files|
    ensures KeyOf(files[k].name).dir == dir <==> DirAtLeast(files, dir, k) && !DirAfter(files, dir, k)
    ensures DirAfter(files, dir, k) ==> DirAtLeast(files, dir, k)
  {
    var d := KeyOf(files[k].name).dir;
    LessTotal(d, dir);
    LessNotSelf(dir);
    if Less(d, dir) && Less(dir, d) { LessTransitive(d, dir, d); LessNotSelf(d); }
  }

  lemma Bounds(files: seq<File>, dir: Text, i: nat, j: nat)
    requires i <= |files| && j <= |files|
    requires forall k :: 0 <= k < |files| ==> (DirAtLeast(files, dir, k) <==> i <= k)
    requires forall k :: 0 <= k < |files| ==> (DirAfter(files, dir, k) <==> j <= k)
    ensures i <= j
    ensures forall k :: 0 <= k < |files| ==> (KeyOf(files[k].name).dir == dir <==> i <= k < j)
  {
    forall k | 0 <= k < |files| ensures KeyOf(files[k].name).dir == dir <==> i <= k < j {
      InDir(files, dir, k);
    }
    if j < |files| { InDir(files, dir, j); }
  }

  lemma ListedBetween(files: seq<File>, dir: Text, i: nat, j: nat)
    requires i <= |files| && j <= |files|
    requires forall k :: 0 <= k < |files| ==> (DirAtLeast(files, dir, k) <==> i <= k)
    requires forall k :: 0 <= k < |files| ==> (DirAfter(files, dir, k) <==> j <= k)
    ensures i <= j && Listed(files, dir) == files[i..j]
  {
    Bounds(files, dir, i, j);
    ListedIs(files, dir, i, j, |files|);
    assert files[..|files|] == files;
  }

  /** Exactly the entries whose directory is dir, in the order of the list. */
  method ReadDir(utf8: Text -> bool, list: Option<seq<File>>, dir: Text) returns (r: seq<File>)
    requires list.Some? ==> Index(utf8, list.value)
    ensures r == if list.None? then [] else Listed(list.value, dir)
  {
    if list.None? {
      return [];
    }
    var files := list.value;
    var i := SearchDir(utf8, files, dir);
    var j := SearchAfter(utf8, files, dir);
    ListedBetween(files, dir, i, j);
    return files[i..j];
  }

  /** What opening a name gives: nothing, the entries of a directory, or the data of a file. */
  datatype Opened = NotExist | Directory(entries: seq<File>) | Regular(data: seq<Byte>)

  ghost function Entries(list: Option<seq<File>>, dir: Text): seq<File> {
    if list.None? then [] else Listed(list.value, dir)
  }

  ghost function OpenedAs(list: Option<seq<File>>, name: Text, found: Found): Opened
    requires found.Entry? ==> list.Some? && found.i < |list.value|
  {
    match found
    case NotFound => NotExist
    case RootDir => Directory(Entries(list, name))
    case Entry(i) => if IsDir(list.value[i].name) then Directory(Entries(list, name)) else Regular(list.value[i].data)
  }

  /** Every entry opens under its name, as the directory or the file it is; so does the root; and
      nothing else does. */
  method Open(utf8: Text -> bool, list: Option<seq<File>>, name: Text) returns (r: Opened)
    requires list.Some? ==> Index(utf8, list.value)
    ensures forall f: Found :: Names(utf8, list, name, f) ==> r == OpenedAs(list, name, f)
  {
    var found := Lookup(utf8, list, name);
    forall f: Found | Names(utf8, list, name, f) ensures f == found {
      NamesOne(utf8, list, name, f, found);
    }
    if found == NotFound {
      return NotExist;
    }
    if found.RootDir? || IsDir(list.value[found.i].name) {
      var files := ReadDir(utf8, list, name);
      return Directory(files);
    }
    return Regular(list.value[found.i].data);
  }

  // ---------------------------------------------------------------- open files

  datatype ReadResult = ReadOk(n: nat) | ReadEof | ReadInvalid

  class OpenFile {
    const data: seq<Byte>
    var offset: int

    constructor (data: seq<Byte>)
      ensures this.data == data && offset == 0
    {
      this.data := data;
      offset := 0;
    }

    /** As many of the bytes from the offset on as fit. */
    method Read(b: array<Byte>) returns (r: ReadResult)
      modifies this, b
      ensures old(offset) >= |data| <==> r == ReadEof
      ensures 0 <= old(offset) < |data| <==> r.ReadOk?
      ensures if r.ReadOk?
        then r.n <= b.Length && offset == old(offset) + r.n <= |data| && b[..r.n] == data[old(offset)..offset]
          && (r.n == b.Length || offset == |data|)
        else offset == old(offset)
      ensures forall k :: (if r.ReadOk? then r.n else 0) <= k < b.Length ==> b[k] == old(b[k])
    {
      if offset >= |data| {
        return ReadEof;
      }
      if offset < 0 {
        return ReadInvalid;
      }
      var n := if b.Length < |data| - offset then b.Length else |data| - offset;
      forall k | 0 <= k < n {
        b[k] := data[offset + k];
      }
      offset := offset + n;
      return ReadOk(n);
    }

    /** A target outside the file is refused. A sum too large for 64 bits is outside as well. */
    method Seek(offset0: int, whence: int) returns (r: Option<int>)
      modifies this
      ensures var target := offset0 + (if whence == 1 then old(offset) else if whence == 2 then |data| else 0);
        if 0 <= target <= |data| then r == Some(target) && offset == target else r == None && offset == old(offset)
    {
      var to := offset0;
      if whence == 1 {
        to := to + offset;
      } else if whence == 2 {
        to := to + |data|;
      }
      if to < 0 || to > |data| {
        return None;
      }
      offset := to;
      return Some(to);
    }
  }

  datatype Batch = Batch(files: seq<File>) | NoMore

  class OpenDir {
    const files: seq<File>
    var offset: nat

    constructor (files: seq<File>)
      ensures this.files == files && offset == 0
    {
      this.files := files;
      offset := 0;
    }

    /** The next count entries, or all that are left when count is not positive. */
    method ReadDir(count: int) returns (r: Batch)
      requires offset <= |files|
      modifies this
      ensures old(offset) <= offset <= |files|
      ensures r == NoMore <==> old(offset) == |files| && count > 0
      ensures r.Batch? ==> r.files == files[old(offset)..offset]
      ensures r == NoMore ==> offset == old(offset)
      ensures if 0 < count < |files| - old(offset) then offset == old(offset) + count else offset == |files|
    {
      var n := |files| - offset;
      if count > 0 && n > count {
        n := count;
      }
      if n == 0 {
        if count <= 0 {
          return Batch([]);
        }
        return NoMore;
      }
      r := Batch(files[offset..offset + n]);
      offset := offset + n;
    }
  }

  lemma SlicesMeet(files: seq<File>, i: nat, j: nat)
    requires i <= j <= |files|
    ensures files[..i] + files[i..j] == files[..j]
  {
  }

  /** Whatever the counts, the batches give the entries in order, none lost or repeated, and a
      count that is not positive gives all that are left. */
  method ReadBatches(utf8: Text -> bool, list: Option<seq<File>>, dir: Text, counts: seq<int>) returns (got: seq<File>)
    requires list.Some? ==> Index(utf8, list.value)
    ensures var all := if list.None? then [] else Listed(list.value, dir);
      got <= all && ((exists k :: 0 <= k < |counts| && counts[k] <= 0) ==> got == all)
  {
    var files := ReadDir(utf8, list, dir);
    var d := new OpenDir(files);
    got := [];
    for k := 0 to |counts|
      invariant fresh(d) && d.files == files && d.offset <= |files| && got == files[..d.offset]
      invariant (exists i :: 0 <= i < k && counts[i] <= 0) ==> d.offset == |files|
    {
      ghost var from := d.offset;
      var r := d.ReadDir(counts[k]);
      if r.Batch? {
        SlicesMeet(files, from, d.offset);
        got := got + r.files;
      }
    }
  }
}
