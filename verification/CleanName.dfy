/**
 * Rewriting a path in place: no empty elements, no ".", and ".." only where it cannot be resolved.
 *
 * A path is read as a walk. Where the walk ends is a place: so many steps up from where it
 * began, then down through named elements. Cleaning is proved to keep the place, and no other
 * path to the same place is shorter.
 */
module CleanName {
  import opened Bits
  import opened PathText

  const NUL: Byte := 0

  // ---------------------------------------------------------------- places

  /** The elements of a walk after normalisation, ".." first. */
  type Place = seq<Text>

  function DotDot(): Text { [DOT, DOT] }

  function Step(rooted: bool, at: Place, e: Text): Place {
    if e == [] || e == [DOT] then at
    else if e != DotDot() then at + [e]
    else if at != [] && at[|at| - 1] != DotDot() then at[..|at| - 1]
    else if rooted then at
    else at + [e]
  }

  /** Walking the slash-separated elements of s. */
  function Walk(rooted: bool, at: Place, s: Text): Place
    decreases |s|
  {
    var n := Stop(s);
    var next := Step(rooted, at, s[..n]);
    if n == |s| then next else Walk(rooted, next, s[n + 1..])
  }

  predicate Rooted(s: Text) {
    s != [] && s[0] == SLASH
  }

  function Leads(s: Text): Place {
    Walk(Rooted(s), [], s)
  }

  function Join(at: Place): Text {
    if at == [] then []
    else if |at| == 1 then at[0]
    else Join(at[..|at| - 1]) + [SLASH] + at[|at| - 1]
  }

  function Root(rooted: bool): Text {
    if rooted then [SLASH] else []
  }

  function Render(rooted: bool, at: Place): Text {
    Root(rooted) + Join(at)
  }

  /** What cleaning leaves of s. */
  function Clean(s: Text): Text {
    var r := Render(Rooted(s), Leads(s));
    if r == [] then [DOT] else r
  }

  // ---------------------------------------------------------------- the shape of a place

  predicate Plain(e: Text) {
    e != [] && e != [DOT] && SLASH !in e
  }

  /** ".." stands only before the names, and not at all below the root. */
  predicate Normal(rooted: bool, at: Place) {
    && (forall e :: e in at ==> Plain(e))
    && (rooted ==> DotDot() !in at)
    && Leading(at, DotDot())
  }

  /** Every d in at stands in one run at its head. */
  predicate Leading(at: Place, d: Text) {
    forall i, j :: 0 <= i < j < |at| && at[j] == d ==> at[i] == d
  }

  lemma LastIsOther(at: Place, d: Text, n: nat)
    requires Leading(at, d) && n < |at| && at[n] != d
    ensures at[|at| - 1] != d
  {
  }

  lemma LeadingInit(at: Place, d: Text, k: nat)
    requires Leading(at, d) && k <= |at|
    ensures Leading(at[..k], d)
  {
  }

  lemma NormalInit(rooted: bool, at: Place, k: nat)
    requires Normal(rooted, at) && k <= |at|
    ensures Normal(rooted, at[..k])
  {
    var init := at[..k];
    LeadingInit(at, DotDot(), k);
    forall e | e in init ensures e in at {
      var i :| 0 <= i < |init| && init[i] == e;
      assert at[i] == e;
    }
  }

  lemma StepKeepsNormal(rooted: bool, at: Place, e: Text)
    requires Normal(rooted, at) && SLASH !in e
    ensures Normal(rooted, Step(rooted, at, e))
  {
  }

  lemma {:induction false} WalkKeepsNormal(rooted: bool, at: Place, s: Text)
    requires Normal(rooted, at)
    ensures Normal(rooted, Walk(rooted, at, s))
    decreases |s|
  {
    var n := Stop(s);
    StepKeepsNormal(rooted, at, s[..n]);
    if n < |s| {
      WalkKeepsNormal(rooted, Step(rooted, at, s[..n]), s[n + 1..]);
    }
  }

  // ---------------------------------------------------------------- one element at a time

  lemma WalkSlash(rooted: bool, at: Place, s: Text)
    requires s != [] && s[0] == SLASH
    ensures Walk(rooted, at, s) == Walk(rooted, at, s[1..])
  {
    StopIs(s, 0);
  }

  lemma WalkElement(rooted: bool, at: Place, s: Text, n: nat)
    requires n <= |s| && (forall i :: 0 <= i < n ==> s[i] != SLASH) && (n < |s| ==> s[n] == SLASH)
    ensures Walk(rooted, at, s) == Walk(rooted, Step(rooted, at, s[..n]), s[n..])
  {
    StopIs(s, n);
    if n < |s| {
      WalkSlash(rooted, Step(rooted, at, s[..n]), s[n..]);
      assert s[n..][1..] == s[n + 1..];
    }
  }

  lemma WalkElementThen(rooted: bool, at: Place, e: Text, t: Text)
    requires SLASH !in e && (t == [] || t[0] == SLASH)
    ensures Walk(rooted, at, e + t) == Walk(rooted, Step(rooted, at, e), t)
  {
    assert (e + t)[..|e|] == e && (e + t)[|e|..] == t;
    WalkElement(rooted, at, e + t, |e|);
  }

  predicate Without(at: Place, c: Byte) {
    forall i :: 0 <= i < |at| ==> c !in at[i]
  }

  lemma StepWithout(rooted: bool, at: Place, e: Text, c: Byte)
    requires Without(at, c) && c !in e && c != DOT
    ensures Without(Step(rooted, at, e), c)
  {
  }

  lemma {:induction false} WalkWithout(rooted: bool, at: Place, s: Text, c: Byte)
    requires Without(at, c) && c !in s && c != DOT
    ensures Without(Walk(rooted, at, s), c)
    decreases |s|
  {
    var n := Stop(s);
    StepWithout(rooted, at, s[..n], c);
    if n < |s| {
      WalkWithout(rooted, Step(rooted, at, s[..n]), s[n + 1..], c);
    }
  }

  lemma {:induction false} JoinWithout(at: Place, c: Byte)
    requires Without(at, c) && c != SLASH
    ensures c !in Join(at)
    decreases |at|
  {
    if |at| > 1 {
      JoinWithout(at[..|at| - 1], c);
    }
  }

  /** Cleaning brings in no byte but the dot and the slash. */
  lemma CleanWithout(s: Text, c: Byte)
    requires c !in s && c != DOT && c != SLASH
    ensures c !in Clean(s)
  {
    WalkWithout(Rooted(s), [], s, c);
    JoinWithout(Leads(s), c);
  }

  // ---------------------------------------------------------------- cleaning keeps the place

  lemma StepOnto(rooted: bool, at: Place)
    requires Normal(rooted, at) && at != []
    ensures Plain(at[|at| - 1]) && Normal(rooted, at[..|at| - 1])
    ensures Step(rooted, at[..|at| - 1], at[|at| - 1]) == at
  {
    var init, e := at[..|at| - 1], at[|at| - 1];
    assert e in at && init + [e] == at;
    NormalInit(rooted, at, |at| - 1);
    assert e == DotDot() && init != [] ==> at[|at| - 2] == DotDot();
  }

  lemma Regroup(first: Text, e: Text, t: Text)
    ensures first + [SLASH] + e + t == first + ([SLASH] + (e + t))
    ensures ([SLASH] + (e + t))[1..] == e + t
  {
  }

  lemma {:induction false} WalkJoin(rooted: bool, at: Place, t: Text)
    requires Normal(rooted, at) && (t == [] || t[0] == SLASH)
    ensures at == [] || Walk(rooted, [], Join(at) + t) == Walk(rooted, at, t)
    decreases |at|
  {
    if at != [] {
      var init, e := at[..|at| - 1], at[|at| - 1];
      StepOnto(rooted, at);
      if init == [] {
        WalkElementThen(rooted, [], e, t);
      } else {
        var u := [SLASH] + (e + t);
        Regroup(Join(init), e, t);
        WalkJoin(rooted, init, u);
        WalkSlash(rooted, init, u);
        WalkElementThen(rooted, init, e, t);
      }
    }
  }

  lemma {:induction false} JoinStarts(rooted: bool, at: Place)
    requires Normal(rooted, at) && at != []
    ensures Join(at) != [] && Join(at)[0] != SLASH
    decreases |at|
  {
    assert at[0] in at && Plain(at[0]) && at[0][0] in at[0];
    if |at| > 1 {
      JoinStarts(rooted, at[..|at| - 1]);
    }
  }

  lemma WalkDot(rooted: bool)
    ensures Walk(rooted, [], []) == [] && Walk(rooted, [], [DOT]) == []
  {
    StopIs([DOT], 1);
    assert [DOT][..1] == [DOT];
  }

  /** The rendering of a place leads back to it. */
  lemma RenderLeads(rooted: bool, at: Place)
    requires Normal(rooted, at)
    ensures Rooted(Render(rooted, at)) == rooted
    ensures Leads(Render(rooted, at)) == at
  {
    var r := Render(rooted, at);
    assert Join(at) + [] == Join(at);
    if at == [] {
      WalkDot(rooted);
    } else {
      JoinStarts(rooted, at);
      WalkJoin(rooted, at, []);
    }
    if rooted {
      assert r[1..] == Join(at);
      WalkSlash(rooted, [], r);
    } else {
      assert r == Join(at);
    }
  }

  /** A cleaned path starts at the same end and leads to the same place; the place is normal. */
  lemma CleanKeepsPlace(s: Text)
    ensures Rooted(Clean(s)) == Rooted(s)
    ensures Leads(Clean(s)) == Leads(s)
    ensures Normal(Rooted(s), Leads(s))
  {
    WalkKeepsNormal(Rooted(s), [], s);
    RenderLeads(Rooted(s), Leads(s));
    WalkDot(false);
  }

  lemma CleanTwice(s: Text)
    ensures Clean(Clean(s)) == Clean(s)
  {
    CleanKeepsPlace(s);
  }

  /** Two paths clean to the same text exactly when they start at the same end and lead to the same place. */
  lemma CleanDecides(s: Text, t: Text)
    ensures Clean(s) == Clean(t) <==> Rooted(s) == Rooted(t) && Leads(s) == Leads(t)
  {
    CleanKeepsPlace(s);
    CleanKeepsPlace(t);
  }

  // ---------------------------------------------------------------- laws of paths

  lemma {:induction false} WalkThen(rooted: bool, at: Place, s: Text, e: Text)
    requires SLASH !in e
    ensures Walk(rooted, at, s + [SLASH] + e) == Step(rooted, Walk(rooted, at, s), e)
    decreases |s|
  {
    var n, t := Stop(s), s + [SLASH] + e;
    StopIs(t, n);
    assert t[..n] == s[..n];
    if n == |s| {
      assert t[n + 1..] == e;
      StopIs(e, |e|);
      assert e[..|e|] == e;
    } else {
      assert t[n + 1..] == s[n + 1..] + [SLASH] + e;
      WalkThen(rooted, Step(rooted, at, s[..n]), s[n + 1..], e);
    }
  }

  lemma LeadsThen(s: Text, e: Text)
    requires s != [] && SLASH !in e
    ensures Rooted(s + [SLASH] + e) == Rooted(s)
    ensures Leads(s + [SLASH] + e) == Step(Rooted(s), Leads(s), e)
  {
    WalkThen(Rooted(s), [], s, e);
  }

  lemma SameClean(s: Text, t: Text)
    requires Rooted(s) == Rooted(t) && Leads(s) == Leads(t)
    ensures Clean(s) == Clean(t)
  {
  }

  /** A slash at the end says nothing, and neither does a dot behind it. */
  lemma EndSaysNothing(s: Text)
    requires s != []
    ensures Clean(s + [SLASH]) == Clean(s) && Clean(s + [SLASH] + [DOT]) == Clean(s)
  {
    assert s + [SLASH] + [] == s + [SLASH];
    LeadsThen(s, []);
    LeadsThen(s, [DOT]);
    SameClean(s + [SLASH], s);
    SameClean(s + [SLASH] + [DOT], s);
  }

  /** A name and ".." behind it say nothing. */
  lemma ThereAndBack(s: Text, e: Text)
    requires s != [] && Plain(e) && e != DotDot()
    ensures Clean(s + [SLASH] + e + [SLASH] + DotDot()) == Clean(s)
  {
    var at := Leads(s);
    LeadsThen(s, e);
    LeadsThen(s + [SLASH] + e, DotDot());
    assert (at + [e])[..|at|] == at;
    SameClean(s + [SLASH] + e + [SLASH] + DotDot(), s);
  }

  /** ".." says nothing at the root, and is kept where nothing is left to go back to. */
  lemma UpFromStart(s: Text)
    requires s != [] && Leads(s) == []
    ensures Leads(s + [SLASH] + DotDot()) == if Rooted(s) then [] else [DotDot()]
  {
    LeadsThen(s, DotDot());
  }

  /** A path that is clean already stays as it is. */
  lemma AlreadyClean(rooted: bool, at: Place)
    requires Normal(rooted, at) && (rooted || at != [])
    ensures Clean(Render(rooted, at)) == Render(rooted, at)
  {
    RenderLeads(rooted, at);
    if at != [] { JoinStarts(rooted, at); }
  }

  // ---------------------------------------------------------------- no shorter path

  function Cost(at: Place): nat {
    if at == [] then 0 else |Join(at)| + 1
  }

  lemma StepCost(rooted: bool, at: Place, e: Text)
    ensures Cost(Step(rooted, at, e)) <= Cost(at) + |e| + 1
    ensures e == [] ==> Step(rooted, at, e) == at
  {
    if |at| > 0 {
      assert (at + [e])[..|at|] == at;
    }
  }

  lemma {:induction false} WalkCost(rooted: bool, at: Place, s: Text)
    ensures Cost(Walk(rooted, at, s)) <= Cost(at) + |s| + 1
    decreases |s|
  {
    var n := Stop(s);
    StepCost(rooted, at, s[..n]);
    if n < |s| {
      WalkCost(rooted, Step(rooted, at, s[..n]), s[n + 1..]);
    }
  }

  /** No path from the same end to the same place is shorter. */
  lemma CleanIsShortest(s: Text, t: Text)
    requires t != [] && Rooted(t) == Rooted(s) && Leads(t) == Leads(s)
    ensures |Clean(s)| <= |t|
  {
    var rooted := Rooted(t);
    if rooted {
      WalkSlash(rooted, [], t);
      WalkCost(rooted, [], t[1..]);
    } else {
      WalkCost(rooted, [], t);
    }
  }

  // ---------------------------------------------------------------- in place

  /** The buffer holds s and the byte that ends it. */
  ghost predicate Holds(name: array<Byte>, s: Text)
    reads name
  {
    |s| < name.Length && NUL !in s && name[..|s|] == s && name[|s|] == NUL
  }

  /** From p on the buffer still holds what it held at first. */
  ghost predicate Unread(name: array<Byte>, s: Text, p: nat)
    reads name
  {
    p <= |s| < name.Length && forall i :: p <= i <= |s| ==> name[i] == ByteAt(s, i)
  }

  /** The byte at i of s and the NUL behind it. */
  function ByteAt(s: Text, i: nat): Byte
    requires i <= |s|
  {
    if i < |s| then s[i] else NUL
  }

  /** The leading run of "..". */
  function Ups(at: Place): (n: nat)
    ensures n <= |at|
    ensures forall i :: 0 <= i < n ==> at[i] == DotDot()
    ensures n < |at| ==> at[n] != DotDot()
  {
    if at == [] || at[0] != DotDot() then 0 else 1 + Ups(at[1..])
  }

  /** What the buffer holds up to q, and where ".." can no longer go back. */
  ghost predicate Written(name: array<Byte>, rooted: bool, at: Place, q: nat, dotdot: nat)
    reads name
  {
    && Normal(rooted, at)
    && q <= name.Length && name[..q] == Render(rooted, at)
    && dotdot == |Render(rooted, at[..Ups(at)])|
  }

  lemma RenderPush(rooted: bool, at: Place, e: Text)
    requires Normal(rooted, at)
    ensures Render(rooted, at + [e]) == Render(rooted, at) + (if at == [] then [] else [SLASH]) + e
    ensures at == [] <==> |Render(rooted, at)| == |Root(rooted)|
  {
    assert (at + [e])[..|at|] == at;
    if at != [] {
      JoinStarts(rooted, at);
    }
  }

  lemma {:induction false} UpsIs(at: Place, n: nat)
    requires n <= |at| && (forall i :: 0 <= i < n ==> at[i] == DotDot()) && (n < |at| ==> at[n] != DotDot())
    ensures Ups(at) == n
  {
  }

  /** A name written after the others. */
  lemma PushName(rooted: bool, at: Place, e: Text)
    requires Normal(rooted, at) && Plain(e) && e != DotDot()
    ensures Normal(rooted, at + [e])
    ensures (at + [e])[..Ups(at + [e])] == at[..Ups(at)]
  {
    UpsIs(at + [e], Ups(at));
  }

  /** ".." written where nothing is left to take back. */
  lemma PushUp(at: Place)
    requires Normal(false, at) && Ups(at) == |at|
    ensures Normal(false, at + [DotDot()])
    ensures (at + [DotDot()])[..Ups(at + [DotDot()])] == at + [DotDot()]
  {
    UpsIs(at + [DotDot()], |at| + 1);
    assert forall i :: 0 <= i < |at| ==> (at + [DotDot()])[i] == DotDot();
  }

  /** Each further element makes the text longer. */
  lemma {:induction false} RenderGrows(rooted: bool, at: Place, k: nat)
    requires Normal(rooted, at) && k <= |at|
    ensures |Render(rooted, at[..k])| <= |Render(rooted, at)|
    ensures k < |at| ==> |Render(rooted, at[..k])| < |Render(rooted, at)|
    decreases |at|
  {
    if k < |at| {
      var init, e := at[..|at| - 1], at[|at| - 1];
      assert Plain(e) by { assert e in at; }
      NormalInit(rooted, at, |at| - 1);
      assert init + [e] == at && at[..k] == init[..k];
      RenderGrows(rooted, init, k);
      RenderPush(rooted, init, e);
    } else {
      assert at[..k] == at;
    }
  }

  lemma UpsBelow(rooted: bool, at: Place)
    requires |Render(rooted, at[..Ups(at)])| < |Render(rooted, at)|
    ensures Ups(at) < |at|
  {
    assert at[..|at|] == at;
  }

  lemma UpsEnd(rooted: bool, at: Place)
    requires Normal(rooted, at) && |Render(rooted, at)| <= |Render(rooted, at[..Ups(at)])|
    ensures Ups(at) == |at|
  {
    RenderGrows(rooted, at, Ups(at));
  }

  /** r is p, a slash unless p is only the root, and e. */
  lemma LastSlash(r: Text, p: Text, sep: Text, e: Text)
    requires r == p + sep + e && SLASH !in e && (sep == [] || sep == [SLASH])
    ensures r[..|p|] == p
    ensures sep != [] ==> |p| < |r| && r[|p|] == SLASH
    ensures forall i :: |p| < i < |r| ==> r[i] != SLASH
  {
    forall i | |p| < i < |r| ensures r[i] != SLASH {
      assert r[i] == e[i - |p| - |sep|];
    }
  }

  lemma SliceAgain<T>(s: seq<T>, k: nat, n: nat)
    requires n <= k <= |s|
    ensures s[..k][..n] == s[..n]
  {
  }

  lemma Whole<T>(s: seq<T>)
    requires s != []
    ensures s[..|s| - 1] + [s[|s| - 1]] == s
  {
  }

  lemma PopUps(at: Place)
    requires Ups(at) < |at|
    ensures Ups(at[..|at| - 1]) == Ups(at)
  {
    var init := at[..|at| - 1];
    assert forall i :: 0 <= i < |init| ==> init[i] == at[i];
    UpsIs(init, Ups(at));
  }

  lemma PopKeeps(rooted: bool, at: Place)
    requires Normal(rooted, at) && Ups(at) < |at|
    ensures Normal(rooted, at[..|at| - 1]) && at[|at| - 1] != DotDot() && Plain(at[|at| - 1])
    ensures Ups(at[..|at| - 1]) == Ups(at) && at[..|at| - 1][..Ups(at)] == at[..Ups(at)]
    ensures at[..|at| - 1] + [at[|at| - 1]] == at
  {
    assert at[|at| - 1] in at;
    LastIsOther(at, DotDot(), Ups(at));
    NormalInit(rooted, at, |at| - 1);
    PopUps(at);
    SliceAgain(at, |at| - 1, Ups(at));
    Whole(at);
  }

  /** The text before the last name: it ends where a slash stands, or where ".." stops. */
  lemma PopName(rooted: bool, at: Place, r: Text, m: nat, dotdot: nat)
    requires Normal(rooted, at) && Ups(at) < |at| && r == Render(rooted, at)
    requires m == |Render(rooted, at[..|at| - 1])| && dotdot == |Render(rooted, at[..Ups(at)])|
    ensures dotdot <= m < |r| && r[..m] == Render(rooted, at[..|at| - 1])
    ensures m == dotdot || r[m] == SLASH
    ensures forall i :: m < i < |r| ==> r[i] != SLASH
  {
    var init, e := at[..|at| - 1], at[|at| - 1];
    PopKeeps(rooted, at);
    RenderPush(rooted, init, e);
    RenderGrows(rooted, init, Ups(at));
    LastSlash(r, Render(rooted, init), if init == [] then [] else [SLASH], e);
  }

  /** Takes back the last element: q ends where its text began, before the slash in front of it. */
  method TakeBack(name: array<Byte>, ghost rooted: bool, ghost at: Place, q0: nat, dotdot: nat) returns (q: nat)
    requires Written(name, rooted, at, q0, dotdot) && q0 > dotdot
    ensures at != [] && at[|at| - 1] != DotDot() && q < q0
    ensures Written(name, rooted, at[..|at| - 1], q, dotdot)
    ensures Step(rooted, at, DotDot()) == at[..|at| - 1]
  {
    UpsBelow(rooted, at);
    PopKeeps(rooted, at);
    ghost var r, m := name[..q0], |Render(rooted, at[..|at| - 1])|;
    PopName(rooted, at, r, m, dotdot);
    q := q0 - 1;
    while q > dotdot && name[q] != SLASH
      invariant m <= q < q0
    {
      assert r[q] == name[q];
      q := q - 1;
    }
    assert r[q] == name[q];
    assert name[..q] == r[..q];
  }

  lemma UpDropped(at: Place)
    requires Normal(true, at) && Ups(at) == |at|
    ensures Step(true, at, DotDot()) == at
  {
    assert forall i :: 0 <= i < |at| ==> at[i] in at;
  }

  /** ".." where nothing can be taken back: it is written itself, over text already read. */
  method WriteUp(name: array<Byte>, ghost at: Place, q0: nat, dotdot: nat) returns (q: nat)
    requires Written(name, false, at, q0, dotdot) && q0 <= dotdot
    requires q0 + (if at == [] then 2 else 3) <= name.Length
    modifies name
    ensures q == q0 + (if at == [] then 2 else 3)
    ensures Written(name, false, at + [DotDot()], q, q)
    ensures Step(false, at, DotDot()) == at + [DotDot()]
    ensures forall i :: q <= i < name.Length ==> name[i] == old(name[i])
  {
    UpsEnd(false, at);
    PushUp(at);
    RenderPush(false, at, DotDot());
    q := q0;
    if q != 0 {
      name[q] := SLASH;
      q := q + 1;
    }
    name[q] := DOT;
    q := q + 1;
    name[q] := DOT;
    q := q + 1;
    assert name[..q] == old(name[..q0]) + (if at == [] then [] else [SLASH]) + DotDot();
  }

  /** The element of s that begins at p, and where it stops. */
  predicate ElementAt(s: Text, p: nat, n: nat) {
    && p <= n <= |s| && (forall i :: p <= i < n ==> s[i] != SLASH)
    && (n < |s| ==> s[n] == SLASH)
  }

  /** The bytes of an element and the byte that ends it are moved down to q. */
  method MoveDown(name: array<Byte>, ghost s: Text, p0: nat, q0: nat, ghost n: nat) returns (p: nat, q: nat)
    requires Unread(name, s, p0) && NUL !in s && ElementAt(s, p0, n) && q0 <= p0
    modifies name
    ensures p == n && q == q0 + (n - p0) && Unread(name, s, p)
    ensures name[..q] == old(name[..q0]) + s[p0..n]
    ensures forall i :: |s| < i < name.Length ==> name[i] == old(name[i])
  {
    p, q := p0, q0;
    name[q] := name[p];
    while name[q] != SLASH && name[q] != NUL
      invariant p0 <= p <= n && q - q0 == p - p0
      invariant name[q] == ByteAt(s, p) && Unread(name, s, p)
      invariant forall i :: 0 <= i < q0 ==> name[i] == old(name[i])
      invariant forall i :: q0 <= i < q ==> name[i] == s[p0 + (i - q0)]
      invariant forall i :: |s| < i < name.Length ==> name[i] == old(name[i])
      decreases n - p
    {
      p, q := p + 1, q + 1;
      name[q] := name[p];
    }
  }

  /** A name is copied down to q, after a slash if anything stands before it. */
  method CopyName(name: array<Byte>, ghost s: Text, ghost rooted: bool, ghost at: Place, base: nat,
                  p0: nat, q0: nat, dotdot: nat, ghost n: nat) returns (p: nat, q: nat)
    requires Written(name, rooted, at, q0, dotdot) && Unread(name, s, p0) && NUL !in s
    requires base == |Root(rooted)| && ElementAt(s, p0, n)
    requires Plain(s[p0..n]) && s[p0..n] != DotDot()
    requires q0 <= p0 && (at != [] ==> q0 < p0)
    modifies name
    ensures p == n && q <= p && Unread(name, s, p)
    ensures Written(name, rooted, at + [s[p0..n]], q, dotdot)
    ensures forall i :: |s| < i < name.Length ==> name[i] == old(name[i])
  {
    PushName(rooted, at, s[p0..n]);
    RenderPush(rooted, at, s[p0..n]);
    q := q0;
    if q != base {
      name[q] := SLASH;
      q := q + 1;
    }
    assert name[..q] == old(name[..q0]) + (if at == [] then [] else [SLASH]);
    p, q := MoveDown(name, s, p0, q, n);
  }

  lemma Consumed(rooted: bool, at: Place, s: Text, p: nat, n: nat)
    requires ElementAt(s, p, n)
    ensures Walk(rooted, at, s[p..]) == Walk(rooted, Step(rooted, at, s[p..n]), s[n..])
  {
    assert s[p..] == s[p..n] + s[n..];
    WalkElementThen(rooted, at, s[p..n], s[n..]);
  }

  lemma SlashConsumed(rooted: bool, at: Place, s: Text, p: nat)
    requires p < |s| && s[p] == SLASH
    ensures Walk(rooted, at, s[p..]) == Walk(rooted, at, s[p + 1..])
  {
    assert s[p..][1..] == s[p + 1..];
    WalkSlash(rooted, at, s[p..]);
  }

  predicate IsSep(c: Byte) {
    c == SLASH || c == NUL
  }

  predicate IsDot(s: Text, p: nat)
    requires p < |s|
  {
    s[p] == DOT && IsSep(ByteAt(s, p + 1))
  }

  predicate IsUp(s: Text, p: nat)
    requires p < |s|
  {
    s[p] == DOT && p + 1 < |s| && s[p + 1] == DOT && IsSep(ByteAt(s, p + 2))
  }

  /** The tests of the loop, on the bytes that are still unread. */
  method Look(name: array<Byte>, ghost s: Text, p: nat) returns (slash: bool, dot: bool, up: bool)
    requires Unread(name, s, p) && NUL !in s && p < |s|
    ensures slash == (s[p] == SLASH) && dot == IsDot(s, p) && up == IsUp(s, p)
  {
    slash := name[p] == SLASH;
    dot := name[p] == DOT && IsSep(name[p + 1]);
    up := name[p] == DOT && name[p + 1] == DOT && IsSep(name[p + 2]);
  }

  /** An element that is neither "." nor ".." is a name. */
  lemma NameAt(s: Text, p: nat) returns (n: nat)
    requires p < |s| && s[p] != SLASH && NUL !in s && !IsDot(s, p) && !IsUp(s, p)
    ensures ElementAt(s, p, n) && Plain(s[p..n]) && s[p..n] != DotDot()
  {
    n := p + Stop(s[p..]);
    var e := s[p..n];
    assert forall i :: p <= i < n ==> s[i] == s[p..][i - p];
    assert forall i :: 0 <= i < |e| ==> e[i] == s[p + i];
    assert n < |s| ==> s[n] == s[p..][n - p];
  }

  // Standing is sealed: Stands and StandsNow open and close it.
  predicate UnlockStanding(u: int) { true }

  ghost predicate StandingFull(u: int, name: array<Byte>, s: Text, at: Place, p: nat, q: nat, dotdot: nat)
    reads name
  {
    && p <= |s| && Written(name, Rooted(s), at, q, dotdot)
    && q <= p && (at != [] && p < |s| && s[p] != SLASH ==> q < p)
    && Walk(Rooted(s), at, s[p..]) == Leads(s)
  }

  /** Where the loop of CleanName stands: what is written leads, with what is unread, to the same place. */
  ghost predicate Standing(name: array<Byte>, s: Text, at: Place, p: nat, q: nat, dotdot: nat)
    reads name
  {
    && Unread(name, s, p) && NUL !in s
    && forall u: int :: UnlockStanding(u) ==> StandingFull(u, name, s, at, p, q, dotdot)
  }

  lemma Stands(name: array<Byte>, s: Text, at: Place, p: nat, q: nat, dotdot: nat)
    requires Standing(name, s, at, p, q, dotdot)
    ensures StandingFull(0, name, s, at, p, q, dotdot)
  {
    assert UnlockStanding(0);
  }

  lemma StandsNow(name: array<Byte>, s: Text, at: Place, p: nat, q: nat, dotdot: nat)
    requires Unread(name, s, p) && NUL !in s && StandingFull(0, name, s, at, p, q, dotdot)
    ensures Standing(name, s, at, p, q, dotdot)
  {
  }

  /** What stands after the element from p0 to p is done with. */
  lemma StandsAfter(name: array<Byte>, s: Text, at0: Place, p0: nat, at: Place, p: nat, q: nat, dotdot: nat)
    requires ElementAt(s, p0, p) && NUL !in s && q <= p
    requires Walk(Rooted(s), at0, s[p0..]) == Leads(s) && at == Step(Rooted(s), at0, s[p0..p])
    requires Written(name, Rooted(s), at, q, dotdot) && Unread(name, s, p)
    ensures Standing(name, s, at, p, q, dotdot)
  {
    Consumed(Rooted(s), at0, s, p0, p);
    StandsNow(name, s, at, p, q, dotdot);
  }

  /** The element "..": one element back, or written itself, or dropped below the root. */
  method GoUp(name: array<Byte>, ghost rooted: bool, ghost at0: Place, root: bool, q0: nat, dotdot0: nat)
      returns (q: nat, dotdot: nat, ghost at: Place)
    requires Written(name, rooted, at0, q0, dotdot0) && root == rooted
    requires q0 + (if at0 == [] then 2 else 3) <= name.Length
    modifies name
    ensures q <= q0 + (if at0 == [] then 2 else 3) && at == Step(rooted, at0, DotDot())
    ensures Written(name, rooted, at, q, dotdot)
    ensures forall i :: q0 + (if at0 == [] then 2 else 3) <= i < name.Length ==> name[i] == old(name[i])
  {
    q, dotdot, at := q0, dotdot0, at0;
    if q > dotdot {
      q := TakeBack(name, rooted, at0, q, dotdot);
      at := at0[..|at0| - 1];
    } else if !root {
      UpsEnd(rooted, at0);
      q := WriteUp(name, at0, q, dotdot);
      dotdot := q;
      at := at0 + [DotDot()];
    } else {
      UpsEnd(rooted, at0);
      UpDropped(at0);
    }
  }

  lemma DotsAt(s: Text, p: nat, n: nat)
    requires p < n <= |s| && n <= p + 2 && (forall i :: p <= i < n ==> s[i] == DOT)
    requires n < |s| ==> s[n] == SLASH
    ensures ElementAt(s, p, n) && s[p..n] == if n == p + 1 then [DOT] else DotDot()
  {
  }

  /** The round of the loop for an element that is a name. */
  method TakeName(name: array<Byte>, ghost s: Text, rooted: bool, ghost at0: Place, p0: nat, q0: nat, dotdot: nat,
                  ghost n: nat)
      returns (p: nat, q: nat)
    requires Standing(name, s, at0, p0, q0, dotdot) && rooted == Rooted(s) && p0 < |s| && s[p0] != SLASH
    requires ElementAt(s, p0, n) && Plain(s[p0..n]) && s[p0..n] != DotDot()
    modifies name
    ensures p == n && Standing(name, s, at0 + [s[p0..n]], p, q, dotdot)
    ensures forall i :: |s| < i < name.Length ==> name[i] == old(name[i])
  {
    Stands(name, s, at0, p0, q0, dotdot);
    p, q := CopyName(name, s, rooted, at0, if rooted then 1 else 0, p0, q0, dotdot, n);
    StandsAfter(name, s, at0, p0, at0 + [s[p0..n]], p, q, dotdot);
  }

  lemma DotIs(s: Text, p: nat)
    requires p < |s| && IsDot(s, p) && NUL !in s
    ensures ElementAt(s, p, p + 1) && s[p..p + 1] == [DOT]
  {
    DotsAt(s, p, p + 1);
  }

  lemma UpIs(s: Text, p: nat)
    requires p < |s| && IsUp(s, p) && NUL !in s
    ensures ElementAt(s, p, p + 2) && s[p..p + 2] == DotDot()
  {
    DotsAt(s, p, p + 2);
  }

  /** The round of the loop for the element "..". */
  method TakeUp(name: array<Byte>, ghost s: Text, rooted: bool, ghost at0: Place, p0: nat, q0: nat, dotdot0: nat)
      returns (q: nat, dotdot: nat, ghost at: Place)
    requires Standing(name, s, at0, p0, q0, dotdot0) && rooted == Rooted(s)
    requires p0 < |s| && IsUp(s, p0) && NUL !in s
    modifies name
    ensures p0 + 2 <= |s| && Standing(name, s, at, p0 + 2, q, dotdot)
    ensures forall i :: |s| < i < name.Length ==> name[i] == old(name[i])
  {
    Stands(name, s, at0, p0, q0, dotdot0);
    UpIs(s, p0);
    q, dotdot, at := GoUp(name, rooted, at0, rooted, q0, dotdot0);
    StandsAfter(name, s, at0, p0, at, p0 + 2, q, dotdot);
  }

  lemma PassSlash(name: array<Byte>, s: Text, at: Place, p: nat, q: nat, dotdot: nat)
    requires Standing(name, s, at, p, q, dotdot) && p < |s| && s[p] == SLASH
    ensures Standing(name, s, at, p + 1, q, dotdot)
  {
    Stands(name, s, at, p, q, dotdot);
    SlashConsumed(Rooted(s), at, s, p);
    StandsNow(name, s, at, p + 1, q, dotdot);
  }

  lemma PassDot(name: array<Byte>, s: Text, at: Place, p: nat, q: nat, dotdot: nat)
    requires Standing(name, s, at, p, q, dotdot) && p < |s| && IsDot(s, p)
    ensures Standing(name, s, at, p + 1, q, dotdot)
  {
    Stands(name, s, at, p, q, dotdot);
    DotIs(s, p);
    StandsAfter(name, s, at, p, at, p + 1, q, dotdot);
  }

  /** One round of the loop. */
  method Next(name: array<Byte>, ghost s: Text, rooted: bool, ghost at0: Place, p0: nat, q0: nat, dotdot0: nat)
      returns (p: nat, q: nat, dotdot: nat, ghost at: Place)
    requires Standing(name, s, at0, p0, q0, dotdot0) && rooted == Rooted(s) && p0 < |s|
    modifies name
    ensures p0 < p && Standing(name, s, at, p, q, dotdot)
    ensures forall i :: |s| < i < name.Length ==> name[i] == old(name[i])
  {
    p, q, dotdot, at := p0, q0, dotdot0, at0;
    var slash, dot, up := Look(name, s, p);
    if slash {
      PassSlash(name, s, at, p, q, dotdot);
      p := p + 1;
    } else if dot {
      PassDot(name, s, at, p, q, dotdot);
      p := p + 1;
    } else if up {
      p := p + 2;
      q, dotdot, at := TakeUp(name, s, rooted, at0, p0, q, dotdot);
    } else {
      ghost var n := NameAt(s, p);
      p, q := TakeName(name, s, rooted, at0, p, q, dotdot, n);
      at := at0 + [s[p0..n]];
    }
  }

  lemma WalkBegins(s: Text, base: nat)
    requires base == |Root(Rooted(s))|
    ensures base <= |s| && s[..base] == Root(Rooted(s))
    ensures Walk(Rooted(s), [], s[base..]) == Leads(s)
  {
    if Rooted(s) {
      WalkSlash(true, [], s);
    } else {
      assert s[0..] == s;
    }
  }

  lemma Begins(name: array<Byte>, s: Text, base: nat)
    requires Holds(name, s) && base == |Root(Rooted(s))|
    ensures Standing(name, s, [], base, base, base)
  {
    WalkBegins(s, base);
    SliceAgain(name[..], |s|, base);
    assert name[..][..|s|] == name[..|s|] && name[..][..base] == name[..base];
    StandsNow(name, s, [], base, base, base);
  }

  /** The empty text becomes ".", and the text is ended. */
  method Finish(name: array<Byte>, ghost s: Text, ghost at: Place, q0: nat, ghost dotdot: nat)
    requires Standing(name, s, at, |s|, q0, dotdot) && (s == [] ==> name.Length >= 2)
    modifies name
    ensures Holds(name, Clean(s))
    ensures forall i :: |s| < i < name.Length && 1 < i ==> name[i] == old(name[i])
  {
    var q := q0;
    Stands(name, s, at, |s|, q0, dotdot);
    WalkEnds(Rooted(s), at);
    assert s[|s|..] == [];
    CleanWithout(s, NUL);
    if q == 0 {
      name[q] := DOT;
      q := q + 1;
    }
    name[q] := NUL;
    assert name[..q] == Clean(s);
  }

  lemma WalkEnds(rooted: bool, at: Place)
    ensures Walk(rooted, at, []) == at
  {
  }

  /** The whole rewriting: the buffer ends up holding the clean form of what it held. */
  method CleanName(name: array<Byte>, ghost s: Text)
    requires Holds(name, s)
    requires s == [] ==> name.Length >= 2
    modifies name
    ensures Holds(name, Clean(s))
    ensures forall i :: |s| < i < name.Length && 1 < i ==> name[i] == old(name[i])
  {
    var rooted := name[0] == SLASH;
    assert s != [] ==> name[0] == name[..|s|][0];
    var p: nat := if rooted then 1 else 0;
    var q: nat, dotdot: nat := p, p;
    ghost var at: Place := [];
    Begins(name, s, p);
    while name[p] != NUL
      invariant Standing(name, s, at, p, q, dotdot)
      invariant forall i :: |s| < i < name.Length ==> name[i] == old(name[i])
      decreases |s| - p
    {
      p, q, dotdot, at := Next(name, s, rooted, at, p, q, dotdot);
    }
    Finish(name, s, at, q, dotdot);
  }
}
