/** Every step of every thread keeps the invariant. */
module ContextSteps {
  import opened Options
  import opened ContextTree
  import opened ContextInvariant

  // Ready is sealed: it is opened for one context at a time by ReadyAt.
  predicate UnlockReady(u: int) { true }

  /** What the invariant says to a thread that is about to step. */
  ghost predicate ReadyFull(u: int, a: seq<Node>, t: nat, th: Thread) {
    && NodesOk(a) && ThreadOk(a, th)
    && LocksMatch(a, t, th) && LoopsMatch(a, t, th)
  }

  ghost predicate Ready(a: seq<Node>, t: nat, th: Thread) {
    forall u: int :: UnlockReady(u) ==> ReadyFull(u, a, t, th)
  }

  lemma ReadyThread(a: seq<Node>, t: nat, th: Thread)
    requires Ready(a, t, th)
    ensures ThreadOk(a, th)
  {
    assert UnlockReady(0) && ReadyFull(0, a, t, th);
  }

  lemma ReadyAt(a: seq<Node>, t: nat, th: Thread, n: nat)
    requires Ready(a, t, th) && n < |a|
    ensures NodeOk(a[n]) && ListOk(a, n) && Linked(a, n)
    ensures a[n].up.Some? ==> a[n].up.value < n && Canceler(a[a[n].up.value])
    ensures a[n].lock == Some(t) <==> Holds(a, th, n)
    ensures a[n].loop.Loop? && a[n].lock == Some(t) ==> InLoop(th, n)
  {
    assert UnlockReady(0) && ReadyFull(0, a, t, th);
  }

  // ---------------------------------------------------------------- chains go down the tree

  lemma UpIsBelow(a: seq<Node>, x: nat, p: nat)
    requires Shape(a) && x < |a| && a[x].up == Some(p)
    ensures p < x && Canceler(a[p])
  {
  }

  /** Each context of a chain comes before the one below it. */
  predicate Rising(path: seq<nat>, cur: nat) {
    forall i: nat :: i < |path| ==> path[i] < Below(path, cur, i)
  }

  lemma ChainRises(a: seq<Node>, e: Cause, path: seq<nat>, cur: nat)
    requires Shape(a) && Chain(a, e, path, cur)
    ensures Rising(path, cur)
  {
    forall i: nat | i < |path| ensures path[i] < Below(path, cur, i) {
      assert ChainLink(a, e, path[i], Below(path, cur, i));
      UpIsBelow(a, Below(path, cur, i), path[i]);
    }
  }

  lemma {:induction false} RisesToCur(path: seq<nat>, cur: nat, i: nat)
    requires Rising(path, cur) && i < |path|
    ensures path[i] < cur
    decreases |path| - i
  {
    assert path[i] < Below(path, cur, i);
    if i + 1 < |path| { RisesToCur(path, cur, i + 1); }
  }

  lemma {:induction false} RisesFromRoot(path: seq<nat>, cur: nat, i: nat)
    requires Rising(path, cur) && i < |path|
    ensures path[0] <= path[i]
    decreases i
  {
    if i > 0 {
      RisesFromRoot(path, cur, i - 1);
      assert path[i - 1] < Below(path, cur, i - 1);
    }
  }

  /** A thread holds only locks above the context it works on. */
  lemma HeldAbove(a: seq<Node>, t: nat, th: Thread)
    requires Ready(a, t, th) && th.Cancelling?
    ensures th.cur < |a| && (th.base.Join? ==> Root(th.path, th.cur) < |a| && a[Root(th.path, th.cur)].up.Some?)
    ensures th.cur !in th.path
    ensures forall n: nat :: n in th.path ==> n < th.cur
    ensures th.base.Join? ==>
      Root(th.path, th.cur) <= th.cur && a[Root(th.path, th.cur)].up.value < Root(th.path, th.cur)
    ensures th.base.Join? ==> a[Root(th.path, th.cur)].up.value !in th.path
  {
    ReadyThread(a, t, th);
    ReadyRises(a, t, th);
    PathBelow(th.path, th.cur);
    if th.base.Join? { ReadyAt(a, t, th, Root(th.path, th.cur)); }
  }

  lemma ReadyRises(a: seq<Node>, t: nat, th: Thread)
    requires Ready(a, t, th) && th.Cancelling?
    ensures Rising(th.path, th.cur)
  {
    assert UnlockReady(0) && ReadyFull(0, a, t, th);
    ChainRises(a, th.err, th.path, th.cur);
  }

  lemma PathBelow(path: seq<nat>, cur: nat)
    requires Rising(path, cur)
    ensures Root(path, cur) <= cur && cur !in path
    ensures forall n: nat :: n in path ==> Root(path, cur) <= n < cur
  {
    forall n: nat | n in path ensures Root(path, cur) <= n < cur {
      var i: nat :| i < |path| && path[i] == n;
      RisesToCur(path, cur, i);
      RisesFromRoot(path, cur, i);
    }
    if path != [] { RisesToCur(path, cur, 0); }
  }

  // ---------------------------------------------------------------- changing one context

  lemma ShapeKept(a: seq<Node>, b: seq<Node>)
    requires Shape(a) && SameShape(a, b) && |a| == |b|
    ensures Shape(b)
  {
    forall i: nat | 0 < i < |b| ensures b[i].up == ParentCancelCtx(b, b[i].parent) {
      ParentStable(a, b, a[i].parent);
    }
  }

  lemma OneChanged(a: seq<Node>, m: nat, n: Node)
    requires NodesOk(a) && m < |a|
    requires n.kind == a[m].kind && n.parent == a[m].parent && n.up == a[m].up && n.asked == a[m].asked
    requires NodeOk(n) && ListOk(a[m := n], m) && Linked(a[m := n], m)
    requires forall x: nat :: x < |a| && a[x].up == Some(m) && a[x].registered ==> Accounted(n, x, a[x])
    ensures NodesOk(a[m := n])
  {
    var b := a[m := n];
    ShapeKept(a, b);
    forall p: nat | p < |b| ensures ListOk(b, p) {
      assert ListOk(a, p);
    }
    forall x: nat | x < |b| ensures Linked(b, x) {
      assert Linked(a, x);
      if x != m && b[x].up == Some(m) { assert a[x].up == Some(m); }
    }
  }

  // ---------------------------------------------------------------- one step

  lemma OneStep(a: seq<Node>, t: nat, th: Thread, m: nat, n: Node, th': Thread)
    requires Ready(a, t, th) && m < |a| && Owned(a[m], n, t)
    requires NodeOk(n) && ListOk(a[m := n], m) && Linked(a[m := n], m) && ThreadOk(a[m := n], th')
    requires forall x: nat :: x < |a| && a[x].up == Some(m) && a[x].registered ==> Accounted(n, x, a[x])
    requires forall k: nat :: k < |a| ==>
      (Holds(a[m := n], th', k) <==> if k == m then n.lock == Some(t) else Holds(a, th, k))
    requires forall k: nat :: k != m && InLoop(th, k) ==> InLoop(th', k)
    requires n.loop.Loop? && n.lock == Some(t) ==> InLoop(th', m)
    requires forall k: nat :: k < |a| && k != m && a[k].armed && WillStop(th, k) ==> WillStop(th', k)
    requires n.armed && n.err.Some? ==> WillStop(th', m) || (a[m].armed && a[m].err.Some? && !WillStop(th, m))
    ensures StepOk(a, a[m := n], t, th, th')
  {
    StepNodes(a, t, th, m, n);
    StepLocks(a, t, th, m, n, th');
    StepLoops(a, t, th, m, n, th');
  }

  lemma StepNodes(a: seq<Node>, t: nat, th: Thread, m: nat, n: Node)
    requires Ready(a, t, th) && m < |a| && Owned(a[m], n, t)
    requires NodeOk(n) && ListOk(a[m := n], m) && Linked(a[m := n], m)
    requires forall x: nat :: x < |a| && a[x].up == Some(m) && a[x].registered ==> Accounted(n, x, a[x])
    ensures NodesOk(a[m := n]) && Evolves(a, a[m := n], t)
  {
    assert UnlockReady(0) && ReadyFull(0, a, t, th);
    OneChanged(a, m, n);
    Unchanged(a, m, n, t);
  }

  lemma StepLocks(a: seq<Node>, t: nat, th: Thread, m: nat, n: Node, th': Thread)
    requires Ready(a, t, th) && m < |a|
    requires forall k: nat :: k < |a| ==>
      (Holds(a[m := n], th', k) <==> if k == m then n.lock == Some(t) else Holds(a, th, k))
    ensures LocksMatch(a[m := n], t, th')
  {
    var b := a[m := n];
    forall k: nat | k < |b| ensures b[k].lock == Some(t) <==> Holds(b, th', k) {
      ReadyAt(a, t, th, k);
    }
  }

  lemma StepLoops(a: seq<Node>, t: nat, th: Thread, m: nat, n: Node, th': Thread)
    requires Ready(a, t, th) && m < |a|
    requires forall k: nat :: k != m && InLoop(th, k) ==> InLoop(th', k)
    requires n.loop.Loop? && n.lock == Some(t) ==> InLoop(th', m)
    ensures LoopsMatch(a[m := n], t, th')
  {
    var b := a[m := n];
    forall k: nat | k < |b| && b[k].loop.Loop? && b[k].lock == Some(t) ensures InLoop(th', k) {
      if k != m { ReadyAt(a, t, th, k); }
    }
  }

  lemma Unchanged(a: seq<Node>, m: nat, n: Node, t: nat)
    requires m < |a| && Owned(a[m], n, t) && forall k: nat :: k < |a| ==> NodeOk(a[k])
    ensures Evolves(a, a[m := n], t)
  {
  }

  /** A step that changes only lock, timer and thread. */
  lemma TouchStep(a: seq<Node>, t: nat, th: Thread, m: nat, n: Node, th': Thread)
    requires Ready(a, t, th) && m < |a| && Owned(a[m], n, t) && NodeOk(n) && ThreadOk(a[m := n], th')
    requires n.children == a[m].children && n.loop == a[m].loop && n.err == a[m].err && n.registered == a[m].registered
    requires forall k: nat :: k < |a| ==>
      (Holds(a[m := n], th', k) <==> if k == m then n.lock == Some(t) else Holds(a, th, k))
    requires forall k: nat :: k != m && InLoop(th, k) ==> InLoop(th', k)
    requires n.loop.Loop? && n.lock == Some(t) ==> InLoop(th', m)
    requires forall k: nat :: k < |a| && k != m && a[k].armed && WillStop(th, k) ==> WillStop(th', k)
    requires n.armed && n.err.Some? ==> WillStop(th', m) || (a[m].armed && a[m].err.Some? && !WillStop(th, m))
    ensures StepOk(a, a[m := n], t, th, th')
  {
    ReadyAt(a, t, th, m);
    forall x: nat | x < |a| && a[x].up == Some(m) && a[x].registered ensures Accounted(n, x, a[x]) {
      ReadyAt(a, t, th, x);
    }
    OneStep(a, t, th, m, n, th');
  }

  /** A step that changes no context. */
  lemma NoStep(a: seq<Node>, t: nat, th: Thread, th': Thread)
    requires Ready(a, t, th) && ThreadOk(a, th')
    requires forall k: nat :: k < |a| ==> (Holds(a, th', k) <==> Holds(a, th, k))
    requires forall k: nat :: InLoop(th, k) ==> InLoop(th', k)
    requires forall k: nat :: WillStop(th, k) ==> WillStop(th', k)
    ensures StepOk(a, a, t, th, th')
  {
    assert UnlockReady(0) && ReadyFull(0, a, t, th);
  }

  /** The chain of a thread is untouched by a change of a context that is not on it. */
  lemma ChainKept(a: seq<Node>, th: Thread, m: nat, n: Node, t: nat)
    requires ThreadOk(a, th) && th.Cancelling? && m < |a| && Owned(a[m], n, t)
    requires m !in th.path || n.loop == a[m].loop
    ensures Chain(a[m := n], th.err, th.path, th.cur)
    ensures th.base.Join? ==> JoinOk(a[m := n], th.err, Root(th.path, th.cur), th.base.timed)
  {
    forall i: nat | i < |th.path| ensures ChainLink(a[m := n], th.err, th.path[i], Below(th.path, th.cur, i)) {
      assert ChainLink(a, th.err, th.path[i], Below(th.path, th.cur, i));
    }
  }

  // ---------------------------------------------------------------- waiting for a lock

  lemma AcquireOk(a: seq<Node>, t: nat, th: Thread, w: nat)
    requires Ready(a, t, th) && Wants(a, th) == Some(w) && w < |a| && a[w].lock.None?
    ensures StepOk(a, WithLock(a, w, Some(t)), t, th, Acquired(th))
  {
    var n := a[w].(lock := Some(t));
    ReadyThread(a, t, th);
    ReadyAt(a, t, th, w);
    WantsCanceler(a, t, th, w);
    AcquiredOk(a, t, th, w);
    AcquiredHolds(a, t, th, w);
    TouchStep(a, t, th, w, n, Acquired(th));
  }

  lemma WantsCanceler(a: seq<Node>, t: nat, th: Thread, w: nat)
    requires Ready(a, t, th) && Wants(a, th) == Some(w) && w < |a|
    ensures Canceler(a[w])
  {
    ReadyThread(a, t, th);
    if th.Cancelling? { ReadyAt(a, t, th, th.cur); }
    if th.Registering? { ReadyAt(a, t, th, th.c); }
  }

  lemma AcquiredHolds(a: seq<Node>, t: nat, th: Thread, w: nat)
    requires ThreadOk(a, th) && Wants(a, th) == Some(w) && w < |a|
    ensures forall k: nat :: k < |a| ==>
      (Holds(a[w := a[w].(lock := Some(t))], Acquired(th), k) <==> k == w || Holds(a, th, k))
  {
    var b := a[w := a[w].(lock := Some(t))];
    assert forall i: nat :: i < |a| ==> b[i].up == a[i].up;
    forall k: nat | k < |a| ensures Holds(b, Acquired(th), k) <==> k == w || Holds(a, th, k) {
      if th.Cancelling? {
        assert a[th.cur].up == b[th.cur].up;
      }
    }
  }

  lemma AcquiredOk(a: seq<Node>, t: nat, th: Thread, w: nat)
    requires ThreadOk(a, th) && Wants(a, th) == Some(w) && w < |a| && a[w].lock.None? && NodeOk(a[w])
    ensures ThreadOk(a[w := a[w].(lock := Some(t))], Acquired(th))
  {
    if th.Cancelling? {
      ChainKept(a, th, w, a[w].(lock := Some(t)), t);
    }
  }

  // ---------------------------------------------------------------- steps inside a cancel

  lemma FoundCancelled(a: seq<Node>, t: nat, th: Thread)
    requires Ready(a, t, th) && th.Cancelling? && th.pc.HaveSelf? && th.cur < |a| && a[th.cur].err.Some?
    ensures StepOk(a, a[th.cur := a[th.cur].(lock := None)], t, th, th.(pc := AfterUnlock(a[th.cur], th, true)))
  {
    var c, n, th' := th.cur, a[th.cur].(lock := None), th.(pc := AfterUnlock(a[th.cur], th, true));
    ReadyThread(a, t, th);
    ReadyAt(a, t, th, c);
    HeldAbove(a, t, th);
    ChainKept(a, th, c, n, t);
    Released(a, th, c, n, th');
    TouchStep(a, t, th, c, n, th');
  }

  /** A thread that leaves cur keeps the locks of its chain. */
  lemma Released(a: seq<Node>, th: Thread, c: nat, n: Node, th': Thread)
    requires th.Cancelling? && th.cur == c < |a| && n.up == a[c].up && c !in th.path
    requires !th.pc.HaveParent? && !th.pc.WantSelf? && th.pc != Done
    requires th'.Cancelling? && th' == th.(pc := th'.pc) && (th'.pc.WantParent? || th'.pc.WantTimer? || th'.pc.Done?)
    requires th.base.Join? ==>
      Root(th.path, c) < |a| && a[Root(th.path, c)].up.Some? && a[Root(th.path, c)].up.value < c
    ensures forall k: nat :: k < |a| ==> (Holds(a[c := n], th', k) <==> k != c && Holds(a, th, k))
  {
    var root := Root(th.path, c);
    if th.base.Join? { assert a[c := n][root].up == a[root].up; }
    forall k: nat | k < |a| ensures Holds(a[c := n], th', k) <==> k != c && Holds(a, th, k) {
      assert k == c ==> k !in th.path;
    }
  }

  lemma BeganOk(a: seq<Node>, t: nat, th: Thread)
    requires Ready(a, t, th) && th.Cancelling? && th.pc.HaveSelf? && th.cur < |a| && a[th.cur].err.None?
    ensures StepOk(a, a[th.cur := Began(a[th.cur], th.err)], t, th, th.(pc := Visiting))
  {
    var c, n, th' := th.cur, Began(a[th.cur], th.err), th.(pc := Visiting);
    ReadyThread(a, t, th);
    ReadyAt(a, t, th, c);
    HeldAbove(a, t, th);
    forall x: nat | x < |a| && a[x].up == Some(c) && a[x].registered ensures Accounted(n, x, a[x]) {
      ReadyAt(a, t, th, x);
    }
    ChainKept(a, th, c, n, t);
    StillHolds(a, th, c, n, th');
    OneStep(a, t, th, c, n, th');
  }

  lemma StillHolds(a: seq<Node>, th: Thread, c: nat, n: Node, th': Thread)
    requires th.Cancelling? && th.cur == c < |a| && n.up == a[c].up && n.lock == a[c].lock
    requires th.pc.HaveSelf? && th' == th.(pc := Visiting)
    ensures forall k: nat :: k < |a| ==> (Holds(a[c := n], th', k) <==> Holds(a, th, k))
  {
  }

  lemma VisitOk(a: seq<Node>, t: nat, th: Thread, x: nat)
    requires Ready(a, t, th) && th.Cancelling? && th.pc.Visiting? && th.cur < |a|
    requires a[th.cur].loop.Loop? && x in a[th.cur].loop.rem
    ensures var n := a[th.cur];
      StepOk(a, a[th.cur := n.(loop := Loop(n.loop.rem - {x}, Some(x)))], t, th,
             th.(path := th.path + [th.cur], cur := x, pc := WantSelf))
  {
    var c := th.cur;
    var n := a[c].(loop := Loop(a[c].loop.rem - {x}, Some(x)));
    var th' := th.(path := th.path + [c], cur := x, pc := WantSelf);
    ReadyThread(a, t, th);
    ReadyAt(a, t, th, c);
    HeldAbove(a, t, th);
    forall y: nat | y < |a| && a[y].up == Some(c) && a[y].registered ensures Accounted(n, y, a[y]) {
      ReadyAt(a, t, th, y);
    }
    ReadyAt(a, t, th, x);
    ChainLonger(a, t, th, x, n);
    OneStep(a, t, th, c, n, th');
  }

  lemma ChainLonger(a: seq<Node>, t: nat, th: Thread, x: nat, n: Node)
    requires ThreadOk(a, th) && th.Cancelling? && th.pc.Visiting? && th.cur !in th.path && Owned(a[th.cur], n, t)
    requires x < |a| && a[x].up == Some(th.cur) && Canceler(a[x]) && x != th.cur
    requires n.loop.Loop? && n.loop.current == Some(x)
    ensures var th' := th.(path := th.path + [th.cur], cur := x, pc := WantSelf);
      && ThreadOk(a[th.cur := n], th')
      && (forall k: nat :: k < |a| ==> (Holds(a[th.cur := n], th', k) <==> Holds(a, th, k)))
      && (forall k: nat :: InLoop(th, k) ==> InLoop(th', k))
      && (forall k: nat :: WillStop(th, k) ==> WillStop(th', k))
  {
    var c := th.cur;
    var b, path := a[c := n], th.path + [c];
    ChainKept(a, th, c, n, t);
    forall i: nat | i < |path| ensures ChainLink(b, th.err, path[i], Below(path, x, i)) {
      if i < |th.path| {
        assert ChainLink(b, th.err, th.path[i], Below(th.path, c, i));
      }
    }
    assert Root(path, x) == Root(th.path, c);
  }

  lemma FinishedOk(a: seq<Node>, t: nat, th: Thread)
    requires Ready(a, t, th) && th.Cancelling? && th.pc.Visiting? && th.cur < |a|
    requires a[th.cur].loop.Loop? && a[th.cur].loop.rem == {}
    ensures StepOk(a, a[th.cur := Finished(a[th.cur])], t, th, th.(pc := AfterUnlock(a[th.cur], th, false)))
  {
    var c, n, th' := th.cur, Finished(a[th.cur]), th.(pc := AfterUnlock(a[th.cur], th, false));
    ReadyThread(a, t, th);
    ReadyAt(a, t, th, c);
    HeldAbove(a, t, th);
    forall y: nat | y < |a| && a[y].up == Some(c) && a[y].registered ensures Accounted(n, y, a[y]) {
      ReadyAt(a, t, th, y);
    }
    ChainKept(a, th, c, n, t);
    Released(a, th, c, n, th');
    OneStep(a, t, th, c, n, th');
  }

  lemma RemovedOk(a: seq<Node>, t: nat, th: Thread)
    requires Ready(a, t, th) && th.Cancelling? && th.pc.HaveParent? && th.cur < |a| && a[th.cur].up.Some?
    ensures var p := a[th.cur].up.value;
      p < |a| && StepOk(a, a[p := a[p].(children := a[p].children - {th.cur}, lock := None)], t, th,
                        th.(pc := if a[th.cur].kind.TimerCtx? then WantTimer else Done))
  {
    var c, p := th.cur, a[th.cur].up.value;
    ReadyThread(a, t, th);
    ReadyAt(a, t, th, c);
    ReadyAt(a, t, th, p);
    var n := a[p].(children := a[p].children - {c}, lock := None);
    var th' := th.(pc := if a[c].kind.TimerCtx? then WantTimer else Done);
    forall x: nat | x < |a| && a[x].up == Some(p) && a[x].registered ensures Accounted(n, x, a[x]) {
      ReadyAt(a, t, th, x);
    }
    ChainKept(a, th, p, n, t);
    OneStep(a, t, th, p, n, th');
  }

  lemma StoppedOk(a: seq<Node>, t: nat, th: Thread)
    requires Ready(a, t, th) && th.Cancelling? && th.pc.HaveTimer? && th.cur < |a|
    ensures StepOk(a, a[th.cur := a[th.cur].(armed := false, lock := None)], t, th, th.(pc := Done))
  {
    var c, n, th' := th.cur, a[th.cur].(armed := false, lock := None), th.(pc := Done);
    ReadyThread(a, t, th);
    ReadyAt(a, t, th, c);
    HeldAbove(a, t, th);
    ChainKept(a, th, c, n, t);
    Released(a, th, c, n, th');
    TouchStep(a, t, th, c, n, th');
  }

  lemma ReturnOk(a: seq<Node>, t: nat, th: Thread)
    requires Ready(a, t, th) && th.Cancelling? && th.pc.Done? && th.path == []
    ensures StepOk(a, a, t, th, match th.base case Call => Idle case Join(timed) => Unlocking(th.cur, timed))
  {
    ReadyThread(a, t, th);
    NoStep(a, t, th, match th.base case Call => Idle case Join(timed) => Unlocking(th.cur, timed));
  }

  lemma BackOk(a: seq<Node>, t: nat, th: Thread)
    requires Ready(a, t, th) && th.Cancelling? && th.pc.Done? && th.path != []
    ensures var q := th.path[|th.path| - 1];
      q < |a| && StepOk(a, a[q := Back(a[q])], t, th, th.(path := th.path[..|th.path| - 1], cur := q, pc := Visiting))
  {
    var q, c := th.path[|th.path| - 1], th.cur;
    ReadyThread(a, t, th);
    assert ChainLink(a, th.err, q, Below(th.path, c, |th.path| - 1));
    ReadyAt(a, t, th, c);
    ReadyAt(a, t, th, q);
    var n, th' := Back(a[q]), th.(path := th.path[..|th.path| - 1], cur := q, pc := Visiting);
    forall x: nat | x < |a| && a[x].up == Some(q) && a[x].registered ensures Accounted(n, x, a[x]) {
      ReadyAt(a, t, th, x);
    }
    LastNotBefore(a, t, th);
    ChainShorter(a, t, th, n);
    OneStep(a, t, th, q, n, th');
  }

  lemma LastNotBefore(a: seq<Node>, t: nat, th: Thread)
    requires Ready(a, t, th) && th.Cancelling? && th.path != []
    ensures th.path[|th.path| - 1] !in th.path[..|th.path| - 1]
  {
    ReadyRises(a, t, th);
    RisingInit(th.path, th.cur);
    PathBelow(th.path[..|th.path| - 1], th.path[|th.path| - 1]);
  }

  lemma RisingInit(path: seq<nat>, cur: nat)
    requires Rising(path, cur) && path != []
    ensures Rising(path[..|path| - 1], path[|path| - 1])
  {
    var k := |path| - 1;
    var init, q := path[..k], path[k];
    forall i: nat | i < k ensures init[i] < Below(init, q, i) {
      assert path[i] < Below(path, cur, i);
    }
  }

  lemma ChainShorter(a: seq<Node>, t: nat, th: Thread, n: Node)
    requires ThreadOk(a, th) && th.Cancelling? && th.pc.Done? && th.path != []
    requires th.path[|th.path| - 1] < |a| && th.path[|th.path| - 1] !in th.path[..|th.path| - 1]
    requires Canceler(a[th.path[|th.path| - 1]])
    requires n == Back(a[th.path[|th.path| - 1]]) && Owned(a[th.path[|th.path| - 1]], n, t)
    ensures var q := th.path[|th.path| - 1];
      var th' := th.(path := th.path[..|th.path| - 1], cur := q, pc := Visiting);
      && ThreadOk(a[q := n], th')
      && (forall k: nat :: k < |a| ==> (Holds(a[q := n], th', k) <==> Holds(a, th, k)))
      && (forall k: nat :: InLoop(th, k) ==> InLoop(th', k))
      && (forall k: nat :: WillStop(th, k) ==> WillStop(th', k))
  {
    var k := |th.path| - 1;
    var q, init := th.path[k], th.path[..k];
    assert ChainLink(a, th.err, q, Below(th.path, th.cur, k));
    forall i: nat | i < k ensures ChainLink(a[q := n], th.err, init[i], Below(init, q, i)) {
      assert ChainLink(a, th.err, th.path[i], Below(th.path, th.cur, i));
    }
    assert Root(init, q) == Root(th.path, th.cur);
    assert th.path == init + [q];
  }
}
