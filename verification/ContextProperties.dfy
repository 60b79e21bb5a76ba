/** What the context package promises, over all interleavings: cancellation reaches every
    registered descendant, causes never change, no deadlock is reachable, no timer is left behind,
    and a deadline is the earliest one asked for on the way to the root. */
module ContextProperties {
  import opened Options
  import opened ContextTree
  import opened ContextInvariant
  import opened ContextSteps
  import opened ContextRuns
  import opened ContextAncestry

  // ---------------------------------------------------------------- cancellation reaches

  /** Everything registered below a settled context is settled. */
  lemma {:induction false} SettledBelow(s: State, c: nat, x: nat)
    requires Inv(s) && c < |s.nodes| && Settled(s.nodes[c]) && x < |s.nodes| && Reaches(s.nodes, c, x)
    ensures ErrOf(s.nodes, x).Some? && (Cancels(s.nodes[x]) ==> Settled(s.nodes[x]))
    decreases x
  {
    assert NodeOk(s.nodes[c]);
    if x != c {
      var parent := s.nodes[x].parent;
      if s.nodes[x].kind.ValueCtx? {
        SettledBelow(s, c, parent);
      } else {
        ReachesUp(s.nodes, c, parent);
        SettledBelow(s, c, s.nodes[x].up.value);
        assert Linked(s.nodes, x);
      }
    }
  }

  /** When cancel(c, e) returns, c and everything registered below it are done. */
  lemma CancelReaches(s: State, t: nat, x: nat)
    requires Inv(s) && t < |s.threads| && s.threads[t].Cancelling? && s.threads[t].pc.Done?
    requires x < |s.nodes| && Reaches(s.nodes, s.threads[t].cur, x)
    ensures ErrOf(s.nodes, x).Some?
    ensures Cancels(s.nodes[x]) ==> s.nodes[x].err.Some? && s.nodes[x].closes == 1 && Settled(s.nodes[x])
  {
    InvReady(s, t);
    ReadyThread(s.nodes, t, s.threads[t]);
    SettledBelow(s, s.threads[t].cur, x);
    ClosedOnce(s, x);
  }

  // ---------------------------------------------------------------- causes

  lemma LocalEvolves(s: State, t: nat, child: nat, late: bool)
    requires Inv(s) && Enabled(s, t, Go(child, late))
    ensures Evolves(s.nodes, Next(s, t, Go(child, late)).nodes, t)
  {
    var th := s.threads[t];
    var w := Wants(s.nodes, th);
    InvReady(s, t);
    if w.Some? {
      AcquireOk(s.nodes, t, th, w.value);
    } else {
      LocalOk(s.nodes, t, th, child, late);
    }
  }

  /** Once set, a cause never changes, and a settled context stays settled. */
  lemma CauseSticks(s: State, t: nat, a: Action, n: nat)
    requires Inv(s) && Enabled(s, t, a) && n < |s.nodes| && s.nodes[n].err.Some?
    ensures n < |Next(s, t, a).nodes| && Next(s, t, a).nodes[n].err == s.nodes[n].err
    ensures Settled(s.nodes[n]) ==> Settled(Next(s, t, a).nodes[n])
  {
    if a.Go? {
      LocalEvolves(s, t, a.child, a.late);
      assert Owned(s.nodes[n], Next(s, t, a).nodes[n], t);
    }
  }

  lemma {:induction false} CauseSticksForever(s: State, es: seq<Event>, n: nat)
    requires Inv(s) && Possible(s, es) && n < |s.nodes| && s.nodes[n].err.Some?
    ensures n < |After(s, es).nodes| && After(s, es).nodes[n].err == s.nodes[n].err
    ensures Settled(s.nodes[n]) ==> Settled(After(s, es).nodes[n])
    decreases |es|
  {
    if es != [] {
      CauseSticks(s, es[0].t, es[0].a, n);
      NextKeeps(s, es[0].t, es[0].a);
      CauseSticksForever(Next(s, es[0].t, es[0].a), es[1..], n);
    }
  }

  lemma CauseOfCancelStep(nodes: seq<Node>, th: Thread, child: nat, n: nat)
    requires th.Cancelling? && Wants(nodes, th).None? && Indexed(nodes, th) && n < |nodes| && nodes[n].err.None?
    ensures var (b, th') := CancelStep(nodes, th, child);
      n < |b| && (b[n].err.Some? ==> th.cur == n && b[n].err == Some(th.err) && th'.Cancelling? && th'.err == th.err)
  {
  }

  /** A context that a step cancels gets the cause of the cancel that the thread is in. */
  lemma CauseOfStep(s: State, t: nat, a: Action, n: nat)
    requires Inv(s) && Enabled(s, t, a) && n < |s.nodes| && s.nodes[n].err.None?
    ensures var s' := Next(s, t, a);
      n < |s'.nodes| && (s'.nodes[n].err.Some? ==>
        && s.threads[t].Cancelling? && s.threads[t].cur == n && s'.nodes[n].err == Some(s.threads[t].err)
        && s'.threads[t].Cancelling? && s'.threads[t].err == s.threads[t].err)
  {
    if a.Go? { CauseOfGo(s, t, a.child, a.late, n); }
  }

  lemma CauseOfGo(s: State, t: nat, child: nat, late: bool, n: nat)
    requires Enabled(s, t, Go(child, late)) && n < |s.nodes| && s.nodes[n].err.None?
    ensures var s' := Next(s, t, Go(child, late));
      n < |s'.nodes| && (s'.nodes[n].err.Some? ==>
        && s.threads[t].Cancelling? && s.threads[t].cur == n && s'.nodes[n].err == Some(s.threads[t].err)
        && s'.threads[t].Cancelling? && s'.threads[t].err == s.threads[t].err)
  {
    var th := s.threads[t];
    if Wants(s.nodes, th).None? && th.Cancelling? {
      CauseOfCancelStep(s.nodes, th, child, n);
    }
  }

  // ---------------------------------------------------------------- locks

  /** Locks are only acquired going down the tree. */
  lemma LocksGoDown(s: State, t: nat, n: nat, w: nat)
    requires Inv(s) && t < |s.threads| && n < |s.nodes| && s.nodes[n].lock == Some(t)
    requires Wants(s.nodes, s.threads[t]) == Some(w)
    ensures n < w
  {
    var th := s.threads[t];
    InvReady(s, t);
    ReadyAt(s.nodes, t, th, n);
    ReadyThread(s.nodes, t, th);
    if th.Cancelling? {
      HeldAbove(s.nodes, t, th);
    }
  }

  lemma WantedExists(s: State, t: nat)
    requires Inv(s) && t < |s.threads|
    ensures Indexed(s.nodes, s.threads[t])
    ensures var w := Wants(s.nodes, s.threads[t]); w.Some? ==> w.value < |s.nodes|
  {
    var th := s.threads[t];
    InvReady(s, t);
    ReadyThread(s.nodes, t, th);
    match th
    case Cancelling(_, path, cur, _, _) =>
      ReadyAt(s.nodes, t, th, cur);
      forall i: nat | i < |path| ensures path[i] < |s.nodes| {
        assert ChainLink(s.nodes, th.err, path[i], Below(path, cur, i));
      }
    case Registering(c, _, _) => ReadyAt(s.nodes, t, th, c);
    case Unlocking(c, _) => ReadyAt(s.nodes, t, th, c);
    case _ =>
  }

  lemma FreeToGo(s: State, t: nat) returns (child: nat)
    requires Inv(s) && t < |s.threads| && !s.threads[t].Idle? && Wants(s.nodes, s.threads[t]).None?
    ensures Enabled(s, t, Go(child, false))
  {
    WantedExists(s, t);
    var th := s.threads[t];
    child := 0;
    if th.Cancelling? && th.pc.Visiting? && s.nodes[th.cur].loop.Loop? && s.nodes[th.cur].loop.rem != {} {
      child :| child in s.nodes[th.cur].loop.rem;
    }
  }

  /** No deadlock is reachable: whenever a thread is inside the package, some thread inside the
      package can step. The one that holds what is waited for waits, if at all, further down. */
  lemma {:induction false} NoDeadlock(s: State, t: nat) returns (u: nat, child: nat)
    requires Inv(s) && t < |s.threads| && !s.threads[t].Idle?
    ensures u < |s.threads| && !s.threads[u].Idle? && Enabled(s, u, Go(child, false))
    decreases var w := Wants(s.nodes, s.threads[t]); if w.None? || w.value > |s.nodes| then 0 else |s.nodes| - w.value
  {
    WantedExists(s, t);
    var w := Wants(s.nodes, s.threads[t]);
    if w.None? {
      u := t;
      child := FreeToGo(s, t);
    } else if s.nodes[w.value].lock.None? {
      u, child := t, 0;
    } else {
      var h := s.nodes[w.value].lock.value;
      HolderBusy(s, w.value, h);
      WantedExists(s, h);
      if Wants(s.nodes, s.threads[h]).None? {
        u := h;
        child := FreeToGo(s, h);
      } else {
        LocksGoDown(s, h, w.value, Wants(s.nodes, s.threads[h]).value);
        u, child := NoDeadlock(s, h);
      }
    }
  }

  lemma HolderBusy(s: State, n: nat, h: nat)
    requires Inv(s) && n < |s.nodes| && s.nodes[n].lock == Some(h)
    ensures h < |s.threads| && !s.threads[h].Idle?
  {
    InvReady(s, h);
    ReadyAt(s.nodes, h, s.threads[h], n);
  }

  // ---------------------------------------------------------------- timers

  /** A timer that is still armed on a cancelled context will be stopped: a thread is on its way. */
  lemma TimerStopped(s: State, n: nat)
    requires Inv(s) && n < |s.nodes| && s.nodes[n].err.Some?
    ensures s.nodes[n].armed ==> Stopper(s.threads, n)
  {
  }

  /** When everything is quiet, no cancelled context has an armed timer, every lock is free, and
      every context is either not cancelled or settled. */
  lemma Quiet(s: State, n: nat)
    requires Inv(s) && n < |s.nodes| && (forall t: nat :: t < |s.threads| ==> s.threads[t].Idle?)
    ensures s.nodes[n].err.Some? ==> !s.nodes[n].armed && Settled(s.nodes[n])
    ensures s.nodes[n].lock.None?
  {
    if s.nodes[n].err.Some? { TimerStopped(s, n); }
    if s.nodes[n].lock.Some? { HolderBusy(s, n, s.nodes[n].lock.value); }
    assert NodeOk(s.nodes[n]);
  }

  // ---------------------------------------------------------------- deadlines

  function Earlier(a: Option<int>, b: Option<int>): Option<int> {
    if a.None? then b else if b.None? then a else if b.value < a.value then b else a
  }

  /** The earliest deadline asked for on the path to the root. */
  function AskedMin(nodes: seq<Node>, i: nat): Option<int>
    decreases i
  {
    if i >= |nodes| || nodes[i].kind.Background? then None
    else if nodes[i].parent < i then Earlier(nodes[i].asked, AskedMin(nodes, nodes[i].parent))
    else nodes[i].asked
  }

  ghost predicate DeadlineOk(nodes: seq<Node>, i: nat) {
    DeadlineOf(nodes, i) == AskedMin(nodes, i) && TimerOk(nodes, i)
  }

  /** WithDeadline makes a timer unless an earlier deadline has been asked for above. */
  predicate TimerOk(nodes: seq<Node>, i: nat) {
    i < |nodes| && nodes[i].parent < i && nodes[i].asked.Some? ==>
      var d, above := nodes[i].asked.value, AskedMin(nodes, nodes[i].parent);
      nodes[i].kind == if above.Some? && above.value < d then CancelCtx else TimerCtx(d)
  }

  ghost predicate DeadlinesOk(nodes: seq<Node>) {
    forall i: nat :: i < |nodes| ==> DeadlineOk(nodes, i)
  }

  lemma {:induction false} DeadlineStable(a: seq<Node>, b: seq<Node>, i: nat)
    requires SameShape(a, b) && i < |a|
    ensures DeadlineOf(a, i) == DeadlineOf(b, i) && AskedMin(a, i) == AskedMin(b, i)
    decreases i
  {
    if a[i].parent < i { DeadlineStable(a, b, a[i].parent); }
  }

  lemma NextShape(s: State, t: nat, a: Action)
    requires Inv(s) && Enabled(s, t, a)
    ensures SameShape(s.nodes, Next(s, t, a).nodes)
  {
    if a.Go? {
      LocalEvolves(s, t, a.child, a.late);
      forall n: nat | n < |s.nodes| ensures Owned(s.nodes[n], Next(s, t, a).nodes[n], t) {}
    }
  }

  lemma DeadlinesKept(s: State, t: nat, a: Action)
    requires Inv(s) && Enabled(s, t, a) && DeadlinesOk(s.nodes)
    ensures DeadlinesOk(Next(s, t, a).nodes)
  {
    NextShape(s, t, a);
    if |Next(s, t, a).nodes| > |s.nodes| { NewDeadlineOk(s, t, a); }
    DeadlinesGrow(s.nodes, Next(s, t, a).nodes);
  }

  lemma DeadlinesGrow(a: seq<Node>, b: seq<Node>)
    requires SameShape(a, b) && DeadlinesOk(a) && (|b| == |a| || (|b| == |a| + 1 && DeadlineOk(b, |a|)))
    ensures DeadlinesOk(b)
  {
    forall i: nat | i < |b| ensures DeadlineOk(b, i) {
      if i < |a| {
        assert DeadlineOk(a, i);
        DeadlineStable(a, b, i);
        if a[i].parent < i { DeadlineStable(a, b, a[i].parent); }
      }
    }
  }

  lemma NewDeadlineOk(s: State, t: nat, a: Action)
    requires Inv(s) && Enabled(s, t, a) && DeadlinesOk(s.nodes) && SameShape(s.nodes, Next(s, t, a).nodes)
    requires |Next(s, t, a).nodes| > |s.nodes|
    ensures |Next(s, t, a).nodes| == |s.nodes| + 1
    ensures DeadlineOk(Next(s, t, a).nodes, |s.nodes|)
  {
    if a.Go? { LocalLength(s, t, a.child, a.late); }
    var b := Next(s, t, a).nodes;
    assert DeadlineOk(s.nodes, a.parent);
    DeadlineStable(s.nodes, b, a.parent);
  }

  lemma LocalLength(s: State, t: nat, child: nat, late: bool)
    requires Inv(s) && Enabled(s, t, Go(child, late))
    ensures |Next(s, t, Go(child, late)).nodes| == |s.nodes|
  {
    InvReady(s, t);
    var w := Wants(s.nodes, s.threads[t]);
    if w.None? { LocalOk(s.nodes, t, s.threads[t], child, late); }
  }

  lemma {:induction false} DeadlinesInRuns(s: State, es: seq<Event>)
    requires Inv(s) && DeadlinesOk(s.nodes) && Possible(s, es)
    ensures DeadlinesOk(After(s, es).nodes)
    decreases |es|
  {
    if es != [] {
      DeadlinesKept(s, es[0].t, es[0].a);
      NextKeeps(s, es[0].t, es[0].a);
      DeadlinesInRuns(Next(s, es[0].t, es[0].a), es[1..]);
    }
  }

  /** In every reachable state, a context's deadline is the minimum of all WithDeadline arguments
      on its path to the root. */
  lemma DeadlineIsMinimum(es: seq<Event>, i: nat)
    requires Possible(Initial(), es) && i < |After(Initial(), es).nodes|
    ensures DeadlineOf(After(Initial(), es).nodes, i) == AskedMin(After(Initial(), es).nodes, i)
  {
    InitialInv();
    DeadlinesInRuns(Initial(), es);
    assert DeadlineOk(After(Initial(), es).nodes, i);
  }

  /** In every reachable state, a context made by WithDeadline has a timer for the deadline asked for,
      unless an earlier one has been asked for above it. */
  lemma TimerExactly(es: seq<Event>, i: nat)
    requires Possible(Initial(), es) && 0 < i < |After(Initial(), es).nodes|
    requires After(Initial(), es).nodes[i].asked.Some?
    ensures var nodes := After(Initial(), es).nodes;
      var d, above := nodes[i].asked.value, AskedMin(nodes, nodes[i].parent);
      nodes[i].kind == if above.Some? && above.value < d then CancelCtx else TimerCtx(d)
  {
    InitialInv();
    DeadlinesInRuns(Initial(), es);
    RunKeeps(Initial(), es);
    assert DeadlineOk(After(Initial(), es).nodes, i) && Shape(After(Initial(), es).nodes);
  }
}
