/** Runs of the context package: every reachable state keeps the invariant, and what follows from it. */
module ContextRuns {
  import opened Options
  import opened ContextTree
  import opened ContextInvariant
  import opened ContextSteps

  // ---------------------------------------------------------------- registration and timers

  /** Marking a context as registered, once its parent accounts for it. */
  lemma MarkStep(a: seq<Node>, b: seq<Node>, t: nat, th: Thread, th': Thread, c: nat)
    requires StepOk(a, b, t, th, th') && c < |b| && b[c].up.Some? && b[c].up.value < |b| && b[c].up.value != c
    requires Accounted(b[b[c].up.value], c, b[c]) && !th'.Cancelling?
    ensures StepOk(a, b[c := b[c].(registered := true)], t, th, th')
  {
    MarkNodes(b, c);
    MarkEvolves(a, b, t, c);
    MarkLocks(b, t, th', c);
  }

  lemma MarkNodes(b: seq<Node>, c: nat)
    requires NodesOk(b) && c < |b| && b[c].up.Some? && b[c].up.value < |b| && b[c].up.value != c
    requires Accounted(b[b[c].up.value], c, b[c])
    ensures NodesOk(b[c := b[c].(registered := true)])
  {
    var n := b[c].(registered := true);
    assert NodeOk(b[c]) && ListOk(b, c) && Linked(b, c);
    forall x: nat | x < |b| && b[x].up == Some(c) && b[x].registered ensures Accounted(n, x, b[x]) {
      assert Linked(b, x);
    }
    OneChanged(b, c, n);
  }

  lemma MarkEvolves(a: seq<Node>, b: seq<Node>, t: nat, c: nat)
    requires Evolves(a, b, t) && c < |b|
    ensures Evolves(a, b[c := b[c].(registered := true)], t)
  {
    var d := b[c := b[c].(registered := true)];
    forall k: nat | k < |a| ensures Owned(a[k], d[k], t) {
      assert Owned(a[k], b[k], t);
    }
  }

  lemma MarkLocks(b: seq<Node>, t: nat, th: Thread, c: nat)
    requires LocksMatch(b, t, th) && LoopsMatch(b, t, th) && ThreadOk(b, th) && !th.Cancelling? && c < |b|
    ensures var d := b[c := b[c].(registered := true)];
      LocksMatch(d, t, th) && LoopsMatch(d, t, th) && ThreadOk(d, th)
  {
    var d := b[c := b[c].(registered := true)];
    forall k: nat | k < |d| ensures d[k].lock == Some(t) <==> Holds(d, th, k) {
      assert b[k].lock == Some(t) <==> Holds(b, th, k);
    }
  }

  lemma JoinedStep(a: seq<Node>, t: nat, th: Thread)
    requires Ready(a, t, th) && th.Registering? && th.locked && th.c < |a| && a[th.c].up.Some? && a[th.c].up.value < |a|
    requires a[a[th.c].up.value].err.None?
    ensures StepOk(a, Joined(a, a[th.c].up.value, th.c), t, th, AfterRegistration(th.c, th.timed))
  {
    var c, p, th' := th.c, a[th.c].up.value, AfterRegistration(th.c, th.timed);
    var n := a[p].(children := a[p].children + {c}, lock := None);
    ReadyThread(a, t, th);
    ReadyAt(a, t, th, c);
    ReadyAt(a, t, th, p);
    forall x: nat | x < |a| && a[x].up == Some(p) && a[x].registered ensures Accounted(n, x, a[x]) {
      ReadyAt(a, t, th, x);
    }
    OneStep(a, t, th, p, n, th');
    MarkStep(a, a[p := n], t, th, th', c);
  }

  lemma JoinedLateStep(a: seq<Node>, t: nat, th: Thread)
    requires Ready(a, t, th) && th.Unlocking? && th.c < |a| && a[th.c].up.Some? && a[th.c].up.value < |a|
    ensures StepOk(a, JoinedLate(a, a[th.c].up.value, th.c), t, th, AfterRegistration(th.c, th.timed))
  {
    var c, p, th' := th.c, a[th.c].up.value, AfterRegistration(th.c, th.timed);
    var n := a[p].(lock := None);
    ReadyThread(a, t, th);
    ReadyAt(a, t, th, c);
    ReadyAt(a, t, th, p);
    TouchStep(a, t, th, p, n, th');
    MarkStep(a, a[p := n], t, th, th', c);
  }

  /** propagateCancel finds the parent cancelled, and cancels the child with the parent's cause. */
  lemma CancelNewStep(a: seq<Node>, t: nat, th: Thread)
    requires Ready(a, t, th) && th.Registering? && th.locked && th.c < |a| && a[th.c].up.Some? && a[th.c].up.value < |a|
    requires a[a[th.c].up.value].err.Some?
    ensures StepOk(a, a, t, th, Cancelling(Join(th.timed), [], th.c, a[a[th.c].up.value].err.value, WantSelf))
  {
    ReadyThread(a, t, th);
    NoStep(a, t, th, Cancelling(Join(th.timed), [], th.c, a[a[th.c].up.value].err.value, WantSelf));
  }

  lemma ArmedStep(a: seq<Node>, t: nat, th: Thread)
    requires Ready(a, t, th) && th.Arming? && th.locked && th.c < |a|
    ensures StepOk(a, a[th.c := Armed(a[th.c])], t, th, Idle)
  {
    ReadyThread(a, t, th);
    ReadyAt(a, t, th, th.c);
    TouchStep(a, t, th, th.c, Armed(a[th.c]), Idle);
  }

  lemma CheckedStep(a: seq<Node>, t: nat, th: Thread, late: bool)
    requires Ready(a, t, th) && th.Checking?
    ensures StepOk(a, a, t, th,
      if late then Cancelling(Call, [], th.c, DeadlineExceeded, WantSelf) else Arming(th.c, false))
  {
    ReadyThread(a, t, th);
    NoStep(a, t, th, if late then Cancelling(Call, [], th.c, DeadlineExceeded, WantSelf) else Arming(th.c, false));
  }

  // ---------------------------------------------------------------- all steps

  lemma CancelStepOk(a: seq<Node>, t: nat, th: Thread, child: nat)
    requires Ready(a, t, th) && th.Cancelling? && Wants(a, th).None? && Indexed(a, th)
    requires th.pc.Visiting? && a[th.cur].loop.Loop? && a[th.cur].loop.rem != {} ==> child in a[th.cur].loop.rem
    ensures StepOk(a, CancelStep(a, th, child).0, t, th, CancelStep(a, th, child).1)
  {
    ReadyThread(a, t, th);
    match th.pc
    case HaveSelf => if a[th.cur].err.Some? { FoundCancelled(a, t, th); } else { BeganOk(a, t, th); }
    case Visiting => if a[th.cur].loop.rem == {} { FinishedOk(a, t, th); } else { VisitOk(a, t, th, child); }
    case HaveParent => RemovedOk(a, t, th);
    case HaveTimer => StoppedOk(a, t, th);
    case Done => if th.path == [] { ReturnOk(a, t, th); } else { BackOk(a, t, th); }
    case _ =>
  }

  lemma LocalOk(a: seq<Node>, t: nat, th: Thread, child: nat, late: bool)
    requires Ready(a, t, th) && !th.Idle? && Wants(a, th).None? && Indexed(a, th)
    requires th.Cancelling? && th.pc.Visiting? && a[th.cur].loop.Loop? && a[th.cur].loop.rem != {} ==>
      child in a[th.cur].loop.rem
    ensures StepOk(a, Local(a, th, child, late).0, t, th, Local(a, th, child, late).1)
  {
    match th
    case Cancelling(_, _, _, _, _) => CancelStepOk(a, t, th, child);
    case Registering(c, _, _) =>
      if a[a[c].up.value].err.Some? { CancelNewStep(a, t, th); } else { JoinedStep(a, t, th); }
    case Unlocking(_, _) => JoinedLateStep(a, t, th);
    case Checking(_) => CheckedStep(a, t, th, late);
    case Arming(_, _) => ArmedStep(a, t, th);
  }

  lemma InvReady(s: State, t: nat)
    requires Inv(s) && t < |s.threads|
    ensures Ready(s.nodes, t, s.threads[t])
  {
    assert LocksMatch(s.nodes, t, s.threads[t]) && LoopsMatch(s.nodes, t, s.threads[t]);
  }

  lemma GoKeeps(s: State, t: nat, child: nat, late: bool)
    requires Inv(s) && Enabled(s, t, Go(child, late))
    ensures Inv(Next(s, t, Go(child, late)))
  {
    var th := s.threads[t];
    var w := Wants(s.nodes, th);
    InvReady(s, t);
    if w.Some? {
      AcquireOk(s.nodes, t, th, w.value);
      StepKeeps(s, WithLock(s.nodes, w.value, Some(t)), t, Acquired(th));
    } else {
      LocalOk(s.nodes, t, th, child, late);
      StepKeeps(s, Local(s.nodes, th, child, late).0, t, Local(s.nodes, th, child, late).1);
    }
  }

  lemma FireKeeps(s: State, t: nat, c: nat)
    requires Inv(s) && Enabled(s, t, Fire(c))
    ensures Inv(Next(s, t, Fire(c)))
  {
    var th' := Cancelling(Call, [], c, DeadlineExceeded, WantSelf);
    InvReady(s, t);
    ReadyAt(s.nodes, t, Idle, c);
    TouchStep(s.nodes, t, Idle, c, s.nodes[c].(armed := false), th');
    StepKeeps(s, s.nodes[c := s.nodes[c].(armed := false)], t, th');
  }

  lemma CallKeeps(s: State, t: nat, c: nat)
    requires Inv(s) && Enabled(s, t, CallCancel(c))
    ensures Inv(Next(s, t, CallCancel(c)))
  {
    InvReady(s, t);
    NoStep(s.nodes, t, Idle, Cancelling(Call, [], c, Canceled, WantSelf));
    StepKeeps(s, s.nodes, t, Cancelling(Call, [], c, Canceled, WantSelf));
  }

  lemma SpawnKeeps(s: State)
    requires Inv(s)
    ensures Inv(s.(threads := s.threads + [Idle]))
  {
    var s' := s.(threads := s.threads + [Idle]);
    forall t: nat | t < |s'.threads|
      ensures ThreadOk(s'.nodes, s'.threads[t])
      ensures LocksMatch(s'.nodes, t, s'.threads[t]) && LoopsMatch(s'.nodes, t, s'.threads[t])
    {
      if t < |s.threads| {
        assert LocksMatch(s.nodes, t, s.threads[t]) && LoopsMatch(s.nodes, t, s.threads[t]);
      }
    }
    forall n: nat | n < |s'.nodes| && s'.nodes[n].armed && s'.nodes[n].err.Some? ensures Stopper(s'.threads, n) {
      assert Stopper(s.threads, n);
      var u: nat :| u < |s.threads| && WillStop(s.threads[u], n);
      assert WillStop(s'.threads[u], n);
    }
  }

  // ---------------------------------------------------------------- new contexts

  lemma ShapeGrows(a: seq<Node>, n: Node)
    requires Shape(a) && n.parent < |a| && !n.kind.Background? && n.up == ParentCancelCtx(a, n.parent)
    ensures Shape(a + [n])
  {
    var b := a + [n];
    forall i: nat | 0 < i < |b| ensures b[i].up == ParentCancelCtx(b, b[i].parent) {
      if i < |a| { assert a[i].up == ParentCancelCtx(a, a[i].parent); }
      ParentStable(a, b, b[i].parent);
    }
    ParentCancels(a, n.parent);
  }

  lemma NodesGrow(a: seq<Node>, n: Node)
    requires NodesOk(a) && n.parent < |a| && !n.kind.Background?
    requires n == Fresh(n.kind, n.parent, ParentCancelCtx(a, n.parent), n.asked)
    ensures NodesOk(a + [n])
  {
    var b := a + [n];
    ShapeGrows(a, n);
    forall p: nat | p < |b| ensures ListOk(b, p) {
      if p < |a| { assert ListOk(a, p); }
    }
    forall x: nat | x < |b| ensures Linked(b, x) {
      if x < |a| { assert Linked(a, x); }
    }
  }

  lemma ThreadGrows(a: seq<Node>, n: Node, th: Thread)
    requires ThreadOk(a, th)
    ensures ThreadOk(a + [n], th)
  {
    if th.Cancelling? {
      forall i: nat | i < |th.path| ensures ChainLink(a + [n], th.err, th.path[i], Below(th.path, th.cur, i)) {
        assert ChainLink(a, th.err, th.path[i], Below(th.path, th.cur, i));
      }
    }
  }

  lemma HoldsGrows(a: seq<Node>, n: Node, th: Thread, k: nat)
    requires Shape(a) && ThreadOk(a, th)
    ensures Holds(a + [n], th, k) ==> Holds(a, th, k) && k < |a|
    ensures Holds(a, th, k) ==> Holds(a + [n], th, k)
  {
    if th.Cancelling? && k in th.path {
      var i: nat :| i < |th.path| && th.path[i] == k;
      assert ChainLink(a, th.err, th.path[i], Below(th.path, th.cur, i));
    }
  }

  lemma AfterNewOk(a: seq<Node>, n: Node)
    requires NodesOk(a + [n]) && n.kind != Background
    requires n.kind == ValueCtx ==> n.up.None?
    requires n == Fresh(n.kind, n.parent, n.up, n.asked)
    ensures ThreadOk(a + [n], AfterNew(n, |a|))
    ensures forall k: nat :: !Holds(a + [n], AfterNew(n, |a|), k)
  {
  }

  /** A new context, and what its creator does next: nothing else changes. */
  lemma MadeKeeps(s: State, t: nat, n: Node, th': Thread)
    requires Inv(s) && t < |s.threads| && s.threads[t].Idle? && NodesOk(s.nodes + [n])
    requires n.lock.None? && n.err.None? && n.loop.NoLoop?
    requires ThreadOk(s.nodes + [n], th') && !th'.Cancelling? && forall k: nat :: !Holds(s.nodes + [n], th', k)
    ensures Inv(State(s.nodes + [n], s.threads[t := th']))
  {
    var s' := State(s.nodes + [n], s.threads[t := th']);
    forall u: nat | u < |s'.threads|
      ensures ThreadOk(s'.nodes, s'.threads[u])
      ensures LocksMatch(s'.nodes, u, s'.threads[u]) && LoopsMatch(s'.nodes, u, s'.threads[u])
    {
      assert LocksMatch(s.nodes, u, s.threads[u]) && LoopsMatch(s.nodes, u, s.threads[u]);
      MadeThread(s.nodes, n, u, s.threads[u]);
      if u == t { MadeIdle(s.nodes, n, u, th'); }
    }
    forall k: nat | k < |s'.nodes| && s'.nodes[k].armed && s'.nodes[k].err.Some? ensures Stopper(s'.threads, k) {
      assert Stopper(s.threads, k);
      var u: nat :| u < |s.threads| && WillStop(s.threads[u], k);
      assert WillStop(s'.threads[u], k);
    }
  }

  lemma MadeThread(a: seq<Node>, n: Node, u: nat, th: Thread)
    requires Shape(a) && ThreadOk(a, th) && LocksMatch(a, u, th) && LoopsMatch(a, u, th)
    requires n.lock.None?
    ensures ThreadOk(a + [n], th) && LocksMatch(a + [n], u, th) && LoopsMatch(a + [n], u, th)
  {
    var b := a + [n];
    ThreadGrows(a, n, th);
    forall k: nat | k < |b| ensures b[k].lock == Some(u) <==> Holds(b, th, k) {
      HoldsGrows(a, n, th, k);
    }
  }

  lemma MadeIdle(a: seq<Node>, n: Node, u: nat, th': Thread)
    requires LocksMatch(a, u, Idle) && LoopsMatch(a, u, Idle) && n.lock.None? && n.loop.NoLoop?
    requires forall k: nat :: !Holds(a + [n], th', k)
    ensures LocksMatch(a + [n], u, th') && LoopsMatch(a + [n], u, th')
  {
    var b := a + [n];
    forall k: nat | k < |b| ensures b[k].lock != Some(u) {
      if k < |a| { assert a[k].lock == Some(u) <==> Holds(a, Idle, k); }
    }
  }

  lemma NewKeeps(s: State, t: nat, kind: Kind, parent: nat, asked: Option<int>)
    requires Inv(s) && t < |s.threads| && s.threads[t].Idle? && parent < |s.nodes| && !kind.Background?
    ensures var n := Fresh(kind, parent, ParentCancelCtx(s.nodes, parent), asked);
      Inv(if kind.ValueCtx? then s.(nodes := s.nodes + [n]) else Made(s, t, n))
  {
    var n := Fresh(kind, parent, ParentCancelCtx(s.nodes, parent), asked);
    NodesGrow(s.nodes, n);
    if kind.ValueCtx? {
      MadeKeeps(s, t, n, Idle);
      assert s.threads[t := Idle] == s.threads;
    } else {
      AfterNewOk(s.nodes, n);
      MadeKeeps(s, t, n, AfterNew(n, |s.nodes|));
    }
  }

  // ---------------------------------------------------------------- runs

  /** Every step of every thread keeps the invariant. */
  lemma NextKeeps(s: State, t: nat, a: Action)
    requires Inv(s) && Enabled(s, t, a)
    ensures Inv(Next(s, t, a))
  {
    match a
    case Spawn => SpawnKeeps(s);
    case NewCancel(parent) => NewKeeps(s, t, CancelCtx, parent, None);
    case NewDeadline(parent, d) => NewKeeps(s, t, DeadlineKind(s.nodes, parent, d), parent, Some(d));
    case NewValue(parent) => NewKeeps(s, t, ValueCtx, parent, None);
    case CallCancel(c) => CallKeeps(s, t, c);
    case Fire(c) => FireKeeps(s, t, c);
    case Go(child, late) => GoKeeps(s, t, child, late);
  }

  datatype Event = Event(t: nat, a: Action)

  /** An interleaving that can happen. */
  predicate Possible(s: State, es: seq<Event>)
    decreases |es|
  {
    es == [] || (Enabled(s, es[0].t, es[0].a) && Possible(Next(s, es[0].t, es[0].a), es[1..]))
  }

  function After(s: State, es: seq<Event>): State
    requires Possible(s, es)
    decreases |es|
  {
    if es == [] then s else After(Next(s, es[0].t, es[0].a), es[1..])
  }

  lemma InitialInv()
    ensures Inv(Initial())
  {
  }

  lemma {:induction false} RunKeeps(s: State, es: seq<Event>)
    requires Inv(s) && Possible(s, es)
    ensures Inv(After(s, es))
    decreases |es|
  {
    if es != [] {
      NextKeeps(s, es[0].t, es[0].a);
      RunKeeps(Next(s, es[0].t, es[0].a), es[1..]);
    }
  }

  /** An uncancelled registered child is listed by its parent if that is not cancelled either, or
      else is still to be visited by the thread that holds the parent's lock. */
  ghost predicate ChildSafe(s: State, x: nat)
    requires x < |s.nodes|
  {
    s.nodes[x].registered && s.nodes[x].up.Some? && s.nodes[x].err.None? ==>
      && s.nodes[x].up.value < |s.nodes|
      && var p := s.nodes[s.nodes[x].up.value];
         if p.err.None? then x in p.children
         else p.loop.Loop? && (x in p.loop.rem || p.loop.current == Some(x))
              && p.lock.Some? && p.lock.value < |s.threads| && InLoop(s.threads[p.lock.value], s.nodes[x].up.value)
  }

  lemma ChildAccounted(s: State, x: nat)
    requires Inv(s) && x < |s.nodes|
    ensures ChildSafe(s, x)
  {
    if s.nodes[x].registered && s.nodes[x].up.Some? && s.nodes[x].err.None? {
      assert Linked(s.nodes, x);
      var i := s.nodes[x].up.value;
      assert NodeOk(s.nodes[i]);
      if s.nodes[i].err.Some? {
        var u := s.nodes[i].lock.value;
        assert LoopsMatch(s.nodes, u, s.threads[u]);
      }
    }
  }

  lemma ClosedOnce(s: State, n: nat)
    requires Inv(s) && n < |s.nodes|
    ensures s.nodes[n].closes == if s.nodes[n].err.Some? then 1 else 0
  {
    assert NodeOk(s.nodes[n]);
  }

  /** Safety, over all interleavings: done is closed at most once, and exactly when err is set;
      and no uncancelled child is lost. */
  lemma NothingLost(es: seq<Event>, x: nat)
    requires Possible(Initial(), es) && x < |After(Initial(), es).nodes|
    ensures var s := After(Initial(), es);
      ChildSafe(s, x) && s.nodes[x].closes == if s.nodes[x].err.Some? then 1 else 0
  {
    InitialInv();
    RunKeeps(Initial(), es);
    ChildAccounted(After(Initial(), es), x);
    ClosedOnce(After(Initial(), es), x);
  }
}
