/** What every step of every thread keeps: done is closed once, no context gets lost between
    registration and cancellation, and each lock is held by exactly the thread that needs it. */
module ContextInvariant {
  import opened Options
  import opened ContextTree

  // ---------------------------------------------------------------- the contexts

  /** A registered child is listed by its parent, or its parent's cancel has still to finish with
      it, or it is settled. */
  ghost predicate Accounted(p: Node, x: nat, n: Node) {
    || Settled(n)
    || (p.err.None? && x in p.children)
    || (p.loop.Loop? && (x in p.loop.rem || p.loop.current == Some(x)))
  }

  /** One context by itself. */
  ghost predicate NodeOk(n: Node) {
    && n.closes == (if n.err.Some? then 1 else 0)
    && (n.loop.Loop? ==> n.err.Some? && n.lock.Some?)
    && (n.err.Some? && n.loop.NoLoop? ==> n.children == {})
    && (n.armed ==> n.kind.TimerCtx?)
    && (!Canceler(n) ==> n.err.None? && n.children == {} && n.lock.None? && !n.armed)
  }

  /** The contexts a cancel will visit are children. */
  ghost predicate ListOk(nodes: seq<Node>, p: nat)
    requires p < |nodes|
  {
    && (forall x: nat :: x in nodes[p].children ==> x < |nodes| && nodes[x].up == Some(p) && Canceler(nodes[x]))
    && (nodes[p].loop.Loop? ==> nodes[p].loop.rem <= nodes[p].children)
    && (nodes[p].loop.Loop? && nodes[p].loop.current.Some? ==>
          nodes[p].loop.current.value < |nodes| && nodes[nodes[p].loop.current.value].up == Some(p))
  }

  ghost predicate Linked(nodes: seq<Node>, x: nat)
    requires x < |nodes|
  {
    nodes[x].registered && nodes[x].up.Some? ==>
      nodes[x].up.value < |nodes| && Accounted(nodes[nodes[x].up.value], x, nodes[x])
  }

  ghost predicate NodesOk(nodes: seq<Node>) {
    && Shape(nodes)
    && (forall n: nat :: n < |nodes| ==> NodeOk(nodes[n]))
    && (forall n: nat :: n < |nodes| ==> ListOk(nodes, n))
    && (forall n: nat :: n < |nodes| ==> Linked(nodes, n))
  }

  // ---------------------------------------------------------------- one thread

  /** A context whose children are being visited, on a chain with cause e, and the child below it. */
  ghost predicate ChainLink(nodes: seq<Node>, e: Cause, p: nat, x: nat) {
    && p < |nodes| && x < |nodes| && nodes[x].up == Some(p)
    && nodes[p].err == Some(e) && nodes[p].loop.Loop? && nodes[p].loop.current == Some(x)
  }

  ghost predicate Chain(nodes: seq<Node>, e: Cause, path: seq<nat>, cur: nat) {
    forall i: nat :: i < |path| ==> ChainLink(nodes, e, path[i], Below(path, cur, i))
  }

  ghost predicate ThreadOk(nodes: seq<Node>, th: Thread) {
    match th
    case Idle => true
    case Cancelling(base, path, cur, e, pc) =>
      && cur < |nodes| && Canceler(nodes[cur])
      && Chain(nodes, e, path, cur)
      && (base.Join? ==> Root(path, cur) < |nodes| && JoinOk(nodes, e, Root(path, cur), base.timed))
      && match pc {
           case Visiting => nodes[cur].loop.Loop? && nodes[cur].loop.current.None? && nodes[cur].err == Some(e)
           case WantParent => Settled(nodes[cur]) && Removes(th) && nodes[cur].up.Some?
           case HaveParent => Settled(nodes[cur]) && Removes(th) && nodes[cur].up.Some?
           case WantTimer => Settled(nodes[cur]) && nodes[cur].kind.TimerCtx?
           case HaveTimer => Settled(nodes[cur]) && nodes[cur].kind.TimerCtx?
           case Done => Settled(nodes[cur]) && !nodes[cur].armed
           case _ => true
         }
    case Registering(c, _, timed) =>
      c < |nodes| && nodes[c].up.Some? && Canceler(nodes[c]) && (timed ==> nodes[c].kind.TimerCtx?)
    case Unlocking(c, timed) =>
      && c < |nodes| && nodes[c].up.Some? && Settled(nodes[c]) && !nodes[c].armed
      && (timed ==> nodes[c].kind.TimerCtx?)
    case Checking(c) => c < |nodes| && nodes[c].kind.TimerCtx?
    case Arming(c, _) => c < |nodes| && nodes[c].kind.TimerCtx?
  }

  /** propagateCancel found the parent of root cancelled, with cause e. */
  ghost predicate JoinOk(nodes: seq<Node>, e: Cause, root: nat, timed: bool)
    requires root < |nodes|
  {
    && nodes[root].up.Some? && nodes[root].up.value < |nodes| && nodes[nodes[root].up.value].err == Some(e)
    && (timed ==> nodes[root].kind.TimerCtx?)
  }

  ghost predicate Holds(nodes: seq<Node>, th: Thread, n: nat) {
    match th
    case Cancelling(base, path, cur, _, pc) =>
      || n in path
      || (n == cur && (pc.HaveSelf? || pc.Visiting? || pc.HaveTimer?))
      || (pc.HaveParent? && cur < |nodes| && nodes[cur].up == Some(n))
      || (base.Join? && Root(path, cur) < |nodes| && nodes[Root(path, cur)].up == Some(n))
    case Registering(c, locked, _) => locked && c < |nodes| && nodes[c].up == Some(n)
    case Unlocking(c, _) => c < |nodes| && nodes[c].up == Some(n)
    case Arming(c, locked) => locked && n == c
    case _ => false
  }

  /** The thread is in the loop of n's cancel. */
  ghost predicate InLoop(th: Thread, n: nat) {
    th.Cancelling? && (n in th.path || (n == th.cur && th.pc.Visiting?))
  }

  /** The thread will still stop n's timer. */
  ghost predicate WillStop(th: Thread, n: nat) {
    th.Cancelling? && (n in th.path || (n == th.cur && !th.pc.Done?))
  }

  // ---------------------------------------------------------------- the invariant

  ghost predicate LocksOk(s: State) {
    forall t: nat :: t < |s.threads| ==> LocksMatch(s.nodes, t, s.threads[t])
  }

  ghost predicate OwnersOk(s: State) {
    forall n: nat :: n < |s.nodes| && s.nodes[n].lock.Some? ==> s.nodes[n].lock.value < |s.threads|
  }

  ghost predicate LoopsOk(s: State) {
    forall t: nat :: t < |s.threads| ==> LoopsMatch(s.nodes, t, s.threads[t])
  }

  ghost predicate Stopper(threads: seq<Thread>, n: nat) {
    exists t: nat :: t < |threads| && WillStop(threads[t], n)
  }

  ghost predicate TimersOk(s: State) {
    forall n: nat :: n < |s.nodes| && s.nodes[n].armed && s.nodes[n].err.Some? ==> Stopper(s.threads, n)
  }

  ghost predicate ThreadsOk(s: State) {
    forall t: nat :: t < |s.threads| ==> ThreadOk(s.nodes, s.threads[t])
  }

  ghost predicate Inv(s: State) {
    NodesOk(s.nodes) && ThreadsOk(s) && LocksOk(s) && OwnersOk(s) && LoopsOk(s) && TimersOk(s)
  }

  // ---------------------------------------------------------------- how a step may change the contexts

  /** A step of thread t changes the lock, the loop and the cause only where nobody else has the lock,
      and arms no timer of a cancelled context. */
  ghost predicate Owned(a: Node, b: Node, t: nat) {
    && a.kind == b.kind && a.parent == b.parent && a.up == b.up && a.asked == b.asked
    && (a.lock == b.lock
        || (a.lock != b.lock && (a.lock.None? || a.lock == Some(t)) && (b.lock.None? || b.lock == Some(t))))
    && (a.lock.Some? && a.lock != Some(t) ==> a.loop == b.loop && a.err == b.err)
    && (a.err.Some? ==> b.err == a.err)
    && (Settled(a) ==> Settled(b))
    && (a.err.Some? && !a.armed ==> !b.armed)
    && (b.loop.Loop? && b.lock != Some(t) ==> a.loop.Loop?)
  }

  ghost predicate Evolves(a: seq<Node>, b: seq<Node>, t: nat) {
    |a| <= |b| && forall n: nat :: n < |a| ==> Owned(a[n], b[n], t)
  }

  /** The locks that thread t has are those it holds by its position. */
  ghost predicate LocksMatch(nodes: seq<Node>, t: nat, th: Thread) {
    forall n: nat :: n < |nodes| ==> (nodes[n].lock == Some(t) <==> Holds(nodes, th, n))
  }

  ghost predicate LoopsMatch(nodes: seq<Node>, t: nat, th: Thread) {
    forall n: nat :: n < |nodes| && nodes[n].loop.Loop? && nodes[n].lock == Some(t) ==> InLoop(th, n)
  }

  /** What has to be shown of one step of thread t, which was th and is th' afterwards. */
  ghost predicate StepOk(a: seq<Node>, b: seq<Node>, t: nat, th: Thread, th': Thread) {
    && |a| == |b| && NodesOk(b) && Evolves(a, b, t) && ThreadOk(b, th')
    && LocksMatch(b, t, th') && LoopsMatch(b, t, th')
    && (forall n: nat :: n < |b| && b[n].armed && b[n].err.Some? ==>
          WillStop(th', n) || (a[n].armed && a[n].err.Some? && !WillStop(th, n)))
  }

  /** Other threads are not affected. */
  lemma OtherThread(a: seq<Node>, b: seq<Node>, t: nat, u: nat, th: Thread)
    requires Evolves(a, b, t) && t != u && ThreadOk(a, th)
    requires forall n: nat :: n < |a| && Holds(a, th, n) ==> a[n].lock == Some(u)
    ensures ThreadOk(b, th)
  {
    if th.Cancelling? {
      forall i: nat | i < |th.path| ensures ChainLink(b, th.err, th.path[i], Below(th.path, th.cur, i)) {
        var p, x := th.path[i], Below(th.path, th.cur, i);
        assert ChainLink(a, th.err, p, x);
        assert Holds(a, th, p);
        assert Owned(a[p], b[p], t) && Owned(a[x], b[x], t);
      }
      assert Owned(a[th.cur], b[th.cur], t);
      if th.base.Join? {
        var root := Root(th.path, th.cur);
        assert Owned(a[root], b[root], t);
        assert Holds(a, th, a[root].up.value);
        assert Owned(a[a[root].up.value], b[a[root].up.value], t);
      }
    }
  }

  lemma SameHolds(a: seq<Node>, b: seq<Node>, t: nat, th: Thread, n: nat)
    requires Evolves(a, b, t) && ThreadOk(a, th) && |a| == |b|
    ensures Holds(a, th, n) <==> Holds(b, th, n)
  {
    match th
    case Cancelling(base, path, cur, _, pc) =>
      assert Owned(a[cur], b[cur], t);
      var root := Root(path, cur);
      if base.Join? { assert Owned(a[root], b[root], t); }
    case Registering(c, _, _) => assert Owned(a[c], b[c], t);
    case Unlocking(c, _) => assert Owned(a[c], b[c], t);
    case _ =>
  }

  lemma StepKeeps(s: State, b: seq<Node>, t: nat, th': Thread)
    requires Inv(s) && t < |s.threads| && StepOk(s.nodes, b, t, s.threads[t], th')
    ensures Inv(State(b, s.threads[t := th']))
  {
    var s' := State(b, s.threads[t := th']);
    KeepsThreads(s, b, t, th');
    KeepsLocks(s, b, t, th');
    KeepsLoops(s, b, t, th');
    KeepsTimers(s, b, t, th');
  }

  lemma KeepsThreads(s: State, b: seq<Node>, t: nat, th': Thread)
    requires Inv(s) && t < |s.threads| && StepOk(s.nodes, b, t, s.threads[t], th')
    ensures ThreadsOk(State(b, s.threads[t := th']))
  {
    var s' := State(b, s.threads[t := th']);
    forall u: nat | u < |s'.threads| ensures ThreadOk(b, s'.threads[u]) {
      if u != t {
        assert LocksMatch(s.nodes, u, s.threads[u]);
        OtherThread(s.nodes, b, t, u, s.threads[u]);
      }
    }
  }

  lemma KeepsLocks(s: State, b: seq<Node>, t: nat, th': Thread)
    requires Inv(s) && t < |s.threads| && StepOk(s.nodes, b, t, s.threads[t], th')
    ensures LocksOk(State(b, s.threads[t := th'])) && OwnersOk(State(b, s.threads[t := th']))
  {
    var s' := State(b, s.threads[t := th']);
    forall u: nat | u < |s'.threads| ensures LocksMatch(b, u, s'.threads[u]) {
      if u != t {
        assert LocksMatch(s.nodes, u, s.threads[u]);
        forall n: nat | n < |b| ensures b[n].lock == Some(u) <==> Holds(b, s.threads[u], n) {
          assert Owned(s.nodes[n], b[n], t);
          SameHolds(s.nodes, b, t, s.threads[u], n);
        }
      }
    }
    forall n: nat | n < |b| && b[n].lock.Some? ensures b[n].lock.value < |s'.threads| {
      assert Owned(s.nodes[n], b[n], t);
    }
  }

  lemma KeepsLoops(s: State, b: seq<Node>, t: nat, th': Thread)
    requires Inv(s) && t < |s.threads| && StepOk(s.nodes, b, t, s.threads[t], th')
    ensures LoopsOk(State(b, s.threads[t := th']))
  {
    var s' := State(b, s.threads[t := th']);
    forall u: nat | u < |s'.threads| ensures LoopsMatch(b, u, s'.threads[u]) {
      if u != t {
        assert LoopsMatch(s.nodes, u, s.threads[u]);
        forall n: nat | n < |b| && b[n].loop.Loop? && b[n].lock == Some(u) ensures InLoop(s.threads[u], n) {
          assert Owned(s.nodes[n], b[n], t);
        }
      }
    }
  }

  lemma KeepsTimers(s: State, b: seq<Node>, t: nat, th': Thread)
    requires Inv(s) && t < |s.threads| && StepOk(s.nodes, b, t, s.threads[t], th')
    ensures TimersOk(State(b, s.threads[t := th']))
  {
    var s' := State(b, s.threads[t := th']);
    forall n: nat | n < |b| && b[n].armed && b[n].err.Some? ensures Stopper(s'.threads, n) {
      if WillStop(th', n) {
        assert WillStop(s'.threads[t], n);
      } else {
        assert Stopper(s.threads, n);
        var u: nat :| u < |s.threads| && WillStop(s.threads[u], n);
        assert WillStop(s'.threads[u], n);
      }
    }
  }
}
