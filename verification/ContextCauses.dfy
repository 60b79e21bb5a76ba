/** One call of cancel from beginning to end, among everything the other threads do meanwhile: what
    it leaves of the contexts below its own. */
module ContextCauses {
  import opened Options
  import opened ContextTree
  import opened ContextInvariant
  import opened ContextSteps
  import opened ContextRuns
  import opened ContextAncestry
  import opened ContextProperties

  // ---------------------------------------------------------------- one call

  /** Thread t is in the same call of cancel all through the run. */
  predicate StaysIn(s: State, es: seq<Event>, t: nat)
    requires Possible(s, es)
    decreases |es|
  {
    && t < |s.threads| && s.threads[t].Cancelling?
    && (es == [] || StaysIn(Next(s, es[0].t, es[0].a), es[1..], t))
  }

  lemma CancelStepKeeps(nodes: seq<Node>, th: Thread, child: nat)
    requires th.Cancelling? && Wants(nodes, th).None? && Indexed(nodes, th)
    ensures var th' := CancelStep(nodes, th, child).1;
      th'.Cancelling? ==> th'.err == th.err && Root(th'.path, th'.cur) == Root(th.path, th.cur)
  {
  }

  /** A call keeps its cause and its context. */
  lemma CallStep(s: State, u: nat, a: Action, t: nat)
    requires Enabled(s, u, a) && t < |s.threads| && s.threads[t].Cancelling?
    ensures var s' := Next(s, u, a);
      t < |s'.threads| && (s'.threads[t].Cancelling? ==>
        && s'.threads[t].err == s.threads[t].err
        && Root(s'.threads[t].path, s'.threads[t].cur) == Root(s.threads[t].path, s.threads[t].cur))
  {
    if u == t && a.Go? && Wants(s.nodes, s.threads[t]).None? {
      CancelStepKeeps(s.nodes, s.threads[t], a.child);
    }
  }

  lemma {:induction false} CallRuns(s: State, es: seq<Event>, t: nat)
    requires Possible(s, es) && StaysIn(s, es, t)
    ensures var s' := After(s, es);
      && t < |s'.threads| && s'.threads[t].Cancelling? && s'.threads[t].err == s.threads[t].err
      && Root(s'.threads[t].path, s'.threads[t].cur) == Root(s.threads[t].path, s.threads[t].cur)
    decreases |es|
  {
    if es != [] {
      CallStep(s, es[0].t, es[0].a, t);
      CallRuns(Next(s, es[0].t, es[0].a), es[1..], t);
    }
  }

  // ---------------------------------------------------------------- who set a cause

  /** Step of thread u, in its call of cancel, gives the context n its cause. */
  predicate Sets(s: State, e: Event, n: nat, u: nat, cause: Cause)
    requires Enabled(s, e.t, e.a)
  {
    && e.t == u < |s.threads| && s.threads[u].Cancelling? && s.threads[u].cur == n && s.threads[u].err == cause
    && n < |s.nodes| && s.nodes[n].err.None?
    && n < |Next(s, e.t, e.a).nodes| && Next(s, e.t, e.a).nodes[n].err == Some(cause)
  }

  /** Some step of the run does that. */
  predicate SetBy(s: State, es: seq<Event>, n: nat, u: nat, cause: Cause)
    requires Possible(s, es)
    decreases |es|
  {
    && es != []
    && (Sets(s, es[0], n, u, cause) || SetBy(Next(s, es[0].t, es[0].a), es[1..], n, u, cause))
  }

  /** n does not exist, or is not cancelled. */
  predicate NotYet(s: State, n: nat) {
    n < |s.nodes| ==> s.nodes[n].err.None?
  }

  lemma NewIsFree(s: State, u: nat, a: Action, n: nat)
    requires Inv(s) && Enabled(s, u, a) && |s.nodes| <= n
    ensures NotYet(Next(s, u, a), n)
  {
    if a.Go? { LocalLength(s, u, a.child, a.late); }
  }

  /** Every cause was set by a step of some thread's cancel. */
  lemma {:induction false} CauseInRun(s: State, es: seq<Event>, n: nat) returns (u: nat)
    requires Inv(s) && Possible(s, es) && NotYet(s, n)
    requires n < |After(s, es).nodes| && After(s, es).nodes[n].err.Some?
    ensures SetBy(s, es, n, u, After(s, es).nodes[n].err.value)
    decreases |es|
  {
    u := 0;
    if es != [] {
      var s' := Next(s, es[0].t, es[0].a);
      NextKeeps(s, es[0].t, es[0].a);
      if NotYet(s', n) {
        u := CauseInRun(s', es[1..], n);
      } else {
        if |s.nodes| <= n { NewIsFree(s, es[0].t, es[0].a, n); }
        CauseOfStep(s, es[0].t, es[0].a, n);
        CauseSticksForever(s', es[1..], n);
        u := es[0].t;
      }
    }
  }

  lemma {:induction false} SetByCall(s: State, es: seq<Event>, t: nat, n: nat, cause: Cause)
    requires Possible(s, es) && StaysIn(s, es, t) && SetBy(s, es, n, t, cause)
    ensures cause == s.threads[t].err
    decreases |es|
  {
    if !Sets(s, es[0], n, t, cause) {
      CallStep(s, es[0].t, es[0].a, t);
      SetByCall(Next(s, es[0].t, es[0].a), es[1..], t, n, cause);
    }
  }

  // ---------------------------------------------------------------- when cancel returns

  /** A timer that is still armed below a context whose cancel is done is another thread's to stop. */
  lemma TimersAtReturn(s: State, t: nat, x: nat)
    requires Inv(s) && t < |s.threads| && s.threads[t].Cancelling? && s.threads[t].pc.Done?
    requires x < |s.nodes| && Reaches(s.nodes, s.threads[t].cur, x)
    ensures (x == s.threads[t].cur ==> !s.nodes[x].armed)
    ensures s.nodes[x].armed ==> exists u: nat :: u < |s.threads| && u != t && WillStop(s.threads[u], x)
  {
    var th := s.threads[t];
    CancelReaches(s, t, x);
    InvReady(s, t);
    ReadyThread(s.nodes, t, th);
    HeldAbove(s.nodes, t, th);
    ReachesAbove(s.nodes, th.cur, x);
    AboveOrder(s.nodes, th.cur, x);
    assert NodeOk(s.nodes[x]);
    if s.nodes[x].armed {
      assert Stopper(s.threads, x);
      var u: nat :| u < |s.threads| && WillStop(s.threads[u], x);
      assert u != t;
    }
  }

  /** Thread t has just called cancel(c, e). */
  predicate Called(s: State, t: nat, c: nat, e: Cause) {
    && t < |s.threads| && s.threads[t].Cancelling? && s.threads[t].path == []
    && s.threads[t].cur == c && s.threads[t].err == e && s.threads[t].pc.WantSelf?
  }

  /** The outermost cancel of thread t is about to return. */
  predicate Returning(s: State, t: nat) {
    t < |s.threads| && s.threads[t].Cancelling? && s.threads[t].path == [] && s.threads[t].pc.Done?
  }

  /** x is done, with cause e or that of another thread that cancelled it during the run. */
  ghost predicate Reached(s: State, es: seq<Event>, t: nat, e: Cause, x: nat, n: Node)
    requires Possible(s, es)
  {
    && Settled(n) && n.closes == 1
    && (n.err.value == e || exists u: nat :: u != t && SetBy(s, es, x, u, n.err.value))
  }

  lemma CauseAtReturn(s: State, es: seq<Event>, t: nat, e: Cause, x: nat, n: Node)
    requires Inv(s) && Possible(s, es) && StaysIn(s, es, t) && e == s.threads[t].err && NotYet(s, x)
    requires x < |After(s, es).nodes| && After(s, es).nodes[x] == n && Settled(n) && n.closes == 1
    ensures Reached(s, es, t, e, x, n)
  {
    var u := CauseInRun(s, es, x);
    if u == t {
      SetByCall(s, es, t, x, n.err.value);
    }
  }

  /** From the call of cancel(c, e) to its return, whatever the other threads do: every context
      registered below c is done, and unless it was cancelled before, with cause e or with the cause
      of another thread that cancelled it during the call. The timer of c is stopped; one below that
      is still armed belongs to another thread on its way to stop it. */
  lemma CancelCall(s: State, es: seq<Event>, s': State, t: nat, c: nat, e: Cause, x: nat)
    requires Inv(s) && Called(s, t, c, e) && Possible(s, es) && StaysIn(s, es, t)
    requires s' == After(s, es) && Returning(s', t) && x < |s'.nodes| && Reaches(s'.nodes, c, x)
    ensures ErrOf(s'.nodes, x).Some?
    ensures Cancels(s'.nodes[x]) ==> Settled(s'.nodes[x])
    ensures Cancels(s'.nodes[x]) && NotYet(s, x) ==> Reached(s, es, t, e, x, s'.nodes[x])
    ensures x == c ==> !s'.nodes[x].armed
    ensures s'.nodes[x].armed ==> exists u: nat :: u < |s'.threads| && u != t && WillStop(s'.threads[u], x)
  {
    RunKeeps(s, es);
    CallRuns(s, es, t);
    CancelReaches(s', t, x);
    TimersAtReturn(s', t, x);
    if Cancels(s'.nodes[x]) && NotYet(s, x) {
      CauseAtReturn(s, es, t, e, x, s'.nodes[x]);
    }
  }
}
