/** Calls of the context package end: every step of a call lowers a measure, so that without new
    calls every run is finite, and ends with all threads outside and every lock free. */
module ContextProgress {
  import opened ContextTree
  import opened ContextInvariant
  import opened ContextSteps
  import opened ContextRuns
  import opened ContextProperties
  import opened Options

  // ---------------------------------------------------------------- the measure

  /** The steps that a child still to be visited may cost, beyond those of its own loop. */
  const VISIT := 9

  /** What may still come from a context: w if it can still be cancelled, or the children that its
      loop has left. */
  function NodeCost(n: Node, w: nat): nat {
    if n.err.None? then w else if n.loop.Loop? then VISIT * |n.loop.rem| else 0
  }

  function NodesCost(nodes: seq<Node>, w: nat): nat {
    if nodes == [] then 0 else NodesCost(nodes[..|nodes| - 1], w) + NodeCost(nodes[|nodes| - 1], w)
  }

  function PcRank(pc: Pc): nat {
    match pc
    case WantSelf => 9
    case HaveSelf => 8
    case Visiting => 7
    case WantParent => 6
    case HaveParent => 5
    case WantTimer => 4
    case HaveTimer => 3
    case Done => 2
  }

  /** The steps that a thread has before it, as far as they do not come from contexts. */
  function Rank(th: Thread): nat {
    match th
    case Idle => 0
    case Cancelling(base, path, _, _, pc) => (if base.Join? then 10 else 0) + 6 * |path| + PcRank(pc)
    case Registering(_, locked, _) => if locked then 20 else 21
    case Unlocking(_, _) => 11
    case Checking(_) => 10
    case Arming(_, locked) => if locked then 1 else 2
  }

  function Ranks(threads: seq<Thread>): nat {
    if threads == [] then 0 else Ranks(threads[..|threads| - 1]) + Rank(threads[|threads| - 1])
  }

  function Measure(s: State): nat {
    NodesCost(s.nodes, VISIT * |s.nodes|) + Ranks(s.threads)
  }

  lemma {:induction false} CostSet(nodes: seq<Node>, m: nat, n: Node, w: nat)
    requires m < |nodes|
    ensures NodesCost(nodes[m := n], w) == NodesCost(nodes, w) - NodeCost(nodes[m], w) + NodeCost(n, w)
    decreases |nodes|
  {
    var k := |nodes| - 1;
    if m == k {
      assert nodes[m := n][..k] == nodes[..k];
    } else {
      assert nodes[m := n][..k] == nodes[..k][m := n];
      CostSet(nodes[..k], m, n, w);
    }
  }

  lemma {:induction false} RankSet(threads: seq<Thread>, t: nat, th: Thread)
    requires t < |threads|
    ensures Ranks(threads[t := th]) == Ranks(threads) - Rank(threads[t]) + Rank(th)
    decreases |threads|
  {
    var k := |threads| - 1;
    if t == k {
      assert threads[t := th][..k] == threads[..k];
    } else {
      assert threads[t := th][..k] == threads[..k][t := th];
      RankSet(threads[..k], t, th);
    }
  }

  lemma {:induction false} CountBelow(s: set<nat>, n: nat)
    requires forall x :: x in s ==> x < n
    ensures |s| <= n
    decreases n
  {
    if n > 0 {
      CountBelow(s - {n - 1}, n - 1);
    } else {
      assert s == {};
    }
  }

  // ---------------------------------------------------------------- every step lowers it

  /** A step from a and th to b and th' lowers the measure. */
  predicate Falls(a: seq<Node>, th: Thread, b: seq<Node>, th': Thread, w: nat) {
    NodesCost(b, w) + Rank(th') < NodesCost(a, w) + Rank(th)
  }

  lemma OneFalls(a: seq<Node>, th: Thread, m: nat, n: Node, th': Thread, w: nat)
    requires m < |a| && NodeCost(n, w) + Rank(th') < NodeCost(a[m], w) + Rank(th)
    ensures Falls(a, th, a[m := n], th', w)
  {
    CostSet(a, m, n, w);
  }

  lemma JoinFalls(a: seq<Node>, th: Thread, p: nat, n: Node, c: nat, th': Thread, w: nat)
    requires p < |a| && c < |a| && Rank(th') < Rank(th) && NodeCost(n, w) == NodeCost(a[p], w)
    ensures var m := a[p := n]; Falls(a, th, m[c := m[c].(registered := true)], th', w)
  {
    var m := a[p := n];
    CostSet(a, p, n, w);
    CostSet(m, c, m[c].(registered := true), w);
  }

  lemma BeganFalls(a: seq<Node>, t: nat, th: Thread)
    requires Ready(a, t, th) && th.Cancelling? && th.pc.HaveSelf? && th.cur < |a| && a[th.cur].err.None?
    ensures Falls(a, th, a[th.cur := Began(a[th.cur], th.err)], th.(pc := Visiting), VISIT * |a|)
  {
    ReadyAt(a, t, th, th.cur);
    CountBelow(a[th.cur].children, |a|);
    OneFalls(a, th, th.cur, Began(a[th.cur], th.err), th.(pc := Visiting), VISIT * |a|);
  }

  lemma VisitFalls(a: seq<Node>, th: Thread, child: nat, w: nat)
    requires th.Cancelling? && th.pc.Visiting? && th.cur < |a| && a[th.cur].err.Some?
    requires a[th.cur].loop.Loop? && child in a[th.cur].loop.rem
    ensures var n := a[th.cur];
      Falls(a, th, a[th.cur := n.(loop := Loop(n.loop.rem - {child}, Some(child)))],
            th.(path := th.path + [th.cur], cur := child, pc := WantSelf), w)
  {
    var n := a[th.cur];
    assert |n.loop.rem - {child}| == |n.loop.rem| - 1;
    OneFalls(a, th, th.cur, n.(loop := Loop(n.loop.rem - {child}, Some(child))),
             th.(path := th.path + [th.cur], cur := child, pc := WantSelf), w);
  }

  lemma CancelFalls(a: seq<Node>, t: nat, th: Thread, child: nat)
    requires Ready(a, t, th) && th.Cancelling? && Wants(a, th).None? && Indexed(a, th)
    requires th.pc.Visiting? && a[th.cur].loop.Loop? && a[th.cur].loop.rem != {} ==> child in a[th.cur].loop.rem
    ensures var r := CancelStep(a, th, child); Falls(a, th, r.0, r.1, VISIT * |a|)
  {
    var w, n := VISIT * |a|, a[th.cur];
    ReadyThread(a, t, th);
    match th.pc
    case HaveSelf =>
      if n.err.Some? {
        OneFalls(a, th, th.cur, n.(lock := None), th.(pc := AfterUnlock(n, th, true)), w);
      } else {
        BeganFalls(a, t, th);
      }
    case Visiting =>
      if n.loop.rem == {} {
        OneFalls(a, th, th.cur, Finished(n), th.(pc := AfterUnlock(n, th, false)), w);
      } else {
        VisitFalls(a, th, child, w);
      }
    case HaveParent =>
      var p := n.up.value;
      OneFalls(a, th, p, a[p].(children := a[p].children - {th.cur}, lock := None),
               th.(pc := if n.kind.TimerCtx? then WantTimer else Done), w);
    case HaveTimer => OneFalls(a, th, th.cur, n.(armed := false, lock := None), th.(pc := Done), w);
    case Done =>
      if th.path != [] {
        var q := th.path[|th.path| - 1];
        OneFalls(a, th, q, Back(a[q]), th.(path := th.path[..|th.path| - 1], cur := q, pc := Visiting), w);
      }
    case _ =>
  }

  lemma LocalFalls(a: seq<Node>, t: nat, th: Thread, child: nat, late: bool)
    requires Ready(a, t, th) && !th.Idle? && Wants(a, th).None? && Indexed(a, th)
    requires th.Cancelling? && th.pc.Visiting? && a[th.cur].loop.Loop? && a[th.cur].loop.rem != {} ==>
      child in a[th.cur].loop.rem
    ensures var r := Local(a, th, child, late); Falls(a, th, r.0, r.1, VISIT * |a|)
  {
    var w := VISIT * |a|;
    match th
    case Cancelling(_, _, _, _, _) => CancelFalls(a, t, th, child);
    case Registering(c, _, timed) =>
      var p := a[c].up.value;
      JoinFalls(a, th, p, a[p].(children := a[p].children + {c}, lock := None), c, AfterRegistration(c, timed), w);
    case Unlocking(c, timed) =>
      var p := a[c].up.value;
      JoinFalls(a, th, p, a[p].(lock := None), c, AfterRegistration(c, timed), w);
    case Checking(_) =>
    case Arming(c, _) => OneFalls(a, th, c, Armed(a[c]), Idle, w);
  }

  lemma StepFalls(s: State, b: seq<Node>, t: nat, th': Thread)
    requires t < |s.threads| && |b| == |s.nodes| && Falls(s.nodes, s.threads[t], b, th', VISIT * |s.nodes|)
    ensures Measure(State(b, s.threads[t := th'])) < Measure(s)
  {
    RankSet(s.threads, t, th');
  }

  lemma AcquireFalls(a: seq<Node>, th: Thread, lock: nat, owner: nat, w: nat)
    requires Wants(a, th) == Some(lock) && lock < |a|
    ensures Falls(a, th, WithLock(a, lock, Some(owner)), Acquired(th), w)
  {
    OneFalls(a, th, lock, a[lock].(lock := Some(owner)), Acquired(th), w);
  }

  /** Every step of a call lowers the measure. */
  lemma GoFalls(s: State, t: nat, child: nat, late: bool)
    requires Inv(s) && Enabled(s, t, Go(child, late))
    ensures Measure(Next(s, t, Go(child, late))) < Measure(s)
  {
    var th := s.threads[t];
    var lock := Wants(s.nodes, th);
    InvReady(s, t);
    if lock.Some? {
      AcquireFalls(s.nodes, th, lock.value, t, VISIT * |s.nodes|);
      StepFalls(s, WithLock(s.nodes, lock.value, Some(t)), t, Acquired(th));
    } else {
      LocalLength(s, t, child, late);
      LocalFalls(s.nodes, t, th, child, late);
      var r := Local(s.nodes, th, child, late);
      StepFalls(s, r.0, t, r.1);
    }
  }

  // ---------------------------------------------------------------- runs without new calls

  predicate OnlyGo(es: seq<Event>) {
    forall i :: 0 <= i < |es| ==> es[i].a.Go?
  }

  predicate AllIdle(s: State) {
    forall t: nat :: t < |s.threads| ==> s.threads[t].Idle?
  }

  /** All threads are outside, every lock is free, and no cancelled context has an armed timer. */
  predicate AtRest(s: State) {
    && AllIdle(s)
    && forall n: nat :: n < |s.nodes| ==> s.nodes[n].lock.None? && (s.nodes[n].err.Some? ==> !s.nodes[n].armed)
  }

  /** No thread can go on with its call. */
  ghost predicate Stuck(s: State) {
    forall t: nat, child: nat, late: bool :: !Enabled(s, t, Go(child, late))
  }

  lemma IdleRests(s: State)
    requires Inv(s) && AllIdle(s)
    ensures AtRest(s)
  {
    forall n: nat | n < |s.nodes| ensures s.nodes[n].lock.None? && (s.nodes[n].err.Some? ==> !s.nodes[n].armed) {
      Quiet(s, n);
    }
  }

  /** Without new calls a run has at most Measure(s) steps. */
  lemma {:induction false} RunsEnd(s: State, es: seq<Event>)
    requires Inv(s) && Possible(s, es) && OnlyGo(es)
    ensures |es| + Measure(After(s, es)) <= Measure(s)
    decreases |es|
  {
    if es != [] {
      assert es[0].a.Go?;
      GoFalls(s, es[0].t, es[0].a.child, es[0].a.late);
      NextKeeps(s, es[0].t, es[0].a);
      RunsEnd(Next(s, es[0].t, es[0].a), es[1..]);
    }
  }

  lemma StuckRests(s: State)
    requires Inv(s)
    ensures Stuck(s) <==> AtRest(s)
  {
    if Stuck(s) {
      forall t: nat | t < |s.threads| ensures s.threads[t].Idle? {
        if !s.threads[t].Idle? {
          var u, child := NoDeadlock(s, t);
          assert false;
        }
      }
      IdleRests(s);
    }
  }

  /** Whatever the scheduling: without new calls a run is bounded, and it cannot go on exactly when
      all threads are outside, every lock is free, and no cancelled context has an armed timer. */
  lemma EveryRunRests(s: State, es: seq<Event>)
    requires Inv(s) && Possible(s, es) && OnlyGo(es)
    ensures |es| <= Measure(s)
    ensures Stuck(After(s, es)) <==> AtRest(After(s, es))
  {
    RunsEnd(s, es);
    RunKeeps(s, es);
    StuckRests(After(s, es));
  }

  /** From every state some run without new calls comes to rest. */
  lemma {:induction false} ReachesQuiet(s: State) returns (es: seq<Event>)
    requires Inv(s)
    ensures Possible(s, es) && OnlyGo(es) && AtRest(After(s, es))
    decreases Measure(s)
  {
    if AllIdle(s) {
      es := [];
      IdleRests(s);
    } else {
      var t: nat :| t < |s.threads| && !s.threads[t].Idle?;
      var u, child := NoDeadlock(s, t);
      GoFalls(s, u, child, false);
      NextKeeps(s, u, Go(child, false));
      var rest := ReachesQuiet(Next(s, u, Go(child, false)));
      es := [Event(u, Go(child, false))] + rest;
      assert es[1..] == rest;
    }
  }
}
