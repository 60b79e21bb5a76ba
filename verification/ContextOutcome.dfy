/** The outcome of any run, by what was asked for: which contexts were made, which are cancelled and
    with what cause, which timers still run, and which children are still listed. */
module ContextOutcome {
  import opened Options
  import opened ContextTree
  import opened ContextInvariant
  import opened ContextSteps
  import opened ContextRuns
  import opened ContextAncestry
  import opened ContextProperties
  import opened ContextProgress
  import opened ContextRest

  // ---------------------------------------------------------------- what was asked for

  /** A cancel function was called, a timer fired, or WithDeadline came too late. */
  function AskedBy(s: State, e: Event): set<(nat, Cause)>
    requires Enabled(s, e.t, e.a)
  {
    match e.a
    case CallCancel(c) => {(c, Canceled)}
    case Fire(c) => {(c, DeadlineExceeded)}
    case Go(_, late) => if late && s.threads[e.t].Checking? then {(s.threads[e.t].c, DeadlineExceeded)} else {}
    case _ => {}
  }

  function AskedIn(s: State, es: seq<Event>): set<(nat, Cause)>
    requires Possible(s, es)
    decreases |es|
  {
    if es == [] then {} else AskedBy(s, es[0]) + AskedIn(Next(s, es[0].t, es[0].a), es[1..])
  }

  datatype New = New(parent: nat, cancels: bool, asked: Option<int>)

  /** The contexts that the calls of a run make. */
  function MadeIn(es: seq<Event>): seq<New> {
    if es == [] then []
    else
      var made :=
        match es[0].a
        case NewCancel(parent) => [New(parent, true, None)]
        case NewDeadline(parent, d) => [New(parent, true, Some(d))]
        case NewValue(parent) => [New(parent, false, None)]
        case _ => [];
      made + MadeIn(es[1..])
  }

  ghost predicate Records(nodes: seq<Node>, from: nat, made: seq<New>) {
    && |nodes| == from + |made|
    && forall i: nat :: i < |made| ==>
         && nodes[from + i].parent == made[i].parent && Cancels(nodes[from + i]) == made[i].cancels
         && nodes[from + i].asked == made[i].asked
  }

  lemma {:induction false} RunRecords(s: State, es: seq<Event>)
    requires Inv(s) && Possible(s, es)
    ensures Records(After(s, es).nodes, |s.nodes|, MadeIn(es)) && SameShape(s.nodes, After(s, es).nodes)
    decreases |es|
  {
    if es != [] {
      var s' := Next(s, es[0].t, es[0].a);
      NextKeeps(s, es[0].t, es[0].a);
      NextShape(s, es[0].t, es[0].a);
      if es[0].a.Go? { LocalLength(s, es[0].t, es[0].a.child, es[0].a.late); }
      RunRecords(s', es[1..]);
      RecordsJoin(s.nodes, s'.nodes, After(s, es).nodes, MadeIn(es), MadeIn(es[1..]));
    }
  }

  lemma RecordsJoin(a: seq<Node>, b: seq<Node>, c: seq<Node>, made: seq<New>, later: seq<New>)
    requires SameShape(a, b) && SameShape(b, c) && Records(c, |b|, later) && |a| <= |b| <= |a| + 1
    requires if |b| == |a| then made == later
             else made == [New(b[|a|].parent, Cancels(b[|a|]), b[|a|].asked)] + later
    ensures Records(c, |a|, made) && SameShape(a, c)
  {
  }

  /** The contexts of a run, with their parents, are those that its calls asked for, in order. */
  lemma TreeOfRun(es: seq<Event>)
    requires Possible(Initial(), es)
    ensures Records(After(Initial(), es).nodes, 1, MadeIn(es))
  {
    InitialInv();
    RunRecords(Initial(), es);
  }

  // ---------------------------------------------------------------- nobody is cancelled unasked

  /** The cause was asked for at x or above. */
  ghost predicate Grounds(nodes: seq<Node>, asked: set<(nat, Cause)>, x: nat, e: Cause) {
    exists a: nat :: (a, e) in asked && Above(nodes, a, x)
  }

  ghost predicate Canceller(threads: seq<Thread>, x: nat) {
    exists t: nat :: t < |threads| && WillCancel(threads[t], x)
  }

  ghost predicate CausesOk(s: State, asked: set<(nat, Cause)>) {
    forall x: nat :: x < |s.nodes| && s.nodes[x].err.Some? ==> Grounds(s.nodes, asked, x, s.nodes[x].err.value)
  }

  ghost predicate CallOk(th: Thread, asked: set<(nat, Cause)>) {
    th.Cancelling? && th.base.Call? ==> (Root(th.path, th.cur), th.err) in asked
  }

  ghost predicate CallsOk(s: State, asked: set<(nat, Cause)>) {
    forall t: nat :: t < |s.threads| ==> CallOk(s.threads[t], asked)
  }

  ghost predicate Answered(s: State, x: nat) {
    x < |s.nodes| && Cancels(s.nodes[x]) && (s.nodes[x].err.Some? || Canceller(s.threads, x))
  }

  ghost predicate AnswersOk(s: State, asked: set<(nat, Cause)>) {
    forall a: nat, e: Cause :: (a, e) in asked ==> Answered(s, a)
  }

  ghost predicate Founded(s: State, asked: set<(nat, Cause)>) {
    CausesOk(s, asked) && CallsOk(s, asked) && AnswersOk(s, asked)
  }

  lemma {:induction false} AboveStable(a: seq<Node>, b: seq<Node>, c: nat, x: nat)
    requires SameShape(a, b) && x < |a|
    ensures Above(a, c, x) <==> Above(b, c, x)
    decreases x
  {
    if c != x && 0 < x && a[x].parent < x { AboveStable(a, b, c, a[x].parent); }
  }

  lemma GroundsStay(a: seq<Node>, b: seq<Node>, asked: set<(nat, Cause)>, more: set<(nat, Cause)>, x: nat, e: Cause)
    requires SameShape(a, b) && x < |a| && Grounds(a, asked, x, e) && asked <= more
    ensures Grounds(b, more, x, e)
  {
    var c: nat :| (c, e) in asked && Above(a, c, x);
    AboveStable(a, b, c, x);
    assert (c, e) in more;
  }

  lemma GroundsBelow(nodes: seq<Node>, asked: set<(nat, Cause)>, p: nat, x: nat, e: Cause)
    requires Grounds(nodes, asked, p, e) && Above(nodes, p, x)
    ensures Grounds(nodes, asked, x, e)
  {
    var c: nat :| (c, e) in asked && Above(nodes, c, p);
    AboveJoins(nodes, c, p, x);
  }

  /** The root of a chain is above all of it. */
  lemma {:induction false} ChainAbove(nodes: seq<Node>, e: Cause, path: seq<nat>, cur: nat, i: nat)
    requires Shape(nodes) && Chain(nodes, e, path, cur) && i < |path|
    ensures Above(nodes, Root(path, cur), Below(path, cur, i))
    decreases i
  {
    var p, x := path[i], Below(path, cur, i);
    assert ChainLink(nodes, e, p, x);
    UpIsBelow(nodes, x, p);
    UpIsAbove(nodes, x);
    if i > 0 {
      ChainAbove(nodes, e, path, cur, i - 1);
      AboveJoins(nodes, Root(path, cur), p, x);
    }
  }

  /** A thread in a cancel has grounds for cancelling where it is. */
  lemma ThreadGrounds(s: State, asked: set<(nat, Cause)>, t: nat)
    requires Inv(s) && Founded(s, asked) && t < |s.threads| && s.threads[t].Cancelling?
    ensures Grounds(s.nodes, asked, s.threads[t].cur, s.threads[t].err)
  {
    var th := s.threads[t];
    assert ThreadOk(s.nodes, th) && CallOk(th, asked);
    var root := Root(th.path, th.cur);
    if th.path != [] { ChainAbove(s.nodes, th.err, th.path, th.cur, |th.path| - 1); }
    if th.base.Join? {
      UpIsBelow(s.nodes, root, s.nodes[root].up.value);
      UpIsAbove(s.nodes, root);
      GroundsBelow(s.nodes, asked, s.nodes[root].up.value, root, th.err);
    } else {
      assert (root, th.err) in asked && Above(s.nodes, root, root);
    }
    GroundsBelow(s.nodes, asked, root, th.cur, th.err);
  }

  // ---------------------------------------------------------------- every step keeps it

  lemma CausesKept(s: State, asked: set<(nat, Cause)>, e: Event)
    requires Inv(s) && Founded(s, asked) && Enabled(s, e.t, e.a)
    ensures CausesOk(Next(s, e.t, e.a), asked + AskedBy(s, e))
  {
    var s', more := Next(s, e.t, e.a), asked + AskedBy(s, e);
    NextShape(s, e.t, e.a);
    forall x: nat | x < |s'.nodes| && s'.nodes[x].err.Some? ensures Grounds(s'.nodes, more, x, s'.nodes[x].err.value) {
      if |s.nodes| <= x {
        NewIsNot(s, e, x);
      } else {
        if s.nodes[x].err.Some? {
          CauseSticks(s, e.t, e.a, x);
        } else {
          CauseOfStep(s, e.t, e.a, x);
          ThreadGrounds(s, asked, e.t);
        }
        GroundsStay(s.nodes, s'.nodes, asked, more, x, s'.nodes[x].err.value);
      }
    }
  }

  lemma NewIsNot(s: State, e: Event, x: nat)
    requires Inv(s) && Enabled(s, e.t, e.a) && |s.nodes| <= x < |Next(s, e.t, e.a).nodes|
    ensures Next(s, e.t, e.a).nodes[x].err.None?
  {
    if e.a.Go? { LocalLength(s, e.t, e.a.child, e.a.late); }
  }

  lemma CallGoesOn(a: seq<Node>, t: nat, th: Thread, child: nat, late: bool, asked: set<(nat, Cause)>)
    requires !th.Idle? && Indexed(a, th) && (Wants(a, th).Some? ==> Wants(a, th).value < |a|) && CallOk(th, asked)
    requires late && th.Checking? ==> (th.c, DeadlineExceeded) in asked
    ensures CallOk(Stepped(a, t, th, child, late).1, asked)
  {
    if th.Cancelling? { Onward(a, t, th, child, late); }
  }

  lemma CallsKept(s: State, asked: set<(nat, Cause)>, e: Event)
    requires Inv(s) && Founded(s, asked) && Enabled(s, e.t, e.a)
    ensures CallsOk(Next(s, e.t, e.a), asked + AskedBy(s, e))
  {
    var s', more := Next(s, e.t, e.a), asked + AskedBy(s, e);
    forall u: nat | u < |s'.threads| ensures CallOk(s'.threads[u], more) {
      if u < |s.threads| { assert CallOk(s.threads[u], asked); }
      if e.a.Go? && u == e.t { CallGoesOn(s.nodes, u, s.threads[u], e.a.child, e.a.late, more); }
    }
  }

  lemma CancelStays(a: seq<Node>, t: nat, th: Thread, child: nat, late: bool, x: nat)
    requires !th.Idle? && Indexed(a, th) && (Wants(a, th).Some? ==> Wants(a, th).value < |a|)
    requires x < |a| && WillCancel(th, x)
    ensures var (b, th') := Stepped(a, t, th, child, late);
      |b| == |a| && (WillCancel(th', x) || b[x].err.Some?)
  {
  }

  lemma AnswerKept(s: State, e: Event, x: nat)
    requires Inv(s) && Enabled(s, e.t, e.a) && Answered(s, x)
    ensures Answered(Next(s, e.t, e.a), x)
  {
    var s' := Next(s, e.t, e.a);
    NextShape(s, e.t, e.a);
    if s.nodes[x].err.Some? {
      CauseSticks(s, e.t, e.a, x);
    } else {
      var u: nat :| u < |s.threads| && WillCancel(s.threads[u], x);
      if e.a.Go? && u == e.t { CancelStays(s.nodes, u, s.threads[u], e.a.child, e.a.late, x); }
      if s'.nodes[x].err.None? { assert WillCancel(s'.threads[u], x); }
    }
  }

  lemma NewAnswer(s: State, e: Event, a: nat, c: Cause)
    requires Inv(s) && Enabled(s, e.t, e.a) && (a, c) in AskedBy(s, e)
    ensures Answered(Next(s, e.t, e.a), a)
  {
    var s' := Next(s, e.t, e.a);
    NextShape(s, e.t, e.a);
    assert ThreadOk(s.nodes, s.threads[e.t]);
    assert WillCancel(s'.threads[e.t], a);
  }

  lemma FoundedKept(s: State, asked: set<(nat, Cause)>, e: Event)
    requires Inv(s) && Founded(s, asked) && Enabled(s, e.t, e.a)
    ensures Founded(Next(s, e.t, e.a), asked + AskedBy(s, e))
  {
    CausesKept(s, asked, e);
    CallsKept(s, asked, e);
    forall a: nat, c: Cause | (a, c) in asked + AskedBy(s, e) ensures Answered(Next(s, e.t, e.a), a) {
      if (a, c) in asked {
        assert Answered(s, a);
        AnswerKept(s, e, a);
      } else {
        NewAnswer(s, e, a, c);
      }
    }
  }

  lemma {:induction false} RunFounded(s: State, asked: set<(nat, Cause)>, es: seq<Event>)
    requires Inv(s) && Founded(s, asked) && Possible(s, es)
    ensures Founded(After(s, es), asked + AskedIn(s, es))
    decreases |es|
  {
    if es == [] {
      assert asked + {} == asked;
    } else {
      var s', these := Next(s, es[0].t, es[0].a), AskedBy(s, es[0]);
      FoundedKept(s, asked, es[0]);
      NextKeeps(s, es[0].t, es[0].a);
      RunFounded(s', asked + these, es[1..]);
      assert asked + these + AskedIn(s', es[1..]) == asked + (these + AskedIn(s', es[1..]));
    }
  }

  // ---------------------------------------------------------------- at rest

  lemma InitialPending()
    ensures Inv(Initial()) && Pending(Initial()) && Founded(Initial(), {})
  {
    InitialInv();
  }

  lemma {:induction false} AllReached(nodes: seq<Node>, a: nat, x: nat)
    requires Shape(nodes) && Above(nodes, a, x) && x < |nodes|
    requires forall y: nat :: y < |nodes| && Cancels(nodes[y]) ==> nodes[y].registered
    ensures Reaches(nodes, a, x)
    decreases x
  {
    if a != x { AllReached(nodes, a, nodes[x].parent); }
  }

  lemma {:induction false} ErrIsAbove(nodes: seq<Node>, x: nat) returns (n: nat)
    requires x < |nodes| && ErrOf(nodes, x).Some?
    ensures n < |nodes| && Above(nodes, n, x) && nodes[n].err == ErrOf(nodes, x)
    decreases x
  {
    if nodes[x].kind.ValueCtx? {
      n := ErrIsAbove(nodes, nodes[x].parent);
    } else {
      n := x;
    }
  }

  lemma IdleDone(threads: seq<Thread>, x: nat)
    requires forall t: nat :: t < |threads| ==> threads[t].Idle?
    ensures !Maker(threads, x) && !Armer(threads, x) && !Remover(threads, x)
  {
  }

  lemma AllRegistered(s: State, x: nat)
    requires Pending(s) && AllIdle(s) && x < |s.nodes| && Cancels(s.nodes[x])
    ensures s.nodes[x].registered
  {
    IdleDone(s.threads, x);
  }

  /** When all threads are outside, a context is cancelled exactly when that was asked for, of it or
      of one above it, and its cause is one that was asked for there. */
  lemma CancelledExactly(es: seq<Event>, x: nat)
    requires Possible(Initial(), es) && AllIdle(After(Initial(), es)) && x < |After(Initial(), es).nodes|
    ensures var nodes, asked := After(Initial(), es).nodes, AskedIn(Initial(), es);
      var err := ErrOf(nodes, x);
      && (err.Some? <==> exists a: nat, e: Cause :: (a, e) in asked && Above(nodes, a, x))
      && (err.Some? ==> Grounds(nodes, asked, x, err.value))
  {
    var s, asked := After(Initial(), es), AskedIn(Initial(), es);
    InitialPending();
    RunPending(Initial(), es);
    RunFounded(Initial(), {}, es);
    assert {} + asked == asked;
    if ErrOf(s.nodes, x).Some? {
      var n := ErrIsAbove(s.nodes, x);
      GroundsBelow(s.nodes, asked, n, x, s.nodes[n].err.value);
    }
    if a: nat, e: Cause :| (a, e) in asked && Above(s.nodes, a, x) {
      AskedReaches(s, asked, a, e, x);
    }
  }

  lemma AskedReaches(s: State, asked: set<(nat, Cause)>, a: nat, e: Cause, x: nat)
    requires Inv(s) && Pending(s) && Founded(s, asked) && AllIdle(s) && (a, e) in asked
    requires x < |s.nodes| && Above(s.nodes, a, x)
    ensures ErrOf(s.nodes, x).Some?
  {
    assert Answered(s, a);
    Quiet(s, a);
    forall y: nat | y < |s.nodes| && Cancels(s.nodes[y]) ensures s.nodes[y].registered { AllRegistered(s, y); }
    AllReached(s.nodes, a, x);
    SettledBelow(s, a, x);
  }

  /** When all threads are outside, a deadline that has not passed has a timer, and no other context
      has one. */
  lemma ArmedExactly(es: seq<Event>, x: nat)
    requires Possible(Initial(), es) && AllIdle(After(Initial(), es)) && x < |After(Initial(), es).nodes|
    ensures var n := After(Initial(), es).nodes[x];
      n.armed <==> n.kind.TimerCtx? && n.err.None?
  {
    var s := After(Initial(), es);
    InitialPending();
    RunPending(Initial(), es);
    Quiet(s, x);
    assert NodeOk(s.nodes[x]);
    IdleDone(s.threads, x);
  }

  /** When all threads are outside, the children that a context lists are those contexts below it,
      with none that can be cancelled between, that are not cancelled; and none if it is cancelled. */
  lemma ListedExactly(es: seq<Event>, p: nat, x: nat)
    requires Possible(Initial(), es) && AllIdle(After(Initial(), es))
    requires p < |After(Initial(), es).nodes| && x < |After(Initial(), es).nodes|
    ensures var nodes := After(Initial(), es).nodes;
      x in nodes[p].children <==>
        nodes[p].err.None? && Cancels(nodes[x]) && nodes[x].up == Some(p) && nodes[x].err.None?
  {
    var s := After(Initial(), es);
    InitialPending();
    RunPending(Initial(), es);
    Quiet(s, p);
    assert NodeOk(s.nodes[p]) && ListOk(s.nodes, p) && ListedOk(s, p, x);
    if Cancels(s.nodes[x]) {
      AllRegistered(s, x);
      ChildAccounted(s, x);
    }
  }
}
