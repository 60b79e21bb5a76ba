/** What is left to do while threads are at work: contexts to register, timers to start, cancelled
    children to remove. When all threads are outside, nothing of it is left. */
module ContextRest {
  import opened Options
  import opened ContextTree
  import opened ContextInvariant
  import opened ContextSteps
  import opened ContextRuns
  import opened ContextAncestry
  import opened ContextProperties

  // ---------------------------------------------------------------- who will do it

  /** The thread is making context x, which is not registered yet. */
  predicate Makes(th: Thread, x: nat) {
    match th
    case Registering(c, _, _) => c == x
    case Unlocking(c, _) => c == x
    case Cancelling(base, path, cur, _, _) => base.Join? && Root(path, cur) == x
    case _ => false
  }

  /** The thread will cancel x unless that has happened before. */
  predicate WillCancel(th: Thread, x: nat) {
    th.Cancelling? && th.cur == x && (th.pc.WantSelf? || th.pc.HaveSelf?)
  }

  predicate WillArm(th: Thread, x: nat) {
    match th
    case Registering(c, _, timed) => c == x && timed
    case Checking(c) => c == x
    case Arming(c, _) => c == x
    case _ => WillCancel(th, x)
  }

  predicate WillRemove(th: Thread, x: nat) {
    && th.Cancelling? && th.base.Call? && Root(th.path, th.cur) == x
    && (th.path != [] || th.pc.Visiting? || th.pc.WantParent? || th.pc.HaveParent?)
  }

  /** The thread works on x. */
  predicate Touches(th: Thread, x: nat) {
    match th
    case Idle => false
    case Cancelling(_, path, cur, _, _) => cur == x || x in path
    case Registering(c, _, _) => c == x
    case Unlocking(c, _) => c == x
    case Checking(c) => c == x
    case Arming(c, _) => c == x
  }

  ghost predicate Maker(threads: seq<Thread>, x: nat) {
    exists t: nat :: t < |threads| && Makes(threads[t], x)
  }

  ghost predicate Armer(threads: seq<Thread>, x: nat) {
    exists t: nat :: t < |threads| && WillArm(threads[t], x)
  }

  ghost predicate Remover(threads: seq<Thread>, x: nat) {
    exists t: nat :: t < |threads| && WillRemove(threads[t], x)
  }

  // ---------------------------------------------------------------- the invariant

  ghost predicate MakersOk(s: State) {
    forall x: nat :: x < |s.nodes| && Cancels(s.nodes[x]) && !s.nodes[x].registered ==> Maker(s.threads, x)
  }

  ghost predicate ArmersOk(s: State) {
    forall x: nat :: x < |s.nodes| && s.nodes[x].kind.TimerCtx? && s.nodes[x].err.None? && !s.nodes[x].armed ==>
      Armer(s.threads, x)
  }

  /** A cancelled child is still listed only while a thread is on its way to remove it. */
  ghost predicate ListedOk(s: State, p: nat, x: nat)
    requires p < |s.nodes|
  {
    x in s.nodes[p].children ==>
      && x < |s.nodes| && s.nodes[x].registered
      && (s.nodes[p].err.None? && s.nodes[x].err.Some? ==> Remover(s.threads, x))
  }

  ghost predicate RemoversOk(s: State) {
    forall p: nat, x: nat :: p < |s.nodes| ==> ListedOk(s, p, x)
  }

  /** Before it is registered only its maker knows a context. */
  ghost predicate StageOk(nodes: seq<Node>, th: Thread) {
    match th
    case Idle => true
    case Cancelling(base, path, cur, _, _) =>
      && (forall x: nat :: Touches(th, x) && x < |nodes| && !nodes[x].registered ==> base.Join? && x == Root(path, cur))
      && (base.Join? ==> Root(path, cur) < |nodes| && !nodes[Root(path, cur)].registered)
    case Registering(c, _, timed) =>
      && c < |nodes| && !nodes[c].registered && nodes[c].err.None? && !nodes[c].armed
      && timed == nodes[c].kind.TimerCtx?
    case Unlocking(c, _) => c < |nodes| && !nodes[c].registered
    case Checking(c) => c < |nodes| && nodes[c].registered
    case Arming(c, _) => c < |nodes| && nodes[c].registered
  }

  ghost predicate StagesOk(s: State) {
    forall t: nat :: t < |s.threads| ==> StageOk(s.nodes, s.threads[t])
  }

  ghost predicate Alone(threads: seq<Thread>, x: nat) {
    forall t: nat, u: nat ::
      t < |threads| && u < |threads| && Touches(threads[t], x) && Touches(threads[u], x) ==> t == u
  }

  ghost predicate AloneOk(s: State) {
    forall x: nat :: x < |s.nodes| && !s.nodes[x].registered ==> Alone(s.threads, x)
  }

  ghost predicate UnarmedOk(s: State) {
    forall x: nat :: x < |s.nodes| && !s.nodes[x].registered ==> !s.nodes[x].armed
  }

  ghost predicate Pending(s: State) {
    MakersOk(s) && ArmersOk(s) && RemoversOk(s) && StagesOk(s) && AloneOk(s) && UnarmedOk(s)
  }

  // ---------------------------------------------------------------- one step of a call

  /** The contexts and the thread after a step of a call. */
  function Stepped(a: seq<Node>, t: nat, th: Thread, child: nat, late: bool): (seq<Node>, Thread)
    requires !th.Idle? && Indexed(a, th) && (Wants(a, th).Some? ==> Wants(a, th).value < |a|)
  {
    if Wants(a, th).Some? then (WithLock(a, Wants(a, th).value, Some(t)), Acquired(th))
    else Local(a, th, child, late)
  }

  /** What a step does to one context. */
  ghost predicate Effect(a: Node, b: Node, n: nat, th: Thread, th': Thread) {
    && b.kind == a.kind && b.parent == a.parent && b.up == a.up
    && (b.err != a.err ==>
          && th.Cancelling? && th.cur == n && th.pc.HaveSelf? && a.err.None? && b.err == Some(th.err)
          && th' == th.(pc := Visiting))
    && (b.armed && !a.armed ==> th.Arming? && th.c == n)
    && (a.armed && !b.armed ==> th.Cancelling? && th.cur == n && th.pc.HaveTimer?)
    && (b.registered != a.registered ==>
          b.registered && Makes(th, n) && (th.Registering? || th.Unlocking?) && !Makes(th', n))
  }

  lemma Effects(a: seq<Node>, t: nat, th: Thread, child: nat, late: bool, n: nat)
    requires !th.Idle? && Indexed(a, th) && (Wants(a, th).Some? ==> Wants(a, th).value < |a|) && n < |a|
    ensures var (b, th') := Stepped(a, t, th, child, late);
      |b| == |a| && Effect(a[n], b[n], n, th, th')
  {
  }

  /** Children are only added by the thread that registers them. */
  lemma ListEffect(a: seq<Node>, t: nat, th: Thread, child: nat, late: bool, p: nat, x: nat)
    requires !th.Idle? && Indexed(a, th) && (Wants(a, th).Some? ==> Wants(a, th).value < |a|) && p < |a|
    ensures var (b, th') := Stepped(a, t, th, child, late);
      |b| == |a| && (x in b[p].children && x !in a[p].children ==>
        th.Registering? && th.c == x && x < |a| && b[x].registered)
  {
  }

  lemma MakesStays(a: seq<Node>, t: nat, th: Thread, child: nat, late: bool, x: nat)
    requires !th.Idle? && Indexed(a, th) && (Wants(a, th).Some? ==> Wants(a, th).value < |a|)
    requires x < |a| && Makes(th, x)
    ensures var (b, th') := Stepped(a, t, th, child, late);
      |b| == |a| && (Makes(th', x) || b[x].registered)
  {
  }

  lemma ArmStays(a: seq<Node>, t: nat, th: Thread, child: nat, late: bool, x: nat)
    requires !th.Idle? && Indexed(a, th) && (Wants(a, th).Some? ==> Wants(a, th).value < |a|)
    requires x < |a| && WillArm(th, x)
    ensures var (b, th') := Stepped(a, t, th, child, late);
      |b| == |a| && (WillArm(th', x) || b[x].armed || b[x].err.Some?)
  {
  }

  lemma RemoveStays(a: seq<Node>, t: nat, th: Thread, child: nat, late: bool, p: nat, x: nat)
    requires !th.Idle? && Indexed(a, th) && (Wants(a, th).Some? ==> Wants(a, th).value < |a|)
    requires x < |a| && p < |a| && a[x].up == Some(p) && WillRemove(th, x)
    ensures var (b, th') := Stepped(a, t, th, child, late);
      |b| == |a| && (WillRemove(th', x) || x !in b[p].children)
  {
  }

  /** A step goes on with what it works on, or with a child that was listed. */
  lemma TouchStays(a: seq<Node>, t: nat, th: Thread, child: nat, late: bool, x: nat)
    requires !th.Idle? && Indexed(a, th) && (Wants(a, th).Some? ==> Wants(a, th).value < |a|)
    ensures var (b, th') := Stepped(a, t, th, child, late);
      Touches(th', x) && !Touches(th, x) ==>
        th.Cancelling? && th.pc.Visiting? && a[th.cur].loop.Loop? && a[th.cur].loop.rem != {} && x == child
  {
  }

  // ---------------------------------------------------------------- every step of a call

  ghost predicate Steps(s: State, t: nat, child: nat, late: bool) {
    Inv(s) && Pending(s) && Enabled(s, t, Go(child, late))
  }

  lemma GoMakers(s: State, t: nat, child: nat, late: bool)
    requires Steps(s, t, child, late)
    ensures MakersOk(Next(s, t, Go(child, late)))
  {
    var th, s' := s.threads[t], Next(s, t, Go(child, late));
    forall x: nat | x < |s'.nodes| && Cancels(s'.nodes[x]) && !s'.nodes[x].registered ensures Maker(s'.threads, x) {
      GoLength(s, t, child, late);
      Effects(s.nodes, t, th, child, late, x);
      assert Maker(s.threads, x);
      var u: nat :| u < |s.threads| && Makes(s.threads[u], x);
      if u == t { MakesStays(s.nodes, t, th, child, late, x); }
      assert Makes(s'.threads[u], x);
    }
  }

  lemma GoLength(s: State, t: nat, child: nat, late: bool)
    requires Steps(s, t, child, late)
    ensures var s' := Next(s, t, Go(child, late));
      |s'.nodes| == |s.nodes| && |s'.threads| == |s.threads|
  {
    LocalLength(s, t, child, late);
  }

  lemma GoArmers(s: State, t: nat, child: nat, late: bool)
    requires Steps(s, t, child, late)
    ensures ArmersOk(Next(s, t, Go(child, late)))
  {
    var th, s' := s.threads[t], Next(s, t, Go(child, late));
    forall x: nat | x < |s'.nodes| && s'.nodes[x].kind.TimerCtx? && s'.nodes[x].err.None? && !s'.nodes[x].armed
      ensures Armer(s'.threads, x)
    {
      GoLength(s, t, child, late);
      Effects(s.nodes, t, th, child, late, x);
      assert ThreadOk(s.nodes, th);
      assert Armer(s.threads, x);
      var u: nat :| u < |s.threads| && WillArm(s.threads[u], x);
      if u == t { ArmStays(s.nodes, t, th, child, late, x); }
      assert WillArm(s'.threads[u], x);
    }
  }

  lemma VisitedFrom(nodes: seq<Node>, th: Thread)
    requires ThreadOk(nodes, th) && th.Cancelling?
    ensures th.path != [] ==>
      var p := th.path[|th.path| - 1]; p < |nodes| && nodes[th.cur].up == Some(p) && nodes[p].err.Some?
  {
    if th.path != [] {
      assert ChainLink(nodes, th.err, th.path[|th.path| - 1], Below(th.path, th.cur, |th.path| - 1));
    }
  }

  /** The thread that cancels a context whose parent is not cancelled removes it from the list. */
  lemma CancelsFirst(s: State, t: nat, p: nat, x: nat)
    requires Inv(s) && t < |s.threads| && s.threads[t].Cancelling? && s.threads[t].cur == x
    requires x < |s.nodes| && p < |s.nodes| && s.nodes[x].up == Some(p) && s.nodes[p].err.None?
    ensures s.threads[t].base.Call? && s.threads[t].path == []
  {
    assert ThreadOk(s.nodes, s.threads[t]);
    VisitedFrom(s.nodes, s.threads[t]);
  }

  lemma GoRemovers(s: State, t: nat, child: nat, late: bool)
    requires Steps(s, t, child, late)
    ensures RemoversOk(Next(s, t, Go(child, late)))
  {
    var s' := Next(s, t, Go(child, late));
    forall p: nat, x: nat | p < |s'.nodes| ensures ListedOk(s', p, x) {
      GoLength(s, t, child, late);
      GoListed(s, t, child, late, p, x);
    }
  }

  lemma GoListed(s: State, t: nat, child: nat, late: bool, p: nat, x: nat)
    requires Steps(s, t, child, late) && p < |s.nodes| && |Next(s, t, Go(child, late)).nodes| == |s.nodes|
    ensures ListedOk(Next(s, t, Go(child, late)), p, x)
  {
    var th, s' := s.threads[t], Next(s, t, Go(child, late));
    ListEffect(s.nodes, t, th, child, late, p, x);
    assert ListedOk(s, p, x) && StageOk(s.nodes, th) && ListOk(s.nodes, p);
    if x in s'.nodes[p].children {
      Effects(s.nodes, t, th, child, late, x);
      Effects(s.nodes, t, th, child, late, p);
      if s'.nodes[p].err.None? && s'.nodes[x].err.Some? {
        StillRemoved(s, t, child, late, p, x);
      }
    }
  }

  lemma StillRemoved(s: State, t: nat, child: nat, late: bool, p: nat, x: nat)
    requires Steps(s, t, child, late) && p < |s.nodes| && x in s.nodes[p].children && s.nodes[p].err.None?
    requires x < |s.nodes| && s.nodes[x].up == Some(p)
    requires var s' := Next(s, t, Go(child, late));
      |s'.nodes| == |s.nodes| && x in s'.nodes[p].children && s'.nodes[x].err.Some?
    ensures Remover(Next(s, t, Go(child, late)).threads, x)
  {
    var th, s' := s.threads[t], Next(s, t, Go(child, late));
    if s.nodes[x].err.Some? {
      assert ListedOk(s, p, x);
      var u: nat :| u < |s.threads| && WillRemove(s.threads[u], x);
      if u == t { RemoveStays(s.nodes, t, th, child, late, p, x); }
      assert WillRemove(s'.threads[u], x);
    } else {
      Effects(s.nodes, t, th, child, late, x);
      CancelsFirst(s, t, p, x);
      assert WillRemove(s'.threads[t], x);
    }
  }

  lemma GoStages(s: State, t: nat, child: nat, late: bool)
    requires Steps(s, t, child, late)
    ensures StagesOk(Next(s, t, Go(child, late)))
  {
    var s' := Next(s, t, Go(child, late));
    GoLength(s, t, child, late);
    forall u: nat | u < |s'.threads| ensures StageOk(s'.nodes, s'.threads[u]) {
      if u == t { OwnStage(s, t, child, late); } else { OtherStage(s, t, child, late, u); }
    }
  }

  /** A context that is not registered yet does not change under another thread's steps. */
  ghost predicate Kept(a: Node, b: Node) {
    && b.kind == a.kind && (a.registered ==> b.registered)
    && (!a.registered ==> !b.registered && b.err == a.err && b.armed == a.armed)
  }

  lemma KeptByOthers(s: State, t: nat, child: nat, late: bool, u: nat, x: nat)
    requires Steps(s, t, child, late) && u < |s.threads| && u != t && x < |s.nodes| && Touches(s.threads[u], x)
    requires |Next(s, t, Go(child, late)).nodes| == |s.nodes|
    ensures Kept(s.nodes[x], Next(s, t, Go(child, late)).nodes[x])
  {
    Effects(s.nodes, t, s.threads[t], child, late, x);
    if !s.nodes[x].registered { assert Alone(s.threads, x); }
  }

  lemma OtherStage(s: State, t: nat, child: nat, late: bool, u: nat)
    requires Steps(s, t, child, late) && u < |s.threads| && u != t
    requires |Next(s, t, Go(child, late)).nodes| == |s.nodes|
    ensures StageOk(Next(s, t, Go(child, late)).nodes, s.threads[u])
  {
    assert StageOk(s.nodes, s.threads[u]);
    var b := Next(s, t, Go(child, late)).nodes;
    forall x: nat | x < |s.nodes| && Touches(s.threads[u], x) ensures Kept(s.nodes[x], b[x]) {
      KeptByOthers(s, t, child, late, u, x);
    }
    StageKept(s.nodes, b, s.threads[u]);
  }

  lemma StageKept(a: seq<Node>, b: seq<Node>, th: Thread)
    requires |a| == |b| && StageOk(a, th)
    requires forall x: nat :: x < |a| && Touches(th, x) ==> Kept(a[x], b[x])
    ensures StageOk(b, th)
  {
    if th.Cancelling? { assert th.path != [] ==> Touches(th, th.path[0]); }
  }

  lemma OwnStage(s: State, t: nat, child: nat, late: bool)
    requires Steps(s, t, child, late) && |Next(s, t, Go(child, late)).nodes| == |s.nodes|
    ensures StageOk(Next(s, t, Go(child, late)).nodes, Next(s, t, Go(child, late)).threads[t])
  {
    var th, s' := s.threads[t], Next(s, t, Go(child, late));
    assert StageOk(s.nodes, th);
    if th.Cancelling? {
      forall x: nat | x < |s.nodes|
        ensures s'.nodes[x].registered == s.nodes[x].registered
        ensures Touches(s'.threads[t], x) && !s.nodes[x].registered ==> Touches(th, x)
      {
        Effects(s.nodes, t, th, child, late, x);
        if !s.nodes[x].registered { TouchListed(s, t, child, late, x); }
      }
      Onward(s.nodes, t, th, child, late);
      StageGoesOn(s.nodes, s'.nodes, th, s'.threads[t]);
    } else {
      StageTurns(s.nodes, t, th, child, late);
    }
  }

  /** A cancel goes on in the same call, returns, or goes on to register its context. */
  predicate GoesOn(th: Thread, th': Thread)
    requires th.Cancelling?
  {
    || th'.Idle?
    || (th'.Cancelling? && th'.base == th.base && Root(th'.path, th'.cur) == Root(th.path, th.cur))
    || (th'.Unlocking? && th.base.Join? && th'.c == Root(th.path, th.cur))
  }

  lemma Onward(a: seq<Node>, t: nat, th: Thread, child: nat, late: bool)
    requires th.Cancelling? && Indexed(a, th) && (Wants(a, th).Some? ==> Wants(a, th).value < |a|)
    ensures GoesOn(th, Stepped(a, t, th, child, late).1)
  {
  }

  lemma StageGoesOn(a: seq<Node>, b: seq<Node>, th: Thread, th': Thread)
    requires th.Cancelling? && StageOk(a, th) && GoesOn(th, th') && |a| == |b|
    requires forall x: nat :: x < |a| ==> b[x].registered == a[x].registered
    requires forall x: nat :: x < |a| && Touches(th', x) && !a[x].registered ==> Touches(th, x)
    ensures StageOk(b, th')
  {
  }

  lemma StageTurns(a: seq<Node>, t: nat, th: Thread, child: nat, late: bool)
    requires !th.Idle? && !th.Cancelling? && Indexed(a, th) && (Wants(a, th).Some? ==> Wants(a, th).value < |a|)
    requires StageOk(a, th)
    ensures var (b, th') := Stepped(a, t, th, child, late);
      StageOk(b, th')
  {
  }

  /** What a step turns to has been registered. */
  lemma TouchListed(s: State, t: nat, child: nat, late: bool, x: nat)
    requires Steps(s, t, child, late) && x < |s.nodes| && !s.nodes[x].registered
    ensures Touches(Next(s, t, Go(child, late)).threads[t], x) ==> Touches(s.threads[t], x)
  {
    var th := s.threads[t];
    TouchStays(s.nodes, t, th, child, late, x);
    if th.Cancelling? && th.pc.Visiting? && x == child {
      assert ListOk(s.nodes, th.cur) && ListedOk(s, th.cur, x);
    }
  }

  lemma GoAlone(s: State, t: nat, child: nat, late: bool)
    requires Steps(s, t, child, late)
    ensures AloneOk(Next(s, t, Go(child, late)))
  {
    var s' := Next(s, t, Go(child, late));
    GoLength(s, t, child, late);
    forall x: nat | x < |s'.nodes| && !s'.nodes[x].registered ensures Alone(s'.threads, x) {
      Effects(s.nodes, t, s.threads[t], child, late, x);
      TouchListed(s, t, child, late, x);
      assert Alone(s.threads, x);
    }
  }

  lemma GoUnarmed(s: State, t: nat, child: nat, late: bool)
    requires Steps(s, t, child, late)
    ensures UnarmedOk(Next(s, t, Go(child, late)))
  {
    var s' := Next(s, t, Go(child, late));
    GoLength(s, t, child, late);
    forall x: nat | x < |s'.nodes| && !s'.nodes[x].registered ensures !s'.nodes[x].armed {
      Effects(s.nodes, t, s.threads[t], child, late, x);
      assert StageOk(s.nodes, s.threads[t]);
    }
  }

  lemma GoPending(s: State, t: nat, child: nat, late: bool)
    requires Steps(s, t, child, late)
    ensures Pending(Next(s, t, Go(child, late)))
  {
    GoMakers(s, t, child, late);
    GoArmers(s, t, child, late);
    GoRemovers(s, t, child, late);
    GoStages(s, t, child, late);
    GoAlone(s, t, child, late);
    GoUnarmed(s, t, child, late);
  }

  // ---------------------------------------------------------------- calls that begin

  lemma SpawnPending(s: State)
    requires Pending(s)
    ensures Pending(s.(threads := s.threads + [Idle]))
  {
    var s' := s.(threads := s.threads + [Idle]);
    forall x: nat ensures Maker(s.threads, x) ==> Maker(s'.threads, x)
      ensures Armer(s.threads, x) ==> Armer(s'.threads, x)
      ensures Remover(s.threads, x) ==> Remover(s'.threads, x)
      ensures Alone(s.threads, x) ==> Alone(s'.threads, x)
    {
      Others(s.threads, s'.threads, |s.threads|, x);
    }
    forall p: nat, x: nat | p < |s'.nodes| ensures ListedOk(s', p, x) {
      assert ListedOk(s, p, x);
    }
    forall t: nat | t < |s'.threads| ensures StageOk(s'.nodes, s'.threads[t]) {
      if t < |s.threads| { assert StageOk(s.nodes, s.threads[t]); }
    }
  }

  /** A thread that was outside did none of it, and nothing changes for the others. */
  lemma Others(a: seq<Thread>, b: seq<Thread>, t: nat, x: nat)
    requires |a| <= |b| && t < |b| && (t < |a| ==> a[t].Idle?)
    requires forall u: nat :: u < |b| && u != t ==> u < |a| && a[u] == b[u]
    ensures Maker(a, x) ==> Maker(b, x)
    ensures Armer(a, x) ==> Armer(b, x)
    ensures Remover(a, x) ==> Remover(b, x)
    ensures Alone(a, x) && !Touches(b[t], x) ==> Alone(b, x)
  {
    if Maker(a, x) {
      var u: nat :| u < |a| && Makes(a[u], x);
      assert Makes(b[u], x);
    }
    if Armer(a, x) {
      var u: nat :| u < |a| && WillArm(a[u], x);
      assert WillArm(b[u], x);
    }
    if Remover(a, x) {
      var u: nat :| u < |a| && WillRemove(a[u], x);
      assert WillRemove(b[u], x);
    }
  }

  /** A cancel function is called, or a timer fires. */
  lemma StartPending(s: State, t: nat, c: nat, e: Cause, b: seq<Node>)
    requires Inv(s) && Pending(s) && t < |s.threads| && s.threads[t].Idle? && c < |s.nodes| && s.nodes[c].registered
    requires b == s.nodes || b == s.nodes[c := s.nodes[c].(armed := false)]
    ensures Pending(State(b, s.threads[t := Cancelling(Call, [], c, e, WantSelf)]))
  {
    var th' := Cancelling(Call, [], c, e, WantSelf);
    var s' := State(b, s.threads[t := th']);
    forall x: nat ensures Maker(s.threads, x) ==> Maker(s'.threads, x)
      ensures Armer(s.threads, x) ==> Armer(s'.threads, x)
      ensures Remover(s.threads, x) ==> Remover(s'.threads, x)
      ensures Alone(s.threads, x) && x != c ==> Alone(s'.threads, x)
    {
      Others(s.threads, s'.threads, t, x);
    }
    assert WillArm(s'.threads[t], c);
    forall p: nat, x: nat | p < |s'.nodes| ensures ListedOk(s', p, x) {
      assert ListedOk(s, p, x);
    }
    forall u: nat | u < |s'.threads| ensures StageOk(s'.nodes, s'.threads[u]) {
      if u != t {
        assert StageOk(s.nodes, s.threads[u]);
        StageKept(s.nodes, b, s.threads[u]);
      }
    }
  }

  // ---------------------------------------------------------------- new contexts

  lemma TouchesOld(s: State, u: nat, x: nat)
    requires Inv(s) && u < |s.threads| && Touches(s.threads[u], x)
    ensures x < |s.nodes|
  {
    var th := s.threads[u];
    assert ThreadOk(s.nodes, th);
    if th.Cancelling? && x in th.path {
      var i: nat :| i < |th.path| && th.path[i] == x;
      assert ChainLink(s.nodes, th.err, th.path[i], Below(th.path, th.cur, i));
    }
  }

  lemma NewPending(s: State, t: nat, n: Node, th': Thread)
    requires Inv(s) && Pending(s) && t < |s.threads| && s.threads[t].Idle?
    requires n == Fresh(n.kind, n.parent, n.up, n.asked)
    requires th' == if n.kind.ValueCtx? then Idle else AfterNew(n, |s.nodes|)
    ensures Pending(State(s.nodes + [n], s.threads[t := th']))
  {
    NewCovered(s, t, n, th');
    NewAlone(s, t, n, th');
    NewLists(s, t, n, th');
    NewStages(s, t, n, th');
  }

  lemma NewCovered(s: State, t: nat, n: Node, th': Thread)
    requires Inv(s) && Pending(s) && t < |s.threads| && s.threads[t].Idle?
    requires n == Fresh(n.kind, n.parent, n.up, n.asked)
    requires th' == if n.kind.ValueCtx? then Idle else AfterNew(n, |s.nodes|)
    ensures MakersOk(State(s.nodes + [n], s.threads[t := th'])) && ArmersOk(State(s.nodes + [n], s.threads[t := th']))
  {
    var s' := State(s.nodes + [n], s.threads[t := th']);
    forall x: nat ensures Maker(s.threads, x) ==> Maker(s'.threads, x)
      ensures Armer(s.threads, x) ==> Armer(s'.threads, x)
    {
      Others(s.threads, s'.threads, t, x);
    }
    NewJobs(s, t, n, th');
  }

  lemma NewAlone(s: State, t: nat, n: Node, th': Thread)
    requires Inv(s) && Pending(s) && t < |s.threads| && s.threads[t].Idle?
    requires n == Fresh(n.kind, n.parent, n.up, n.asked)
    requires th' == if n.kind.ValueCtx? then Idle else AfterNew(n, |s.nodes|)
    ensures AloneOk(State(s.nodes + [n], s.threads[t := th'])) && UnarmedOk(State(s.nodes + [n], s.threads[t := th']))
  {
    var s' := State(s.nodes + [n], s.threads[t := th']);
    forall x: nat ensures Alone(s.threads, x) && !Touches(th', x) ==> Alone(s'.threads, x) {
      Others(s.threads, s'.threads, t, x);
    }
    NewJobs(s, t, n, th');
  }

  lemma NewLists(s: State, t: nat, n: Node, th': Thread)
    requires Pending(s) && t < |s.threads| && s.threads[t].Idle? && n.children == {}
    ensures RemoversOk(State(s.nodes + [n], s.threads[t := th']))
  {
    var s' := State(s.nodes + [n], s.threads[t := th']);
    forall p: nat, x: nat | p < |s'.nodes| ensures ListedOk(s', p, x) {
      if p < |s.nodes| {
        assert ListedOk(s, p, x);
        Others(s.threads, s'.threads, t, x);
      }
    }
  }

  lemma NewJobs(s: State, t: nat, n: Node, th': Thread)
    requires Inv(s) && t < |s.threads| && s.threads[t].Idle?
    requires n == Fresh(n.kind, n.parent, n.up, n.asked)
    requires th' == if n.kind.ValueCtx? then Idle else AfterNew(n, |s.nodes|)
    ensures var threads, x := s.threads[t := th'], |s.nodes|;
      && (Cancels(n) && !n.registered ==> Maker(threads, x))
      && (n.kind.TimerCtx? ==> Armer(threads, x))
      && Alone(threads, x)
  {
    var threads, x := s.threads[t := th'], |s.nodes|;
    if Cancels(n) && !n.registered { assert Makes(threads[t], x); }
    if n.kind.TimerCtx? { assert WillArm(threads[t], x); }
    forall u: nat | u < |threads| && u != t ensures !Touches(threads[u], x) {
      if Touches(s.threads[u], x) { TouchesOld(s, u, x); }
    }
  }

  lemma NewStages(s: State, t: nat, n: Node, th': Thread)
    requires Inv(s) && Pending(s) && t < |s.threads|
    requires n == Fresh(n.kind, n.parent, n.up, n.asked)
    requires th' == if n.kind.ValueCtx? then Idle else AfterNew(n, |s.nodes|)
    ensures StagesOk(State(s.nodes + [n], s.threads[t := th']))
  {
    var s' := State(s.nodes + [n], s.threads[t := th']);
    forall u: nat | u < |s'.threads| ensures StageOk(s'.nodes, s'.threads[u]) {
      if u != t {
        assert StageOk(s.nodes, s.threads[u]);
        forall x: nat | Touches(s.threads[u], x) ensures x < |s.nodes| {
          TouchesOld(s, u, x);
        }
      }
    }
  }

  // ---------------------------------------------------------------- runs

  lemma PendingKept(s: State, t: nat, a: Action)
    requires Inv(s) && Pending(s) && Enabled(s, t, a)
    ensures Pending(Next(s, t, a))
  {
    match a
    case Spawn => SpawnPending(s);
    case NewCancel(parent) => NewKind(s, t, CancelCtx, parent, None);
    case NewDeadline(parent, d) => NewKind(s, t, DeadlineKind(s.nodes, parent, d), parent, Some(d));
    case NewValue(parent) =>
      NewKind(s, t, ValueCtx, parent, None);
      assert s.threads[t := Idle] == s.threads;
    case CallCancel(c) => StartPending(s, t, c, Canceled, s.nodes);
    case Fire(c) => StartPending(s, t, c, DeadlineExceeded, s.nodes[c := s.nodes[c].(armed := false)]);
    case Go(child, late) => GoPending(s, t, child, late);
  }

  lemma NewKind(s: State, t: nat, kind: Kind, parent: nat, asked: Option<int>)
    requires Inv(s) && Pending(s) && t < |s.threads| && s.threads[t].Idle?
    ensures var n := Fresh(kind, parent, ParentCancelCtx(s.nodes, parent), asked);
      Pending(State(s.nodes + [n], s.threads[t := if kind.ValueCtx? then Idle else AfterNew(n, |s.nodes|)]))
  {
    var n := Fresh(kind, parent, ParentCancelCtx(s.nodes, parent), asked);
    NewPending(s, t, n, if kind.ValueCtx? then Idle else AfterNew(n, |s.nodes|));
  }

  lemma {:induction false} RunPending(s: State, es: seq<Event>)
    requires Inv(s) && Pending(s) && Possible(s, es)
    ensures Inv(After(s, es)) && Pending(After(s, es))
    decreases |es|
  {
    if es != [] {
      NextKeeps(s, es[0].t, es[0].a);
      PendingKept(s, es[0].t, es[0].a);
      RunPending(Next(s, es[0].t, es[0].a), es[1..]);
    }
  }
}
