/** The context tree: cancellable contexts, each with a mutex, and threads that create and
    cancel them step by step, in any interleaving. */
module ContextTree {
  import opened Options

  datatype Cause = Canceled | DeadlineExceeded

  datatype Kind = Background | CancelCtx | TimerCtx(deadline: int) | ValueCtx

  /** The loop of a cancel over the children of its context: what is left, and the child that is
      being cancelled right now. */
  datatype Loop = NoLoop | Loop(rem: set<nat>, current: Option<nat>)

  /** A context. up is what parentCancelCtx finds from its parent; asked is the argument of the
      WithDeadline call that made it, if one did; closes counts the closings of done; lock is the
      thread that holds mu. */
  datatype Node = Node(
    kind: Kind, parent: nat, up: Option<nat>, asked: Option<int>,
    err: Option<Cause>, closes: nat, children: set<nat>, loop: Loop,
    armed: bool, registered: bool, lock: Option<nat>)

  predicate Canceler(n: Node) {
    n.kind.CancelCtx? || n.kind.TimerCtx?
  }

  /** Cancelled, and so are the children it had: nobody is at work here any more. */
  predicate Settled(n: Node) {
    n.err.Some? && n.loop.NoLoop?
  }

  // ---------------------------------------------------------------- the shape of the tree

  /** Follows parent references to the nearest cancelCtx. */
  function ParentCancelCtx(nodes: seq<Node>, i: nat): (r: Option<nat>)
    ensures r.Some? ==> r.value < |nodes| && r.value <= i
    decreases i
  {
    if i >= |nodes| then None
    else
      match nodes[i].kind
      case Background => None
      case ValueCtx => if nodes[i].parent < i then ParentCancelCtx(nodes, nodes[i].parent) else None
      case _ => Some(i)
  }

  /** Context zero is the background; parents come before their children. */
  ghost predicate Shape(nodes: seq<Node>) {
    && |nodes| > 0 && nodes[0].kind.Background?
    && (forall i: nat :: i < |nodes| ==> (nodes[i].kind.Background? <==> i == 0))
    && (forall i: nat :: 0 < i < |nodes| ==> nodes[i].parent < i)
    && (forall i: nat :: 0 < i < |nodes| ==> nodes[i].up == ParentCancelCtx(nodes, nodes[i].parent))
    && (forall i: nat :: i < |nodes| && nodes[i].up.Some? ==>
          nodes[i].up.value < i && Canceler(nodes[nodes[i].up.value]))
  }

  ghost predicate SameShape(a: seq<Node>, b: seq<Node>) {
    && |a| <= |b|
    && forall i: nat :: i < |a| ==>
         a[i].kind == b[i].kind && a[i].parent == b[i].parent && a[i].up == b[i].up && a[i].asked == b[i].asked
  }

  lemma {:induction false} ParentStable(a: seq<Node>, b: seq<Node>, i: nat)
    requires SameShape(a, b) && i < |a|
    ensures ParentCancelCtx(a, i) == ParentCancelCtx(b, i)
    decreases i
  {
    if a[i].kind.ValueCtx? && a[i].parent < i { ParentStable(a, b, a[i].parent); }
  }

  lemma {:induction false} ParentCancels(nodes: seq<Node>, i: nat)
    requires i < |nodes|
    ensures ParentCancelCtx(nodes, i).Some? ==> Canceler(nodes[ParentCancelCtx(nodes, i).value])
    decreases i
  {
    if nodes[i].kind.ValueCtx? && nodes[i].parent < i { ParentCancels(nodes, nodes[i].parent); }
  }

  // ---------------------------------------------------------------- threads

  datatype Pc = WantSelf | HaveSelf | Visiting | WantParent | HaveParent | WantTimer | HaveTimer | Done

  /** Who called the outermost cancel: a cancel function, a timer or WithDeadline (removing the
      context from its parent), or propagateCancel, which holds the parent's lock meanwhile. */
  datatype Base = Call | Join(timed: bool)

  /** Where a thread is. A cancel is a chain of contexts: those whose children it is visiting
      (path), and the one it is working on. */
  datatype Thread =
    | Idle
    | Cancelling(base: Base, path: seq<nat>, cur: nat, err: Cause, pc: Pc)
    | Registering(c: nat, locked: bool, timed: bool)
    | Unlocking(c: nat, timed: bool)
    | Checking(c: nat)
    | Arming(c: nat, locked: bool)

  function Root(path: seq<nat>, cur: nat): nat {
    if path == [] then cur else path[0]
  }

  /** The context after path[i] on the chain. */
  function Below(path: seq<nat>, cur: nat, i: nat): nat
    requires i < |path|
  {
    if i + 1 < |path| then path[i + 1] else cur
  }

  predicate Removes(th: Thread)
    requires th.Cancelling?
  {
    th.base.Call? && th.path == []
  }

  datatype State = State(nodes: seq<Node>, threads: seq<Thread>)

  datatype Action =
    | Spawn
    | NewCancel(parent: nat)
    | NewDeadline(parent: nat, deadline: int)
    | NewValue(parent: nat)
    | CallCancel(c: nat)
    | Fire(c: nat)
    | Go(child: nat, late: bool)

  // ---------------------------------------------------------------- steps

  function Fresh(kind: Kind, parent: nat, up: Option<nat>, asked: Option<int>): Node {
    Node(kind, parent, up, asked, None, 0, {}, NoLoop, false, up.None?, None)
  }

  function DeadlineOf(nodes: seq<Node>, i: nat): Option<int>
    decreases i
  {
    if i >= |nodes| then None
    else
      match nodes[i].kind
      case Background => None
      case TimerCtx(d) => Some(d)
      case _ => if nodes[i].parent < i then DeadlineOf(nodes, nodes[i].parent) else None
  }

  /** A parent with an earlier deadline makes WithDeadline a WithCancel. */
  function DeadlineKind(nodes: seq<Node>, parent: nat, deadline: int): Kind {
    var cur := DeadlineOf(nodes, parent);
    if cur.Some? && cur.value < deadline then CancelCtx else TimerCtx(deadline)
  }

  /** What a thread does after it has made context c. */
  function AfterNew(n: Node, c: nat): Thread {
    if n.up.Some? then Registering(c, false, n.kind.TimerCtx?)
    else if n.kind.TimerCtx? then Checking(c)
    else Idle
  }

  function AfterRegistration(c: nat, timed: bool): Thread {
    if timed then Checking(c) else Idle
  }

  /** Where a cancel goes when it has released its own lock; already tells whether it found the
      context cancelled. */
  function AfterUnlock(n: Node, th: Thread, already: bool): Pc
    requires th.Cancelling?
  {
    if n.kind.TimerCtx? then (if Removes(th) && n.up.Some? then WantParent else WantTimer)
    else if !already && Removes(th) && n.up.Some? then WantParent
    else Done
  }

  function WithLock(nodes: seq<Node>, n: nat, owner: Option<nat>): seq<Node>
    requires n < |nodes|
  {
    nodes[n := nodes[n].(lock := owner)]
  }

  /** The lock a thread is waiting for. */
  function Wants(nodes: seq<Node>, th: Thread): Option<nat> {
    match th
    case Cancelling(_, _, cur, _, pc) =>
      if pc.WantSelf? || pc.WantTimer? then Some(cur)
      else if pc.WantParent? && cur < |nodes| then nodes[cur].up
      else None
    case Registering(c, locked, _) => if !locked && c < |nodes| then nodes[c].up else None
    case Arming(c, locked) => if locked then None else Some(c)
    case _ => None
  }

  /** The thread once it has the lock it wants. */
  function Acquired(th: Thread): Thread {
    match th
    case Cancelling(_, _, _, _, pc) =>
      th.(pc := if pc.WantSelf? then HaveSelf else if pc.WantParent? then HaveParent else HaveTimer)
    case Registering(c, _, timed) => Registering(c, true, timed)
    case Arming(c, _) => Arming(c, true)
    case _ => th
  }

  /** A step of a thread that waits for no lock: the contexts and the thread afterwards. */
  function Local(nodes: seq<Node>, th: Thread, child: nat, late: bool): (seq<Node>, Thread)
    requires !th.Idle? && Wants(nodes, th).None? && Indexed(nodes, th)
  {
    match th
    case Cancelling(base, path, cur, e, pc) => CancelStep(nodes, th, child)
    case Registering(c, _, timed) =>
      var p := nodes[c].up.value;
      if nodes[p].err.Some? then (nodes, Cancelling(Join(timed), [], c, nodes[p].err.value, WantSelf))
      else (Joined(nodes, p, c), AfterRegistration(c, timed))
    case Unlocking(c, timed) => (JoinedLate(nodes, nodes[c].up.value, c), AfterRegistration(c, timed))
    case Checking(c) =>
      (nodes, if late then Cancelling(Call, [], c, DeadlineExceeded, WantSelf) else Arming(c, false))
    case Arming(c, _) => (nodes[c := Armed(nodes[c])], Idle)
  }

  function CancelStep(nodes: seq<Node>, th: Thread, child: nat): (seq<Node>, Thread)
    requires th.Cancelling? && Wants(nodes, th).None? && Indexed(nodes, th)
  {
    var n := nodes[th.cur];
    if th.pc.HaveSelf? then
      if n.err.Some? then (nodes[th.cur := n.(lock := None)], th.(pc := AfterUnlock(n, th, true)))
      else (nodes[th.cur := Began(n, th.err)], th.(pc := Visiting))
    else if th.pc.Visiting? then
      if n.loop.NoLoop? || n.loop.rem == {} then
        (nodes[th.cur := Finished(n)], th.(pc := AfterUnlock(n, th, false)))
      else
        (nodes[th.cur := n.(loop := Loop(n.loop.rem - {child}, Some(child)))],
         th.(path := th.path + [th.cur], cur := child, pc := WantSelf))
    else if th.pc.HaveParent? then
      var p := n.up.value;
      (nodes[p := nodes[p].(children := nodes[p].children - {th.cur}, lock := None)],
       th.(pc := if n.kind.TimerCtx? then WantTimer else Done))
    else if th.pc.HaveTimer? then (nodes[th.cur := n.(armed := false, lock := None)], th.(pc := Done))
    else if th.path == [] then
      (nodes, match th.base case Call => Idle case Join(timed) => Unlocking(th.cur, timed))
    else
      var q := th.path[|th.path| - 1];
      (nodes[q := Back(nodes[q])], th.(path := th.path[..|th.path| - 1], cur := q, pc := Visiting))
  }

  /** c.err = err; close(c.done); and the loop over c.children begins. */
  function Began(n: Node, e: Cause): Node {
    n.(err := Some(e), closes := n.closes + 1, loop := Loop(n.children, None))
  }

  function Finished(n: Node): Node {
    n.(children := {}, loop := NoLoop, lock := None)
  }

  function Back(n: Node): Node {
    if n.loop.Loop? then n.(loop := Loop(n.loop.rem, None)) else n
  }

  function Armed(n: Node): Node {
    n.(armed := n.armed || n.err.None?, lock := None)
  }

  function Joined(nodes: seq<Node>, p: nat, c: nat): seq<Node>
    requires p < |nodes| && c < |nodes|
  {
    var m := nodes[p := nodes[p].(children := nodes[p].children + {c}, lock := None)];
    m[c := m[c].(registered := true)]
  }

  function JoinedLate(nodes: seq<Node>, p: nat, c: nat): seq<Node>
    requires p < |nodes| && c < |nodes|
  {
    var m := nodes[p := nodes[p].(lock := None)];
    m[c := m[c].(registered := true)]
  }

  /** The contexts that a thread refers to exist. */
  predicate Indexed(nodes: seq<Node>, th: Thread) {
    match th
    case Idle => true
    case Cancelling(_, path, cur, _, pc) =>
      && cur < |nodes| && (forall i: nat :: i < |path| ==> path[i] < |nodes|)
      && (pc.WantParent? || pc.HaveParent? ==> nodes[cur].up.Some? && nodes[cur].up.value < |nodes|)
    case Registering(c, _, _) => c < |nodes| && nodes[c].up.Some? && nodes[c].up.value < |nodes|
    case Unlocking(c, _) => c < |nodes| && nodes[c].up.Some? && nodes[c].up.value < |nodes|
    case Checking(c) => c < |nodes|
    case Arming(c, _) => c < |nodes|
  }

  /** A cancel function is handed out when its context has been registered. */
  predicate Enabled(s: State, t: nat, a: Action) {
    match a
    case Spawn => true
    case NewCancel(parent) => t < |s.threads| && s.threads[t].Idle? && parent < |s.nodes|
    case NewDeadline(parent, _) => t < |s.threads| && s.threads[t].Idle? && parent < |s.nodes|
    case NewValue(parent) => t < |s.threads| && s.threads[t].Idle? && parent < |s.nodes|
    case CallCancel(c) =>
      t < |s.threads| && s.threads[t].Idle? && c < |s.nodes| && Canceler(s.nodes[c]) && s.nodes[c].registered
    case Fire(c) => t < |s.threads| && s.threads[t].Idle? && c < |s.nodes| && s.nodes[c].armed && Canceler(s.nodes[c])
    case Go(child, _) =>
      && t < |s.threads| && !s.threads[t].Idle? && Indexed(s.nodes, s.threads[t])
      && var th := s.threads[t];
         var w := Wants(s.nodes, th);
         if w.Some? then w.value < |s.nodes| && s.nodes[w.value].lock.None?
         else th.Cancelling? && th.pc.Visiting? && s.nodes[th.cur].loop.Loop? && s.nodes[th.cur].loop.rem != {}
              ==> child in s.nodes[th.cur].loop.rem
  }

  function Made(s: State, t: nat, n: Node): State
    requires t < |s.threads|
  {
    State(s.nodes + [n], s.threads[t := AfterNew(n, |s.nodes|)])
  }

  function Next(s: State, t: nat, a: Action): State
    requires Enabled(s, t, a)
  {
    match a
    case Spawn => s.(threads := s.threads + [Idle])
    case NewCancel(parent) => Made(s, t, Fresh(CancelCtx, parent, ParentCancelCtx(s.nodes, parent), None))
    case NewDeadline(parent, d) =>
      Made(s, t, Fresh(DeadlineKind(s.nodes, parent, d), parent, ParentCancelCtx(s.nodes, parent), Some(d)))
    case NewValue(parent) =>
      s.(nodes := s.nodes + [Fresh(ValueCtx, parent, ParentCancelCtx(s.nodes, parent), None)])
    case CallCancel(c) => s.(threads := s.threads[t := Cancelling(Call, [], c, Canceled, WantSelf)])
    case Fire(c) =>
      State(s.nodes[c := s.nodes[c].(armed := false)],
            s.threads[t := Cancelling(Call, [], c, DeadlineExceeded, WantSelf)])
    case Go(child, late) =>
      var th := s.threads[t];
      var w := Wants(s.nodes, th);
      if w.Some? then State(WithLock(s.nodes, w.value, Some(t)), s.threads[t := Acquired(th)])
      else
        var r := Local(s.nodes, th, child, late);
        State(r.0, s.threads[t := r.1])
  }

  function Initial(): State {
    State([Fresh(Background, 0, None, None)], [])
  }
}
