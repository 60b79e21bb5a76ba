/** Ancestors by parent references alone, and what the nearest one that can be cancelled is. */
module ContextAncestry {
  import opened Options
  import opened ContextTree
  import opened ContextInvariant
  import opened ContextRuns

  /** a is x, or the parent of a context above x. */
  predicate Above(nodes: seq<Node>, a: nat, x: nat)
    decreases x
  {
    a == x || (0 < x < |nodes| && nodes[x].parent < x && Above(nodes, a, nodes[x].parent))
  }

  /** WithCancel or WithDeadline made it. */
  predicate Cancels(n: Node) {
    n.kind != Background && n.kind != ValueCtx
  }

  /** What Err returns: a context that carries a value asks its parent. */
  function ErrOf(nodes: seq<Node>, x: nat): Option<Cause>
    decreases x
  {
    if x >= |nodes| || nodes[x].kind.Background? then None
    else if nodes[x].kind.ValueCtx? then
      if nodes[x].parent < x then ErrOf(nodes, nodes[x].parent) else None
    else nodes[x].err
  }

  /** Everything that can be cancelled from c (excluded) down to x has been registered. */
  predicate Reaches(nodes: seq<Node>, c: nat, x: nat)
    decreases x
  {
    || x == c
    || (0 < x < |nodes| && nodes[x].parent < x && (nodes[x].kind.ValueCtx? || nodes[x].registered)
        && Reaches(nodes, c, nodes[x].parent))
  }

  lemma {:induction false} AboveOrder(nodes: seq<Node>, a: nat, x: nat)
    requires Above(nodes, a, x)
    ensures a <= x && (x < |nodes| ==> a < |nodes|)
    decreases x
  {
    if a != x { AboveOrder(nodes, a, nodes[x].parent); }
  }

  lemma {:induction false} AboveJoins(nodes: seq<Node>, a: nat, b: nat, x: nat)
    requires Above(nodes, a, b) && Above(nodes, b, x)
    ensures Above(nodes, a, x)
    decreases x
  {
    if b != x { AboveJoins(nodes, a, b, nodes[x].parent); }
  }

  /** The search finds the nearest: every context above that can be cancelled is above the one found. */
  lemma {:induction false} SearchIsNearest(nodes: seq<Node>, x: nat, a: nat)
    requires Shape(nodes) && x < |nodes|
    ensures var up := ParentCancelCtx(nodes, x);
      && (up.Some? ==> up.value < |nodes| && Above(nodes, up.value, x) && Cancels(nodes[up.value]))
      && (Above(nodes, a, x) && a < |nodes| && Cancels(nodes[a]) ==> up.Some? && Above(nodes, a, up.value))
    decreases x
  {
    if nodes[x].kind.ValueCtx? { SearchIsNearest(nodes, nodes[x].parent, a); }
  }

  /** In every reachable state: a context is listed with the nearest context above it that can be
      cancelled, if there is one. */
  lemma NearestCanceler(es: seq<Event>, x: nat, a: nat)
    requires Possible(Initial(), es) && 0 < x < |After(Initial(), es).nodes|
    ensures var nodes := After(Initial(), es).nodes;
      var up, parent := nodes[x].up, nodes[x].parent;
      && parent < x
      && (up.Some? ==> up.value < |nodes| && Above(nodes, up.value, parent) && Cancels(nodes[up.value]))
      && (a < |nodes| && Above(nodes, a, parent) && Cancels(nodes[a]) ==> up.Some? && Above(nodes, a, up.value))
  {
    InitialInv();
    RunKeeps(Initial(), es);
    var nodes := After(Initial(), es).nodes;
    assert Shape(nodes);
    SearchIsNearest(nodes, nodes[x].parent, a);
  }

  lemma UpIsAbove(nodes: seq<Node>, x: nat)
    requires Shape(nodes) && 0 < x < |nodes| && nodes[x].up.Some?
    ensures nodes[x].up.value < x && Above(nodes, nodes[x].up.value, x)
  {
    SearchIsNearest(nodes, nodes[x].parent, 0);
  }

  lemma {:induction false} ReachesAbove(nodes: seq<Node>, c: nat, x: nat)
    requires Reaches(nodes, c, x)
    ensures Above(nodes, c, x)
    decreases x
  {
    if x != c { ReachesAbove(nodes, c, nodes[x].parent); }
  }

  /** Below c the nearest context that can be cancelled is c, or reached from c as well. */
  lemma {:induction false} ReachesUp(nodes: seq<Node>, c: nat, x: nat)
    requires Shape(nodes) && c < |nodes| && Cancels(nodes[c]) && x < |nodes| && Reaches(nodes, c, x)
    ensures ParentCancelCtx(nodes, x).Some? && Reaches(nodes, c, ParentCancelCtx(nodes, x).value)
    decreases x
  {
    if nodes[x].kind.ValueCtx? {
      ReachesUp(nodes, c, nodes[x].parent);
    }
  }
}
