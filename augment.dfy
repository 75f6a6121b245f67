/**
 * Augmentation in the Boykov-Kolmogorov max-flow solver, on the arena of
 * module Graph: the search trees as parent walks, the bottleneck of an
 * augmenting path and the push of flow along it (section 3.2 of Boykov and
 * Kolmogorov, "An Experimental Comparison of Min-Cut/Max-Flow Algorithms for
 * Energy Minimization in Vision", TPAMI 2004).
 */
module Augmentation {
  import opened Graph

  function Min(x: real, y: real): (m: real)
    ensures m <= x && m <= y && (m == x || m == y)
  {
    if x < y then x else y
  }

  /** The total residual capacity of arc `a` and its sister. */
  ghost function PairSum(arcs: seq<Arc>, a: nat): real
    requires a < |arcs| && Mate(a) < |arcs|
  {
    arcs[a].residualCapacity + arcs[Mate(a)].residualCapacity
  }

  /** Two arc arenas in which every sister pair carries the same total capacity. */
  ghost predicate SameSums(x: seq<Arc>, y: seq<Arc>)
  {
    && |x| == |y|
    && forall a {:trigger PairSum(x, a)} {:trigger PairSum(y, a)} ::
         0 <= a < |x| && Mate(a) < |x| ==> PairSum(x, a) == PairSum(y, a)
  }

  /** Moving `b` units from arc `s` to its sister `a` keeps every pair's total. */
  lemma PushKeepsSums(arcs: seq<Arc>, a: nat, b: real)
    requires a < |arcs| && Mate(a) < |arcs|
    ensures SameSums(arcs, Push(arcs, a, b))
  {
    MateInvolutive(a);
  }

  lemma SameArcLinksTransitive(x: seq<Arc>, y: seq<Arc>, z: seq<Arc>)
    requires SameArcLinks(x, y) && SameArcLinks(y, z)
    ensures SameArcLinks(x, z)
  {
  }

  lemma SameSumsTransitive(x: seq<Arc>, y: seq<Arc>, z: seq<Arc>)
    requires SameSums(x, y) && SameSums(y, z)
    ensures SameSums(x, z)
  {
  }

  /** Replacing one node by a well-formed one keeps the arena well formed. */
  lemma NodeUpdateKeepsShape(nodes: seq<Node>, arcs: seq<Arc>, i: nat, n: Node)
    requires Shape(nodes, arcs) && i < |nodes| && NodeOk(n, |nodes|, |arcs|)
    ensures Shape(nodes[i := n], arcs)
  {
  }

  /** Changing one arc's capacity keeps the arena well formed. */
  lemma CapacityUpdateKeepsShape(nodes: seq<Node>, arcs: seq<Arc>, a: nat, c: real)
    requires Shape(nodes, arcs) && a < |arcs|
    ensures Shape(nodes, arcs[a := arcs[a].(residualCapacity := c)])
  {
  }

  ghost predicate PathIn(path: seq<nat>, arcs: seq<Arc>)
  {
    forall k :: 0 <= k < |path| ==> path[k] < |arcs| && Mate(path[k]) < |arcs|
  }

  /** The links the tree walks follow stay inside the arena. */
  ghost predicate TreeLinks(nodes: seq<Node>, arcs: seq<Arc>)
  {
    && (forall i :: 0 <= i < |nodes| ==> ParentIn(nodes[i].parent, |arcs|))
    && (forall a :: 0 <= a < |arcs| ==> arcs[a].head < |nodes| && arcs[a].sister == Mate(a) < |arcs|)
  }

  lemma ShapeTreeLinks(nodes: seq<Node>, arcs: seq<Arc>)
    requires Shape(nodes, arcs)
    ensures TreeLinks(nodes, arcs)
  {
  }

  lemma TreeLinksPush(nodes: seq<Node>, arcs: seq<Arc>, a: nat, delta: real)
    requires TreeLinks(nodes, arcs) && a < |arcs|
    ensures TreeLinks(nodes, Push(arcs, a, delta)) && SameArcLinks(arcs, Push(arcs, a, delta))
  {
  }

  lemma TreeLinksOrphan(nodes: seq<Node>, arcs: seq<Arc>, i: nat)
    requires TreeLinks(nodes, arcs) && i < |nodes|
    ensures TreeLinks(nodes[i := nodes[i].(parent := Orphan)], arcs)
  {
  }

  /**
   * The parent arcs followed from node `i` towards its tree's root, for at
   * most `fuel` steps; the walk stops at a node whose parent is not an arc.
   */
  ghost function Walk(nodes: seq<Node>, arcs: seq<Arc>, i: nat, fuel: nat): (p: seq<nat>)
    requires TreeLinks(nodes, arcs) && i < |nodes|
    ensures |p| <= fuel && PathIn(p, arcs)
    decreases fuel
  {
    if fuel == 0 || !nodes[i].parent.Arc? then []
    else
      var a := nodes[i].parent.arc;
      [a] + Walk(nodes, arcs, arcs[a].head, fuel - 1)
  }

  /** The node at which `Walk` stops. */
  ghost function WalkEnd(nodes: seq<Node>, arcs: seq<Arc>, i: nat, fuel: nat): (e: nat)
    requires TreeLinks(nodes, arcs) && i < |nodes|
    ensures e < |nodes|
    decreases fuel
  {
    if fuel == 0 || !nodes[i].parent.Arc? then i
    else WalkEnd(nodes, arcs, arcs[nodes[i].parent.arc].head, fuel - 1)
  }

  /** The nodes `Walk` passes through, from `i` to the node where it stops. */
  ghost function Trail(nodes: seq<Node>, arcs: seq<Arc>, i: nat, fuel: nat): (v: seq<nat>)
    requires TreeLinks(nodes, arcs) && i < |nodes|
    ensures |v| == |Walk(nodes, arcs, i, fuel)| + 1 && v[0] == i && v[|v| - 1] == WalkEnd(nodes, arcs, i, fuel)
    ensures forall k :: 0 <= k < |v| ==> v[k] < |nodes|
    decreases fuel
  {
    if fuel == 0 || !nodes[i].parent.Arc? then [i]
    else [i] + Trail(nodes, arcs, arcs[nodes[i].parent.arc].head, fuel - 1)
  }

  /**
   * The residual capacity a tree arc offers to the augmenting path: in the
   * source tree flow runs from the parent down to the child, along the
   * sister of the parent arc; in the sink tree along the parent arc itself.
   */
  ghost function TreeCapacity(arcs: seq<Arc>, a: nat, sinkSide: bool): real
    requires a < |arcs| && Mate(a) < |arcs|
  {
    if sinkSide then arcs[a].residualCapacity else arcs[Mate(a)].residualCapacity
  }

  /** Moves `delta` units of residual capacity from arc `a`'s sister onto `a`. */
  ghost function Push(arcs: seq<Arc>, a: nat, delta: real): (r: seq<Arc>)
    requires a < |arcs| && Mate(a) < |arcs|
    ensures |r| == |arcs|
  {
    arcs[a := arcs[a].(residualCapacity := arcs[a].residualCapacity + delta)]
        [Mate(a) := arcs[Mate(a)].(residualCapacity := arcs[Mate(a)].residualCapacity - delta)]
  }

  /** `Push` applied along a path of arcs, first arc first. */
  ghost function PushAll(arcs: seq<Arc>, path: seq<nat>, delta: real): (r: seq<Arc>)
    requires PathIn(path, arcs)
    ensures |r| == |arcs|
    decreases |path|
  {
    if path == [] then arcs
    else PushAll(Push(arcs, path[0], delta), path[1..], delta)
  }

  lemma PushKeepsShape(nodes: seq<Node>, arcs: seq<Arc>, a: nat, delta: real)
    requires Shape(nodes, arcs) && a < |arcs| && Mate(a) < |arcs|
    ensures Shape(nodes, Push(arcs, a, delta)) && SameArcLinks(arcs, Push(arcs, a, delta))
  {
    var once := arcs[a := arcs[a].(residualCapacity := arcs[a].residualCapacity + delta)];
    CapacityUpdateKeepsShape(nodes, arcs, a, arcs[a].residualCapacity + delta);
    CapacityUpdateKeepsShape(nodes, once, Mate(a), arcs[Mate(a)].residualCapacity - delta);
  }

  lemma {:induction false} PushAllKeepsShape(nodes: seq<Node>, arcs: seq<Arc>, path: seq<nat>, delta: real)
    requires Shape(nodes, arcs) && PathIn(path, arcs)
    ensures Shape(nodes, PushAll(arcs, path, delta))
    decreases |path|
  {
    if path != [] {
      var once := Push(arcs, path[0], delta);
      PushKeepsShape(nodes, arcs, path[0], delta);
      PushAllKeepsShape(nodes, once, path[1..], delta);
    }
  }

  /** Pushing along any path changes no arc's head, list link or sister. */
  lemma {:induction false} PushAllKeepsLinks(arcs: seq<Arc>, path: seq<nat>, delta: real)
    requires PathIn(path, arcs)
    ensures SameArcLinks(arcs, PushAll(arcs, path, delta))
    decreases |path|
  {
    if path != [] {
      var once := Push(arcs, path[0], delta);
      assert SameArcLinks(arcs, once);
      assert PathIn(path[1..], once);
      PushAllKeepsLinks(once, path[1..], delta);
      SameArcLinksTransitive(arcs, once, PushAll(once, path[1..], delta));
    }
  }

  /** Pushing along any path keeps every sister pair's capacity sum. */
  lemma {:induction false} PushAllKeepsSums(arcs: seq<Arc>, path: seq<nat>, delta: real)
    requires PathIn(path, arcs)
    ensures SameSums(arcs, PushAll(arcs, path, delta))
    decreases |path|
  {
    if path != [] {
      var once := Push(arcs, path[0], delta);
      PushKeepsSums(arcs, path[0], delta);
      assert PathIn(path[1..], once);
      PushAllKeepsSums(once, path[1..], delta);
      SameSumsTransitive(arcs, once, PushAll(once, path[1..], delta));
    }
  }

  /** The least element of a non-empty sequence. */
  ghost function Least(s: seq<real>): real
    requires s != []
    decreases |s|
  {
    if |s| == 1 then s[0]
    else if s[0] <= Least(s[1..]) then s[0]
    else Least(s[1..])
  }

  /** `Least` is a lower bound of the sequence that the sequence attains. */
  lemma {:induction false} LeastBound(s: seq<real>)
    requires s != []
    ensures Least(s) in s && forall x :: x in s ==> Least(s) <= x
    decreases |s|
  {
    if |s| > 1 {
      LeastBound(s[1..]);
      assert s == [s[0]] + s[1..];
    }
  }

  /** A lower bound of a sequence that the sequence attains is its `Least`. */
  lemma LeastIs(s: seq<real>, b: real)
    requires b in s && forall x :: x in s ==> b <= x
    ensures Least(s) == b
  {
    LeastBound(s);
  }

  /** The tree capacities along `path` on side `sinkSide`, in order. */
  ghost function Capacities(arcs: seq<Arc>, path: seq<nat>, sinkSide: bool): (c: seq<real>)
    requires PathIn(path, arcs)
    ensures |c| == |path|
    decreases |path|
  {
    if path == [] then []
    else [TreeCapacity(arcs, path[0], sinkSide)] + Capacities(arcs, path[1..], sinkSide)
  }

  /** Entry `k` of `Capacities` is the tree capacity of the path's arc `k`. */
  lemma {:induction false} CapacitiesAt(arcs: seq<Arc>, path: seq<nat>, sinkSide: bool)
    requires PathIn(path, arcs)
    ensures forall k :: 0 <= k < |path| ==> Capacities(arcs, path, sinkSide)[k] == TreeCapacity(arcs, path[k], sinkSide)
    decreases |path|
  {
    if path != [] {
      CapacitiesAt(arcs, path[1..], sinkSide);
      var c := Capacities(arcs, path, sinkSide);
      forall k | 1 <= k < |path|
        ensures c[k] == TreeCapacity(arcs, path[k], sinkSide)
      {
        assert c[k] == Capacities(arcs, path[1..], sinkSide)[k - 1];
      }
    }
  }

  /**
   * The capacities along the augmenting path through `middle`: the middle
   * arc's, the tree capacities on the source-side walk, the source root's
   * terminal capacity, the tree capacities on the sink-side walk and the
   * sink root's (negated) terminal capacity.
   */
  ghost function PathCapacities(nodes: seq<Node>, arcs: seq<Arc>, middle: nat): (c: seq<real>)
    requires TreeLinks(nodes, arcs) && middle < |arcs|
    ensures c != []
  {
    var s := arcs[Mate(middle)].head;
    var t := arcs[middle].head;
    [arcs[middle].residualCapacity]
      + Capacities(arcs, Walk(nodes, arcs, s, |nodes|), false)
      + [nodes[WalkEnd(nodes, arcs, s, |nodes|)].residualCapacity]
      + Capacities(arcs, Walk(nodes, arcs, t, |nodes|), true)
      + [-nodes[WalkEnd(nodes, arcs, t, |nodes|)].residualCapacity]
  }

  /** `b` is the bottleneck of the augmenting path through `middle`: the least of its capacities. */
  ghost predicate IsBottleneck(nodes: seq<Node>, arcs: seq<Arc>, middle: nat, b: real)
    requires TreeLinks(nodes, arcs) && middle < |arcs|
  {
    b == Least(PathCapacities(nodes, arcs, middle))
  }

  /**
   * A value no larger than the middle arc's capacity, any tree capacity on
   * either walk and either root's terminal capacity, and equal to one of
   * them, is the bottleneck.
   */
  lemma BottleneckOfBounds(nodes: seq<Node>, arcs: seq<Arc>, middle: nat, b: real, p: seq<nat>, q: seq<nat>)
    requires TreeLinks(nodes, arcs) && middle < |arcs|
    requires p == Walk(nodes, arcs, arcs[Mate(middle)].head, |nodes|)
    requires q == Walk(nodes, arcs, arcs[middle].head, |nodes|)
    requires b <= arcs[middle].residualCapacity
    requires forall k :: 0 <= k < |p| ==> b <= TreeCapacity(arcs, p[k], false)
    requires b <= nodes[WalkEnd(nodes, arcs, arcs[Mate(middle)].head, |nodes|)].residualCapacity
    requires forall k :: 0 <= k < |q| ==> b <= TreeCapacity(arcs, q[k], true)
    requires b <= -nodes[WalkEnd(nodes, arcs, arcs[middle].head, |nodes|)].residualCapacity
    requires || b == arcs[middle].residualCapacity
             || (exists k :: 0 <= k < |p| && b == TreeCapacity(arcs, p[k], false))
             || b == nodes[WalkEnd(nodes, arcs, arcs[Mate(middle)].head, |nodes|)].residualCapacity
             || (exists k :: 0 <= k < |q| && b == TreeCapacity(arcs, q[k], true))
             || b == -nodes[WalkEnd(nodes, arcs, arcs[middle].head, |nodes|)].residualCapacity
    ensures IsBottleneck(nodes, arcs, middle, b)
  {
    var cp, cq := Capacities(arcs, p, false), Capacities(arcs, q, true);
    CapacitiesAt(arcs, p, false);
    CapacitiesAt(arcs, q, true);
    var c := PathCapacities(nodes, arcs, middle);
    forall x | x in cp
      ensures b <= x
    {
      var k :| 0 <= k < |cp| && cp[k] == x;
      assert x == TreeCapacity(arcs, p[k], false) && k < |p|;
    }
    forall x | x in cq
      ensures b <= x
    {
      var k :| 0 <= k < |cq| && cq[k] == x;
      assert x == TreeCapacity(arcs, q[k], true) && k < |q|;
    }
    if exists k :: 0 <= k < |p| && b == TreeCapacity(arcs, p[k], false) {
      var k :| 0 <= k < |p| && b == TreeCapacity(arcs, p[k], false);
      assert cp[k] == b;
    } else if exists k :: 0 <= k < |q| && b == TreeCapacity(arcs, q[k], true) {
      var k :| 0 <= k < |q| && b == TreeCapacity(arcs, q[k], true);
      assert cq[k] == b;
    }
    assert b in c;
    LeastIs(c, b);
  }

  /** Node arenas that differ at most in parents, each changed parent now ORPHAN. */
  ghost predicate OnlyOrphaned(x: seq<Node>, y: seq<Node>)
  {
    && |x| == |y|
    && forall k :: 0 <= k < |x| ==>
         y[k] == x[k].(parent := y[k].parent) && (y[k].parent == x[k].parent || y[k].parent == Orphan)
  }

  /**
   * Phase 1 of `augment` on one side: walks from `start` to its tree's root
   * and lowers `b0` to the least tree capacity met on the way.
   */
  method BottleneckWalk(nodes: seq<Node>, arcs: seq<Arc>, start: nat, sinkSide: bool, b0: real)
    returns (b: real, end: nat)
    requires TreeLinks(nodes, arcs) && start < |nodes|
    ensures var p := Walk(nodes, arcs, start, |nodes|);
      && b <= b0
      && (forall k :: 0 <= k < |p| ==> b <= TreeCapacity(arcs, p[k], sinkSide))
      && (b == b0 || exists k :: 0 <= k < |p| && b == TreeCapacity(arcs, p[k], sinkSide))
    ensures end == WalkEnd(nodes, arcs, start, |nodes|)
  {
    ghost var whole := Walk(nodes, arcs, start, |nodes|);
    b := b0;
    end := start;
    var steps := 0;
    ghost var seen: seq<nat> := [];
    while steps < |nodes| && nodes[end].parent.Arc?
      invariant 0 <= steps <= |nodes| && end < |nodes|
      invariant |seen| == steps && PathIn(seen, arcs)
      invariant whole == seen + Walk(nodes, arcs, end, |nodes| - steps)
      invariant WalkEnd(nodes, arcs, start, |nodes|) == WalkEnd(nodes, arcs, end, |nodes| - steps)
      invariant b <= b0 && forall k :: 0 <= k < |seen| ==> b <= TreeCapacity(arcs, seen[k], sinkSide)
      invariant b == b0 || exists k :: 0 <= k < |seen| && b == TreeCapacity(arcs, seen[k], sinkSide)
      decreases |nodes| - steps
    {
      var a := nodes[end].parent.arc;
      var c := if sinkSide then arcs[a].residualCapacity else arcs[arcs[a].sister].residualCapacity;
      assert c == TreeCapacity(arcs, a, sinkSide);
      ghost var rest := Walk(nodes, arcs, arcs[a].head, |nodes| - steps - 1);
      assert Walk(nodes, arcs, end, |nodes| - steps) == [a] + rest;
      assert whole == (seen + [a]) + rest;
      if b > c {
        b := c;
        assert (seen + [a])[|seen|] == a;
      } else if b != b0 {
        ghost var k :| 0 <= k < |seen| && b == TreeCapacity(arcs, seen[k], sinkSide);
        assert (seen + [a])[k] == seen[k];
      }
      seen := seen + [a];
      end := arcs[a].head;
      steps := steps + 1;
    }
    assert seen == whole;
  }

  lemma OrphanedKeepsShape(nodes: seq<Node>, nodes': seq<Node>, arcs: seq<Arc>)
    requires Shape(nodes, arcs) && OnlyOrphaned(nodes, nodes')
    ensures Shape(nodes', arcs)
  {
    assert forall k :: 0 <= k < |nodes'| ==> NodeOk(nodes[k], |nodes|, |arcs|);
  }

  lemma OrphaningKeepsOnlyOrphaned(nodes: seq<Node>, current: seq<Node>, i: nat)
    requires OnlyOrphaned(nodes, current) && i < |current|
    ensures OnlyOrphaned(nodes, current[i := current[i].(parent := Orphan)])
  {
  }

  /** Pushing `delta` along tree arc `a` uses up its tree capacity. */
  ghost function PushedOrphan(arcs: seq<Arc>, a: nat, sinkSide: bool, delta: real): bool
    requires a < |arcs| && Mate(a) < |arcs|
  {
    TreeCapacity(Push(arcs, a, delta), a, sinkSide) <= 0.0
  }

  /** The outcome of phase 2 on one side (see `PushWalk`). */
  datatype Pushed = Pushed(nodes: seq<Node>, arcs: seq<Arc>, orphaned: seq<nat>, path: seq<nat>, end: nat)

  /**
   * Phase 2 of `augment` on one side, as a function of the arena: from node
   * `i`, while the parent is an arc (and for at most `fuel` steps), moves
   * `delta` units onto the parent arc from its sister (the source side passes
   * the bottleneck, the sink side its negation); a node whose tree capacity
   * is used up becomes an orphan. `orphaned` lists those nodes in the order
   * pushing each at the front of a list leaves them, `path` the arcs pushed
   * along, `end` the node where the walk stopped.
   */
  ghost function PushWalk(nodes: seq<Node>, arcs: seq<Arc>, i: nat, fuel: nat, sinkSide: bool, delta: real): (r: Pushed)
    requires TreeLinks(nodes, arcs) && i < |nodes|
    ensures |r.nodes| == |nodes| && |r.arcs| == |arcs| && r.end < |nodes| && PathIn(r.path, arcs)
    decreases fuel
  {
    if fuel == 0 || !nodes[i].parent.Arc? then Pushed(nodes, arcs, [], [], i)
    else
      var a := nodes[i].parent.arc;
      var arcs' := Push(arcs, a, delta);
      var orphan := PushedOrphan(arcs, a, sinkSide, delta);
      var nodes' := if orphan then nodes[i := nodes[i].(parent := Orphan)] else nodes;
      var r := PushWalk(nodes', arcs', arcs[a].head, fuel - 1, sinkSide, delta);
      r.(orphaned := r.orphaned + (if orphan then [i] else []), path := [a] + r.path)
  }

  /** Phase 2 on one side keeps the links the tree walks follow inside the arena. */
  lemma {:induction false} PushWalkLinks(nodes: seq<Node>, arcs: seq<Arc>, i: nat, fuel: nat, sinkSide: bool, delta: real)
    requires TreeLinks(nodes, arcs) && i < |nodes|
    ensures var r := PushWalk(nodes, arcs, i, fuel, sinkSide, delta);
      TreeLinks(r.nodes, r.arcs)
    decreases fuel
  {
    if fuel > 0 && nodes[i].parent.Arc? {
      var a := nodes[i].parent.arc;
      var orphan := PushedOrphan(arcs, a, sinkSide, delta);
      var nodes' := if orphan then nodes[i := nodes[i].(parent := Orphan)] else nodes;
      PushWalkStep(nodes, arcs, i, fuel, sinkSide, delta, nodes', Push(arcs, a, delta), orphan);
      PushWalkLinks(nodes', Push(arcs, a, delta), arcs[a].head, fuel - 1, sinkSide, delta);
    }
  }

  /** The arcs after phase 2 are the old ones pushed along the path it took. */
  lemma {:induction false} PushWalkArcs(nodes: seq<Node>, arcs: seq<Arc>, i: nat, fuel: nat, sinkSide: bool, delta: real)
    requires TreeLinks(nodes, arcs) && i < |nodes|
    ensures var r := PushWalk(nodes, arcs, i, fuel, sinkSide, delta);
      r.arcs == PushAll(arcs, r.path, delta)
    decreases fuel
  {
    if fuel > 0 && nodes[i].parent.Arc? {
      var a := nodes[i].parent.arc;
      var arcs' := Push(arcs, a, delta);
      TreeLinksPush(nodes, arcs, a, delta);
      TreeLinksOrphan(nodes, arcs', i);
      var nodes' := if PushedOrphan(arcs, a, sinkSide, delta) then nodes[i := nodes[i].(parent := Orphan)] else nodes;
      PushWalkArcs(nodes', arcs', arcs[a].head, fuel - 1, sinkSide, delta);
      var r := PushWalk(nodes', arcs', arcs[a].head, fuel - 1, sinkSide, delta);
      assert ([a] + r.path)[1..] == r.path;
    }
  }

  lemma OnlyOrphanedTransitive(x: seq<Node>, y: seq<Node>, z: seq<Node>)
    requires OnlyOrphaned(x, y) && OnlyOrphaned(y, z)
    ensures OnlyOrphaned(x, z)
  {
  }

  /** Phase 2 changes no node except by making it an orphan. */
  lemma {:induction false} PushWalkOnlyOrphans(nodes: seq<Node>, arcs: seq<Arc>, i: nat, fuel: nat, sinkSide: bool, delta: real)
    requires TreeLinks(nodes, arcs) && i < |nodes|
    ensures OnlyOrphaned(nodes, PushWalk(nodes, arcs, i, fuel, sinkSide, delta).nodes)
    decreases fuel
  {
    if fuel > 0 && nodes[i].parent.Arc? {
      var a := nodes[i].parent.arc;
      var orphan := PushedOrphan(arcs, a, sinkSide, delta);
      var nodes' := if orphan then nodes[i := nodes[i].(parent := Orphan)] else nodes;
      PushWalkStep(nodes, arcs, i, fuel, sinkSide, delta, nodes', Push(arcs, a, delta), orphan);
      PushWalkOnlyOrphans(nodes', Push(arcs, a, delta), arcs[a].head, fuel - 1, sinkSide, delta);
      assert OnlyOrphaned(nodes, nodes');
      OnlyOrphanedTransitive(nodes, nodes', PushWalk(nodes', Push(arcs, a, delta), arcs[a].head, fuel - 1, sinkSide, delta).nodes);
    }
  }

  /** Every node phase 2 lists as orphaned is now ORPHAN. */
  lemma {:induction false} PushWalkOrphansMarked(nodes: seq<Node>, arcs: seq<Arc>, i: nat, fuel: nat, sinkSide: bool, delta: real)
    requires TreeLinks(nodes, arcs) && i < |nodes|
    ensures var r := PushWalk(nodes, arcs, i, fuel, sinkSide, delta);
      forall x :: x in r.orphaned ==> x < |nodes| && r.nodes[x].parent == Orphan
    decreases fuel
  {
    if fuel > 0 && nodes[i].parent.Arc? {
      var a := nodes[i].parent.arc;
      var orphan := PushedOrphan(arcs, a, sinkSide, delta);
      var nodes' := if orphan then nodes[i := nodes[i].(parent := Orphan)] else nodes;
      var arcs' := Push(arcs, a, delta);
      PushWalkStep(nodes, arcs, i, fuel, sinkSide, delta, nodes', arcs', orphan);
      PushWalkOrphansMarked(nodes', arcs', arcs[a].head, fuel - 1, sinkSide, delta);
      var r' := PushWalk(nodes', arcs', arcs[a].head, fuel - 1, sinkSide, delta);
      var r := PushWalk(nodes, arcs, i, fuel, sinkSide, delta);
      assert r.nodes == r'.nodes && r.orphaned == r'.orphaned + (if orphan then [i] else []);
      if orphan {
        PushWalkOnlyOrphans(nodes', arcs', arcs[a].head, fuel - 1, sinkSide, delta);
        assert r'.nodes[i].parent == Orphan;
      }
    }
  }

  /** Every node whose parent phase 2 changed is on the list of orphans it made. */
  lemma {:induction false} PushWalkOrphansListed(nodes: seq<Node>, arcs: seq<Arc>, i: nat, fuel: nat, sinkSide: bool, delta: real)
    requires TreeLinks(nodes, arcs) && i < |nodes|
    ensures var r := PushWalk(nodes, arcs, i, fuel, sinkSide, delta);
      forall x :: 0 <= x < |nodes| && r.nodes[x].parent != nodes[x].parent ==> x in r.orphaned
    decreases fuel
  {
    if fuel > 0 && nodes[i].parent.Arc? {
      var a := nodes[i].parent.arc;
      var orphan := PushedOrphan(arcs, a, sinkSide, delta);
      var nodes' := if orphan then nodes[i := nodes[i].(parent := Orphan)] else nodes;
      var arcs' := Push(arcs, a, delta);
      PushWalkStep(nodes, arcs, i, fuel, sinkSide, delta, nodes', arcs', orphan);
      PushWalkOrphansListed(nodes', arcs', arcs[a].head, fuel - 1, sinkSide, delta);
    }
  }

  /** The nodes `Walk` passes through are all different. */
  ghost predicate Distinct(v: seq<nat>)
  {
    forall k, m :: 0 <= k < m < |v| ==> v[k] != v[m]
  }

  lemma DistinctTail(v: seq<nat>)
    requires Distinct(v) && |v| > 0
    ensures Distinct(v[1..]) && v[0] !in v[1..]
  {
    forall k, m | 0 <= k < m < |v| - 1
      ensures v[1..][k] != v[1..][m]
    {
      assert v[1..][k] == v[k + 1] && v[1..][m] == v[m + 1];
    }
  }

  /**
   * Phase 2 re-walks the tree that phase 1 walked: as long as the parents
   * differ from the original ones only by orphaning, the arcs it pushes along
   * are a prefix of the original walk.
   */
  lemma {:induction false} PushWalkFollowsWalk(nodes0: seq<Node>, arcs0: seq<Arc>, nodes: seq<Node>, arcs: seq<Arc>,
                                               i: nat, fuel: nat, sinkSide: bool, delta: real)
    requires TreeLinks(nodes0, arcs0) && TreeLinks(nodes, arcs) && i < |nodes|
    requires OnlyOrphaned(nodes0, nodes) && SameArcLinks(arcs0, arcs)
    ensures var p := PushWalk(nodes, arcs, i, fuel, sinkSide, delta).path;
      var w := Walk(nodes0, arcs0, i, fuel);
      |p| <= |w| && p == w[..|p|]
    decreases fuel
  {
    if fuel > 0 && nodes[i].parent.Arc? {
      var a := nodes[i].parent.arc;
      assert nodes0[i].parent == Parent.Arc(a);
      var arcs' := Push(arcs, a, delta);
      TreeLinksPush(nodes, arcs, a, delta);
      SameArcLinksTransitive(arcs0, arcs, arcs');
      TreeLinksOrphan(nodes, arcs', i);
      var nodes' := if PushedOrphan(arcs, a, sinkSide, delta) then nodes[i := nodes[i].(parent := Orphan)] else nodes;
      OrphaningKeepsOnlyOrphaned(nodes0, nodes, i);
      PushWalkFollowsWalk(nodes0, arcs0, nodes', arcs', arcs[a].head, fuel - 1, sinkSide, delta);
    }
  }

  /**
   * When the walk visits no node twice (as it cannot in a search tree) and
   * the parents on it are as they were, phase 2 pushes along the whole walk
   * of phase 1 and stops at the same root.
   */
  lemma {:induction false} PushWalkWhole(nodes0: seq<Node>, arcs0: seq<Arc>, nodes: seq<Node>, arcs: seq<Arc>,
                                         i: nat, fuel: nat, sinkSide: bool, delta: real)
    requires TreeLinks(nodes0, arcs0) && TreeLinks(nodes, arcs) && i < |nodes| == |nodes0|
    requires SameArcLinks(arcs0, arcs) && Distinct(Trail(nodes0, arcs0, i, fuel))
    requires ParentsKeptOn(nodes0, nodes, Trail(nodes0, arcs0, i, fuel))
    ensures var r := PushWalk(nodes, arcs, i, fuel, sinkSide, delta);
      r.path == Walk(nodes0, arcs0, i, fuel) && r.end == WalkEnd(nodes0, arcs0, i, fuel)
    decreases fuel
  {
    var v := Trail(nodes0, arcs0, i, fuel);
    assert 0 < |v| && v[0] == i;
    var r := PushWalk(nodes, arcs, i, fuel, sinkSide, delta);
    if fuel > 0 && nodes[i].parent.Arc? {
      var a := nodes[i].parent.arc;
      var next := arcs0[a].head;
      assert next == arcs[a].head;
      TrailStep(nodes0, arcs0, i, fuel);
      var tail := Trail(nodes0, arcs0, next, fuel - 1);
      var arcs' := Push(arcs, a, delta);
      var orphan := PushedOrphan(arcs, a, sinkSide, delta);
      var nodes' := if orphan then nodes[i := nodes[i].(parent := Orphan)] else nodes;
      PushWalkStep(nodes, arcs, i, fuel, sinkSide, delta, nodes', arcs', orphan);
      TreeLinksPush(nodes, arcs, a, delta);
      SameArcLinksTransitive(arcs0, arcs, arcs');
      TailParentsKept(nodes0, nodes, v, tail, i);
      DistinctTail(v);
      assert v[1..] == tail;
      PushWalkWhole(nodes0, arcs0, nodes', arcs', next, fuel - 1, sinkSide, delta);
      var r' := PushWalk(nodes', arcs', next, fuel - 1, sinkSide, delta);
      assert r.path == [a] + r'.path && r.end == r'.end;
    } else {
      assert r.path == [] && r.end == i;
    }
  }

  /** `Walk`, `WalkEnd` and `Trail` unfolded by one step. */
  lemma TrailStep(nodes: seq<Node>, arcs: seq<Arc>, i: nat, fuel: nat)
    requires TreeLinks(nodes, arcs) && i < |nodes| && 0 < fuel && nodes[i].parent.Arc?
    ensures var a := nodes[i].parent.arc;
      var next := arcs[a].head;
      && next < |nodes|
      && Trail(nodes, arcs, i, fuel) == [i] + Trail(nodes, arcs, next, fuel - 1)
      && Walk(nodes, arcs, i, fuel) == [a] + Walk(nodes, arcs, next, fuel - 1)
      && WalkEnd(nodes, arcs, i, fuel) == WalkEnd(nodes, arcs, next, fuel - 1)
  {
  }

  /** Every node on `v` has the same parent in `x` and `y`. */
  ghost predicate ParentsKeptOn(x: seq<Node>, y: seq<Node>, v: seq<nat>)
  {
    forall k :: 0 <= k < |v| ==> v[k] < |x| && v[k] < |y| && y[v[k]].parent == x[v[k]].parent
  }

  /** Orphaning the first node of a trail that visits no node twice keeps the parents on the rest of it. */
  lemma TailParentsKept(nodes0: seq<Node>, nodes: seq<Node>, v: seq<nat>, tail: seq<nat>, i: nat)
    requires Distinct(v) && v == [i] + tail && ParentsKeptOn(nodes0, nodes, v) && i < |nodes|
    ensures ParentsKeptOn(nodes0, nodes[i := nodes[i].(parent := Orphan)], tail)
    ensures ParentsKeptOn(nodes0, nodes, tail)
  {
    forall k | 0 <= k < |tail|
      ensures tail[k] != i && tail[k] < |nodes0| && tail[k] < |nodes| && nodes[tail[k]].parent == nodes0[tail[k]].parent
    {
      assert tail[k] == v[k + 1] && i == v[0];
    }
  }

  /**
   * One step of phase 2 of `augment`: moves `delta` onto arc `a` (the parent
   * arc of node `i`) from its sister, and orphans `i` when the tree capacity
   * of `a` is used up, pushing it at the front of the orphan list.
   */
  method PushStep(nodes: seq<Node>, arcs: seq<Arc>, orphans: seq<nat>, i: nat, a: nat, sinkSide: bool, delta: real)
    returns (nodes': seq<Node>, arcs': seq<Arc>, orphans': seq<nat>, orphaned: bool)
    requires TreeLinks(nodes, arcs) && i < |nodes| && nodes[i].parent == Parent.Arc(a)
    ensures Mate(a) < |arcs| && arcs' == Push(arcs, a, delta)
    ensures orphaned == PushedOrphan(arcs, a, sinkSide, delta)
    ensures orphaned ==> nodes' == nodes[i := nodes[i].(parent := Orphan)] && orphans' == [i] + orphans
    ensures !orphaned ==> nodes' == nodes && orphans' == orphans
  {
    nodes', orphans' := nodes, orphans;
    var sister := arcs[a].sister;
    arcs' := arcs[a := arcs[a].(residualCapacity := arcs[a].residualCapacity + delta)];
    arcs' := arcs'[sister := arcs'[sister].(residualCapacity := arcs'[sister].residualCapacity - delta)];
    var c := if sinkSide then arcs'[a].residualCapacity else arcs'[sister].residualCapacity;
    orphaned := c <= 0.0;
    if orphaned {
      nodes' := nodes[i := nodes[i].(parent := Orphan)];
      orphans' := [i] + orphans;
    }
  }

  /** One step of `PushWalk` unfolded: what `PushStep` does, then the rest of the walk. */
  lemma PushWalkStep(nodes: seq<Node>, arcs: seq<Arc>, i: nat, fuel: nat, sinkSide: bool, delta: real,
                     nodes': seq<Node>, arcs': seq<Arc>, orphaned: bool)
    requires TreeLinks(nodes, arcs) && i < |nodes| && 0 < fuel && nodes[i].parent.Arc?
    requires arcs' == Push(arcs, nodes[i].parent.arc, delta)
    requires orphaned == PushedOrphan(arcs, nodes[i].parent.arc, sinkSide, delta)
    requires nodes' == if orphaned then nodes[i := nodes[i].(parent := Orphan)] else nodes
    ensures TreeLinks(nodes', arcs') && arcs[nodes[i].parent.arc].head < |nodes'|
    ensures var r := PushWalk(nodes', arcs', arcs[nodes[i].parent.arc].head, fuel - 1, sinkSide, delta);
      PushWalk(nodes, arcs, i, fuel, sinkSide, delta) ==
        r.(orphaned := r.orphaned + (if orphaned then [i] else []), path := [nodes[i].parent.arc] + r.path)
  {
    TreeLinksPush(nodes, arcs, nodes[i].parent.arc, delta);
    TreeLinksOrphan(nodes, arcs', i);
  }

  /**
   * The loop of `PushAlongWalk` is part way through `t`, which started from
   * the orphan list `orphans0`: `r`, the rest of the walk, completes it from
   * the current orphan list `orphans`.
   */
  ghost predicate Resumes(r: Pushed, orphans: seq<nat>, t: Pushed, orphans0: seq<nat>)
  {
    r.(orphaned := r.orphaned + orphans, path := []) == t.(orphaned := t.orphaned + orphans0, path := [])
  }

  /** After one step of `PushAlongWalk`, the rest of the walk still completes `t`. */
  lemma ResumesStep(nodes: seq<Node>, arcs: seq<Arc>, orphans: seq<nat>, i: nat, fuel: nat, sinkSide: bool, delta: real,
                    nodes': seq<Node>, arcs': seq<Arc>, orphans': seq<nat>, next: nat, t: Pushed, orphans0: seq<nat>)
    requires TreeLinks(nodes, arcs) && i < |nodes| && 0 < fuel && nodes[i].parent.Arc?
    requires next == arcs[nodes[i].parent.arc].head
    requires arcs' == Push(arcs, nodes[i].parent.arc, delta)
    requires PushedOrphan(arcs, nodes[i].parent.arc, sinkSide, delta) ==>
      nodes' == nodes[i := nodes[i].(parent := Orphan)] && orphans' == [i] + orphans
    requires !PushedOrphan(arcs, nodes[i].parent.arc, sinkSide, delta) ==> nodes' == nodes && orphans' == orphans
    requires Resumes(PushWalk(nodes, arcs, i, fuel, sinkSide, delta), orphans, t, orphans0)
    ensures TreeLinks(nodes', arcs') && next < |nodes'| == |nodes|
    ensures Resumes(PushWalk(nodes', arcs', next, fuel - 1, sinkSide, delta), orphans', t, orphans0)
  {
    var orphaned := PushedOrphan(arcs, nodes[i].parent.arc, sinkSide, delta);
    PushWalkStep(nodes, arcs, i, fuel, sinkSide, delta, nodes', arcs', orphaned);
    var r := PushWalk(nodes', arcs', next, fuel - 1, sinkSide, delta);
    if orphaned {
      assert r.orphaned + ([i] + orphans) == (r.orphaned + [i]) + orphans;
    } else {
      assert r.orphaned + [] == r.orphaned;
    }
  }

  /**
   * Phase 2 of `augment` on one side, the loop: computes `PushWalk` from
   * `start`, for at most as many steps as there are nodes, pushing each
   * orphan at the front of `orphans`.
   */
  method PushAlongWalk(nodes: seq<Node>, arcs: seq<Arc>, orphans: seq<nat>, start: nat, sinkSide: bool, delta: real)
    returns (nodes': seq<Node>, arcs': seq<Arc>, orphans': seq<nat>, end: nat)
    requires TreeLinks(nodes, arcs) && start < |nodes|
    ensures var r := PushWalk(nodes, arcs, start, |nodes|, sinkSide, delta);
      nodes' == r.nodes && arcs' == r.arcs && orphans' == r.orphaned + orphans && end == r.end
  {
    ghost var t := PushWalk(nodes, arcs, start, |nodes|, sinkSide, delta);
    nodes', arcs', orphans' := nodes, arcs, orphans;
    end := start;
    var fuel: nat := |nodes|;
    while fuel > 0 && nodes'[end].parent.Arc?
      invariant |nodes'| == |nodes| && end < |nodes| && TreeLinks(nodes', arcs')
      invariant Resumes(PushWalk(nodes', arcs', end, fuel, sinkSide, delta), orphans', t, orphans)
    {
      var a := nodes'[end].parent.arc;
      var next := arcs'[a].head;
      var orphaned;
      ghost var (n0, a0, e0, o0) := (nodes', arcs', end, orphans');
      nodes', arcs', orphans', orphaned := PushStep(nodes', arcs', orphans', end, a, sinkSide, delta);
      ResumesStep(n0, a0, o0, e0, fuel, sinkSide, delta, nodes', arcs', orphans', next, t, orphans);
      end := next;
      fuel := fuel - 1;
    }
    assert PushWalk(nodes', arcs', end, fuel, sinkSide, delta).orphaned == [];
  }

  /**
   * The last step of phase 2 on one side: takes `delta` off the root's
   * terminal capacity (the source root gives up the bottleneck, the sink
   * root, whose capacity is negative, takes it back) and orphans the root
   * when that capacity is no longer positive. Returns the new nodes and the
   * orphan made, if any.
   */
  ghost function RootUpdate(nodes: seq<Node>, i: nat, delta: real): (r: (seq<Node>, seq<nat>))
    requires i < |nodes|
    ensures |r.0| == |nodes|
  {
    var n := nodes[i].(residualCapacity := nodes[i].residualCapacity - delta);
    if n.residualCapacity <= 0.0 then (nodes[i := n.(parent := Orphan)], [i]) else (nodes[i := n], [])
  }

  /**
   * The sink root takes back a bottleneck no larger than its negative
   * terminal capacity, so the test `<= 0` always holds there: the root is
   * orphaned even when capacity towards the sink is left.
   */
  lemma SinkRootAlwaysOrphaned(nodes: seq<Node>, i: nat, b: real)
    requires i < |nodes| && nodes[i].residualCapacity < 0.0 && 0.0 < b <= -nodes[i].residualCapacity
    ensures var r := RootUpdate(nodes, i, -b);
      && r.0[i].parent == Orphan && r.1 == [i]
      && r.0[i].residualCapacity == nodes[i].residualCapacity + b
      && (b < -nodes[i].residualCapacity ==> r.0[i].residualCapacity < 0.0)
  {
  }

  /** Phase 2 of `augment` on one side: `PushWalk` from `start`, then `RootUpdate` at the node it stopped at. */
  ghost function PushTree(nodes: seq<Node>, arcs: seq<Arc>, start: nat, sinkSide: bool, delta: real): (r: Pushed)
    requires TreeLinks(nodes, arcs) && start < |nodes|
    ensures |r.nodes| == |nodes| && |r.arcs| == |arcs|
  {
    var w := PushWalk(nodes, arcs, start, |nodes|, sinkSide, delta);
    var root := RootUpdate(w.nodes, w.end, delta);
    w.(nodes := root.0, orphaned := root.1 + w.orphaned)
  }

  /** Phase 2 on one side keeps the links the tree walks follow inside the arena. */
  lemma PushTreeLinks(nodes: seq<Node>, arcs: seq<Arc>, start: nat, sinkSide: bool, delta: real)
    requires TreeLinks(nodes, arcs) && start < |nodes|
    ensures var r := PushTree(nodes, arcs, start, sinkSide, delta);
      TreeLinks(r.nodes, r.arcs)
  {
    var w := PushWalk(nodes, arcs, start, |nodes|, sinkSide, delta);
    PushWalkLinks(nodes, arcs, start, |nodes|, sinkSide, delta);
    var root := RootUpdate(w.nodes, w.end, delta);
    assert forall k :: 0 <= k < |root.0| ==> root.0[k].parent == w.nodes[k].parent || root.0[k].parent == Orphan;
  }

  /**
   * Phase 2 of `augment` as a function of the arena: pushes bottleneck `b`
   * through arc `middle`, then along the source tree from the middle arc's
   * tail and along the sink tree from its head. Returns the nodes, the arcs
   * and the orphans made, in the order that pushing each at the front of the
   * orphan list leaves them.
   */
  ghost function Augmented(nodes: seq<Node>, arcs: seq<Arc>, middle: nat, b: real): (r: (seq<Node>, seq<Arc>, seq<nat>))
    requires TreeLinks(nodes, arcs) && middle < |arcs|
    ensures |r.0| == |nodes| && |r.1| == |arcs|
  {
    TreeLinksPush(nodes, arcs, middle, -b);
    var src := PushTree(nodes, Push(arcs, middle, -b), arcs[Mate(middle)].head, false, b);
    PushTreeLinks(nodes, Push(arcs, middle, -b), arcs[Mate(middle)].head, false, b);
    var snk := PushTree(src.nodes, src.arcs, arcs[middle].head, true, -b);
    (snk.nodes, snk.arcs, snk.orphaned + src.orphaned)
  }

  /** Phase 1 of `augment`: the bottleneck of the augmenting path through arc `middle`. */
  method FindBottleneck(nodes: seq<Node>, arcs: seq<Arc>, middle: nat) returns (b: real)
    requires TreeLinks(nodes, arcs) && middle < |arcs|
    ensures IsBottleneck(nodes, arcs, middle, b)
  {
    // 1a - the source tree
    var sourceRoot, sinkRoot;
    b, sourceRoot := BottleneckWalk(nodes, arcs, arcs[arcs[middle].sister].head, false, arcs[middle].residualCapacity);
    if b > nodes[sourceRoot].residualCapacity {
      b := nodes[sourceRoot].residualCapacity;
    }
    // 1b - the sink tree
    b, sinkRoot := BottleneckWalk(nodes, arcs, arcs[middle].head, true, b);
    if b > -nodes[sinkRoot].residualCapacity {
      b := -nodes[sinkRoot].residualCapacity;
    }
    BottleneckOfBounds(nodes, arcs, middle, b, Walk(nodes, arcs, arcs[Mate(middle)].head, |nodes|),
                       Walk(nodes, arcs, arcs[middle].head, |nodes|));
  }

  /** Phase 2 of `augment` on one side, computing `PushTree` and pushing the orphans at the front of `orphans`. */
  method PushAlongTree(nodes: seq<Node>, arcs: seq<Arc>, orphans: seq<nat>, start: nat, sinkSide: bool, delta: real)
    returns (nodes': seq<Node>, arcs': seq<Arc>, orphans': seq<nat>)
    requires TreeLinks(nodes, arcs) && start < |nodes|
    ensures var r := PushTree(nodes, arcs, start, sinkSide, delta);
      nodes' == r.nodes && arcs' == r.arcs && orphans' == r.orphaned + orphans
  {
    var root;
    nodes', arcs', orphans', root := PushAlongWalk(nodes, arcs, orphans, start, sinkSide, delta);
    ghost var w := PushWalk(nodes, arcs, start, |nodes|, sinkSide, delta);
    nodes' := nodes'[root := nodes'[root].(residualCapacity := nodes'[root].residualCapacity - delta)];
    if nodes'[root].residualCapacity <= 0.0 {
      // add i to the adoption list
      nodes' := nodes'[root := nodes'[root].(parent := Orphan)];
      orphans' := [root] + orphans';
      assert orphans' == ([root] + w.orphaned) + orphans;
    }
  }

  lemma AppendAssociative(x: seq<nat>, y: seq<nat>, z: seq<nat>)
    ensures (x + y) + z == x + (y + z)
  {
  }

  /** Phase 2 of `augment`: pushes `b` along the path through `middle` (see `Augmented`). */
  method PushBottleneck(nodes: seq<Node>, arcs: seq<Arc>, orphans: seq<nat>, middle: nat, b: real)
    returns (nodes': seq<Node>, arcs': seq<Arc>, orphans': seq<nat>)
    requires TreeLinks(nodes, arcs) && middle < |arcs|
    ensures var r := Augmented(nodes, arcs, middle, b);
      nodes' == r.0 && arcs' == r.1 && orphans' == r.2 + orphans
  {
    var sister := arcs[middle].sister;
    var arcs1 := arcs[sister := arcs[sister].(residualCapacity := arcs[sister].residualCapacity + b)];
    arcs1 := arcs1[middle := arcs1[middle].(residualCapacity := arcs1[middle].residualCapacity - b)];
    assert arcs1 == Push(arcs, middle, -b) && sister == Mate(middle);
    // 2a - the source tree
    var nodes2, arcs2, orphans2 := PushAlongTree(nodes, arcs1, orphans, arcs[sister].head, false, b);
    PushTreeLinks(nodes, arcs1, arcs[sister].head, false, b);
    // 2b - the sink tree
    nodes', arcs', orphans' := PushAlongTree(nodes2, arcs2, orphans2, arcs[middle].head, true, -b);
    ghost var src := PushTree(nodes, arcs1, arcs[sister].head, false, b);
    ghost var snk := PushTree(nodes2, arcs2, arcs[middle].head, true, -b);
    AugmentedIs(nodes, arcs, middle, b);
    AppendAssociative(snk.orphaned, src.orphaned, orphans);
  }

  /** `Augmented` is the push on the middle arc followed by the pushes along the two tree walks. */
  lemma AugmentedIs(nodes: seq<Node>, arcs: seq<Arc>, middle: nat, b: real)
    requires TreeLinks(nodes, arcs) && middle < |arcs|
    ensures TreeLinks(nodes, Push(arcs, middle, -b))
    ensures var src := PushTree(nodes, Push(arcs, middle, -b), arcs[Mate(middle)].head, false, b);
      && TreeLinks(src.nodes, src.arcs)
      && var snk := PushTree(src.nodes, src.arcs, arcs[middle].head, true, -b);
         Augmented(nodes, arcs, middle, b) == (snk.nodes, snk.arcs, snk.orphaned + src.orphaned)
  {
    TreeLinksPush(nodes, arcs, middle, -b);
    PushTreeLinks(nodes, Push(arcs, middle, -b), arcs[Mate(middle)].head, false, b);
  }

  /**
   * `augment` on the arena: finds the bottleneck of the path through arc
   * `middle` and pushes it, adding the orphans it makes at the front of
   * `orphans`.
   */
  method AugmentArena(nodes: seq<Node>, arcs: seq<Arc>, orphans: seq<nat>, middle: nat)
    returns (nodes': seq<Node>, arcs': seq<Arc>, orphans': seq<nat>, b: real)
    requires TreeLinks(nodes, arcs) && middle < |arcs|
    ensures IsBottleneck(nodes, arcs, middle, b)
    ensures var r := Augmented(nodes, arcs, middle, b);
      nodes' == r.0 && arcs' == r.1 && orphans' == r.2 + orphans
  {
    b := FindBottleneck(nodes, arcs, middle);
    nodes', arcs', orphans' := PushBottleneck(nodes, arcs, orphans, middle, b);
  }

  /**
   * `y` differs from `x` only in parents and terminal capacities, every
   * changed parent is ORPHAN and its node is in `listed`, and every node in
   * `listed` is an ORPHAN in `y`.
   */
  ghost predicate Reparented(x: seq<Node>, y: seq<Node>, listed: seq<nat>)
  {
    && |x| == |y|
    && (forall k :: 0 <= k < |x| ==>
          && y[k] == x[k].(parent := y[k].parent, residualCapacity := y[k].residualCapacity)
          && (y[k].parent != x[k].parent ==> y[k].parent == Orphan && k in listed))
    && (forall k :: k in listed ==> k < |y| && y[k].parent == Orphan)
  }

  lemma ReparentedTransitive(x: seq<Node>, y: seq<Node>, z: seq<Node>, l1: seq<nat>, l2: seq<nat>)
    requires Reparented(x, y, l1) && Reparented(y, z, l2)
    ensures Reparented(x, z, l2 + l1)
  {
    forall k | k in l2 + l1
      ensures k < |z| && z[k].parent == Orphan
    {
      if k in l1 {
        assert y[k].parent == Orphan;
      }
    }
  }

  lemma ReparentedKeepsShape(x: seq<Node>, y: seq<Node>, arcs: seq<Arc>, listed: seq<nat>)
    requires Shape(x, arcs) && Reparented(x, y, listed)
    ensures Shape(y, arcs)
  {
    assert forall k :: 0 <= k < |y| ==> NodeOk(x[k], |x|, |arcs|);
  }

  /**
   * Phase 2 on one side changes nodes only by orphaning them and by the root
   * update, and lists every orphan it makes.
   */
  lemma PushTreeReparents(nodes: seq<Node>, arcs: seq<Arc>, start: nat, sinkSide: bool, delta: real)
    requires TreeLinks(nodes, arcs) && start < |nodes|
    ensures var r := PushTree(nodes, arcs, start, sinkSide, delta);
      Reparented(nodes, r.nodes, r.orphaned)
  {
    var w := PushWalk(nodes, arcs, start, |nodes|, sinkSide, delta);
    PushWalkOnlyOrphans(nodes, arcs, start, |nodes|, sinkSide, delta);
    PushWalkOrphansMarked(nodes, arcs, start, |nodes|, sinkSide, delta);
    PushWalkOrphansListed(nodes, arcs, start, |nodes|, sinkSide, delta);
    assert Reparented(nodes, w.nodes, w.orphaned);
    var root := RootUpdate(w.nodes, w.end, delta);
    assert Reparented(w.nodes, root.0, root.1);
    ReparentedTransitive(nodes, w.nodes, root.0, w.orphaned, root.1);
  }

  /** Phase 2 on one side keeps the arena well formed. */
  lemma PushTreeKeepsShape(nodes: seq<Node>, arcs: seq<Arc>, start: nat, sinkSide: bool, delta: real)
    requires Shape(nodes, arcs) && start < |nodes|
    ensures TreeLinks(nodes, arcs)
    ensures var r := PushTree(nodes, arcs, start, sinkSide, delta);
      Shape(r.nodes, r.arcs)
  {
    ShapeTreeLinks(nodes, arcs);
    var w := PushWalk(nodes, arcs, start, |nodes|, sinkSide, delta);
    PushWalkArcs(nodes, arcs, start, |nodes|, sinkSide, delta);
    PushAllKeepsShape(nodes, arcs, w.path, delta);
    PushTreeReparents(nodes, arcs, start, sinkSide, delta);
    ReparentedKeepsShape(nodes, PushTree(nodes, arcs, start, sinkSide, delta).nodes, w.arcs,
                         PushTree(nodes, arcs, start, sinkSide, delta).orphaned);
  }

  /** Phase 2 on one side changes no arc's head, list link or sister. */
  lemma PushTreeKeepsLinks(nodes: seq<Node>, arcs: seq<Arc>, start: nat, sinkSide: bool, delta: real)
    requires TreeLinks(nodes, arcs) && start < |nodes|
    ensures SameArcLinks(arcs, PushTree(nodes, arcs, start, sinkSide, delta).arcs)
  {
    var w := PushWalk(nodes, arcs, start, |nodes|, sinkSide, delta);
    PushWalkArcs(nodes, arcs, start, |nodes|, sinkSide, delta);
    PushAllKeepsLinks(arcs, w.path, delta);
  }

  /** Phase 2 on one side keeps every sister pair's capacity sum. */
  lemma PushTreeKeepsSums(nodes: seq<Node>, arcs: seq<Arc>, start: nat, sinkSide: bool, delta: real)
    requires TreeLinks(nodes, arcs) && start < |nodes|
    ensures SameSums(arcs, PushTree(nodes, arcs, start, sinkSide, delta).arcs)
  {
    var w := PushWalk(nodes, arcs, start, |nodes|, sinkSide, delta);
    PushWalkArcs(nodes, arcs, start, |nodes|, sinkSide, delta);
    PushAllKeepsSums(arcs, w.path, delta);
  }

  /** `augment` keeps the arena well formed. */
  lemma AugmentKeepsShape(nodes: seq<Node>, arcs: seq<Arc>, middle: nat, b: real)
    requires Shape(nodes, arcs) && middle < |arcs|
    ensures TreeLinks(nodes, arcs)
    ensures var r := Augmented(nodes, arcs, middle, b);
      Shape(r.0, r.1)
  {
    ShapeTreeLinks(nodes, arcs);
    var arcs1 := Push(arcs, middle, -b);
    PushKeepsShape(nodes, arcs, middle, -b);
    var src := PushTree(nodes, arcs1, arcs[Mate(middle)].head, false, b);
    PushTreeLinks(nodes, arcs1, arcs[Mate(middle)].head, false, b);
    PushTreeKeepsShape(nodes, arcs1, arcs[Mate(middle)].head, false, b);
    PushTreeKeepsShape(src.nodes, src.arcs, arcs[middle].head, true, -b);
  }

  /** `augment` changes no arc's head, list link or sister. */
  lemma AugmentKeepsLinks(nodes: seq<Node>, arcs: seq<Arc>, middle: nat, b: real)
    requires TreeLinks(nodes, arcs) && middle < |arcs|
    ensures SameArcLinks(arcs, Augmented(nodes, arcs, middle, b).1)
  {
    var arcs1 := Push(arcs, middle, -b);
    TreeLinksPush(nodes, arcs, middle, -b);
    var src := PushTree(nodes, arcs1, arcs[Mate(middle)].head, false, b);
    PushTreeLinks(nodes, arcs1, arcs[Mate(middle)].head, false, b);
    PushTreeKeepsLinks(nodes, arcs1, arcs[Mate(middle)].head, false, b);
    var snk := PushTree(src.nodes, src.arcs, arcs[middle].head, true, -b);
    PushTreeKeepsLinks(src.nodes, src.arcs, arcs[middle].head, true, -b);
    SameArcLinksTransitive(arcs, arcs1, src.arcs);
    SameArcLinksTransitive(arcs, src.arcs, snk.arcs);
  }

  /**
   * `augment` only moves residual capacity between an arc and its sister:
   * every sister pair's capacity sum is what it was.
   */
  lemma AugmentKeepsPairSums(nodes: seq<Node>, arcs: seq<Arc>, middle: nat, b: real)
    requires TreeLinks(nodes, arcs) && middle < |arcs|
    ensures SameSums(arcs, Augmented(nodes, arcs, middle, b).1)
  {
    AugmentedIs(nodes, arcs, middle, b);
    var arcs1 := Push(arcs, middle, -b);
    PushKeepsSums(arcs, middle, -b);
    var src := PushTree(nodes, arcs1, arcs[Mate(middle)].head, false, b);
    PushTreeSumsFrom(arcs, nodes, arcs1, arcs[Mate(middle)].head, false, b);
    PushTreeSumsFrom(arcs, src.nodes, src.arcs, arcs[middle].head, true, -b);
  }

  /** Pushing along a tree walk keeps the pair sums of an earlier arena that the arcs already agree with. */
  lemma PushTreeSumsFrom(x: seq<Arc>, nodes: seq<Node>, arcs: seq<Arc>, start: nat, sinkSide: bool, delta: real)
    requires SameSums(x, arcs) && TreeLinks(nodes, arcs) && start < |nodes|
    ensures SameSums(x, PushTree(nodes, arcs, start, sinkSide, delta).arcs)
  {
    PushTreeKeepsSums(nodes, arcs, start, sinkSide, delta);
    SameSumsTransitive(x, arcs, PushTree(nodes, arcs, start, sinkSide, delta).arcs);
  }

  /**
   * `augment` changes nodes only by orphaning them and by updating the two
   * roots' terminal capacities; every node whose parent it changes is now
   * ORPHAN and on the orphan list, and every node it puts on the list is an
   * ORPHAN.
   */
  lemma AugmentOrphans(nodes: seq<Node>, arcs: seq<Arc>, middle: nat, b: real)
    requires TreeLinks(nodes, arcs) && middle < |arcs|
    ensures var r := Augmented(nodes, arcs, middle, b);
      Reparented(nodes, r.0, r.2)
  {
    var arcs1 := Push(arcs, middle, -b);
    TreeLinksPush(nodes, arcs, middle, -b);
    var src := PushTree(nodes, arcs1, arcs[Mate(middle)].head, false, b);
    PushTreeLinks(nodes, arcs1, arcs[Mate(middle)].head, false, b);
    PushTreeReparents(nodes, arcs1, arcs[Mate(middle)].head, false, b);
    var snk := PushTree(src.nodes, src.arcs, arcs[middle].head, true, -b);
    PushTreeReparents(src.nodes, src.arcs, arcs[middle].head, true, -b);
    ReparentedTransitive(nodes, src.nodes, snk.nodes, src.orphaned, snk.orphaned);
  }

  /**
   * `augment(middle)` takes the arena, orphan list and flow `nodes, arcs,
   * orphans, flow` to `nodes', arcs', orphans', flow'` by pushing the
   * bottleneck `flow' - flow` of the path through `middle`.
   */
  ghost predicate AugmentedBy(nodes: seq<Node>, arcs: seq<Arc>, orphans: seq<nat>, flow: real, middle: nat,
                              nodes': seq<Node>, arcs': seq<Arc>, orphans': seq<nat>, flow': real)
  {
    && TreeLinks(nodes, arcs) && middle < |arcs|
    && var b := flow' - flow;
       && IsBottleneck(nodes, arcs, middle, b)
       && var r := Augmented(nodes, arcs, middle, b);
          nodes' == r.0 && arcs' == r.1 && orphans' == r.2 + orphans
  }

  /**
   * After `augment` the arena is well formed, every listed orphan is a node,
   * no arc's links changed, every arc pair keeps its total residual capacity,
   * and every node left ORPHAN was one already or is on the new list.
   */
  lemma AugmentKeepsLists(nodes: seq<Node>, arcs: seq<Arc>, orphans: seq<nat>, middle: nat, b: real,
                          nodes': seq<Node>, arcs': seq<Arc>, orphans': seq<nat>)
    requires Shape(nodes, arcs) && middle < |arcs|
    requires forall k :: 0 <= k < |orphans| ==> orphans[k] < |nodes|
    requires TreeLinks(nodes, arcs)
    requires var r := Augmented(nodes, arcs, middle, b);
      nodes' == r.0 && arcs' == r.1 && orphans' == r.2 + orphans
    ensures Shape(nodes', arcs')
    ensures forall k :: 0 <= k < |orphans'| ==> orphans'[k] < |nodes'|
    ensures SameArcLinks(arcs, arcs') && SameSums(arcs, arcs')
    ensures forall k :: 0 <= k < |nodes| && nodes'[k].parent == Orphan ==> nodes[k].parent == Orphan || k in orphans'
  {
    AugmentKeepsShape(nodes, arcs, middle, b);
    AugmentKeepsLinks(nodes, arcs, middle, b);
    AugmentKeepsPairSums(nodes, arcs, middle, b);
    AugmentOrphans(nodes, arcs, middle, b);
    var r := Augmented(nodes, arcs, middle, b);
    forall k | 0 <= k < |orphans'|
      ensures orphans'[k] < |nodes'|
    {
      if k < |r.2| {
        assert orphans'[k] in r.2;
      } else {
        assert orphans'[k] == orphans[k - |r.2|];
      }
    }
  }
}
