/**
 * Tree growth and orphan adoption in the Boykov-Kolmogorov max-flow solver
 * (sections 3.1 and 3.3 of Boykov and Kolmogorov, TPAMI 2004), as functions
 * of the arena, with the loops that compute them.
 */
module Adoption {
  import opened Graph
  import opened Augmentation

  /** The distance the origin check reports for a node that does not reach a terminal. */
  const INFINITE_DISTANCE: int := 1000000000

  /** `y` differs from `x` at most in the nodes' `next` links. */
  ghost predicate OnlyNextChanged(x: seq<Node>, y: seq<Node>)
  {
    |x| == |y| && forall k :: 0 <= k < |x| ==> y[k] == x[k].(next := y[k].next)
  }

  /** `y` differs from `x` at most in the nodes' timestamps and distances. */
  ghost predicate StampsOnly(x: seq<Node>, y: seq<Node>)
  {
    |x| == |y| && forall k :: 0 <= k < |x| ==> y[k] == x[k].(timestamp := y[k].timestamp, distance := y[k].distance)
  }

  /** Every link the loops of this module follow stays inside the arena. */
  ghost predicate Walkable(nodes: seq<Node>, arcs: seq<Arc>)
  {
    && TreeLinks(nodes, arcs)
    && NextsOlder(arcs)
    && forall k :: 0 <= k < |nodes| ==> NodeOk(nodes[k], |nodes|, |arcs|)
  }

  lemma ShapeWalkable(nodes: seq<Node>, arcs: seq<Arc>)
    requires Shape(nodes, arcs)
    ensures Walkable(nodes, arcs)
  {
  }

  /** A walkable node arena over the arcs of a well-formed arena is well formed. */
  lemma WalkableShape(x: seq<Node>, y: seq<Node>, arcs: seq<Arc>)
    requires Shape(x, arcs) && Walkable(y, arcs) && |x| == |y|
    ensures Shape(y, arcs)
  {
    assert forall a :: 0 <= a < |arcs| ==> ArcOk(a, arcs[a], |x|, |arcs|);
  }

  lemma StampsKeepWalkable(x: seq<Node>, y: seq<Node>, arcs: seq<Arc>)
    requires Walkable(x, arcs) && StampsOnly(x, y)
    ensures Walkable(y, arcs)
  {
    assert forall k :: 0 <= k < |y| ==> NodeOk(x[k], |x|, |arcs|);
  }

  lemma StampsOnlyTransitive(x: seq<Node>, y: seq<Node>, z: seq<Node>)
    requires StampsOnly(x, y) && StampsOnly(y, z)
    ensures StampsOnly(x, z)
  {
  }

  /**
   * The origin check of the orphan processing, from node `j` with count `d`:
   * it follows parents until a node already stamped with `ts` (adding that
   * node's distance), a TERMINAL parent (stamping that root with `ts` and
   * distance 1, and counting it) or an ORPHAN parent (`INFINITE_DISTANCE`).
   * Returns the distance and the nodes after the root's stamp.
   */
  ghost function Origin(nodes: seq<Node>, arcs: seq<Arc>, j: nat, d: int, ts: int, fuel: nat): (r: (int, seq<Node>))
    requires TreeLinks(nodes, arcs) && j < |nodes|
    ensures StampsOnly(nodes, r.1)
    decreases fuel
  {
    if fuel == 0 then (INFINITE_DISTANCE, nodes)
    else if nodes[j].timestamp == ts then (d + nodes[j].distance, nodes)
    else match nodes[j].parent
      case Terminal => (d + 1, nodes[j := nodes[j].(timestamp := ts, distance := 1)])
      case Arc(a) => Origin(nodes, arcs, arcs[a].head, d + 1, ts, fuel - 1)
      case _ => (INFINITE_DISTANCE, nodes)
  }

  /**
   * Setting the marks after a successful origin check: from `j` up to the
   * first node stamped with `ts`, each node gets stamp `ts` and distance `d`,
   * `d - 1`, ... in turn.
   */
  ghost function Marks(nodes: seq<Node>, arcs: seq<Arc>, j: nat, ts: int, d: int, fuel: nat): (r: seq<Node>)
    requires TreeLinks(nodes, arcs) && j < |nodes|
    ensures StampsOnly(nodes, r)
    decreases fuel
  {
    if fuel == 0 || nodes[j].timestamp == ts then nodes
    else
      var marked := nodes[j := nodes[j].(timestamp := ts, distance := d)];
      match nodes[j].parent
      case Arc(a) =>
        var r := Marks(marked, arcs, arcs[a].head, ts, d - 1, fuel - 1);
        StampsOnlyTransitive(nodes, marked, r);
        r
      case _ => marked
  }

  /** The measure of an adjacency-list cursor: lists run towards older arcs. */
  function ListRank(l: Link): nat
  {
    if l.Ptr? then l.index + 1 else 0
  }

  /**
   * The search for a new parent of an orphan on side `sinkSide`, over the arcs
   * from `a0` on in its list: an arc qualifies when it has residual capacity
   * towards the orphan's tree (`TreeCapacity`) and its head is a node of the
   * same tree with a parent. Each qualifying head gets the origin check; when
   * it reaches a terminal, the arc becomes the best one if its distance is
   * below `dMin`, and the marks are set along the path.
   * Returns the nodes, the best arc and its distance.
   */
  ghost function ParentSearch(nodes: seq<Node>, arcs: seq<Arc>, a0: Link, sinkSide: bool, ts: int,
                              best: Link, dMin: int): (r: (seq<Node>, Link, int))
    requires Walkable(nodes, arcs) && LinkIn(a0, |arcs|) && LinkIn(best, |arcs|)
    ensures StampsOnly(nodes, r.0) && LinkIn(r.1, |arcs|)
    decreases ListRank(a0)
  {
    match a0
    case Nil => (nodes, best, dMin)
    case Ptr(a) =>
      var j := arcs[a].head;
      var next := arcs[a].next;
      if TreeCapacity(arcs, a, sinkSide) > 0.0 && nodes[j].sink == sinkSide && !nodes[j].parent.Free? then
        var o := Origin(nodes, arcs, j, 0, ts, |nodes|);
        if o.0 < INFINITE_DISTANCE then
          var marked := Marks(o.1, arcs, j, ts, o.0, |nodes|);
          StampsOnlyTransitive(nodes, o.1, marked);
          StampsKeepWalkable(nodes, marked, arcs);
          var r := if o.0 < dMin then ParentSearch(marked, arcs, next, sinkSide, ts, Ptr(a), o.0)
                   else ParentSearch(marked, arcs, next, sinkSide, ts, best, dMin);
          StampsOnlyTransitive(nodes, marked, r.0);
          r
        else
          StampsKeepWalkable(nodes, o.1, arcs);
          var r := ParentSearch(o.1, arcs, next, sinkSide, ts, best, dMin);
          StampsOnlyTransitive(nodes, o.1, r.0);
          r
      else ParentSearch(nodes, arcs, next, sinkSide, ts, best, dMin)
  }

  /**
   * `setActive(j)` on the nodes and the next-pass queue ends `first1`,
   * `last1`: a node whose `next` is set is taken to be queued already;
   * otherwise an empty queue becomes `j` alone (linked to itself), and a
   * non-empty one only gets `last1.next := j`.
   */
  function Activated(nodes: seq<Node>, first1: Link, last1: Link, j: nat): (r: (seq<Node>, Link, Link))
    requires j < |nodes| && LinkIn(first1, |nodes|) && LinkIn(last1, |nodes|)
    ensures OnlyNextChanged(nodes, r.0) && LinkIn(r.1, |nodes|) && LinkIn(r.2, |nodes|)
    ensures r.2 == last1 || (last1.Nil? && r.1 == r.2 == Ptr(j))
  {
    if nodes[j].next.Ptr? then (nodes, first1, last1)
    else if last1.Ptr? then (nodes[last1.index := nodes[last1.index].(next := Ptr(j))], first1, last1)
    else (nodes[j := nodes[j].(next := Ptr(j))], Ptr(j), Ptr(j))
  }

  lemma ActivatedWalkable(nodes: seq<Node>, arcs: seq<Arc>, first1: Link, last1: Link, j: nat)
    requires Walkable(nodes, arcs) && j < |nodes| && LinkIn(first1, |nodes|) && LinkIn(last1, |nodes|)
    ensures Walkable(Activated(nodes, first1, last1, j).0, arcs)
  {
  }

  /** Replacing node `j` by one with the same `first` and in-range links keeps the arena walkable. */
  lemma NodeUpdateWalkable(nodes: seq<Node>, arcs: seq<Arc>, j: nat, n: Node)
    requires Walkable(nodes, arcs) && j < |nodes| && NodeOk(n, |nodes|, |arcs|)
    ensures Walkable(nodes[j := n], arcs)
  {
  }

  /**
   * Releasing freed orphan `i` on side `sinkSide` from the head `j` of its
   * arc `a`: a `j` in the same tree with a parent is made active when `a` has
   * residual capacity towards the tree, and when `j`'s parent arc points at
   * `i` it becomes an ORPHAN and is appended to the orphan list.
   */
  ghost function ReleaseStep(nodes: seq<Node>, arcs: seq<Arc>, first1: Link, last1: Link, orphans: seq<nat>,
                             a: nat, i: nat, sinkSide: bool): (r: (seq<Node>, Link, Link, seq<nat>))
    requires Walkable(nodes, arcs) && a < |arcs|
    requires LinkIn(first1, |nodes|) && LinkIn(last1, |nodes|)
    ensures Walkable(r.0, arcs) && |r.0| == |nodes| && LinkIn(r.1, |nodes|) && LinkIn(r.2, |nodes|)
    ensures (forall k :: 0 <= k < |orphans| ==> orphans[k] < |nodes|) ==> forall k :: 0 <= k < |r.3| ==> r.3[k] < |nodes|
  {
    var j := arcs[a].head;
    if nodes[j].sink == sinkSide && !nodes[j].parent.Free? then
      var p := nodes[j].parent;
      var act := if TreeCapacity(arcs, a, sinkSide) > 0.0 then Activated(nodes, first1, last1, j)
                 else (nodes, first1, last1);
      ActivatedWalkable(nodes, arcs, first1, last1, j);
      if p.Arc? && arcs[p.arc].head == i then
        NodeUpdateWalkable(act.0, arcs, j, act.0[j].(parent := Orphan));
        (act.0[j := act.0[j].(parent := Orphan)], act.1, act.2, orphans + [j])
      else (act.0, act.1, act.2, orphans)
    else (nodes, first1, last1, orphans)
  }

  /** `ReleaseStep` over the arcs from `a0` on in the list of freed orphan `i`. */
  ghost function Released(nodes: seq<Node>, arcs: seq<Arc>, first1: Link, last1: Link, orphans: seq<nat>,
                          a0: Link, i: nat, sinkSide: bool): (r: (seq<Node>, Link, Link, seq<nat>))
    requires Walkable(nodes, arcs) && LinkIn(a0, |arcs|)
    requires LinkIn(first1, |nodes|) && LinkIn(last1, |nodes|)
    ensures Walkable(r.0, arcs) && |r.0| == |nodes| && LinkIn(r.1, |nodes|) && LinkIn(r.2, |nodes|)
    ensures (forall k :: 0 <= k < |orphans| ==> orphans[k] < |nodes|) ==> forall k :: 0 <= k < |r.3| ==> r.3[k] < |nodes|
    decreases ListRank(a0)
  {
    match a0
    case Nil => (nodes, first1, last1, orphans)
    case Ptr(a) =>
      var s := ReleaseStep(nodes, arcs, first1, last1, orphans, a, i, sinkSide);
      Released(s.0, arcs, s.1, s.2, s.3, arcs[a].next, i, sinkSide)
  }

  /**
   * One step of growing the tree of active node `i` on side `sinkSide`, over
   * its arc `a` to head `j`. When `a` has residual capacity away from the
   * tree (the arc itself from the source tree, its sister from the sink
   * tree), a free `j` joins the tree as `i`'s child and is made active; a `j`
   * of the other tree gives the middle arc of an augmenting path (the arc
   * from the source tree to the sink tree); a `j` of the same tree that is no
   * newer and farther from the root than `i` is re-hung below `i`. Returns
   * the nodes, the next-pass queue ends and the middle arc (`Nil` when the
   * scan goes on).
   */
  ghost function GrowStep(nodes: seq<Node>, arcs: seq<Arc>, first1: Link, last1: Link,
                          a: nat, i: nat, sinkSide: bool): (r: (seq<Node>, Link, Link, Link))
    requires Walkable(nodes, arcs) && a < |arcs| && i < |nodes|
    requires LinkIn(first1, |nodes|) && LinkIn(last1, |nodes|)
    ensures Walkable(r.0, arcs) && |r.0| == |nodes| && LinkIn(r.1, |nodes|) && LinkIn(r.2, |nodes|)
    ensures LinkIn(r.3, |arcs|)
  {
    var j := arcs[a].head;
    var out := if sinkSide then arcs[Mate(a)].residualCapacity else arcs[a].residualCapacity;
    if out > 0.0 then
      var child := nodes[j].(parent := Parent.Arc(Mate(a)), timestamp := nodes[i].timestamp,
                             distance := nodes[i].distance + 1);
      if nodes[j].parent.Free? then
        var joined := nodes[j := child.(sink := sinkSide)];
        NodeUpdateWalkable(nodes, arcs, j, child.(sink := sinkSide));
        ActivatedWalkable(joined, arcs, first1, last1, j);
        var act := Activated(joined, first1, last1, j);
        (act.0, act.1, act.2, Nil)
      else if nodes[j].sink != sinkSide then
        (nodes, first1, last1, Ptr(if sinkSide then Mate(a) else a))
      else if nodes[j].timestamp <= nodes[i].timestamp && nodes[j].distance > nodes[i].distance then
        NodeUpdateWalkable(nodes, arcs, j, child);
        (nodes[j := child], first1, last1, Nil)
      else (nodes, first1, last1, Nil)
    else (nodes, first1, last1, Nil)
  }

  /** `GrowStep` over the arcs from `a0` on in `i`'s list, up to the first middle arc. */
  ghost function Grown(nodes: seq<Node>, arcs: seq<Arc>, first1: Link, last1: Link,
                       a0: Link, i: nat, sinkSide: bool): (r: (seq<Node>, Link, Link, Link))
    requires Walkable(nodes, arcs) && LinkIn(a0, |arcs|) && i < |nodes|
    requires LinkIn(first1, |nodes|) && LinkIn(last1, |nodes|)
    ensures Walkable(r.0, arcs) && |r.0| == |nodes| && LinkIn(r.1, |nodes|) && LinkIn(r.2, |nodes|)
    ensures LinkIn(r.3, |arcs|)
    decreases ListRank(a0)
  {
    match a0
    case Nil => (nodes, first1, last1, Nil)
    case Ptr(a) =>
      var s := GrowStep(nodes, arcs, first1, last1, a, i, sinkSide);
      if s.3.Ptr? then s else Grown(s.0, arcs, s.1, s.2, arcs[a].next, i, sinkSide)
  }

  /**
   * Processing orphan `i` with timestamp `ts`: the parent search over its
   * whole list; the best arc found becomes its parent (stamp `ts`, distance
   * one more than the best), and with none `i` becomes free (stamp 0) and is
   * released from its neighbours.
   * Returns the nodes, the next-pass queue ends and the orphan list.
   */
  ghost function ProcessedOrphan(nodes: seq<Node>, arcs: seq<Arc>, first1: Link, last1: Link, orphans: seq<nat>,
                                 i: nat, ts: int): (r: (seq<Node>, Link, Link, seq<nat>))
    requires Walkable(nodes, arcs) && i < |nodes|
    requires LinkIn(first1, |nodes|) && LinkIn(last1, |nodes|)
    ensures Walkable(r.0, arcs) && |r.0| == |nodes| && LinkIn(r.1, |nodes|) && LinkIn(r.2, |nodes|)
    ensures (forall k :: 0 <= k < |orphans| ==> orphans[k] < |nodes|) ==> forall k :: 0 <= k < |r.3| ==> r.3[k] < |nodes|
  {
    var sinkSide := nodes[i].sink;
    var s := ParentSearch(nodes, arcs, nodes[i].first, sinkSide, ts, Nil, INFINITE_DISTANCE);
    StampsKeepWalkable(nodes, s.0, arcs);
    if s.1.Ptr? then
      var adopted := s.0[i := s.0[i].(parent := Parent.Arc(s.1.index), timestamp := ts, distance := s.2 + 1)];
      NodeUpdateWalkable(s.0, arcs, i, adopted[i]);
      (adopted, first1, last1, orphans)
    else
      var freed := s.0[i := s.0[i].(parent := Free, timestamp := 0)];
      NodeUpdateWalkable(s.0, arcs, i, freed[i]);
      Released(freed, arcs, first1, last1, orphans, nodes[i].first, i, sinkSide)
  }

  /** The origin check from `j` (see `Origin`). */
  method CheckOrigin(nodes: seq<Node>, arcs: seq<Arc>, j: nat, ts: int) returns (d: int, nodes': seq<Node>)
    requires TreeLinks(nodes, arcs) && j < |nodes|
    ensures (d, nodes') == Origin(nodes, arcs, j, 0, ts, |nodes|)
  {
    nodes' := nodes;
    d := 0;
    var k: nat, fuel: nat := j, |nodes|;
    while true
      invariant k < |nodes| && Origin(nodes, arcs, k, d, ts, fuel) == Origin(nodes, arcs, j, 0, ts, |nodes|)
      decreases fuel
    {
      if fuel == 0 {
        d := INFINITE_DISTANCE;
        return;
      }
      if nodes[k].timestamp == ts {
        d := d + nodes[k].distance;
        return;
      }
      var a := nodes[k].parent;
      d := d + 1;
      if a.Terminal? {
        nodes' := nodes[k := nodes[k].(timestamp := ts, distance := 1)];
        return;
      }
      if !a.Arc? {
        d := INFINITE_DISTANCE;
        return;
      }
      k := arcs[a.arc].head;
      fuel := fuel - 1;
    }
  }

  /** Sets the marks from `j` with distance `d` (see `Marks`). */
  method SetMarks(nodes: seq<Node>, arcs: seq<Arc>, j: nat, ts: int, d: int) returns (nodes': seq<Node>)
    requires TreeLinks(nodes, arcs) && j < |nodes|
    ensures nodes' == Marks(nodes, arcs, j, ts, d, |nodes|)
  {
    nodes' := nodes;
    var k: nat, dist: int, fuel: nat := j, d, |nodes|;
    while fuel > 0 && nodes'[k].timestamp != ts
      invariant StampsOnly(nodes, nodes') && TreeLinks(nodes', arcs) && k < |nodes|
      invariant Marks(nodes', arcs, k, ts, dist, fuel) == Marks(nodes, arcs, j, ts, d, |nodes|)
      decreases fuel
    {
      var p := nodes'[k].parent;
      var marked := nodes'[k := nodes'[k].(timestamp := ts, distance := dist)];
      StampsOnlyTransitive(nodes, nodes', marked);
      nodes' := marked;
      if !p.Arc? {
        return;
      }
      k, dist, fuel := arcs[p.arc].head, dist - 1, fuel - 1;
    }
  }

  /** The parent search over the whole list of orphan `i` (see `ParentSearch`). */
  method FindParent(nodes: seq<Node>, arcs: seq<Arc>, i: nat, ts: int) returns (nodes': seq<Node>, best: Link, dMin: int)
    requires Walkable(nodes, arcs) && i < |nodes|
    ensures (nodes', best, dMin) == ParentSearch(nodes, arcs, nodes[i].first, nodes[i].sink, ts, Nil, INFINITE_DISTANCE)
  {
    var sinkSide := nodes[i].sink;
    nodes', best, dMin := nodes, Nil, INFINITE_DISTANCE;
    var a0 := nodes[i].first;
    while a0.Ptr?
      invariant Walkable(nodes', arcs) && LinkIn(a0, |arcs|) && LinkIn(best, |arcs|) && |nodes'| == |nodes|
      invariant ParentSearch(nodes', arcs, a0, sinkSide, ts, best, dMin)
             == ParentSearch(nodes, arcs, nodes[i].first, sinkSide, ts, Nil, INFINITE_DISTANCE)
      decreases ListRank(a0)
    {
      var a := a0.index;
      var capacity := if sinkSide then arcs[a].residualCapacity else arcs[arcs[a].sister].residualCapacity;
      if capacity > 0.0 {
        var j := arcs[a].head;
        if nodes'[j].sink == sinkSide && !nodes'[j].parent.Free? {
          // checking the origin of j
          var d, checked := CheckOrigin(nodes', arcs, j, ts);
          StampsKeepWalkable(nodes', checked, arcs);
          if d < INFINITE_DISTANCE {
            if d < dMin {
              best, dMin := a0, d;
            }
            // set marks along the path
            var marked := SetMarks(checked, arcs, j, ts, d);
            StampsKeepWalkable(checked, marked, arcs);
            nodes' := marked;
          } else {
            nodes' := checked;
          }
        }
      }
      a0 := arcs[a].next;
    }
  }

  /** Releases freed orphan `i` from its neighbours (see `Released`). */
  method ReleaseChildren(nodes: seq<Node>, arcs: seq<Arc>, first1: Link, last1: Link, orphans: seq<nat>, i: nat)
    returns (nodes': seq<Node>, first1': Link, last1': Link, orphans': seq<nat>)
    requires Walkable(nodes, arcs) && i < |nodes|
    requires LinkIn(first1, |nodes|) && LinkIn(last1, |nodes|)
    ensures (nodes', first1', last1', orphans') == Released(nodes, arcs, first1, last1, orphans, nodes[i].first, i, nodes[i].sink)
  {
    var sinkSide := nodes[i].sink;
    nodes', first1', last1', orphans' := nodes, first1, last1, orphans;
    var a0 := nodes[i].first;
    while a0.Ptr?
      invariant Walkable(nodes', arcs) && LinkIn(a0, |arcs|) && |nodes'| == |nodes|
      invariant LinkIn(first1', |nodes|) && LinkIn(last1', |nodes|)
      invariant Released(nodes', arcs, first1', last1', orphans', a0, i, sinkSide)
             == Released(nodes, arcs, first1, last1, orphans, nodes[i].first, i, sinkSide)
      decreases ListRank(a0)
    {
      var a := a0.index;
      var j := arcs[a].head;
      var p := nodes'[j].parent;
      if nodes'[j].sink == sinkSide && !p.Free? {
        var capacity := if sinkSide then arcs[a].residualCapacity else arcs[arcs[a].sister].residualCapacity;
        if capacity > 0.0 {
          ActivatedWalkable(nodes', arcs, first1', last1', j);
          var act := Activated(nodes', first1', last1', j);
          nodes', first1', last1' := act.0, act.1, act.2;
        }
        if p.Arc? && arcs[p.arc].head == i {
          // add j to the adoption list
          NodeUpdateWalkable(nodes', arcs, j, nodes'[j].(parent := Orphan));
          nodes' := nodes'[j := nodes'[j].(parent := Orphan)];
          orphans' := orphans' + [j];
        }
      }
      a0 := arcs[a].next;
    }
  }

  /** Grows the tree of active node `i` (see `Grown`). */
  method GrowTree(nodes: seq<Node>, arcs: seq<Arc>, first1: Link, last1: Link, i: nat)
    returns (nodes': seq<Node>, first1': Link, last1': Link, middle: Link)
    requires Walkable(nodes, arcs) && i < |nodes|
    requires LinkIn(first1, |nodes|) && LinkIn(last1, |nodes|)
    ensures (nodes', first1', last1', middle) == Grown(nodes, arcs, first1, last1, nodes[i].first, i, nodes[i].sink)
  {
    var sinkSide := nodes[i].sink;
    nodes', first1', last1' := nodes, first1, last1;
    var a0 := nodes[i].first;
    while a0.Ptr?
      invariant Walkable(nodes', arcs) && LinkIn(a0, |arcs|) && |nodes'| == |nodes|
      invariant LinkIn(first1', |nodes|) && LinkIn(last1', |nodes|)
      invariant Grown(nodes', arcs, first1', last1', a0, i, sinkSide)
             == Grown(nodes, arcs, first1, last1, nodes[i].first, i, sinkSide)
      decreases ListRank(a0)
    {
      var a := a0.index;
      ghost var before, f1, l1 := nodes', first1', last1';
      var capacity := if sinkSide then arcs[arcs[a].sister].residualCapacity else arcs[a].residualCapacity;
      if capacity > 0.0 {
        var j := arcs[a].head;
        var child := nodes'[j].(parent := Parent.Arc(arcs[a].sister), timestamp := nodes'[i].timestamp,
                                distance := nodes'[i].distance + 1);
        if nodes'[j].parent.Free? {
          NodeUpdateWalkable(nodes', arcs, j, child.(sink := sinkSide));
          nodes' := nodes'[j := child.(sink := sinkSide)];
          ActivatedWalkable(nodes', arcs, first1', last1', j);
          var act := Activated(nodes', first1', last1', j);
          nodes', first1', last1' := act.0, act.1, act.2;
        } else if nodes'[j].sink != sinkSide {
          middle := if sinkSide then Ptr(arcs[a].sister) else a0;
          assert (nodes', first1', last1', middle) == GrowStep(before, arcs, f1, l1, a, i, sinkSide);
          return;
        } else if nodes'[j].timestamp <= nodes'[i].timestamp && nodes'[j].distance > nodes'[i].distance {
          // trying to make the distance from j to the root shorter
          NodeUpdateWalkable(nodes', arcs, j, child);
          nodes' := nodes'[j := child];
        }
      }
      assert (nodes', first1', last1', Nil) == GrowStep(before, arcs, f1, l1, a, i, sinkSide);
      a0 := arcs[a].next;
    }
    middle := Nil;
  }

  /** Following parents from `j` reaches a node with a TERMINAL parent within `fuel` steps. */
  ghost predicate Rooted(nodes: seq<Node>, arcs: seq<Arc>, j: nat, fuel: nat)
    requires TreeLinks(nodes, arcs) && j < |nodes|
    decreases fuel
  {
    && fuel > 0
    && match nodes[j].parent
       case Terminal => true
       case Arc(a) => Rooted(nodes, arcs, arcs[a].head, fuel - 1)
       case _ => false
  }

  /** Node `j` originates from its tree's terminal: its parent chain ends at a tree root. */
  ghost predicate Originates(nodes: seq<Node>, arcs: seq<Arc>, j: nat)
    requires TreeLinks(nodes, arcs) && j < |nodes|
  {
    exists n: nat :: Rooted(nodes, arcs, j, n)
  }

  /** The invariant of the marks: every node stamped with `ts` originates from its terminal. */
  ghost predicate StampedOriginate(nodes: seq<Node>, arcs: seq<Arc>, ts: int)
    requires TreeLinks(nodes, arcs)
  {
    forall k :: 0 <= k < |nodes| && nodes[k].timestamp == ts ==> Originates(nodes, arcs, k)
  }

  ghost predicate SameParents(x: seq<Node>, y: seq<Node>)
  {
    |x| == |y| && forall k :: 0 <= k < |x| ==> x[k].parent == y[k].parent
  }

  /** Whether a chain reaches a root depends on the parents alone. */
  lemma {:induction false} RootedSameParents(x: seq<Node>, y: seq<Node>, arcs: seq<Arc>, j: nat, n: nat)
    requires TreeLinks(x, arcs) && SameParents(x, y) && j < |x|
    ensures TreeLinks(y, arcs) && Rooted(x, arcs, j, n) == Rooted(y, arcs, j, n)
    decreases n
  {
    if n > 0 && x[j].parent.Arc? {
      RootedSameParents(x, y, arcs, arcs[x[j].parent.arc].head, n - 1);
    }
  }

  lemma OriginatesSameParents(x: seq<Node>, y: seq<Node>, arcs: seq<Arc>, j: nat)
    requires TreeLinks(x, arcs) && SameParents(x, y) && j < |x| && Originates(x, arcs, j)
    ensures TreeLinks(y, arcs) && Originates(y, arcs, j)
  {
    var n: nat :| Rooted(x, arcs, j, n);
    RootedSameParents(x, y, arcs, j, n);
  }

  /** A node whose parent is an arc originates exactly when the arc's head does. */
  lemma OriginatesStep(nodes: seq<Node>, arcs: seq<Arc>, j: nat)
    requires TreeLinks(nodes, arcs) && j < |nodes| && nodes[j].parent.Arc?
    ensures Originates(nodes, arcs, j) <==> Originates(nodes, arcs, arcs[nodes[j].parent.arc].head)
  {
    var h := arcs[nodes[j].parent.arc].head;
    if Originates(nodes, arcs, j) {
      var n: nat :| Rooted(nodes, arcs, j, n);
      assert Rooted(nodes, arcs, h, n - 1);
    }
    if Originates(nodes, arcs, h) {
      var n: nat :| Rooted(nodes, arcs, h, n);
      assert Rooted(nodes, arcs, j, n + 1);
    }
  }

  /** Stamping nodes that originate keeps the invariant of the marks. */
  lemma StampKeepsStamped(nodes: seq<Node>, arcs: seq<Arc>, ts: int, j: nat, d: int)
    requires TreeLinks(nodes, arcs) && j < |nodes| && StampedOriginate(nodes, arcs, ts)
    requires Originates(nodes, arcs, j)
    ensures var y := nodes[j := nodes[j].(timestamp := ts, distance := d)];
      TreeLinks(y, arcs) && StampedOriginate(y, arcs, ts) && Originates(y, arcs, j)
  {
    var y := nodes[j := nodes[j].(timestamp := ts, distance := d)];
    assert SameParents(nodes, y);
    forall k | 0 <= k < |y| && y[k].timestamp == ts
      ensures Originates(y, arcs, k)
    {
      OriginatesSameParents(nodes, y, arcs, k);
    }
  }

  /** The origin check is sound: a finite distance means `j` originates from its terminal. */
  lemma {:induction false} OriginSound(nodes: seq<Node>, arcs: seq<Arc>, j: nat, d: int, ts: int, fuel: nat)
    requires TreeLinks(nodes, arcs) && j < |nodes| && StampedOriginate(nodes, arcs, ts)
    ensures var r := Origin(nodes, arcs, j, d, ts, fuel);
      && TreeLinks(r.1, arcs) && StampedOriginate(r.1, arcs, ts)
      && (r.0 != INFINITE_DISTANCE ==> Originates(nodes, arcs, j))
    decreases fuel
  {
    if fuel > 0 && nodes[j].timestamp != ts {
      match nodes[j].parent
      case Terminal =>
        assert Rooted(nodes, arcs, j, 1);
        StampKeepsStamped(nodes, arcs, ts, j, 1);
      case Arc(a) =>
        OriginSound(nodes, arcs, arcs[a].head, d + 1, ts, fuel - 1);
        OriginatesStep(nodes, arcs, j);
      case _ =>
    }
  }

  /** Setting the marks from a node that originates keeps the invariant of the marks. */
  lemma {:induction false} MarksKeepStamped(nodes: seq<Node>, arcs: seq<Arc>, j: nat, ts: int, d: int, fuel: nat)
    requires TreeLinks(nodes, arcs) && j < |nodes| && StampedOriginate(nodes, arcs, ts)
    requires Originates(nodes, arcs, j)
    ensures var r := Marks(nodes, arcs, j, ts, d, fuel);
      TreeLinks(r, arcs) && StampedOriginate(r, arcs, ts)
    decreases fuel
  {
    if fuel > 0 && nodes[j].timestamp != ts {
      var marked := nodes[j := nodes[j].(timestamp := ts, distance := d)];
      StampKeepsStamped(nodes, arcs, ts, j, d);
      if nodes[j].parent.Arc? {
        var h := arcs[nodes[j].parent.arc].head;
        OriginatesStep(marked, arcs, j);
        MarksKeepStamped(marked, arcs, h, ts, d - 1, fuel - 1);
      }
    }
  }

  /**
   * Arc `a` can be the parent arc of an orphan on side `sinkSide`: it has
   * residual capacity towards the tree and leads to a node of the same tree
   * that originates from the tree's terminal.
   */
  ghost predicate ParentCandidate(nodes: seq<Node>, arcs: seq<Arc>, a: nat, sinkSide: bool)
    requires TreeLinks(nodes, arcs)
  {
    && a < |arcs|
    && TreeCapacity(arcs, a, sinkSide) > 0.0
    && nodes[arcs[a].head].sink == sinkSide
    && Originates(nodes, arcs, arcs[a].head)
  }

  lemma CandidateStamps(x: seq<Node>, y: seq<Node>, arcs: seq<Arc>, a: nat, sinkSide: bool)
    requires TreeLinks(x, arcs) && StampsOnly(x, y) && ParentCandidate(x, arcs, a, sinkSide)
    ensures TreeLinks(y, arcs) && ParentCandidate(y, arcs, a, sinkSide)
  {
    assert SameParents(x, y);
    OriginatesSameParents(x, y, arcs, arcs[a].head);
  }

  /**
   * The parent search keeps the invariant of the marks, and the arc it
   * settles on is a parent candidate from the scanned list (or the best one
   * it started with), at a distance no larger than the one it started with
   * and strictly smaller when the arc is new.
   */
  lemma {:induction false} ParentSearchSound(nodes: seq<Node>, arcs: seq<Arc>, a0: Link, sinkSide: bool, ts: int,
                                             best: Link, dMin: int)
    requires Walkable(nodes, arcs) && LinkIn(a0, |arcs|) && LinkIn(best, |arcs|)
    requires StampedOriginate(nodes, arcs, ts)
    requires best.Ptr? ==> ParentCandidate(nodes, arcs, best.index, sinkSide)
    ensures var r := ParentSearch(nodes, arcs, a0, sinkSide, ts, best, dMin);
      && TreeLinks(r.0, arcs) && StampedOriginate(r.0, arcs, ts)
      && (r.1.Ptr? ==> ParentCandidate(r.0, arcs, r.1.index, sinkSide))
      && r.2 <= dMin
      && (r.1 != best ==> r.1.Ptr? && r.1.index in ArcList(arcs, a0) && r.2 < dMin)
    decreases ListRank(a0)
  {
    if a0.Ptr? {
      var a := a0.index;
      var j := arcs[a].head;
      var next := arcs[a].next;
      assert ArcList(arcs, a0) == [a] + ArcList(arcs, next);
      if TreeCapacity(arcs, a, sinkSide) > 0.0 && nodes[j].sink == sinkSide && !nodes[j].parent.Free? {
        var o := Origin(nodes, arcs, j, 0, ts, |nodes|);
        OriginSound(nodes, arcs, j, 0, ts, |nodes|);
        StampsKeepWalkable(nodes, o.1, arcs);
        if best.Ptr? {
          CandidateStamps(nodes, o.1, arcs, best.index, sinkSide);
        }
        if o.0 < INFINITE_DISTANCE {
          var marked := Marks(o.1, arcs, j, ts, o.0, |nodes|);
          assert SameParents(nodes, o.1);
          OriginatesSameParents(nodes, o.1, arcs, j);
          MarksKeepStamped(o.1, arcs, j, ts, o.0, |nodes|);
          StampsKeepWalkable(o.1, marked, arcs);
          if best.Ptr? {
            CandidateStamps(o.1, marked, arcs, best.index, sinkSide);
          }
          if o.0 < dMin {
            assert SameParents(o.1, marked);
            OriginatesSameParents(o.1, marked, arcs, j);
            assert ParentCandidate(marked, arcs, a, sinkSide);
            ParentSearchSound(marked, arcs, next, sinkSide, ts, Ptr(a), o.0);
          } else {
            ParentSearchSound(marked, arcs, next, sinkSide, ts, best, dMin);
          }
        } else {
          ParentSearchSound(o.1, arcs, next, sinkSide, ts, best, dMin);
        }
      } else {
        ParentSearchSound(nodes, arcs, next, sinkSide, ts, best, dMin);
      }
    }
  }

  /** Node `k` is a child of `i` in the tree on side `sinkSide`: its parent arc points at `i`. */
  ghost predicate IsChild(nodes: seq<Node>, arcs: seq<Arc>, k: nat, i: nat, sinkSide: bool)
  {
    && k < |nodes|
    && nodes[k].sink == sinkSide
    && nodes[k].parent.Arc? && nodes[k].parent.arc < |arcs|
    && arcs[nodes[k].parent.arc].head == i
  }

  /** `y` differs from `x` at most in the nodes' `next` links and parents. */
  ghost predicate NextAndParentsOnly(x: seq<Node>, y: seq<Node>)
  {
    |x| == |y| && forall k :: 0 <= k < |x| ==> y[k] == x[k].(next := y[k].next, parent := y[k].parent)
  }

  /**
   * One release step appends at most the head `j` of arc `a`, changes nodes
   * only in `next` links, and changes a parent only by orphaning `j` when it
   * is a child of `i`.
   */
  lemma ReleaseStepFacts(nodes: seq<Node>, arcs: seq<Arc>, first1: Link, last1: Link, orphans: seq<nat>,
                         a: nat, i: nat, sinkSide: bool)
    requires Walkable(nodes, arcs) && a < |arcs|
    requires LinkIn(first1, |nodes|) && LinkIn(last1, |nodes|)
    ensures var r := ReleaseStep(nodes, arcs, first1, last1, orphans, a, i, sinkSide);
      var j := arcs[a].head;
      && NextAndParentsOnly(nodes, r.0)
      && (r.3 == orphans || (r.3 == orphans + [j] && IsChild(nodes, arcs, j, i, sinkSide) && r.0[j].parent == Orphan))
      && (forall k :: 0 <= k < |nodes| && k != j ==> r.0[k].parent == nodes[k].parent)
      && (r.0[j].parent == nodes[j].parent || r.3 == orphans + [j])
      && (IsChild(nodes, arcs, j, i, sinkSide) ==> r.0[j].parent == Orphan)
  {
  }

  /** Releasing a freed orphan only appends to the orphan list. */
  lemma {:induction false} ReleasedAppends(nodes: seq<Node>, arcs: seq<Arc>, first1: Link, last1: Link, orphans: seq<nat>,
                                           a0: Link, i: nat, sinkSide: bool)
    requires Walkable(nodes, arcs) && LinkIn(a0, |arcs|)
    requires LinkIn(first1, |nodes|) && LinkIn(last1, |nodes|)
    ensures var r := Released(nodes, arcs, first1, last1, orphans, a0, i, sinkSide);
      |r.3| >= |orphans| && r.3[..|orphans|] == orphans
    decreases ListRank(a0)
  {
    if a0.Ptr? {
      var a := a0.index;
      var s := ReleaseStep(nodes, arcs, first1, last1, orphans, a, i, sinkSide);
      ReleaseStepFacts(nodes, arcs, first1, last1, orphans, a, i, sinkSide);
      ReleasedAppends(s.0, arcs, s.1, s.2, s.3, arcs[a].next, i, sinkSide);
      var r := Released(s.0, arcs, s.1, s.2, s.3, arcs[a].next, i, sinkSide);
      assert r.3[..|orphans|] == r.3[..|s.3|][..|orphans|];
    }
  }

  /** Releasing a freed orphan changes nodes only in their `next` links and parents. */
  lemma {:induction false} ReleasedNodes(nodes: seq<Node>, arcs: seq<Arc>, first1: Link, last1: Link, orphans: seq<nat>,
                                         a0: Link, i: nat, sinkSide: bool)
    requires Walkable(nodes, arcs) && LinkIn(a0, |arcs|)
    requires LinkIn(first1, |nodes|) && LinkIn(last1, |nodes|)
    ensures NextAndParentsOnly(nodes, Released(nodes, arcs, first1, last1, orphans, a0, i, sinkSide).0)
    decreases ListRank(a0)
  {
    if a0.Ptr? {
      var a := a0.index;
      var s := ReleaseStep(nodes, arcs, first1, last1, orphans, a, i, sinkSide);
      ReleaseStepFacts(nodes, arcs, first1, last1, orphans, a, i, sinkSide);
      ReleasedNodes(s.0, arcs, s.1, s.2, s.3, arcs[a].next, i, sinkSide);
    }
  }

  /** The step of `ReleasedOrphans`: the facts after the step carry back to the nodes before it. */
  lemma ReleasedOrphansStep(nodes: seq<Node>, mid: seq<Node>, arcs: seq<Arc>, j: nat, i: nat, sinkSide: bool,
                            orphans: seq<nat>, s3: seq<nat>, r0: seq<Node>, r3: seq<nat>)
    requires |mid| == |nodes| && |r0| == |nodes| && j < |nodes|
    requires NextAndParentsOnly(nodes, mid)
    requires forall k :: 0 <= k < |nodes| && k != j ==> mid[k].parent == nodes[k].parent
    requires mid[j].parent == nodes[j].parent || (s3 == orphans + [j] && mid[j].parent == Orphan && IsChild(nodes, arcs, j, i, sinkSide))
    requires |r3| >= |s3| && r3[..|s3|] == s3
    requires forall k :: 0 <= k < |mid| && r0[k].parent != mid[k].parent ==>
      r0[k].parent == Orphan && IsChild(mid, arcs, k, i, sinkSide) && k in r3
    ensures forall k :: 0 <= k < |nodes| && r0[k].parent != nodes[k].parent ==>
      r0[k].parent == Orphan && IsChild(nodes, arcs, k, i, sinkSide) && k in r3
  {
    if mid[j].parent != nodes[j].parent {
      assert r3[|orphans|] == j;
    }
    forall k | 0 <= k < |nodes| && r0[k].parent != nodes[k].parent
      ensures r0[k].parent == Orphan && IsChild(nodes, arcs, k, i, sinkSide) && k in r3
    {
      if k != j || mid[j].parent == nodes[j].parent {
        assert mid[k].sink == nodes[k].sink;
      }
    }
  }

  /**
   * Every node whose parent releasing a freed orphan changes was a child of
   * `i`, is now an ORPHAN and is on the orphan list.
   */
  lemma {:induction false} ReleasedOrphans(nodes: seq<Node>, arcs: seq<Arc>, first1: Link, last1: Link, orphans: seq<nat>,
                                           a0: Link, i: nat, sinkSide: bool)
    requires Walkable(nodes, arcs) && LinkIn(a0, |arcs|)
    requires LinkIn(first1, |nodes|) && LinkIn(last1, |nodes|)
    ensures var r := Released(nodes, arcs, first1, last1, orphans, a0, i, sinkSide);
      forall k :: 0 <= k < |nodes| && r.0[k].parent != nodes[k].parent ==>
        r.0[k].parent == Orphan && IsChild(nodes, arcs, k, i, sinkSide) && k in r.3
    decreases ListRank(a0)
  {
    if a0.Ptr? {
      var a := a0.index;
      var s := ReleaseStep(nodes, arcs, first1, last1, orphans, a, i, sinkSide);
      ReleaseStepFacts(nodes, arcs, first1, last1, orphans, a, i, sinkSide);
      ReleasedOrphans(s.0, arcs, s.1, s.2, s.3, arcs[a].next, i, sinkSide);
      ReleasedAppends(s.0, arcs, s.1, s.2, s.3, arcs[a].next, i, sinkSide);
      var r := Released(s.0, arcs, s.1, s.2, s.3, arcs[a].next, i, sinkSide);
      ReleasedOrphansStep(nodes, s.0, arcs, arcs[a].head, i, sinkSide, orphans, s.3, r.0, r.3);
    }
  }

  /**
   * Every child of `i` that is the head of an arc scanned from `a0` on ends
   * up an ORPHAN.
   */
  lemma {:induction false} ReleasedComplete(nodes: seq<Node>, arcs: seq<Arc>, first1: Link, last1: Link, orphans: seq<nat>,
                                            a0: Link, i: nat, sinkSide: bool)
    requires Walkable(nodes, arcs) && LinkIn(a0, |arcs|)
    requires LinkIn(first1, |nodes|) && LinkIn(last1, |nodes|)
    ensures var r := Released(nodes, arcs, first1, last1, orphans, a0, i, sinkSide);
      forall a :: 0 <= a < |arcs| && a in ArcList(arcs, a0) && IsChild(nodes, arcs, arcs[a].head, i, sinkSide) ==>
        r.0[arcs[a].head].parent == Orphan
    decreases ListRank(a0)
  {
    if a0.Ptr? {
      var a := a0.index;
      var next := arcs[a].next;
      var s := ReleaseStep(nodes, arcs, first1, last1, orphans, a, i, sinkSide);
      ReleaseStepFacts(nodes, arcs, first1, last1, orphans, a, i, sinkSide);
      ReleasedComplete(s.0, arcs, s.1, s.2, s.3, next, i, sinkSide);
      ReleasedOrphans(s.0, arcs, s.1, s.2, s.3, next, i, sinkSide);
      var r := Released(s.0, arcs, s.1, s.2, s.3, next, i, sinkSide);
      ReleasedCompleteStep(nodes, s.0, r.0, arcs, a, ArcList(arcs, next), i, sinkSide, r.3);
    }
  }

  /** The step of `ReleasedComplete`, over the arc `a` and the rest of the list. */
  lemma ReleasedCompleteStep(nodes: seq<Node>, mid: seq<Node>, r0: seq<Node>, arcs: seq<Arc>, a: nat, rest: seq<nat>,
                             i: nat, sinkSide: bool, r3: seq<nat>)
    requires a < |arcs| && arcs[a].head < |nodes|
    requires NextAndParentsOnly(nodes, mid) && |r0| == |nodes|
    requires forall k :: 0 <= k < |nodes| && k != arcs[a].head ==> mid[k].parent == nodes[k].parent
    requires IsChild(nodes, arcs, arcs[a].head, i, sinkSide) ==> mid[arcs[a].head].parent == Orphan
    requires forall k :: 0 <= k < |mid| && r0[k].parent != mid[k].parent ==> r0[k].parent == Orphan
    requires forall b :: 0 <= b < |arcs| && b in rest && IsChild(mid, arcs, arcs[b].head, i, sinkSide) ==>
      r0[arcs[b].head].parent == Orphan
    ensures forall b :: 0 <= b < |arcs| && b in [a] + rest && IsChild(nodes, arcs, arcs[b].head, i, sinkSide) ==>
      r0[arcs[b].head].parent == Orphan
  {
    var j := arcs[a].head;
    forall b | 0 <= b < |arcs| && b in [a] + rest && IsChild(nodes, arcs, arcs[b].head, i, sinkSide)
      ensures r0[arcs[b].head].parent == Orphan
    {
      var h := arcs[b].head;
      if h != j {
        assert mid[h].sink == nodes[h].sink;
        assert IsChild(mid, arcs, h, i, sinkSide);
      }
    }
  }

  /** A chain that reaches a root avoids every node that does not originate. */
  lemma {:induction false} RootedAvoids(nodes: seq<Node>, arcs: seq<Arc>, k: nat, n: nat, j: nat, p: Parent)
    requires TreeLinks(nodes, arcs) && k < |nodes| && j < |nodes| && ParentIn(p, |arcs|)
    requires Rooted(nodes, arcs, k, n) && !Originates(nodes, arcs, j)
    ensures var y := nodes[j := nodes[j].(parent := p)];
      TreeLinks(y, arcs) && Rooted(y, arcs, k, n)
    decreases n
  {
    assert k != j;
    if nodes[k].parent.Arc? {
      RootedAvoids(nodes, arcs, arcs[nodes[k].parent.arc].head, n - 1, j, p);
    }
  }

  /** Re-parenting a node that does not originate keeps the invariant of the marks when its stamp is not `ts`. */
  lemma ReparentKeepsStamped(nodes: seq<Node>, arcs: seq<Arc>, ts: int, j: nat, p: Parent)
    requires TreeLinks(nodes, arcs) && j < |nodes| && ParentIn(p, |arcs|)
    requires StampedOriginate(nodes, arcs, ts) && !Originates(nodes, arcs, j)
    ensures var y := nodes[j := nodes[j].(parent := p)];
      TreeLinks(y, arcs) && StampedOriginate(y, arcs, ts)
  {
    var y := nodes[j := nodes[j].(parent := p)];
    forall k | 0 <= k < |y| && y[k].timestamp == ts
      ensures Originates(y, arcs, k)
    {
      var n: nat :| Rooted(nodes, arcs, k, n);
      RootedAvoids(nodes, arcs, k, n, j, p);
    }
  }

  /** A child of a node that does not originate does not originate either. */
  lemma ChildNotOriginating(nodes: seq<Node>, arcs: seq<Arc>, j: nat, i: nat, sinkSide: bool)
    requires TreeLinks(nodes, arcs) && i < |nodes| && IsChild(nodes, arcs, j, i, sinkSide)
    requires !Originates(nodes, arcs, i)
    ensures !Originates(nodes, arcs, j)
  {
    OriginatesStep(nodes, arcs, j);
  }

  /** A node without a parent does not originate. */
  lemma FreeNotOriginating(nodes: seq<Node>, arcs: seq<Arc>, i: nat)
    requires TreeLinks(nodes, arcs) && i < |nodes| && (nodes[i].parent.Free? || nodes[i].parent.Orphan?)
    ensures !Originates(nodes, arcs, i)
  {
    forall n: nat
      ensures !Rooted(nodes, arcs, i, n)
    {
    }
  }

  /** Releasing a freed orphan keeps the invariant of the marks. */
  lemma {:induction false} ReleasedKeepsStamped(nodes: seq<Node>, arcs: seq<Arc>, first1: Link, last1: Link, orphans: seq<nat>,
                                                a0: Link, i: nat, sinkSide: bool, ts: int)
    requires Walkable(nodes, arcs) && LinkIn(a0, |arcs|) && i < |nodes| && nodes[i].parent.Free?
    requires LinkIn(first1, |nodes|) && LinkIn(last1, |nodes|)
    requires StampedOriginate(nodes, arcs, ts)
    ensures var r := Released(nodes, arcs, first1, last1, orphans, a0, i, sinkSide);
      StampedOriginate(r.0, arcs, ts) && r.0[i].parent.Free?
    decreases ListRank(a0)
  {
    if a0.Ptr? {
      var a := a0.index;
      var j := arcs[a].head;
      var s := ReleaseStep(nodes, arcs, first1, last1, orphans, a, i, sinkSide);
      ReleaseStepFacts(nodes, arcs, first1, last1, orphans, a, i, sinkSide);
      ReleaseStepKeepsStamped(nodes, arcs, first1, last1, orphans, a, i, sinkSide, ts);
      ReleasedKeepsStamped(s.0, arcs, s.1, s.2, s.3, arcs[a].next, i, sinkSide, ts);
    }
  }

  lemma ReleaseStepKeepsStamped(nodes: seq<Node>, arcs: seq<Arc>, first1: Link, last1: Link, orphans: seq<nat>,
                                a: nat, i: nat, sinkSide: bool, ts: int)
    requires Walkable(nodes, arcs) && a < |arcs| && i < |nodes| && nodes[i].parent.Free?
    requires LinkIn(first1, |nodes|) && LinkIn(last1, |nodes|)
    requires StampedOriginate(nodes, arcs, ts)
    ensures var r := ReleaseStep(nodes, arcs, first1, last1, orphans, a, i, sinkSide);
      StampedOriginate(r.0, arcs, ts) && r.0[i].parent.Free?
  {
    var j := arcs[a].head;
    var r := ReleaseStep(nodes, arcs, first1, last1, orphans, a, i, sinkSide);
    ReleaseStepFacts(nodes, arcs, first1, last1, orphans, a, i, sinkSide);
    // only `next` links and possibly `j`'s parent change
    var mid := nodes[j := nodes[j].(parent := r.0[j].parent)];
    if r.0[j].parent != nodes[j].parent {
      FreeNotOriginating(nodes, arcs, i);
      ChildNotOriginating(nodes, arcs, j, i, sinkSide);
      ReparentKeepsStamped(nodes, arcs, ts, j, r.0[j].parent);
    } else {
      assert mid == nodes;
    }
    assert SameParents(mid, r.0);
    forall k | 0 <= k < |r.0| && r.0[k].timestamp == ts
      ensures Originates(r.0, arcs, k)
    {
      assert mid[k].timestamp == ts;
      OriginatesSameParents(mid, r.0, arcs, k);
    }
  }

  /** Adopting orphan `i` through a parent candidate keeps the invariant of the marks, and `i` then originates. */
  lemma AdoptKeepsStamped(nodes: seq<Node>, arcs: seq<Arc>, ts: int, i: nat, b: nat, sinkSide: bool, d: int)
    requires TreeLinks(nodes, arcs) && i < |nodes| && nodes[i].parent.Orphan?
    requires StampedOriginate(nodes, arcs, ts) && ParentCandidate(nodes, arcs, b, sinkSide)
    ensures var y := nodes[i := nodes[i].(parent := Parent.Arc(b), timestamp := ts, distance := d)];
      && TreeLinks(y, arcs) && StampedOriginate(y, arcs, ts)
      && ParentCandidate(y, arcs, b, sinkSide) && Originates(y, arcs, i)
  {
    var h := arcs[b].head;
    FreeNotOriginating(nodes, arcs, i);
    ReparentKeepsStamped(nodes, arcs, ts, i, Parent.Arc(b));
    var y1 := nodes[i := nodes[i].(parent := Parent.Arc(b))];
    var n: nat :| Rooted(nodes, arcs, h, n);
    RootedAvoids(nodes, arcs, h, n, i, Parent.Arc(b));
    assert ParentCandidate(y1, arcs, b, sinkSide);
    OriginatesStep(y1, arcs, i);
    StampKeepsStamped(y1, arcs, ts, i, d);
    var y := y1[i := y1[i].(timestamp := ts, distance := d)];
    assert y == nodes[i := nodes[i].(parent := Parent.Arc(b), timestamp := ts, distance := d)];
    CandidateStamps(y1, y, arcs, b, sinkSide);
  }

  /** Freeing orphan `i` (stamp 0) keeps the invariant of the marks for a nonzero `ts`. */
  lemma FreeKeepsStamped(nodes: seq<Node>, arcs: seq<Arc>, ts: int, i: nat)
    requires TreeLinks(nodes, arcs) && i < |nodes| && nodes[i].parent.Orphan? && ts != 0
    requires StampedOriginate(nodes, arcs, ts)
    ensures var y := nodes[i := nodes[i].(parent := Free, timestamp := 0)];
      TreeLinks(y, arcs) && StampedOriginate(y, arcs, ts)
  {
    FreeNotOriginating(nodes, arcs, i);
    ReparentKeepsStamped(nodes, arcs, ts, i, Free);
    var y1 := nodes[i := nodes[i].(parent := Free)];
    var y := nodes[i := nodes[i].(parent := Free, timestamp := 0)];
    assert SameParents(y1, y);
    forall k | 0 <= k < |y| && y[k].timestamp == ts
      ensures Originates(y, arcs, k)
    {
      OriginatesSameParents(y1, y, arcs, k);
    }
  }

  /**
   * Processing orphan `i` keeps the invariant of the marks. When `i` gets a
   * parent, the parent arc comes from `i`'s list and is a parent candidate,
   * `i` then originates, carries stamp `ts`, and nothing else changes parent
   * or queue. Otherwise `i` is free with stamp 0, every child of `i` reached
   * from its list is an ORPHAN, and any node whose parent changed was such a
   * child and is appended to the orphan list.
   */
  lemma ProcessedOrphanSound(nodes: seq<Node>, arcs: seq<Arc>, first1: Link, last1: Link, orphans: seq<nat>,
                             i: nat, ts: int)
    requires Walkable(nodes, arcs) && i < |nodes| && nodes[i].parent.Orphan?
    requires LinkIn(first1, |nodes|) && LinkIn(last1, |nodes|)
    requires StampedOriginate(nodes, arcs, ts) && ts != 0
    ensures var r := ProcessedOrphan(nodes, arcs, first1, last1, orphans, i, ts);
      && StampedOriginate(r.0, arcs, ts)
      && |r.3| >= |orphans| && r.3[..|orphans|] == orphans
      && (r.0[i].parent.Arc? || r.0[i].parent.Free?)
    ensures var r := ProcessedOrphan(nodes, arcs, first1, last1, orphans, i, ts);
      r.0[i].parent.Arc? ==>
        && r.0[i].parent.arc in ArcList(arcs, nodes[i].first)
        && ParentCandidate(r.0, arcs, r.0[i].parent.arc, nodes[i].sink)
        && Originates(r.0, arcs, i) && r.0[i].timestamp == ts
        && (forall k :: 0 <= k < |nodes| && k != i ==> r.0[k].parent == nodes[k].parent)
        && r.1 == first1 && r.2 == last1 && r.3 == orphans
    ensures var r := ProcessedOrphan(nodes, arcs, first1, last1, orphans, i, ts);
      r.0[i].parent.Free? ==>
        && r.0[i].timestamp == 0
        && (forall a :: (0 <= a < |arcs| && a in ArcList(arcs, nodes[i].first) &&
                         IsChild(nodes, arcs, arcs[a].head, i, nodes[i].sink)) ==> r.0[arcs[a].head].parent == Orphan)
        && (forall k :: 0 <= k < |nodes| && k != i && r.0[k].parent != nodes[k].parent ==>
              r.0[k].parent == Orphan && IsChild(nodes, arcs, k, i, nodes[i].sink) && k in r.3)
  {
    var sinkSide := nodes[i].sink;
    var s := ParentSearch(nodes, arcs, nodes[i].first, sinkSide, ts, Nil, INFINITE_DISTANCE);
    ParentSearchSound(nodes, arcs, nodes[i].first, sinkSide, ts, Nil, INFINITE_DISTANCE);
    StampsKeepWalkable(nodes, s.0, arcs);
    assert SameParents(nodes, s.0);
    if s.1.Ptr? {
      AdoptKeepsStamped(s.0, arcs, ts, i, s.1.index, sinkSide, s.2 + 1);
    } else {
      FreeKeepsStamped(s.0, arcs, ts, i);
      var freed := s.0[i := s.0[i].(parent := Free, timestamp := 0)];
      NodeUpdateWalkable(s.0, arcs, i, freed[i]);
      FreedReleased(nodes, freed, arcs, first1, last1, orphans, i, ts);
    }
  }

  /** The freeing half of `ProcessedOrphanSound`, over the freed nodes. */
  lemma FreedReleased(nodes: seq<Node>, freed: seq<Node>, arcs: seq<Arc>, first1: Link, last1: Link, orphans: seq<nat>,
                      i: nat, ts: int)
    requires Walkable(freed, arcs) && i < |nodes| && |freed| == |nodes| && nodes[i].parent.Orphan?
    requires LinkIn(first1, |nodes|) && LinkIn(last1, |nodes|) && LinkIn(nodes[i].first, |arcs|)
    requires StampedOriginate(freed, arcs, ts) && freed[i].parent.Free? && freed[i].timestamp == 0
    requires forall k :: 0 <= k < |nodes| && k != i ==> freed[k].parent == nodes[k].parent && freed[k].sink == nodes[k].sink
    ensures var r := Released(freed, arcs, first1, last1, orphans, nodes[i].first, i, nodes[i].sink);
      && StampedOriginate(r.0, arcs, ts)
      && |r.3| >= |orphans| && r.3[..|orphans|] == orphans
      && r.0[i].parent.Free? && r.0[i].timestamp == 0
      && (forall a :: (0 <= a < |arcs| && a in ArcList(arcs, nodes[i].first) &&
                       IsChild(nodes, arcs, arcs[a].head, i, nodes[i].sink)) ==> r.0[arcs[a].head].parent == Orphan)
      && (forall k :: 0 <= k < |nodes| && k != i && r.0[k].parent != nodes[k].parent ==>
            r.0[k].parent == Orphan && IsChild(nodes, arcs, k, i, nodes[i].sink) && k in r.3)
  {
    var a0, sinkSide := nodes[i].first, nodes[i].sink;
    ReleasedKeepsStamped(freed, arcs, first1, last1, orphans, a0, i, sinkSide, ts);
    ReleasedAppends(freed, arcs, first1, last1, orphans, a0, i, sinkSide);
    ReleasedNodes(freed, arcs, first1, last1, orphans, a0, i, sinkSide);
    ReleasedComplete(freed, arcs, first1, last1, orphans, a0, i, sinkSide);
    ReleasedOrphans(freed, arcs, first1, last1, orphans, a0, i, sinkSide);
    assert forall k :: 0 <= k < |nodes| ==> (IsChild(freed, arcs, k, i, sinkSide) <==> IsChild(nodes, arcs, k, i, sinkSide));
  }

  /**
   * Node `k` was hung below `root` by the growth over the arcs `list`: its
   * parent is the mate of an arc `a` of the list leading to `k` with residual
   * capacity away from the tree, it joined side `sinkSide` one step farther
   * than `root` with `root`'s stamp, and it was free before or a node of the
   * same tree that was no newer and farther from the terminal than `root`.
   */
  ghost predicate HungBelow(x: Node, y: Node, k: nat, arcs: seq<Arc>, list: seq<nat>, sinkSide: bool, root: Node)
  {
    && y.parent.Arc?
    && var a := Mate(y.parent.arc);
    && a < |arcs| && Mate(a) < |arcs| && a in list && arcs[a].head == k
    && TreeCapacity(arcs, a, !sinkSide) > 0.0
    && y == x.(next := y.next, parent := y.parent, sink := sinkSide,
               timestamp := root.timestamp, distance := root.distance + 1)
    && (x.parent.Free? || (x.sink == sinkSide && x.timestamp <= root.timestamp && x.distance > root.distance))
  }

  /**
   * Arc `a` of a node on side `sinkSide` reaches the other tree with residual
   * capacity away from the tree: it is the middle of an augmenting path.
   */
  ghost predicate MiddleArc(nodes: seq<Node>, arcs: seq<Arc>, a: nat, sinkSide: bool)
    requires TreeLinks(nodes, arcs)
  {
    && a < |arcs|
    && TreeCapacity(arcs, a, !sinkSide) > 0.0
    && nodes[arcs[a].head].sink != sinkSide && !nodes[arcs[a].head].parent.Free?
  }

  /** Two rounds of growth from roots with the same stamp and distance compose. */
  lemma HungCompose(x: Node, m: Node, y: Node, k: nat, arcs: seq<Arc>, l1: seq<nat>, l2: seq<nat>, sinkSide: bool,
                    root: Node, root': Node)
    requires root'.timestamp == root.timestamp && root'.distance == root.distance
    requires m == x.(next := m.next) || HungBelow(x, m, k, arcs, l1, sinkSide, root)
    requires y == m.(next := y.next) || HungBelow(m, y, k, arcs, l2, sinkSide, root')
    ensures y == x.(next := y.next) || HungBelow(x, y, k, arcs, l1 + l2, sinkSide, root)
  {
  }

  /**
   * One growth step changes `i` only in its `next` link and any other node
   * only in its `next` link or by hanging it below `i`; a middle arc leaves
   * the nodes alone and leads from the source tree to the sink tree; and
   * otherwise the head of an arc with residual capacity away from the tree
   * is in the tree afterwards.
   */
  lemma GrowStepFacts(nodes: seq<Node>, arcs: seq<Arc>, first1: Link, last1: Link, a: nat, i: nat, sinkSide: bool)
    requires Walkable(nodes, arcs) && a < |arcs| && i < |nodes| && !nodes[i].parent.Free?
    requires LinkIn(first1, |nodes|) && LinkIn(last1, |nodes|)
    ensures var s := GrowStep(nodes, arcs, first1, last1, a, i, sinkSide);
      && s.0[i] == nodes[i].(next := s.0[i].next)
      && (forall k :: 0 <= k < |nodes| ==>
            s.0[k] == nodes[k].(next := s.0[k].next) || HungBelow(nodes[k], s.0[k], k, arcs, [a], sinkSide, nodes[i]))
    ensures var s := GrowStep(nodes, arcs, first1, last1, a, i, sinkSide);
      s.3.Ptr? ==> s.0 == nodes && s.3.index == (if sinkSide then Mate(a) else a) && MiddleArc(nodes, arcs, a, sinkSide)
    ensures var s := GrowStep(nodes, arcs, first1, last1, a, i, sinkSide);
      s.3.Nil? && TreeCapacity(arcs, a, !sinkSide) > 0.0 ==>
        !s.0[arcs[a].head].parent.Free? && s.0[arcs[a].head].sink == sinkSide
  {
    MateInvolutive(a);
  }

  /**
   * Growing the tree of `i` changes `i` only in its `next` link, and any
   * other node only in its `next` link or by hanging it below `i`.
   */
  lemma {:induction false} GrownChanges(nodes: seq<Node>, arcs: seq<Arc>, first1: Link, last1: Link,
                                        a0: Link, i: nat, sinkSide: bool)
    requires Walkable(nodes, arcs) && LinkIn(a0, |arcs|) && i < |nodes| && !nodes[i].parent.Free?
    requires LinkIn(first1, |nodes|) && LinkIn(last1, |nodes|)
    ensures var r := Grown(nodes, arcs, first1, last1, a0, i, sinkSide);
      && r.0[i] == nodes[i].(next := r.0[i].next)
      && forall k :: 0 <= k < |nodes| ==>
           r.0[k] == nodes[k].(next := r.0[k].next) ||
           HungBelow(nodes[k], r.0[k], k, arcs, ArcList(arcs, a0), sinkSide, nodes[i])
    decreases ListRank(a0)
  {
    if a0.Ptr? {
      var a := a0.index;
      var next := arcs[a].next;
      assert ArcList(arcs, a0) == [a] + ArcList(arcs, next);
      var s := GrowStep(nodes, arcs, first1, last1, a, i, sinkSide);
      GrowStepFacts(nodes, arcs, first1, last1, a, i, sinkSide);
      if s.3.Nil? {
        GrownChanges(s.0, arcs, s.1, s.2, next, i, sinkSide);
        var r := Grown(s.0, arcs, s.1, s.2, next, i, sinkSide);
        forall k | 0 <= k < |nodes|
          ensures r.0[k] == nodes[k].(next := r.0[k].next) ||
                  HungBelow(nodes[k], r.0[k], k, arcs, ArcList(arcs, a0), sinkSide, nodes[i])
        {
          HungCompose(nodes[k], s.0[k], r.0[k], k, arcs, [a], ArcList(arcs, next), sinkSide, nodes[i], s.0[i]);
        }
      }
    }
  }

  /**
   * A middle arc found by growing the tree of `i` comes from `i`'s list (as
   * the arc itself on the source side, as its sister on the sink side) and
   * leads from the source tree to the sink tree with residual capacity.
   */
  lemma {:induction false} GrownMiddle(nodes: seq<Node>, arcs: seq<Arc>, first1: Link, last1: Link,
                                       a0: Link, i: nat, sinkSide: bool)
    requires Walkable(nodes, arcs) && LinkIn(a0, |arcs|) && i < |nodes| && !nodes[i].parent.Free?
    requires LinkIn(first1, |nodes|) && LinkIn(last1, |nodes|)
    ensures var r := Grown(nodes, arcs, first1, last1, a0, i, sinkSide);
      r.3.Ptr? ==>
        var a := if sinkSide then Mate(r.3.index) else r.3.index;
        a in ArcList(arcs, a0) && MiddleArc(r.0, arcs, a, sinkSide)
    decreases ListRank(a0)
  {
    if a0.Ptr? {
      var a := a0.index;
      var next := arcs[a].next;
      assert ArcList(arcs, a0) == [a] + ArcList(arcs, next);
      var s := GrowStep(nodes, arcs, first1, last1, a, i, sinkSide);
      GrowStepFacts(nodes, arcs, first1, last1, a, i, sinkSide);
      MateInvolutive(a);
      if s.3.Nil? {
        GrownChanges(s.0, arcs, s.1, s.2, next, i, sinkSide);
        GrownMiddle(s.0, arcs, s.1, s.2, next, i, sinkSide);
      }
    }
  }

  /**
   * When growing the tree of `i` finds no middle arc, the head of every arc
   * of the list with residual capacity away from the tree is in the tree.
   */
  lemma {:induction false} GrownSaturates(nodes: seq<Node>, arcs: seq<Arc>, first1: Link, last1: Link,
                                          a0: Link, i: nat, sinkSide: bool)
    requires Walkable(nodes, arcs) && LinkIn(a0, |arcs|) && i < |nodes| && !nodes[i].parent.Free?
    requires LinkIn(first1, |nodes|) && LinkIn(last1, |nodes|)
    ensures var r := Grown(nodes, arcs, first1, last1, a0, i, sinkSide);
      r.3.Nil? ==>
        forall b :: 0 <= b < |arcs| && b in ArcList(arcs, a0) && TreeCapacity(arcs, b, !sinkSide) > 0.0 ==>
          !r.0[arcs[b].head].parent.Free? && r.0[arcs[b].head].sink == sinkSide
    decreases ListRank(a0)
  {
    if a0.Ptr? {
      var a := a0.index;
      var next := arcs[a].next;
      assert ArcList(arcs, a0) == [a] + ArcList(arcs, next);
      var s := GrowStep(nodes, arcs, first1, last1, a, i, sinkSide);
      GrowStepFacts(nodes, arcs, first1, last1, a, i, sinkSide);
      if s.3.Nil? {
        GrownChanges(s.0, arcs, s.1, s.2, next, i, sinkSide);
        GrownSaturates(s.0, arcs, s.1, s.2, next, i, sinkSide);
      }
    }
  }

  /** Growing the tree of `i` makes no node an ORPHAN. */
  lemma GrownMakesNoOrphan(nodes: seq<Node>, arcs: seq<Arc>, first1: Link, last1: Link, a0: Link, i: nat, sinkSide: bool)
    requires Walkable(nodes, arcs) && LinkIn(a0, |arcs|) && i < |nodes| && !nodes[i].parent.Free?
    requires LinkIn(first1, |nodes|) && LinkIn(last1, |nodes|)
    ensures var r := Grown(nodes, arcs, first1, last1, a0, i, sinkSide);
      forall k :: 0 <= k < |nodes| && r.0[k].parent == Orphan ==> nodes[k].parent == Orphan
  {
    GrownChanges(nodes, arcs, first1, last1, a0, i, sinkSide);
  }

  /**
   * Processing orphan `i` (whatever its parent) only appends to the orphan
   * list, and every node it leaves ORPHAN is another node that was one
   * already or is on the new list.
   */
  lemma ProcessedOrphanListed(nodes: seq<Node>, arcs: seq<Arc>, first1: Link, last1: Link, orphans: seq<nat>,
                              i: nat, ts: int)
    requires Walkable(nodes, arcs) && i < |nodes|
    requires LinkIn(first1, |nodes|) && LinkIn(last1, |nodes|)
    ensures var r := ProcessedOrphan(nodes, arcs, first1, last1, orphans, i, ts);
      && |r.3| >= |orphans| && r.3[..|orphans|] == orphans
      && forall k :: 0 <= k < |nodes| && r.0[k].parent == Orphan ==>
           (k != i && nodes[k].parent == Orphan) || k in r.3
  {
    var sinkSide := nodes[i].sink;
    var s := ParentSearch(nodes, arcs, nodes[i].first, sinkSide, ts, Nil, INFINITE_DISTANCE);
    StampsKeepWalkable(nodes, s.0, arcs);
    assert SameParents(nodes, s.0);
    if s.1.Nil? {
      var freed := s.0[i := s.0[i].(parent := Free, timestamp := 0)];
      NodeUpdateWalkable(s.0, arcs, i, freed[i]);
      FreedListed(nodes, freed, arcs, first1, last1, orphans, i);
    }
  }

  /** The freeing half of `ProcessedOrphanListed`, over the freed nodes. */
  lemma FreedListed(nodes: seq<Node>, freed: seq<Node>, arcs: seq<Arc>, first1: Link, last1: Link, orphans: seq<nat>,
                    i: nat)
    requires Walkable(freed, arcs) && i < |nodes| == |freed| && LinkIn(nodes[i].first, |arcs|)
    requires LinkIn(first1, |nodes|) && LinkIn(last1, |nodes|)
    requires freed[i].parent.Free? && forall k :: 0 <= k < |nodes| && k != i ==> freed[k].parent == nodes[k].parent
    ensures var r := Released(freed, arcs, first1, last1, orphans, nodes[i].first, i, nodes[i].sink);
      && |r.3| >= |orphans| && r.3[..|orphans|] == orphans
      && forall k :: 0 <= k < |nodes| && r.0[k].parent == Orphan ==>
           (k != i && nodes[k].parent == Orphan) || k in r.3
  {
    ReleasedAppends(freed, arcs, first1, last1, orphans, nodes[i].first, i, nodes[i].sink);
    ReleasedOrphans(freed, arcs, first1, last1, orphans, nodes[i].first, i, nodes[i].sink);
  }
}
