/**
 * The residual flow network, as an arena: nodes and arcs live in two
 * index-addressed sequences and every "pointer" is an index into them.
 * The parent of a node is a tagged value, so the two sentinels TERMINAL and
 * ORPHAN can never be confused with a real arc.
 */
module Graph {

  /** A nullable reference to an arena slot. */
  datatype Link = Nil | Ptr(index: nat)

  /** A node's parent in its search tree. `Free` is Java's `null`. */
  datatype Parent = Free | Terminal | Orphan | Arc(arc: nat)

  /**
   * A flow-network vertex. `residualCapacity` is the signed terminal capacity:
   * positive is spare capacity from the source, negative (its magnitude) to the sink.
   */
  datatype Node = Node(
    index: int,
    first: Link,
    parent: Parent,
    next: Link,
    timestamp: int,
    distance: int,
    sink: bool,
    residualCapacity: real)

  /** A directed residual arc: target node, sibling in its tail's list, reverse arc. */
  datatype Arc = Arc(head: nat, next: Link, sister: nat, residualCapacity: real)

  const SOURCE: int := 0
  const SINK: int := 1

  /** A node as Java's `new Node(index)` creates it. */
  function NewNode(index: int): (n: Node)
    ensures n.first == Nil && n.parent == Free && n.next == Nil
    ensures n.timestamp == 0 && n.distance == 0 && !n.sink && n.residualCapacity == 0.0
  {
    Node(index, Nil, Free, Nil, 0, 0, false, 0.0)
  }

  /** Arcs are created in pairs `2k`, `2k+1`; each one's sister is the other. */
  function Mate(a: nat): nat
  {
    if a % 2 == 0 then a + 1 else a - 1
  }

  lemma MateInvolutive(a: nat)
    ensures Mate(a) != a && Mate(Mate(a)) == a
  {
  }

  ghost predicate LinkIn(l: Link, bound: nat)
  {
    l.Ptr? ==> l.index < bound
  }

  ghost predicate ParentIn(p: Parent, arcCount: nat)
  {
    p.Arc? ==> p.arc < arcCount
  }

  /** Every reference held by a node points into the arena. */
  ghost predicate NodeOk(n: Node, nodeCount: nat, arcCount: nat)
  {
    LinkIn(n.first, arcCount) && LinkIn(n.next, nodeCount) && ParentIn(n.parent, arcCount)
  }

  /**
   * Arc `a` points into the arena, is paired with its mate, and its `next`
   * names an older arc (lists are built by prepending, so they are acyclic).
   */
  ghost predicate ArcOk(a: nat, x: Arc, nodeCount: nat, arcCount: nat)
  {
    && x.head < nodeCount
    && x.sister == Mate(a) && Mate(a) < arcCount
    && (x.next.Ptr? ==> x.next.index < a)
  }

  /** Every arc's `next` names an older arc, so every list ends. */
  ghost predicate NextsOlder(arcs: seq<Arc>)
  {
    forall a :: 0 <= a < |arcs| ==> (arcs[a].next.Ptr? ==> arcs[a].next.index < a)
  }

  /** The well-formedness of the whole arena. */
  ghost predicate Shape(nodes: seq<Node>, arcs: seq<Arc>)
  {
    && |arcs| % 2 == 0
    && (forall i :: 0 <= i < |nodes| ==> NodeOk(nodes[i], |nodes|, |arcs|))
    && (forall a :: 0 <= a < |arcs| ==> ArcOk(a, arcs[a], |nodes|, |arcs|))
    && NextsOlder(arcs)
  }

  /** Two arc arenas that differ at most in residual capacities. */
  ghost predicate SameArcLinks(x: seq<Arc>, y: seq<Arc>)
  {
    |x| == |y| &&
    forall a :: 0 <= a < |x| ==>
      x[a].head == y[a].head && x[a].next == y[a].next && x[a].sister == y[a].sister
  }

  /** Two node arenas that differ at most in search-tree and capacity fields. */
  ghost predicate SameNodeLinks(x: seq<Node>, y: seq<Node>)
  {
    |x| == |y| &&
    forall i :: 0 <= i < |x| ==> x[i].first == y[i].first && x[i].index == y[i].index
  }

  /** The arcs leaving one node: follow `first` then `next` (terminates since `next` is older). */
  ghost function ArcList(arcs: seq<Arc>, l: Link): seq<nat>
    requires NextsOlder(arcs)
    requires LinkIn(l, |arcs|)
    decreases if l.Ptr? then l.index + 1 else 0
  {
    match l
    case Nil => []
    case Ptr(a) => [a] + ArcList(arcs, arcs[a].next)
  }

  /** Appending arcs leaves every list that starts at an old arc unchanged. */
  lemma {:induction false} ArcListPrefix(arcs: seq<Arc>, more: seq<Arc>, l: Link)
    requires NextsOlder(arcs) && NextsOlder(arcs + more)
    requires LinkIn(l, |arcs|)
    ensures ArcList(arcs + more, l) == ArcList(arcs, l)
    decreases if l.Ptr? then l.index + 1 else 0
  {
    if l.Ptr? {
      assert (arcs + more)[l.index] == arcs[l.index];
      ArcListPrefix(arcs, more, arcs[l.index].next);
    }
  }

  /** Changing residual capacities does not change any adjacency list. */
  lemma {:induction false} ArcListLinks(x: seq<Arc>, y: seq<Arc>, l: Link)
    requires SameArcLinks(x, y)
    requires NextsOlder(x)
    requires LinkIn(l, |x|)
    ensures NextsOlder(y)
    ensures ArcList(x, l) == ArcList(y, l)
    decreases if l.Ptr? then l.index + 1 else 0
  {
    if l.Ptr? {
      ArcListLinks(x, y, x[l.index].next);
    }
  }

  /** Every arc on a list is an arc of the arena. */
  lemma {:induction false} ArcListInRange(arcs: seq<Arc>, l: Link)
    requires NextsOlder(arcs)
    requires LinkIn(l, |arcs|)
    ensures forall k :: 0 <= k < |ArcList(arcs, l)| ==> ArcList(arcs, l)[k] < |arcs|
    decreases if l.Ptr? then l.index + 1 else 0
  {
    if l.Ptr? {
      ArcListInRange(arcs, arcs[l.index].next);
    }
  }

  /**
   * Which side of the cut a node lies on: SOURCE when it has a parent and is
   * not flagged as a sink-tree node, SINK otherwise (a free node reports SINK).
   */
  function WhatSegment(n: Node): (s: int)
    ensures s == SOURCE <==> (!n.parent.Free? && !n.sink)
    ensures s == SINK <==> (n.parent.Free? || n.sink)
  {
    if !n.parent.Free? && !n.sink then SOURCE else SINK
  }

  /** The arena that holds the flow network. */
  class Network {
    var nodes: seq<Node>
    var arcs: seq<Arc>

    ghost predicate Valid()
      reads this
    {
      Shape(nodes, arcs)
    }

    /** The arcs that leave node `i`, newest first. */
    ghost function Adjacency(i: nat): seq<nat>
      reads this
      requires Valid() && i < |nodes|
    {
      ArcList(arcs, nodes[i].first)
    }

    constructor ()
      ensures Valid() && nodes == [] && arcs == []
    {
      nodes := [];
      arcs := [];
    }

    /** Allocates a node, as `new Node(index)` does. */
    method AddNode(index: int) returns (id: nat)
      requires Valid()
      modifies this
      ensures Valid()
      ensures id == |old(nodes)| && nodes == old(nodes) + [NewNode(index)] && arcs == old(arcs)
    {
      id := |nodes|;
      nodes := nodes + [NewNode(index)];
    }

    /**
     * Allocates two sister arcs `from -> to` and `to -> from`, prepends each to
     * its tail's adjacency list and sets their residual capacities independently.
     */
    method AddEdge(from: nat, to: nat, capacity: real, reverseCapacity: real)
      returns (a: nat, aRev: nat)
      requires Valid() && from < |nodes| && to < |nodes|
      modifies this
      ensures a == |old(arcs)| && aRev == a + 1
      ensures (nodes, arcs) == EdgeAdded(old(nodes), old(arcs), from, to, capacity, reverseCapacity)
      ensures Valid()
    {
      a := |arcs|;
      aRev := a + 1;
      var arc := Arc.Arc(to, nodes[from].first, aRev, capacity);
      arcs := arcs + [arc];
      nodes := nodes[from := nodes[from].(first := Ptr(a))];
      var arcRev := Arc.Arc(from, nodes[to].first, a, reverseCapacity);
      arcs := arcs + [arcRev];
      nodes := nodes[to := nodes[to].(first := Ptr(aRev))];
      assert arcs == old(arcs) + [arc, arcRev];
      EdgeAddedShape(old(nodes), old(arcs), from, to, capacity, reverseCapacity);
    }
  }

  /** The arena after `addEdge(from, to, capacity, reverseCapacity)`, step by step as the program writes it. */
  ghost function EdgeAdded(nodes: seq<Node>, arcs: seq<Arc>, from: nat, to: nat,
                           capacity: real, reverseCapacity: real): (seq<Node>, seq<Arc>)
    requires from < |nodes| && to < |nodes|
  {
    var a := |arcs|;
    var arc := Arc.Arc(to, nodes[from].first, a + 1, capacity);
    var nodes1 := nodes[from := nodes[from].(first := Ptr(a))];
    var arcRev := Arc.Arc(from, nodes1[to].first, a, reverseCapacity);
    (nodes1[to := nodes1[to].(first := Ptr(a + 1))], arcs + [arc, arcRev])
  }

  /**
   * The two new arcs are each other's sister, point at `to` and `from`, carry
   * the two capacities and link to the old list heads; no old arc changes and
   * no node other than `from` and `to` changes; the arena stays well formed.
   */
  lemma EdgeAddedShape(nodes: seq<Node>, arcs: seq<Arc>, from: nat, to: nat,
                       capacity: real, reverseCapacity: real)
    requires Shape(nodes, arcs) && from < |nodes| && to < |nodes|
    ensures var (nodes', arcs') := EdgeAdded(nodes, arcs, from, to, capacity, reverseCapacity);
      && var a := |arcs|;
      && Shape(nodes', arcs')
      && |arcs'| == a + 2 && arcs'[..a] == arcs && |nodes'| == |nodes|
      && arcs'[a].sister == a + 1 && arcs'[a + 1].sister == a
      && arcs'[a].head == to && arcs'[a + 1].head == from
      && arcs'[a].residualCapacity == capacity && arcs'[a + 1].residualCapacity == reverseCapacity
      && arcs'[a].next == nodes[from].first
      && arcs'[a + 1].next == (if from == to then Ptr(a) else nodes[to].first)
      && nodes'[from].first == (if from == to then Ptr(a + 1) else Ptr(a))
      && nodes'[to].first == Ptr(a + 1)
      && (forall k :: 0 <= k < |nodes| && k != from && k != to ==> nodes'[k] == nodes[k])
      && (forall k :: 0 <= k < |nodes| ==> nodes'[k] == nodes[k].(first := nodes'[k].first))
  {
    var (nodes', arcs') := EdgeAdded(nodes, arcs, from, to, capacity, reverseCapacity);
    var a := |arcs|;
    assert Mate(a) == a + 1 && Mate(a + 1) == a;
    forall k | 0 <= k < |arcs'|
      ensures ArcOk(k, arcs'[k], |nodes'|, |arcs'|)
    {
      if k < a {
        assert arcs'[k] == arcs[k];
        assert ArcOk(k, arcs[k], |nodes|, |arcs|);
      }
    }
  }

  /**
   * Adding an edge prepends `a` to the list of `from` and `aRev` to the list of
   * `to`, and leaves every other node's list unchanged.
   */
  lemma EdgeAddedAdjacency(nodes: seq<Node>, arcs: seq<Arc>, from: nat, to: nat,
                           capacity: real, reverseCapacity: real,
                           nodes': seq<Node>, arcs': seq<Arc>, k: nat)
    requires Shape(nodes, arcs) && from < |nodes| && to < |nodes| && k < |nodes|
    requires (nodes', arcs') == EdgeAdded(nodes, arcs, from, to, capacity, reverseCapacity)
    ensures Shape(nodes', arcs')
    ensures ArcList(arcs', nodes'[k].first)
         == (if k == from && k == to then [|arcs| + 1, |arcs|]
             else if k == from then [|arcs|]
             else if k == to then [|arcs| + 1]
             else []) + ArcList(arcs, nodes[k].first)
  {
    EdgeAddedShape(nodes, arcs, from, to, capacity, reverseCapacity);
    var a := |arcs|;
    var more := [arcs'[a], arcs'[a + 1]];
    assert arcs' == arcs + more;
    ArcListPrefix(arcs, more, nodes[k].first);
    if k == from && k == to {
      assert ArcList(arcs', Ptr(a)) == [a] + ArcList(arcs', nodes[k].first);
      assert ArcList(arcs', Ptr(a + 1)) == [a + 1] + ArcList(arcs', Ptr(a));
    } else if k == from {
      assert ArcList(arcs', Ptr(a)) == [a] + ArcList(arcs', nodes[k].first);
    } else if k == to {
      assert ArcList(arcs', Ptr(a + 1)) == [a + 1] + ArcList(arcs', nodes[k].first);
    } else {
      assert nodes'[k] == nodes[k];
    }
  }
}
