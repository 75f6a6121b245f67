/**
 * The distance labels of orphan adoption (section 3.3 of Boykov and
 * Kolmogorov, TPAMI 2004). During one adoption phase every node stamped with
 * the phase's timestamp carries its exact distance to its tree's terminal.
 * From that invariant the parent search of an orphan settles on a candidate
 * of least distance, and gives up only when the orphan's list holds no
 * candidate at all.
 */
module Distances {
  import opened Graph
  import opened Augmentation
  import opened Adoption

  /** Node `j` reaches its terminal in exactly `n` parent steps. */
  ghost predicate Exact(nodes: seq<Node>, arcs: seq<Arc>, j: nat, n: nat)
    requires TreeLinks(nodes, arcs) && j < |nodes|
  {
    Rooted(nodes, arcs, j, n) && (n == 0 || !Rooted(nodes, arcs, j, n - 1))
  }

  /** Every node stamped with `ts` carries its exact distance to its terminal. */
  ghost predicate StampedExact(nodes: seq<Node>, arcs: seq<Arc>, ts: int)
    requires TreeLinks(nodes, arcs)
  {
    forall k :: 0 <= k < |nodes| && nodes[k].timestamp == ts ==>
      nodes[k].distance >= 0 && Exact(nodes, arcs, k, nodes[k].distance)
  }

  /** `y` keeps every stamp `ts` of `x`, with its distance. */
  ghost predicate KeepsStamps(x: seq<Node>, y: seq<Node>, ts: int)
  {
    && |x| == |y|
    && forall k :: 0 <= k < |x| && x[k].timestamp == ts ==> y[k].timestamp == ts && y[k].distance == x[k].distance
  }

  /** The nodes that reach their terminal within `m` steps. */
  ghost function Reach(nodes: seq<Node>, arcs: seq<Arc>, m: nat): set<nat>
    requires TreeLinks(nodes, arcs)
  {
    set k: nat | k < |nodes| && Rooted(nodes, arcs, k, m)
  }

  /*
   * Chains of parents
   */

  /** A chain that reaches the terminal within `n` steps does so within any larger bound. */
  lemma {:induction false} RootedMono(nodes: seq<Node>, arcs: seq<Arc>, j: nat, n: nat, m: nat)
    requires TreeLinks(nodes, arcs) && j < |nodes| && Rooted(nodes, arcs, j, n) && n <= m
    ensures Rooted(nodes, arcs, j, m)
    decreases n
  {
    if nodes[j].parent.Arc? {
      RootedMono(nodes, arcs, arcs[nodes[j].parent.arc].head, n - 1, m - 1);
    }
  }

  /** A node has one exact distance. */
  lemma ExactUnique(nodes: seq<Node>, arcs: seq<Arc>, j: nat, n: nat, m: nat)
    requires TreeLinks(nodes, arcs) && j < |nodes| && Exact(nodes, arcs, j, n) && Exact(nodes, arcs, j, m)
    ensures n == m
  {
    if n < m {
      RootedMono(nodes, arcs, j, n, m - 1);
    } else if m < n {
      RootedMono(nodes, arcs, j, m, n - 1);
    }
  }

  /** The exact distance of a node hanging on an arc is one more than that of the arc's head. */
  lemma ExactStep(nodes: seq<Node>, arcs: seq<Arc>, j: nat, n: nat)
    requires TreeLinks(nodes, arcs) && j < |nodes| && nodes[j].parent.Arc?
    ensures Exact(nodes, arcs, j, n) <==> (n > 0 && Exact(nodes, arcs, arcs[nodes[j].parent.arc].head, n - 1))
  {
  }

  /** A node that originates has an exact distance, no larger than any bound it reaches the terminal within. */
  lemma {:induction false} Depth(nodes: seq<Node>, arcs: seq<Arc>, j: nat, n: nat) returns (d: nat)
    requires TreeLinks(nodes, arcs) && j < |nodes| && Rooted(nodes, arcs, j, n)
    ensures d <= n && Exact(nodes, arcs, j, d)
    decreases n
  {
    if n > 0 && Rooted(nodes, arcs, j, n - 1) {
      d := Depth(nodes, arcs, j, n - 1);
    } else {
      d := n;
    }
  }

  lemma SubsetCard(a: set<nat>, b: set<nat>)
    requires a <= b
    ensures |a| <= |b|
  {
    assert b == a + (b - a);
  }

  /** A set of numbers below `n` has at most `n` elements. */
  lemma {:induction false} BoundedCard(s: set<nat>, n: nat)
    requires forall k :: k in s ==> k < n
    ensures |s| <= n
  {
    if n > 0 {
      BoundedCard(s - {n - 1}, n - 1);
      SubsetCard(s, (s - {n - 1}) + {n - 1});
    }
  }

  /** A node at exact distance `n` leaves at least `n` nodes within reach `n`: the one at each distance on its chain. */
  lemma {:induction false} ReachCount(nodes: seq<Node>, arcs: seq<Arc>, j: nat, n: nat)
    requires TreeLinks(nodes, arcs) && j < |nodes| && Exact(nodes, arcs, j, n)
    ensures |Reach(nodes, arcs, n)| >= n
    decreases n
  {
    assert j in Reach(nodes, arcs, n);
    if nodes[j].parent.Arc? {
      var h := arcs[nodes[j].parent.arc].head;
      ExactStep(nodes, arcs, j, n);
      ReachCount(nodes, arcs, h, n - 1);
      forall k | k in Reach(nodes, arcs, n - 1)
        ensures k in Reach(nodes, arcs, n)
      {
        RootedMono(nodes, arcs, k, n - 1, n);
      }
      SubsetCard(Reach(nodes, arcs, n - 1) + {j}, Reach(nodes, arcs, n));
    }
  }

  /** The pigeonhole bound: no exact distance exceeds the number of nodes. */
  lemma DepthBound(nodes: seq<Node>, arcs: seq<Arc>, j: nat, n: nat)
    requires TreeLinks(nodes, arcs) && j < |nodes| && Exact(nodes, arcs, j, n)
    ensures n <= |nodes|
  {
    ReachCount(nodes, arcs, j, n);
    BoundedCard(Reach(nodes, arcs, n), |nodes|);
  }

  /** Exact distances depend on the parents alone. */
  lemma ExactSameParents(x: seq<Node>, y: seq<Node>, arcs: seq<Arc>, k: nat, n: nat)
    requires TreeLinks(x, arcs) && SameParents(x, y) && k < |x|
    ensures TreeLinks(y, arcs) && (Exact(x, arcs, k, n) <==> Exact(y, arcs, k, n))
  {
    RootedSameParents(x, y, arcs, k, n);
    if n > 0 {
      RootedSameParents(x, y, arcs, k, n - 1);
    }
  }

  /** Every node whose parent differs between `x` and `y` does not originate in `x`. */
  ghost predicate ChangesOffTrees(x: seq<Node>, y: seq<Node>, arcs: seq<Arc>)
    requires TreeLinks(x, arcs) && |x| == |y|
  {
    forall k :: 0 <= k < |x| && y[k].parent != x[k].parent ==> !Originates(x, arcs, k)
  }

  /** Changing parents off the trees leaves the chain of a node that originates as it was. */
  lemma {:induction false} RootedAgree(x: seq<Node>, y: seq<Node>, arcs: seq<Arc>, k: nat, m: nat)
    requires TreeLinks(x, arcs) && TreeLinks(y, arcs) && |x| == |y| && ChangesOffTrees(x, y, arcs)
    requires k < |x| && Originates(x, arcs, k)
    ensures Rooted(x, arcs, k, m) == Rooted(y, arcs, k, m)
    decreases m
  {
    assert y[k].parent == x[k].parent;
    if m > 0 && x[k].parent.Arc? {
      OriginatesStep(x, arcs, k);
      RootedAgree(x, y, arcs, arcs[x[k].parent.arc].head, m - 1);
    }
  }

  lemma ExactAgree(x: seq<Node>, y: seq<Node>, arcs: seq<Arc>, k: nat, n: nat)
    requires TreeLinks(x, arcs) && TreeLinks(y, arcs) && |x| == |y| && ChangesOffTrees(x, y, arcs)
    requires k < |x| && Exact(x, arcs, k, n)
    ensures Exact(y, arcs, k, n)
  {
    RootedAgree(x, y, arcs, k, n);
    if n > 0 {
      RootedAgree(x, y, arcs, k, n - 1);
    }
  }

  /**
   * The invariant survives any change that re-parents only nodes off the
   * trees and stamps no node anew.
   */
  lemma ExactCarries(x: seq<Node>, y: seq<Node>, arcs: seq<Arc>, ts: int)
    requires TreeLinks(x, arcs) && TreeLinks(y, arcs) && |x| == |y| && StampedExact(x, arcs, ts)
    requires ChangesOffTrees(x, y, arcs)
    requires forall k :: 0 <= k < |x| && y[k].timestamp == ts ==> x[k].timestamp == ts && y[k].distance == x[k].distance
    ensures StampedExact(y, arcs, ts)
  {
    forall k | 0 <= k < |y| && y[k].timestamp == ts
      ensures y[k].distance >= 0 && Exact(y, arcs, k, y[k].distance)
    {
      ExactAgree(x, y, arcs, k, x[k].distance);
    }
  }

  /** Stamping a node with its exact distance keeps the invariant. */
  lemma StampExact(nodes: seq<Node>, arcs: seq<Arc>, ts: int, j: nat, d: nat)
    requires TreeLinks(nodes, arcs) && j < |nodes| && StampedExact(nodes, arcs, ts) && Exact(nodes, arcs, j, d)
    ensures var y := nodes[j := nodes[j].(timestamp := ts, distance := d)];
      TreeLinks(y, arcs) && StampedExact(y, arcs, ts)
  {
    var y := nodes[j := nodes[j].(timestamp := ts, distance := d)];
    assert SameParents(nodes, y);
    forall k | 0 <= k < |y| && y[k].timestamp == ts
      ensures y[k].distance >= 0 && Exact(y, arcs, k, y[k].distance)
    {
      ExactSameParents(nodes, y, arcs, k, y[k].distance);
    }
  }

  lemma ExactOriginate(nodes: seq<Node>, arcs: seq<Arc>, ts: int)
    requires TreeLinks(nodes, arcs) && StampedExact(nodes, arcs, ts)
    ensures StampedOriginate(nodes, arcs, ts)
  {
    forall k | 0 <= k < |nodes| && nodes[k].timestamp == ts
      ensures Originates(nodes, arcs, k)
    {
      assert Rooted(nodes, arcs, k, nodes[k].distance);
    }
  }

  /*
   * The origin check and the marks
   */

  /** The origin check stamps only a root, with its exact distance 1, and so keeps the invariant and every stamp. */
  lemma {:induction false} OriginKeepsExact(nodes: seq<Node>, arcs: seq<Arc>, j: nat, d: int, ts: int, fuel: nat)
    requires TreeLinks(nodes, arcs) && j < |nodes| && StampedExact(nodes, arcs, ts)
    ensures var r := Origin(nodes, arcs, j, d, ts, fuel);
      TreeLinks(r.1, arcs) && StampedExact(r.1, arcs, ts) && KeepsStamps(nodes, r.1, ts)
    decreases fuel
  {
    if fuel > 0 && nodes[j].timestamp != ts {
      match nodes[j].parent
      case Terminal =>
        assert Exact(nodes, arcs, j, 1);
        StampExact(nodes, arcs, ts, j, 1);
      case Arc(a) =>
        OriginKeepsExact(nodes, arcs, arcs[a].head, d + 1, ts, fuel - 1);
      case _ =>
    }
  }

  /** With the invariant, the origin check from a node at exact distance `n` counts exactly `n`. */
  lemma {:induction false} OriginExact(nodes: seq<Node>, arcs: seq<Arc>, j: nat, d: int, ts: int, fuel: nat, n: nat)
    requires TreeLinks(nodes, arcs) && j < |nodes| && StampedExact(nodes, arcs, ts)
    requires Exact(nodes, arcs, j, n) && n <= fuel
    ensures Origin(nodes, arcs, j, d, ts, fuel).0 == d + n
    decreases fuel
  {
    if nodes[j].timestamp == ts {
      ExactUnique(nodes, arcs, j, n, nodes[j].distance);
    } else {
      match nodes[j].parent
      case Terminal =>
        assert Exact(nodes, arcs, j, 1);
        ExactUnique(nodes, arcs, j, n, 1);
      case Arc(a) =>
        ExactStep(nodes, arcs, j, n);
        OriginExact(nodes, arcs, arcs[a].head, d + 1, ts, fuel - 1, n - 1);
    }
  }

  /** Marking from a node at exact distance `d` keeps the invariant and every stamp, and stamps that node with `d`. */
  lemma {:induction false} MarksExact(nodes: seq<Node>, arcs: seq<Arc>, j: nat, ts: int, d: nat, fuel: nat)
    requires TreeLinks(nodes, arcs) && j < |nodes| && StampedExact(nodes, arcs, ts)
    requires Exact(nodes, arcs, j, d) && d <= fuel
    ensures var r := Marks(nodes, arcs, j, ts, d, fuel);
      && TreeLinks(r, arcs) && StampedExact(r, arcs, ts) && KeepsStamps(nodes, r, ts)
      && r[j].timestamp == ts && r[j].distance == d
    decreases fuel
  {
    if nodes[j].timestamp == ts {
      ExactUnique(nodes, arcs, j, d, nodes[j].distance);
    } else {
      var marked := nodes[j := nodes[j].(timestamp := ts, distance := d)];
      StampExact(nodes, arcs, ts, j, d);
      assert KeepsStamps(nodes, marked, ts);
      match nodes[j].parent
      case Arc(a) =>
        var h := arcs[a].head;
        ExactStep(nodes, arcs, j, d);
        assert SameParents(nodes, marked);
        ExactSameParents(nodes, marked, arcs, h, d - 1);
        MarksExact(marked, arcs, h, ts, d - 1, fuel - 1);
      case _ =>
    }
  }

  /*
   * The parent search and the orphan
   */

  lemma KeepsStampsTransitive(x: seq<Node>, y: seq<Node>, z: seq<Node>, ts: int)
    requires KeepsStamps(x, y, ts) && KeepsStamps(y, z, ts)
    ensures KeepsStamps(x, z, ts)
  {
  }

  /**
   * The origin check from `j` succeeds exactly when `j` originates; the marks
   * that follow a success leave `j` stamped with the distance counted. Both
   * keep the invariant and every stamp.
   */
  lemma CheckAndMark(nodes: seq<Node>, arcs: seq<Arc>, j: nat, ts: int)
    requires Walkable(nodes, arcs) && j < |nodes| && StampedExact(nodes, arcs, ts) && |nodes| < INFINITE_DISTANCE
    ensures var o := Origin(nodes, arcs, j, 0, ts, |nodes|);
      && Walkable(o.1, arcs) && StampedExact(o.1, arcs, ts) && KeepsStamps(nodes, o.1, ts)
      && (o.0 < INFINITE_DISTANCE <==> Originates(nodes, arcs, j))
    ensures var o := Origin(nodes, arcs, j, 0, ts, |nodes|);
      o.0 < INFINITE_DISTANCE ==>
        var marked := Marks(o.1, arcs, j, ts, o.0, |nodes|);
        && Walkable(marked, arcs) && StampedExact(marked, arcs, ts) && KeepsStamps(nodes, marked, ts)
        && StampsOnly(nodes, marked) && marked[j].timestamp == ts && marked[j].distance == o.0
  {
    var o := Origin(nodes, arcs, j, 0, ts, |nodes|);
    OriginKeepsExact(nodes, arcs, j, 0, ts, |nodes|);
    StampsKeepWalkable(nodes, o.1, arcs);
    if Originates(nodes, arcs, j) {
      var n0: nat :| Rooted(nodes, arcs, j, n0);
      var n := Depth(nodes, arcs, j, n0);
      DepthBound(nodes, arcs, j, n);
      OriginExact(nodes, arcs, j, 0, ts, |nodes|, n);
      assert SameParents(nodes, o.1);
      ExactSameParents(nodes, o.1, arcs, j, n);
      var marked := Marks(o.1, arcs, j, ts, o.0, |nodes|);
      MarksExact(o.1, arcs, j, ts, n, |nodes|);
      KeepsStampsTransitive(nodes, o.1, marked, ts);
      StampsOnlyTransitive(nodes, o.1, marked);
      StampsKeepWalkable(nodes, marked, arcs);
    } else {
      ExactOriginate(nodes, arcs, ts);
      OriginSound(nodes, arcs, j, 0, ts, |nodes|);
    }
  }

  /** The parent search under the invariant keeps the invariant and every stamp. */
  lemma {:induction false} ParentSearchKeeps(nodes: seq<Node>, arcs: seq<Arc>, a0: Link, sinkSide: bool, ts: int,
                                             best: Link, dMin: int)
    requires Walkable(nodes, arcs) && LinkIn(a0, |arcs|) && LinkIn(best, |arcs|)
    requires StampedExact(nodes, arcs, ts) && |nodes| < INFINITE_DISTANCE
    ensures var r := ParentSearch(nodes, arcs, a0, sinkSide, ts, best, dMin);
      TreeLinks(r.0, arcs) && StampedExact(r.0, arcs, ts) && KeepsStamps(nodes, r.0, ts)
    decreases ListRank(a0)
  {
    if a0.Ptr? {
      var a := a0.index;
      var j := arcs[a].head;
      var next := arcs[a].next;
      if TreeCapacity(arcs, a, sinkSide) > 0.0 && nodes[j].sink == sinkSide && !nodes[j].parent.Free? {
        var o := Origin(nodes, arcs, j, 0, ts, |nodes|);
        CheckAndMark(nodes, arcs, j, ts);
        if o.0 < INFINITE_DISTANCE {
          var marked := Marks(o.1, arcs, j, ts, o.0, |nodes|);
          var (b1, d1) := if o.0 < dMin then (Ptr(a), o.0) else (best, dMin);
          ParentSearchKeeps(marked, arcs, next, sinkSide, ts, b1, d1);
          KeepsStampsTransitive(nodes, marked, ParentSearch(marked, arcs, next, sinkSide, ts, b1, d1).0, ts);
        } else {
          ParentSearchKeeps(o.1, arcs, next, sinkSide, ts, best, dMin);
          KeepsStampsTransitive(nodes, o.1, ParentSearch(o.1, arcs, next, sinkSide, ts, best, dMin).0, ts);
        }
      } else {
        ParentSearchKeeps(nodes, arcs, next, sinkSide, ts, best, dMin);
      }
    }
  }

  /**
   * Under the invariant the arc the parent search settles on leads to a node
   * stamped with the distance kept, which never rises; the search keeps no arc
   * only when it started with none, leaving `dMin` as it was.
   */
  lemma {:induction false} ParentSearchBest(nodes: seq<Node>, arcs: seq<Arc>, a0: Link, sinkSide: bool, ts: int,
                                            best: Link, dMin: int)
    requires Walkable(nodes, arcs) && LinkIn(a0, |arcs|) && LinkIn(best, |arcs|)
    requires StampedExact(nodes, arcs, ts) && |nodes| < INFINITE_DISTANCE
    requires best.Ptr? ==> nodes[arcs[best.index].head].timestamp == ts && nodes[arcs[best.index].head].distance == dMin
    ensures var r := ParentSearch(nodes, arcs, a0, sinkSide, ts, best, dMin);
      && r.2 <= dMin
      && (r.1.Nil? ==> best.Nil? && r.2 == dMin)
      && (r.1.Ptr? ==> r.0[arcs[r.1.index].head].timestamp == ts && r.0[arcs[r.1.index].head].distance == r.2)
    decreases ListRank(a0)
  {
    if a0.Ptr? {
      var a := a0.index;
      var j := arcs[a].head;
      var next := arcs[a].next;
      if TreeCapacity(arcs, a, sinkSide) > 0.0 && nodes[j].sink == sinkSide && !nodes[j].parent.Free? {
        var o := Origin(nodes, arcs, j, 0, ts, |nodes|);
        CheckAndMark(nodes, arcs, j, ts);
        if o.0 < INFINITE_DISTANCE {
          var marked := Marks(o.1, arcs, j, ts, o.0, |nodes|);
          if o.0 < dMin {
            ParentSearchBest(marked, arcs, next, sinkSide, ts, Ptr(a), o.0);
          } else {
            ParentSearchBest(marked, arcs, next, sinkSide, ts, best, dMin);
          }
        } else {
          ParentSearchBest(o.1, arcs, next, sinkSide, ts, best, dMin);
        }
      } else {
        ParentSearchBest(nodes, arcs, next, sinkSide, ts, best, dMin);
      }
    }
  }

  /** The distance the parent search keeps never rises. */
  lemma {:induction false} ParentSearchNoRise(nodes: seq<Node>, arcs: seq<Arc>, a0: Link, sinkSide: bool, ts: int,
                                              best: Link, dMin: int)
    requires Walkable(nodes, arcs) && LinkIn(a0, |arcs|) && LinkIn(best, |arcs|)
    ensures ParentSearch(nodes, arcs, a0, sinkSide, ts, best, dMin).2 <= dMin
    decreases ListRank(a0)
  {
    if a0.Ptr? {
      var a := a0.index;
      var j := arcs[a].head;
      var next := arcs[a].next;
      if TreeCapacity(arcs, a, sinkSide) > 0.0 && nodes[j].sink == sinkSide && !nodes[j].parent.Free? {
        var o := Origin(nodes, arcs, j, 0, ts, |nodes|);
        StampsKeepWalkable(nodes, o.1, arcs);
        if o.0 < INFINITE_DISTANCE {
          var marked := Marks(o.1, arcs, j, ts, o.0, |nodes|);
          StampsOnlyTransitive(nodes, o.1, marked);
          StampsKeepWalkable(nodes, marked, arcs);
          if o.0 < dMin {
            ParentSearchNoRise(marked, arcs, next, sinkSide, ts, Ptr(a), o.0);
          } else {
            ParentSearchNoRise(marked, arcs, next, sinkSide, ts, best, dMin);
          }
        } else {
          ParentSearchNoRise(o.1, arcs, next, sinkSide, ts, best, dMin);
        }
      } else {
        ParentSearchNoRise(nodes, arcs, next, sinkSide, ts, best, dMin);
      }
    }
  }

  /**
   * Under the invariant every parent candidate of the scanned list ends
   * stamped, and none is nearer its terminal than the distance the parent
   * search keeps.
   */
  lemma {:induction false} ParentSearchComplete(nodes: seq<Node>, arcs: seq<Arc>, a0: Link, sinkSide: bool, ts: int,
                                                best: Link, dMin: int)
    requires Walkable(nodes, arcs) && LinkIn(a0, |arcs|) && LinkIn(best, |arcs|)
    requires StampedExact(nodes, arcs, ts) && |nodes| < INFINITE_DISTANCE
    ensures var r := ParentSearch(nodes, arcs, a0, sinkSide, ts, best, dMin);
      forall a :: a in ArcList(arcs, a0) && ParentCandidate(nodes, arcs, a, sinkSide) ==>
        r.0[arcs[a].head].timestamp == ts && r.2 <= r.0[arcs[a].head].distance
    decreases ListRank(a0)
  {
    if a0.Ptr? {
      var a := a0.index;
      var j := arcs[a].head;
      var next := arcs[a].next;
      assert ArcList(arcs, a0) == [a] + ArcList(arcs, next);
      if TreeCapacity(arcs, a, sinkSide) > 0.0 && nodes[j].sink == sinkSide && !nodes[j].parent.Free? {
        var o := Origin(nodes, arcs, j, 0, ts, |nodes|);
        CheckAndMark(nodes, arcs, j, ts);
        if o.0 < INFINITE_DISTANCE {
          var marked := Marks(o.1, arcs, j, ts, o.0, |nodes|);
          forall c | c in ArcList(arcs, next) && ParentCandidate(nodes, arcs, c, sinkSide)
            ensures ParentCandidate(marked, arcs, c, sinkSide)
          {
            CandidateStamps(nodes, marked, arcs, c, sinkSide);
          }
          var (b1, d1) := if o.0 < dMin then (Ptr(a), o.0) else (best, dMin);
          ParentSearchComplete(marked, arcs, next, sinkSide, ts, b1, d1);
          ParentSearchKeeps(marked, arcs, next, sinkSide, ts, b1, d1);
          ParentSearchNoRise(marked, arcs, next, sinkSide, ts, b1, d1);
        } else {
          forall c | c in ArcList(arcs, next) && ParentCandidate(nodes, arcs, c, sinkSide)
            ensures ParentCandidate(o.1, arcs, c, sinkSide)
          {
            CandidateStamps(nodes, o.1, arcs, c, sinkSide);
          }
          ParentSearchComplete(o.1, arcs, next, sinkSide, ts, best, dMin);
        }
      } else {
        if nodes[j].parent.Free? {
          FreeNotOriginating(nodes, arcs, j);
        }
        ParentSearchComplete(nodes, arcs, next, sinkSide, ts, best, dMin);
      }
    }
  }

  /**
   * Orphan `i` is processed during an adoption stage whose timestamp `ts`
   * was freshly drawn: every node stamped `ts` carries its exact distance,
   * and there are fewer nodes than `INFINITE_DISTANCE`.
   */
  ghost predicate AdoptionStage(nodes: seq<Node>, arcs: seq<Arc>, i: nat, ts: int)
  {
    && Walkable(nodes, arcs) && i < |nodes| && nodes[i].parent.Orphan?
    && StampedExact(nodes, arcs, ts) && ts != 0 && |nodes| < INFINITE_DISTANCE
  }

  /**
   * Processing an orphan under the invariant keeps the invariant, and the
   * orphan is freed exactly when its list holds no parent candidate.
   */
  lemma ProcessedOrphanExact(nodes: seq<Node>, arcs: seq<Arc>, first1: Link, last1: Link, orphans: seq<nat>,
                             i: nat, ts: int)
    requires AdoptionStage(nodes, arcs, i, ts)
    requires LinkIn(first1, |nodes|) && LinkIn(last1, |nodes|)
    ensures var r := ProcessedOrphan(nodes, arcs, first1, last1, orphans, i, ts);
      && StampedExact(r.0, arcs, ts)
      && (r.0[i].parent.Free? <==>
            forall a :: a in ArcList(arcs, nodes[i].first) ==> !ParentCandidate(nodes, arcs, a, nodes[i].sink))
  {
    var sinkSide := nodes[i].sink;
    var s := ParentSearch(nodes, arcs, nodes[i].first, sinkSide, ts, Nil, INFINITE_DISTANCE);
    ExactOriginate(nodes, arcs, ts);
    ParentSearchSound(nodes, arcs, nodes[i].first, sinkSide, ts, Nil, INFINITE_DISTANCE);
    ParentSearchKeeps(nodes, arcs, nodes[i].first, sinkSide, ts, Nil, INFINITE_DISTANCE);
    ParentSearchBest(nodes, arcs, nodes[i].first, sinkSide, ts, Nil, INFINITE_DISTANCE);
    ProcessedOrphanSound(nodes, arcs, first1, last1, orphans, i, ts);
    StampsKeepWalkable(nodes, s.0, arcs);
    assert SameParents(nodes, s.0);
    FreeNotOriginating(s.0, arcs, i);
    if s.1.Ptr? {
      AdoptExact(nodes, s.0, arcs, i, s.1.index, s.2, ts);
    } else {
      ParentSearchComplete(nodes, arcs, nodes[i].first, sinkSide, ts, Nil, INFINITE_DISTANCE);
      forall a | a in ArcList(arcs, nodes[i].first) && ParentCandidate(nodes, arcs, a, sinkSide)
        ensures false
      {
        var h := arcs[a].head;
        DepthBound(s.0, arcs, h, s.0[h].distance);
      }
      var freed := s.0[i := s.0[i].(parent := Free, timestamp := 0)];
      NodeUpdateWalkable(s.0, arcs, i, freed[i]);
      ReleasedNodes(freed, arcs, first1, last1, orphans, nodes[i].first, i, sinkSide);
      var r := Released(freed, arcs, first1, last1, orphans, nodes[i].first, i, sinkSide);
      FreeExact(nodes, s.0, freed, r.0, arcs, i, ts, sinkSide);
    }
  }

  /**
   * An orphan adopted under the invariant carries stamp `ts` and one more
   * than its parent's distance, and no parent candidate of its list would
   * have put it nearer its terminal.
   */
  lemma ProcessedOrphanNearest(nodes: seq<Node>, arcs: seq<Arc>, first1: Link, last1: Link, orphans: seq<nat>,
                               i: nat, ts: int)
    requires AdoptionStage(nodes, arcs, i, ts)
    requires LinkIn(first1, |nodes|) && LinkIn(last1, |nodes|)
    ensures var r := ProcessedOrphan(nodes, arcs, first1, last1, orphans, i, ts);
      r.0[i].parent.Arc? ==>
        && r.0[i].timestamp == ts
        && r.0[i].distance == r.0[arcs[r.0[i].parent.arc].head].distance + 1
        && forall a :: a in ArcList(arcs, nodes[i].first) && ParentCandidate(nodes, arcs, a, nodes[i].sink) ==>
             r.0[arcs[a].head].timestamp == ts && r.0[i].distance <= r.0[arcs[a].head].distance + 1
  {
    var sinkSide := nodes[i].sink;
    var s := ParentSearch(nodes, arcs, nodes[i].first, sinkSide, ts, Nil, INFINITE_DISTANCE);
    ExactOriginate(nodes, arcs, ts);
    ParentSearchSound(nodes, arcs, nodes[i].first, sinkSide, ts, Nil, INFINITE_DISTANCE);
    StampsKeepWalkable(nodes, s.0, arcs);
    assert SameParents(nodes, s.0);
    if s.1.Ptr? {
      ParentSearchKeeps(nodes, arcs, nodes[i].first, sinkSide, ts, Nil, INFINITE_DISTANCE);
      ParentSearchBest(nodes, arcs, nodes[i].first, sinkSide, ts, Nil, INFINITE_DISTANCE);
      ParentSearchComplete(nodes, arcs, nodes[i].first, sinkSide, ts, Nil, INFINITE_DISTANCE);
      FreeNotOriginating(s.0, arcs, i);
      AdoptExact(nodes, s.0, arcs, i, s.1.index, s.2, ts);
      forall a | a in ArcList(arcs, nodes[i].first) && ParentCandidate(nodes, arcs, a, sinkSide)
        ensures arcs[a].head != i
      {
        OriginatesSameParents(nodes, s.0, arcs, arcs[a].head);
      }
    } else {
      FreeKeepsStamped(s.0, arcs, ts, i);
      var freed := s.0[i := s.0[i].(parent := Free, timestamp := 0)];
      NodeUpdateWalkable(s.0, arcs, i, freed[i]);
      FreedReleased(nodes, freed, arcs, first1, last1, orphans, i, ts);
    }
  }

  /** The adopting half of `ProcessedOrphanExact`: orphan `i` hangs on arc `b`, whose head is stamped with `dMin`. */
  lemma AdoptExact(nodes: seq<Node>, s0: seq<Node>, arcs: seq<Arc>, i: nat, b: nat, dMin: int, ts: int)
    requires Walkable(s0, arcs) && StampsOnly(nodes, s0) && i < |nodes|
    requires !Originates(s0, arcs, i) && StampedExact(s0, arcs, ts)
    requires b < |arcs| && ParentCandidate(s0, arcs, b, nodes[i].sink)
    requires s0[arcs[b].head].timestamp == ts && s0[arcs[b].head].distance == dMin
    ensures arcs[b].head != i
    ensures var y := s0[i := s0[i].(parent := Parent.Arc(b), timestamp := ts, distance := dMin + 1)];
      TreeLinks(y, arcs) && StampedExact(y, arcs, ts) && ParentCandidate(nodes, arcs, b, nodes[i].sink)
  {
    var h := arcs[b].head;
    var y1 := s0[i := s0[i].(parent := Parent.Arc(b))];
    assert ChangesOffTrees(s0, y1, arcs);
    ExactCarries(s0, y1, arcs, ts);
    ExactAgree(s0, y1, arcs, h, dMin);
    ExactStep(y1, arcs, i, dMin + 1);
    StampExact(y1, arcs, ts, i, dMin + 1);
    var y := s0[i := s0[i].(parent := Parent.Arc(b), timestamp := ts, distance := dMin + 1)];
    assert y == y1[i := y1[i].(timestamp := ts, distance := dMin + 1)];
    assert SameParents(s0, nodes);
    OriginatesSameParents(s0, nodes, arcs, h);
  }

  /**
   * The freeing half of `ProcessedOrphanExact`: freeing orphan `i` and then
   * orphaning only children of `i` keeps the invariant.
   */
  lemma FreeExact(nodes: seq<Node>, s0: seq<Node>, freed: seq<Node>, r0: seq<Node>, arcs: seq<Arc>,
                  i: nat, ts: int, sinkSide: bool)
    requires TreeLinks(s0, arcs) && TreeLinks(r0, arcs) && StampsOnly(nodes, s0) && i < |nodes|
    requires !Originates(s0, arcs, i) && StampedExact(s0, arcs, ts) && ts != 0
    requires freed == s0[i := s0[i].(parent := Free, timestamp := 0)] && NextAndParentsOnly(freed, r0)
    requires forall k :: 0 <= k < |nodes| && k != i && r0[k].parent != nodes[k].parent ==> IsChild(nodes, arcs, k, i, sinkSide)
    ensures StampedExact(r0, arcs, ts)
  {
    forall k | 0 <= k < |s0| && r0[k].parent != s0[k].parent
      ensures !Originates(s0, arcs, k)
    {
      if k != i {
        assert IsChild(s0, arcs, k, i, sinkSide);
        ChildNotOriginating(s0, arcs, k, i, sinkSide);
      }
    }
    assert forall k :: 0 <= k < |s0| && r0[k].timestamp == ts ==> k != i && freed[k] == s0[k];
    ExactCarries(s0, r0, arcs, ts);
  }
}
