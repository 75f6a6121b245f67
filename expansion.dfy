/**
 * The energy of a labelling and the graph an alpha-expansion builds for it.
 *
 * A labelling gives every pixel (row-major) the image it is taken from. Its
 * energy is the data cost of every pixel under its label plus the seam cost
 * between every pixel and its neighbours to the right and above.
 *
 * The expansion move for a label `a` builds a flow network in three stages:
 * one node per pixel not yet labelled `a`, the seam costs folded into node
 * penalties and edges, then terminal capacities. The stages are specified
 * here as functions of the labelling, so the accounting of the energy along
 * the way can be proved once, independently of the loops that perform it.
 */
module Expansion {
  import opened Images
  import opened Coordinates
  import opened Graph
  import opened Costs

  /** Each pixel is paired with the one to its right and the one above it. */
  const NEIGHBORS: seq<Point> := [Point(1, 0), Point(0, -1)]

  const ACTIVE_NODE_INDEX: int := -1
  const NON_PRESENT_NODE_INDEX: int := -2
  /** The arena slots of the two sentinel nodes `ACTIVE_NODE` and `NON_PRESENT_NODE`. */
  const ACTIVE_SLOT: nat := 0
  const NON_PRESENT_SLOT: nat := 1

  lemma PositiveWidth(width: nat, height: nat, i: nat)
    requires i < width * height
    ensures width > 0
  {
  }

  /** The pixel at row-major index `i` of a grid `width` columns wide. */
  function Pixel(width: nat, height: nat, i: nat): (p: Point)
    requires i < width * height
    ensures p.InGrid(width, height) && p.OneDimensionalIndex(width) == i
  {
    PositiveWidth(width, height, i);
    PointAtInGrid(i, width, height);
    PointAt(i, width)
  }

  /** The neighbour of `p` in direction `dir`. */
  function Neighbour(p: Point, dir: nat): Point
    requires dir < |NEIGHBORS|
  {
    Point(p.col + NEIGHBORS[dir].col, p.row + NEIGHBORS[dir].row)
  }

  /**
   * The costs an energy minimiser is built on: `count` images of `width` by
   * `height` pixels, the data cost of giving a point a label, and the
   * interaction cost between two points with their labels.
   */
  datatype CostModel = CostModel(
    count: nat, width: nat, height: nat,
    data: (Point, int) -> Result<real>,
    interaction: (Point, Point, int, int) -> Result<real>)

  /**
   * What the expansion needs of the costs: on the grid a data cost is defined
   * exactly for a label naming an image; an interaction cost is defined for
   * any two such labels and is zero for equal ones; costs are never negative.
   */
  /** A cost that, when defined, is not negative. */
  predicate NonNegative(r: Result<real>)
  {
    r.Success? ==> r.value >= 0.0
  }

  ghost predicate Admissible(m: CostModel)
  {
    && (forall p: Point, d: int :: p.InGrid(m.width, m.height) ==> (m.data(p, d).Success? <==> 0 <= d < m.count))
    && (forall p: Point, d: int :: NonNegative(m.data(p, d)))
    && (forall c: Point, n: Point, x: int, y: int :: 0 <= x < m.count && 0 <= y < m.count ==> m.interaction(c, n, x, y).Success?)
    && (forall c: Point, n: Point, x: int, y: int :: NonNegative(m.interaction(c, n, x, y)))
    && (forall c: Point, n: Point, x: int :: 0 <= x < m.count ==> m.interaction(c, n, x, x) == Success(0.0))
  }

  /**
   * The costs of the maximum-likelihood minimiser: the histogram data
   * penalty and the Potts-floored interaction penalty.
   */
  function Mlo(s: Scene): (m: CostModel)
    ensures m.count == s.images.count && m.width == s.images.width && m.height == s.images.height
  {
    CostModel(s.images.count, s.images.width, s.images.height,
              (p, d) => DataPenalty(s.images, p, d),
              (c, n, x, y) => Interaction(s, c, n, x, y))
  }

  /** The maximum-likelihood costs have everything the expansion needs. */
  lemma MloAdmissible(s: Scene)
    ensures Admissible(Mlo(s))
  {
    var m := Mlo(s);
    forall c: Point, n: Point, x: int, y: int
      ensures 0 <= x < m.count && 0 <= y < m.count ==> m.interaction(c, n, x, y).Success?
      ensures 0 <= x < m.count && x == y ==> m.interaction(c, n, x, y) == Success(0.0)
    {
      InteractionOutcome(s, c, n, x, y);
    }
  }

  /** One label per pixel, each naming an image. */
  ghost predicate LabelsValid(m: CostModel, labels: seq<int>)
  {
    && |labels| == m.width * m.height
    && forall i :: 0 <= i < |labels| ==> 0 <= labels[i] < m.count
  }

  /*
   * The energy
   */

  /**
   * The seam cost between pixel `i` and its neighbour in direction `dir`,
   * nothing when that neighbour is off the grid.
   */
  function Seam(m: CostModel, labels: seq<int>, i: nat, dir: nat): Result<real>
    requires |labels| == m.width * m.height && i < |labels| && dir < |NEIGHBORS|
  {
    var c := Pixel(m.width, m.height, i);
    var n := Neighbour(c, dir);
    if !n.InGrid(m.width, m.height) then Success(0.0)
    else
      IndexInRange(n, m.width, m.height);
      m.interaction(c, n, labels[i], labels[n.OneDimensionalIndex(m.width)])
  }

  /** Two costs in sequence: the first failure is the outcome, otherwise their sum. */
  function Then(a: Result<real>, b: Result<real>): (r: Result<real>)
    ensures r.Success? <==> a.Success? && b.Success?
    ensures a.Failure? ==> r == a
    ensures a.Success? && b.Failure? ==> r == b
  {
    if a.Failure? then a
    else if b.Failure? then b
    else Success(a.value + b.value)
  }

  /** What pixel `i` adds to the energy: its data cost, then its two seams; the first failure is the outcome. */
  function PixelEnergy(m: CostModel, labels: seq<int>, i: nat): Result<real>
    requires |labels| == m.width * m.height && i < |labels|
  {
    Then(Then(m.data(Pixel(m.width, m.height, i), labels[i]), Seam(m, labels, i, 0)), Seam(m, labels, i, 1))
  }

  /** The energy of the first `k` pixels, in row-major order; the first failure is the outcome. */
  function EnergyUpTo(m: CostModel, labels: seq<int>, k: nat): Result<real>
    requires |labels| == m.width * m.height && k <= |labels|
  {
    if k == 0 then Success(0.0) else Then(EnergyUpTo(m, labels, k - 1), PixelEnergy(m, labels, k - 1))
  }

  /** The energy of a labelling. */
  function Energy(m: CostModel, labels: seq<int>): Result<real>
    requires |labels| == m.width * m.height
  {
    EnergyUpTo(m, labels, |labels|)
  }

  /** A pixel whose energy is defined has a label naming an image. */
  lemma PixelEnergyNeedsLabel(m: CostModel, labels: seq<int>, i: nat)
    requires Admissible(m) && |labels| == m.width * m.height && i < |labels|
    requires PixelEnergy(m, labels, i).Success?
    ensures 0 <= labels[i] < m.count
  {
  }

  /** With valid labels every seam cost is defined. */
  lemma SeamDefined(m: CostModel, labels: seq<int>, i: nat, dir: nat)
    requires Admissible(m) && LabelsValid(m, labels) && i < |labels| && dir < |NEIGHBORS|
    ensures Seam(m, labels, i, dir).Success?
  {
    var n := Neighbour(Pixel(m.width, m.height, i), dir);
    if n.InGrid(m.width, m.height) {
      IndexInRange(n, m.width, m.height);
    }
  }

  /** The energy of the first `k` pixels is defined only if each of them has a valid label. */
  lemma {:induction false} EnergyUpToNeedsLabels(m: CostModel, labels: seq<int>, k: nat)
    requires Admissible(m) && |labels| == m.width * m.height && k <= |labels|
    requires EnergyUpTo(m, labels, k).Success?
    ensures forall i :: 0 <= i < k ==> 0 <= labels[i] < m.count
  {
    if k > 0 {
      EnergyUpToNeedsLabels(m, labels, k - 1);
      PixelEnergyNeedsLabel(m, labels, k - 1);
    }
  }

  /** With valid labels the energy of every prefix is defined. */
  lemma {:induction false} EnergyUpToDefined(m: CostModel, labels: seq<int>, k: nat)
    requires Admissible(m) && LabelsValid(m, labels) && k <= |labels|
    ensures EnergyUpTo(m, labels, k).Success?
  {
    if k > 0 {
      EnergyUpToDefined(m, labels, k - 1);
      SeamDefined(m, labels, k - 1, 0);
      SeamDefined(m, labels, k - 1, 1);
    }
  }

  /** Once a prefix fails, every longer prefix fails the same way: the first failure is the outcome. */
  lemma {:induction false} FailureSticks(m: CostModel, labels: seq<int>, k: nat, n: nat)
    requires |labels| == m.width * m.height && k <= n <= |labels|
    requires EnergyUpTo(m, labels, k).Failure?
    ensures EnergyUpTo(m, labels, n) == EnergyUpTo(m, labels, k)
    decreases n
  {
    if n > k {
      FailureSticks(m, labels, k, n - 1);
    }
  }

  /** A failure among the first `k` pixels is the outcome of the whole energy. */
  lemma EnergyFails(m: CostModel, labels: seq<int>, k: nat)
    requires |labels| == m.width * m.height && k <= |labels| && EnergyUpTo(m, labels, k).Failure?
    ensures Energy(m, labels) == EnergyUpTo(m, labels, k)
  {
    FailureSticks(m, labels, k, |labels|);
  }

  /** With no pixel the energy is zero. */
  lemma NoPixels(m: CostModel, labels: seq<int>)
    requires |labels| == m.width * m.height == 0
    ensures Energy(m, labels) == Success(0.0)
  {
  }

  /** The energy is defined exactly when every label names an image. */
  lemma EnergyDefinedIffLabelsValid(m: CostModel, labels: seq<int>)
    requires Admissible(m) && |labels| == m.width * m.height
    ensures Energy(m, labels).Success? <==> LabelsValid(m, labels)
  {
    if Energy(m, labels).Success? {
      EnergyUpToNeedsLabels(m, labels, |labels|);
    }
    if LabelsValid(m, labels) {
      EnergyUpToDefined(m, labels, |labels|);
    }
  }

  lemma ThenNonNegative(a: Result<real>, b: Result<real>)
    requires NonNegative(a) && NonNegative(b)
    ensures NonNegative(Then(a, b))
  {
  }

  lemma DataNonNegative(m: CostModel, p: Point, d: int)
    requires Admissible(m)
    ensures NonNegative(m.data(p, d))
  {
  }

  lemma InteractionNonNegative(m: CostModel, c: Point, n: Point, x: int, y: int)
    requires Admissible(m)
    ensures NonNegative(m.interaction(c, n, x, y))
  {
  }

  lemma SeamNonNegative(m: CostModel, labels: seq<int>, i: nat, dir: nat)
    requires Admissible(m) && |labels| == m.width * m.height && i < |labels| && dir < |NEIGHBORS|
    ensures NonNegative(Seam(m, labels, i, dir))
  {
    var c := Pixel(m.width, m.height, i);
    var n := Neighbour(c, dir);
    if n.InGrid(m.width, m.height) {
      IndexInRange(n, m.width, m.height);
      InteractionNonNegative(m, c, n, labels[i], labels[n.OneDimensionalIndex(m.width)]);
    }
  }

  lemma PixelEnergyNonNegative(m: CostModel, labels: seq<int>, i: nat)
    requires Admissible(m) && |labels| == m.width * m.height && i < |labels|
    ensures NonNegative(PixelEnergy(m, labels, i))
  {
    var p := Pixel(m.width, m.height, i);
    DataNonNegative(m, p, labels[i]);
    SeamNonNegative(m, labels, i, 0);
    SeamNonNegative(m, labels, i, 1);
    ThenNonNegative(m.data(p, labels[i]), Seam(m, labels, i, 0));
    ThenNonNegative(Then(m.data(p, labels[i]), Seam(m, labels, i, 0)), Seam(m, labels, i, 1));
  }

  /** No energy is negative. */
  lemma {:induction false} EnergyNonNegative(m: CostModel, labels: seq<int>, k: nat)
    requires Admissible(m) && |labels| == m.width * m.height && k <= |labels|
    ensures NonNegative(EnergyUpTo(m, labels, k))
  {
    if k > 0 {
      EnergyNonNegative(m, labels, k - 1);
      PixelEnergyNonNegative(m, labels, k - 1);
      ThenNonNegative(EnergyUpTo(m, labels, k - 1), PixelEnergy(m, labels, k - 1));
    }
  }

  /**
   * The amount of a cost. The sums below only ever meet defined costs when
   * the labels are valid; an undefined one would count as nothing.
   */
  function Cost(r: Result<real>): real
  {
    if r.Success? then r.value else 0.0
  }

  /** The data cost of pixel `i` under label `d`. */
  ghost function DataTerm(m: CostModel, labels: seq<int>, i: nat, d: int): real
    requires |labels| == m.width * m.height && i < |labels|
  {
    Cost(m.data(Pixel(m.width, m.height, i), d))
  }

  /** The data costs of the first `k` pixels under their labels. */
  ghost function DataSum(m: CostModel, labels: seq<int>, k: nat): real
    requires |labels| == m.width * m.height && k <= |labels|
  {
    if k == 0 then 0.0 else DataSum(m, labels, k - 1) + DataTerm(m, labels, k - 1, labels[k - 1])
  }

  /** The two seam costs of pixel `i`. */
  ghost function PixelSeams(m: CostModel, labels: seq<int>, i: nat): real
    requires |labels| == m.width * m.height && i < |labels|
  {
    Cost(Seam(m, labels, i, 0)) + Cost(Seam(m, labels, i, 1))
  }

  /** The seam costs of the first `k` pixels. */
  ghost function SeamSum(m: CostModel, labels: seq<int>, k: nat): real
    requires |labels| == m.width * m.height && k <= |labels|
  {
    if k == 0 then 0.0 else SeamSum(m, labels, k - 1) + PixelSeams(m, labels, k - 1)
  }

  /** A pixel's energy is its data cost plus its two seams. */
  lemma PixelEnergySplits(m: CostModel, labels: seq<int>, i: nat)
    requires Admissible(m) && LabelsValid(m, labels) && i < |labels|
    ensures PixelEnergy(m, labels, i).Success?
    ensures PixelEnergy(m, labels, i).value == DataTerm(m, labels, i, labels[i]) + PixelSeams(m, labels, i)
  {
    SeamDefined(m, labels, i, 0);
    SeamDefined(m, labels, i, 1);
  }

  /** Adding one pixel's share to each of two partial sums. */
  lemma Regroup(e: real, d: real, s: real, p: real, dt: real, ps: real)
    ensures e == d + s && p == dt + ps ==> e + p == (d + dt) + (s + ps)
  {
  }

  /** The energy is the data costs plus the seam costs. */
  lemma {:induction false} EnergySplits(m: CostModel, labels: seq<int>, k: nat)
    requires Admissible(m) && LabelsValid(m, labels) && k <= |labels|
    ensures EnergyUpTo(m, labels, k).Success?
    ensures EnergyUpTo(m, labels, k).value == DataSum(m, labels, k) + SeamSum(m, labels, k)
  {
    if k > 0 {
      EnergySplits(m, labels, k - 1);
      PixelEnergySplits(m, labels, k - 1);
      Regroup(EnergyUpTo(m, labels, k - 1).value, DataSum(m, labels, k - 1), SeamSum(m, labels, k - 1),
              PixelEnergy(m, labels, k - 1).value, DataTerm(m, labels, k - 1, labels[k - 1]), PixelSeams(m, labels, k - 1));
    }
  }

  /** A seam between pixels with the same label costs nothing. */
  lemma UniformSeamIsFree(m: CostModel, labels: seq<int>, i: nat, dir: nat)
    requires Admissible(m) && LabelsValid(m, labels) && i < |labels| && dir < |NEIGHBORS|
    requires forall i :: 0 <= i < |labels| ==> labels[i] == labels[0]
    ensures Seam(m, labels, i, dir) == Success(0.0)
  {
    var n := Neighbour(Pixel(m.width, m.height, i), dir);
    if n.InGrid(m.width, m.height) {
      IndexInRange(n, m.width, m.height);
    }
  }

  /** Seams between pixels with the same label cost nothing. */
  lemma {:induction false} UniformSeamsAreFree(m: CostModel, labels: seq<int>, k: nat)
    requires Admissible(m) && LabelsValid(m, labels) && k <= |labels|
    requires forall i :: 0 <= i < |labels| ==> labels[i] == labels[0]
    ensures SeamSum(m, labels, k) == 0.0
  {
    if k > 0 {
      UniformSeamsAreFree(m, labels, k - 1);
      UniformSeamIsFree(m, labels, k - 1, 0);
      UniformSeamIsFree(m, labels, k - 1, 1);
    }
  }

  /** A labelling that takes every pixel from one image costs exactly its data costs. */
  lemma UniformEnergyIsDataCost(m: CostModel, labels: seq<int>)
    requires Admissible(m) && LabelsValid(m, labels)
    requires forall i :: 0 <= i < |labels| ==> labels[i] == labels[0]
    ensures Energy(m, labels) == Success(DataSum(m, labels, |labels|))
  {
    EnergySplits(m, labels, |labels|);
    UniformSeamsAreFree(m, labels, |labels|);
  }

  /*
   * Stage 1: nodes and data penalties
   */

  /**
   * The arena after the data loop has seen the first `k` pixels: the two
   * sentinels, then a fresh node for each pixel not labelled `a`, carrying
   * the pixel's index.
   */
  ghost function NodesUpTo(labels: seq<int>, a: int, k: nat): seq<Node>
    requires k <= |labels|
  {
    if k == 0 then [NewNode(ACTIVE_NODE_INDEX), NewNode(NON_PRESENT_NODE_INDEX)]
    else NodesUpTo(labels, a, k - 1) + if labels[k - 1] == a then [] else [NewNode(k - 1)]
  }

  /** The node-array entry of pixel `i`: the ACTIVE sentinel when it is labelled `a`, its own node otherwise. */
  ghost function SlotOf(labels: seq<int>, a: int, i: nat): nat
    requires i < |labels|
  {
    if labels[i] == a then ACTIVE_SLOT else |NodesUpTo(labels, a, i)|
  }

  /** `isNode`: a reference to a node that is neither sentinel and has a non-negative index. */
  function IsNode(nodes: seq<Node>, slot: nat): (r: bool)
    requires slot < |nodes|
    ensures r ==> slot != ACTIVE_SLOT && slot != NON_PRESENT_SLOT && nodes[slot].index >= 0
  {
    slot != ACTIVE_SLOT && slot != NON_PRESENT_SLOT && nodes[slot].index >= 0
  }

  /** The nodes with their adjacency lists forgotten. */
  ghost function Skeleton(nodes: seq<Node>): (r: seq<Node>)
    ensures |r| == |nodes|
  {
    seq(|nodes|, k requires 0 <= k < |nodes| => nodes[k].(first := Nil))
  }

  /** Nodes that agree in everything but their adjacency lists. */
  ghost predicate SameNodes(x: seq<Node>, y: seq<Node>)
  {
    Skeleton(x) == Skeleton(y)
  }

  /** Redirecting one node's adjacency list keeps the skeleton. */
  lemma SkeletonKept(nodes: seq<Node>, k: nat, first: Link)
    requires k < |nodes|
    ensures SameNodes(nodes, nodes[k := nodes[k].(first := first)])
  {
    var y := nodes[k := nodes[k].(first := first)];
    assert forall j :: 0 <= j < |nodes| ==> Skeleton(y)[j] == Skeleton(nodes)[j];
  }

  /** Exactly the pixels not labelled `a` refer to real nodes. */
  ghost predicate Marked(labels: seq<int>, a: int, slots: seq<nat>, nodes: seq<Node>)
  {
    && |slots| == |labels|
    && (forall i :: 0 <= i < |slots| ==> slots[i] < |nodes|)
    && (forall i :: 0 <= i < |slots| ==> (IsNode(nodes, slots[i]) <==> labels[i] != a))
  }

  /** Which slots hold real nodes depends on the index fields alone. */
  lemma MarkedKept(labels: seq<int>, a: int, slots: seq<nat>, x: seq<Node>, y: seq<Node>)
    requires Marked(labels, a, slots, x) && SameNodes(x, y)
    ensures Marked(labels, a, slots, y)
  {
    forall i | 0 <= i < |slots|
      ensures IsNode(y, slots[i]) == IsNode(x, slots[i])
    {
      assert Skeleton(y)[slots[i]] == Skeleton(x)[slots[i]];
    }
  }

  /** The arena only grows: every earlier arena is a prefix of every later one. */
  lemma {:induction false} NodesGrow(labels: seq<int>, a: int, j: nat, k: nat)
    requires j <= k <= |labels|
    ensures 2 <= |NodesUpTo(labels, a, j)| && NodesUpTo(labels, a, j) <= NodesUpTo(labels, a, k)
    decreases k
  {
    if j < k {
      NodesGrow(labels, a, j, k - 1);
    } else if k > 0 {
      NodesGrow(labels, a, j - 1, k - 1);
    }
  }

  /**
   * Pixel `i` refers to the ACTIVE sentinel when it is labelled `a`, and
   * otherwise to its own node, a real node carrying the pixel's index.
   */
  lemma NodeOfPixel(labels: seq<int>, a: int, i: nat, k: nat)
    requires i < k <= |labels|
    ensures var nodes := NodesUpTo(labels, a, k);
      && SlotOf(labels, a, i) < |nodes|
      && (labels[i] == a ==> SlotOf(labels, a, i) == ACTIVE_SLOT)
      && (labels[i] != a ==> nodes[SlotOf(labels, a, i)] == NewNode(i))
      && (IsNode(nodes, SlotOf(labels, a, i)) <==> labels[i] != a)
  {
    NodesGrow(labels, a, i, i + 1);
    NodesGrow(labels, a, i + 1, k);
    NodesGrow(labels, a, 0, k);
    var nodes := NodesUpTo(labels, a, k);
    assert nodes[ACTIVE_SLOT] == NewNode(ACTIVE_NODE_INDEX);
    if labels[i] != a {
      var before := NodesUpTo(labels, a, i + 1);
      assert before[SlotOf(labels, a, i)] == NewNode(i);
      assert nodes[SlotOf(labels, a, i)] == before[SlotOf(labels, a, i)];
    }
  }

  /** Every node of the arena the data loop builds is free and has no arcs. */
  lemma {:induction false} NodesFree(labels: seq<int>, a: int, k: nat)
    requires k <= |labels|
    ensures forall n :: 0 <= n < |NodesUpTo(labels, a, k)| ==>
      NodesUpTo(labels, a, k)[n].parent == Free && NodesUpTo(labels, a, k)[n].first == Nil
  {
    if k > 0 {
      NodesFree(labels, a, k - 1);
    }
  }

  /**
   * The arena the data loop builds: every pixel labelled `a` refers to the
   * ACTIVE sentinel, every other pixel to its own fresh node, which is a real
   * node carrying the pixel's index, and every node is free.
   */
  lemma NodesBuilt(labels: seq<int>, a: int)
    ensures var nodes := NodesUpTo(labels, a, |labels|);
      && (forall n :: 0 <= n < |nodes| ==> nodes[n].parent == Free && nodes[n].first == Nil)
      && (forall i :: 0 <= i < |labels| ==> SlotOf(labels, a, i) < |nodes|)
      && (forall i :: 0 <= i < |labels| && labels[i] != a ==> nodes[SlotOf(labels, a, i)] == NewNode(i))
      && (forall i :: 0 <= i < |labels| ==> (IsNode(nodes, SlotOf(labels, a, i)) <==> labels[i] != a))
  {
    NodesFree(labels, a, |labels|);
    forall i | 0 <= i < |labels|
      ensures var nodes := NodesUpTo(labels, a, |labels|);
        && SlotOf(labels, a, i) < |nodes|
        && (labels[i] != a ==> nodes[SlotOf(labels, a, i)] == NewNode(i))
        && (IsNode(nodes, SlotOf(labels, a, i)) <==> labels[i] != a)
    {
      NodeOfPixel(labels, a, i, |labels|);
    }
  }

  /** Distinct pixels not labelled `a` have distinct nodes. */
  lemma SlotsDistinct(labels: seq<int>, a: int, i: nat, j: nat)
    requires i < |labels| && j < |labels| && labels[i] != a
    requires SlotOf(labels, a, i) == SlotOf(labels, a, j)
    ensures i == j
  {
    NodeOfPixel(labels, a, i, |labels|);
    NodeOfPixel(labels, a, j, |labels|);
  }

  /** The node array: one entry per pixel. */
  ghost function Slots(labels: seq<int>, a: int): (r: seq<nat>)
    ensures |r| == |labels|
  {
    seq(|labels|, i requires 0 <= i < |labels| => SlotOf(labels, a, i))
  }

  /**
   * The penalty of each pixel after the data loop: for a pixel not labelled
   * `a`, the data cost of `a` less the data cost of its label; 0 otherwise.
   */
  ghost function InitialPenalty(m: CostModel, labels: seq<int>, a: int, i: nat): real
    requires |labels| == m.width * m.height && i < |labels|
  {
    if labels[i] == a then 0.0 else DataTerm(m, labels, i, a) - DataTerm(m, labels, i, labels[i])
  }

  /*
   * Stage 2: seams folded into penalties and edges
   */

  /**
   * The state the graph-building loops thread: the energy accumulated so
   * far, the penalty array, and the arena.
   */
  datatype Build = Build(energy: real, penalty: seq<real>, nodes: seq<Node>, arcs: seq<Arc>)

  /** The outcome of folding one pair's three costs (the Kolmogorov–Zabih reduction). */
  datatype Fold = Fold(d1: real, d2: real, c0A: real, cA0: real, left: real)

  /**
   * Folds the cost `p00` of keeping both labels, `p0A` of moving only the
   * neighbour to `a` and `pA0` of moving only the pixel: the part `d1`
   * shared with `p0A` and then `d2` shared with `pA0` are taken into the
   * energy, leaving edge capacities `c0A`, `cA0` and an unrepresented rest
   * `left` of `p00`, which vanishes exactly when the triangle inequality
   * `p00 <= p0A + pA0` holds.
   */
  function FoldPair(p00: real, p0A: real, pA0: real): (f: Fold)
    ensures 0.0 <= p00 && 0.0 <= p0A && 0.0 <= pA0 ==>
      && 0.0 <= f.d1 && 0.0 <= f.d2 && 0.0 <= f.c0A && 0.0 <= f.cA0 && 0.0 <= f.left
      && f.d1 + f.d2 + f.left == p00
      && f.d1 + f.c0A == p0A
      && f.d2 + f.cA0 == pA0
      && f.left == (if p00 > p0A + pA0 then p00 - p0A - pA0 else 0.0)
  {
    var m1 := if p00 < p0A then p00 else p0A;
    var d1 := if m1 > 0.0 then m1 else 0.0;
    var q00, q0A := p00 - d1, p0A - d1;
    var m2 := if q00 < pA0 then q00 else pA0;
    var d2 := if m2 > 0.0 then m2 else 0.0;
    Fold(d1, d2, q0A, pA0 - d2, q00 - d2)
  }

  /** What a state must satisfy for the pair steps to apply to it. */
  ghost predicate Ready(m: CostModel, labels: seq<int>, a: int, slots: seq<nat>, b: Build)
  {
    && |labels| == m.width * m.height
    && |slots| == |labels| && |b.penalty| == |labels|
    && forall i :: 0 <= i < |slots| ==> slots[i] < |b.nodes|
  }

  /**
   * Two real nodes: the pair's three costs are folded, the shared parts taken
   * into the energy and off the two penalties, and an edge added between the
   * nodes, its capacities ordered by `alphaSink`.
   */
  ghost function Joined(m: CostModel, labels: seq<int>, a: int, alphaSink: bool, slots: seq<nat>, b: Build,
                        cp: Point, np: Point, i: nat, n: nat): (r: Build)
    requires Ready(m, labels, a, slots, b) && i < |labels| && n < |labels|
    ensures |r.penalty| == |b.penalty| && |r.nodes| == |b.nodes|
  {
    var f := FoldPair(Cost(m.interaction(cp, np, labels[i], labels[n])),
                      Cost(m.interaction(cp, np, labels[i], a)),
                      Cost(m.interaction(cp, np, a, labels[n])));
    var penalty := b.penalty[i := b.penalty[i] - f.d1];
    var (nodes, arcs) := if alphaSink then EdgeAdded(b.nodes, b.arcs, slots[i], slots[n], f.c0A, f.cA0)
                         else EdgeAdded(b.nodes, b.arcs, slots[i], slots[n], f.cA0, f.c0A);
    Build(b.energy + f.d1 + f.d2, penalty[n := penalty[n] - f.d2], nodes, arcs)
  }

  /** One real node: the cost `delta` of moving it to `a` is taken into the energy and off its penalty. */
  function Charged(b: Build, j: nat, delta: real): (r: Build)
    requires j < |b.penalty|
    ensures |r.penalty| == |b.penalty| && r.nodes == b.nodes && r.arcs == b.arcs
  {
    Build(b.energy + delta, b.penalty[j := b.penalty[j] - delta], b.nodes, b.arcs)
  }

  /**
   * One pass of the neighbour loop: pixel `i` and its neighbour in direction
   * `dir`. Off the grid nothing happens. Between two real nodes the pair is
   * linked; with one real node that node is charged the cost of moving it
   * to `a`; with none, nothing.
   */
  ghost function PairStep(m: CostModel, labels: seq<int>, a: int, alphaSink: bool, slots: seq<nat>, b: Build, i: nat, dir: nat): (r: Build)
    requires Ready(m, labels, a, slots, b) && i < |labels| && dir < |NEIGHBORS|
    ensures |r.penalty| == |b.penalty| && |r.nodes| == |b.nodes|
  {
    var w, h := m.width, m.height;
    var cp := Pixel(w, h, i);
    var np := Neighbour(cp, dir);
    if !np.InGrid(w, h) then b
    else
      IndexInRange(np, w, h);
      var n := np.OneDimensionalIndex(w);
      var cReal, nReal := IsNode(b.nodes, slots[i]), IsNode(b.nodes, slots[n]);
      if cReal && nReal then Joined(m, labels, a, alphaSink, slots, b, cp, np, i, n)
      else if cReal then Charged(b, i, Cost(m.interaction(cp, np, labels[i], a)))
      else if nReal then Charged(b, n, Cost(m.interaction(cp, np, a, labels[n])))
      else b
  }

  /** Pixel `i` paired with each of its neighbours in turn. */
  ghost function PixelStep(m: CostModel, labels: seq<int>, a: int, alphaSink: bool, slots: seq<nat>, b: Build, i: nat): (r: Build)
    requires Ready(m, labels, a, slots, b) && i < |labels|
    ensures |r.penalty| == |b.penalty| && |r.nodes| == |b.nodes|
  {
    var right := PairStep(m, labels, a, alphaSink, slots, b, i, 0);
    PairStep(m, labels, a, alphaSink, slots, right, i, 1)
  }

  /** The state after the first `k` pixels, in row-major order. */
  ghost function Interactions(m: CostModel, labels: seq<int>, a: int, alphaSink: bool, slots: seq<nat>, b: Build, k: nat): (r: Build)
    requires Ready(m, labels, a, slots, b) && k <= |labels|
    ensures |r.penalty| == |b.penalty| && |r.nodes| == |b.nodes| && Ready(m, labels, a, slots, r)
  {
    if k == 0 then b
    else PixelStep(m, labels, a, alphaSink, slots, Interactions(m, labels, a, alphaSink, slots, b, k - 1), k - 1)
  }

  /** A pair step changes no node except for its adjacency list. */
  lemma PairStepKeepsNodes(m: CostModel, labels: seq<int>, a: int, alphaSink: bool, slots: seq<nat>, b: Build, i: nat, dir: nat)
    requires Ready(m, labels, a, slots, b) && i < |labels| && dir < |NEIGHBORS|
    ensures SameNodes(b.nodes, PairStep(m, labels, a, alphaSink, slots, b, i, dir).nodes)
  {
    var w, h := m.width, m.height;
    var np := Neighbour(Pixel(w, h, i), dir);
    if np.InGrid(w, h) {
      IndexInRange(np, w, h);
      var n := np.OneDimensionalIndex(w);
      var r := PairStep(m, labels, a, alphaSink, slots, b, i, dir);
      if IsNode(b.nodes, slots[i]) && IsNode(b.nodes, slots[n]) {
        var nodes1 := b.nodes[slots[i] := b.nodes[slots[i]].(first := Ptr(|b.arcs|))];
        SkeletonKept(b.nodes, slots[i], Ptr(|b.arcs|));
        SkeletonKept(nodes1, slots[n], Ptr(|b.arcs| + 1));
      }
    }
  }

  /** A pixel step changes no node except for adjacency lists. */
  lemma PixelStepKeepsNodes(m: CostModel, labels: seq<int>, a: int, alphaSink: bool, slots: seq<nat>, b: Build, i: nat)
    requires Ready(m, labels, a, slots, b) && i < |labels|
    ensures SameNodes(b.nodes, PixelStep(m, labels, a, alphaSink, slots, b, i).nodes)
  {
    var right := PairStep(m, labels, a, alphaSink, slots, b, i, 0);
    PairStepKeepsNodes(m, labels, a, alphaSink, slots, b, i, 0);
    PairStepKeepsNodes(m, labels, a, alphaSink, slots, right, i, 1);
  }

  /** The interaction stage changes no node except for adjacency lists. */
  lemma {:induction false} InteractionsKeepNodes(m: CostModel, labels: seq<int>, a: int, alphaSink: bool, slots: seq<nat>, b: Build, k: nat)
    requires Ready(m, labels, a, slots, b) && k <= |labels|
    ensures SameNodes(b.nodes, Interactions(m, labels, a, alphaSink, slots, b, k).nodes)
  {
    if k > 0 {
      InteractionsKeepNodes(m, labels, a, alphaSink, slots, b, k - 1);
      var prev := Interactions(m, labels, a, alphaSink, slots, b, k - 1);
      PixelStepKeepsNodes(m, labels, a, alphaSink, slots, prev, k - 1);
    }
  }

  /**
   * The part of a pair's seam cost the graph cannot represent: the fold's
   * rest when both pixels have real nodes, nothing otherwise.
   */
  ghost function PairLeft(m: CostModel, labels: seq<int>, a: int, i: nat, dir: nat): real
    requires |labels| == m.width * m.height && i < |labels| && dir < |NEIGHBORS|
  {
    var w, h := m.width, m.height;
    var cp := Pixel(w, h, i);
    var np := Neighbour(cp, dir);
    if !np.InGrid(w, h) then 0.0
    else
      IndexInRange(np, w, h);
      var n := np.OneDimensionalIndex(w);
      if labels[i] == a || labels[n] == a then 0.0
      else
        FoldPair(Cost(m.interaction(cp, np, labels[i], labels[n])),
                 Cost(m.interaction(cp, np, labels[i], a)),
                 Cost(m.interaction(cp, np, a, labels[n]))).left
  }

  /** The rests of pixel `i`'s two pairs. */
  ghost function PixelLeft(m: CostModel, labels: seq<int>, a: int, i: nat): real
    requires |labels| == m.width * m.height && i < |labels|
  {
    PairLeft(m, labels, a, i, 0) + PairLeft(m, labels, a, i, 1)
  }

  /** The rests of the first `k` pixels. */
  ghost function LeftSum(m: CostModel, labels: seq<int>, a: int, k: nat): real
    requires |labels| == m.width * m.height && k <= |labels|
  {
    if k == 0 then 0.0 else LeftSum(m, labels, a, k - 1) + PixelLeft(m, labels, a, k - 1)
  }

  /** Each pair step adds to the energy its seam cost less the rest that cannot be represented. */
  lemma PairStepExact(m: CostModel, labels: seq<int>, a: int, alphaSink: bool, slots: seq<nat>, b: Build, i: nat, dir: nat)
    requires Admissible(m) && LabelsValid(m, labels) && 0 <= a < m.count
    requires Ready(m, labels, a, slots, b) && Marked(labels, a, slots, b.nodes) && i < |labels| && dir < |NEIGHBORS|
    ensures PairStep(m, labels, a, alphaSink, slots, b, i, dir).energy + PairLeft(m, labels, a, i, dir)
         == b.energy + Cost(Seam(m, labels, i, dir))
  {
    SeamDefined(m, labels, i, dir);
    var w, h := m.width, m.height;
    var np := Neighbour(Pixel(w, h, i), dir);
    if np.InGrid(w, h) {
      IndexInRange(np, w, h);
    }
  }

  /** An account that balances stays balanced when both sides grow by a balanced step. */
  lemma Carry(x: real, l: real, e: real, s: real, y: real, pl: real, sv: real)
    ensures x + l == e + s && y + pl == x + sv ==> y + (l + pl) == e + (s + sv)
  {
  }

  /** Each pixel step adds to the energy its seam costs less their rests. */
  lemma PixelStepExact(m: CostModel, labels: seq<int>, a: int, alphaSink: bool, slots: seq<nat>, b: Build, i: nat)
    requires Admissible(m) && LabelsValid(m, labels) && 0 <= a < m.count
    requires Ready(m, labels, a, slots, b) && Marked(labels, a, slots, b.nodes) && i < |labels|
    ensures PixelStep(m, labels, a, alphaSink, slots, b, i).energy + PixelLeft(m, labels, a, i)
         == b.energy + PixelSeams(m, labels, i)
  {
    var right := PairStep(m, labels, a, alphaSink, slots, b, i, 0);
    PairStepExact(m, labels, a, alphaSink, slots, b, i, 0);
    PairStepKeepsNodes(m, labels, a, alphaSink, slots, b, i, 0);
    MarkedKept(labels, a, slots, b.nodes, right.nodes);
    PairStepExact(m, labels, a, alphaSink, slots, right, i, 1);
    Carry(right.energy, PairLeft(m, labels, a, i, 0), b.energy, Cost(Seam(m, labels, i, 0)),
          PixelStep(m, labels, a, alphaSink, slots, b, i).energy, PairLeft(m, labels, a, i, 1), Cost(Seam(m, labels, i, 1)));
  }

  /**
   * The interaction stage is exact up to the rests: the energy it reaches
   * plus the rests of the pixels seen is the energy it started from plus
   * their seam costs.
   */
  lemma {:induction false} InteractionsExact(m: CostModel, labels: seq<int>, a: int, alphaSink: bool, slots: seq<nat>, b: Build, k: nat)
    requires Admissible(m) && LabelsValid(m, labels) && 0 <= a < m.count
    requires Ready(m, labels, a, slots, b) && Marked(labels, a, slots, b.nodes) && k <= |labels|
    ensures Interactions(m, labels, a, alphaSink, slots, b, k).energy + LeftSum(m, labels, a, k)
         == b.energy + SeamSum(m, labels, k)
  {
    if k > 0 {
      InteractionsExact(m, labels, a, alphaSink, slots, b, k - 1);
      var prev := Interactions(m, labels, a, alphaSink, slots, b, k - 1);
      InteractionsKeepNodes(m, labels, a, alphaSink, slots, b, k - 1);
      MarkedKept(labels, a, slots, b.nodes, prev.nodes);
      PixelStepExact(m, labels, a, alphaSink, slots, prev, k - 1);
      var next := PixelStep(m, labels, a, alphaSink, slots, prev, k - 1);
      assert Interactions(m, labels, a, alphaSink, slots, b, k) == next;
      assert LeftSum(m, labels, a, k) == LeftSum(m, labels, a, k - 1) + PixelLeft(m, labels, a, k - 1);
      assert SeamSum(m, labels, k) == SeamSum(m, labels, k - 1) + PixelSeams(m, labels, k - 1);
      Carry(prev.energy, LeftSum(m, labels, a, k - 1), b.energy, SeamSum(m, labels, k - 1),
            next.energy, PixelLeft(m, labels, a, k - 1), PixelSeams(m, labels, k - 1));
    }
  }

  /** A rest is never negative. */
  lemma PairLeftNonNegative(m: CostModel, labels: seq<int>, a: int, i: nat, dir: nat)
    requires Admissible(m) && LabelsValid(m, labels) && 0 <= a < m.count && i < |labels| && dir < |NEIGHBORS|
    ensures PairLeft(m, labels, a, i, dir) >= 0.0
  {
    var cp := Pixel(m.width, m.height, i);
    var np := Neighbour(cp, dir);
    if np.InGrid(m.width, m.height) {
      IndexInRange(np, m.width, m.height);
      var n := np.OneDimensionalIndex(m.width);
      InteractionNonNegative(m, cp, np, labels[i], labels[n]);
      InteractionNonNegative(m, cp, np, labels[i], a);
      InteractionNonNegative(m, cp, np, a, labels[n]);
    }
  }

  /** The rests are never negative, so the stage never overstates the energy. */
  lemma {:induction false} LeftSumNonNegative(m: CostModel, labels: seq<int>, a: int, k: nat)
    requires Admissible(m) && LabelsValid(m, labels) && 0 <= a < m.count && k <= |labels|
    ensures LeftSum(m, labels, a, k) >= 0.0
  {
    if k > 0 {
      LeftSumNonNegative(m, labels, a, k - 1);
      PairLeftNonNegative(m, labels, a, k - 1, 0);
      PairLeftNonNegative(m, labels, a, k - 1, 1);
    }
  }

  /**
   * A pair satisfies the triangle inequality: keeping both labels costs no
   * more than moving one of the two pixels to `a`, summed over both choices.
   */
  ghost predicate PairMetric(m: CostModel, labels: seq<int>, a: int, i: nat, dir: nat)
    requires |labels| == m.width * m.height && i < |labels| && dir < |NEIGHBORS|
  {
    var cp := Pixel(m.width, m.height, i);
    var np := Neighbour(cp, dir);
    if !np.InGrid(m.width, m.height) then true
    else
      IndexInRange(np, m.width, m.height);
      var n := np.OneDimensionalIndex(m.width);
      Cost(m.interaction(cp, np, labels[i], labels[n]))
        <= Cost(m.interaction(cp, np, labels[i], a)) + Cost(m.interaction(cp, np, a, labels[n]))
  }

  /** A pair that satisfies the triangle inequality leaves no rest. */
  lemma MetricPairLeavesNothing(m: CostModel, labels: seq<int>, a: int, i: nat, dir: nat)
    requires Admissible(m) && LabelsValid(m, labels) && 0 <= a < m.count && i < |labels| && dir < |NEIGHBORS|
    requires PairMetric(m, labels, a, i, dir)
    ensures PairLeft(m, labels, a, i, dir) == 0.0
  {
    var cp := Pixel(m.width, m.height, i);
    var np := Neighbour(cp, dir);
    if np.InGrid(m.width, m.height) {
      IndexInRange(np, m.width, m.height);
      var n := np.OneDimensionalIndex(m.width);
      InteractionNonNegative(m, cp, np, labels[i], labels[n]);
      InteractionNonNegative(m, cp, np, labels[i], a);
      InteractionNonNegative(m, cp, np, a, labels[n]);
    }
  }

  /** When every pair satisfies the triangle inequality there is no rest. */
  lemma {:induction false} MetricLeavesNothing(m: CostModel, labels: seq<int>, a: int, k: nat)
    requires Admissible(m) && LabelsValid(m, labels) && 0 <= a < m.count && k <= |labels|
    requires forall i, dir :: 0 <= i < k && 0 <= dir < |NEIGHBORS| ==> PairMetric(m, labels, a, i, dir)
    ensures LeftSum(m, labels, a, k) == 0.0
  {
    if k > 0 {
      MetricLeavesNothing(m, labels, a, k - 1);
      MetricPairLeavesNothing(m, labels, a, k - 1, 0);
      MetricPairLeavesNothing(m, labels, a, k - 1, 1);
    }
  }

  /*
   * The whole construction
   */

  /** The state the data loop hands to the interaction loop. */
  ghost function Built(m: CostModel, labels: seq<int>, a: int): (b: Build)
    requires |labels| == m.width * m.height
    ensures Ready(m, labels, a, Slots(labels, a), b)
  {
    NodesBuilt(labels, a);
    Build(DataSum(m, labels, |labels|),
          seq(|labels|, i requires 0 <= i < |labels| => InitialPenalty(m, labels, a, i)),
          NodesUpTo(labels, a, |labels|), [])
  }

  /** The state the interaction loop hands to the terminal loop. */
  ghost function Folded(m: CostModel, labels: seq<int>, a: int, alphaSink: bool): (b: Build)
    requires |labels| == m.width * m.height
  {
    Interactions(m, labels, a, alphaSink, Slots(labels, a), Built(m, labels, a), |labels|)
  }

  /**
   * The accounting of the expansion: the energy reached when the graph is
   * built, plus the rests the graph cannot represent, is the energy of the
   * current labelling. Keeping every label is then a cut of the graph whose
   * cost is what the terminal stage still adds.
   */
  lemma ExpansionAccounting(m: CostModel, labels: seq<int>, a: int, alphaSink: bool)
    requires Admissible(m) && LabelsValid(m, labels) && 0 <= a < m.count
    ensures Energy(m, labels).Success?
    ensures Folded(m, labels, a, alphaSink).energy + LeftSum(m, labels, a, |labels|) == Energy(m, labels).value
  {
    NodesBuilt(labels, a);
    var b := Built(m, labels, a);
    assert forall i :: 0 <= i < |labels| ==> Slots(labels, a)[i] == SlotOf(labels, a, i);
    assert Marked(labels, a, Slots(labels, a), b.nodes);
    InteractionsExact(m, labels, a, alphaSink, Slots(labels, a), b, |labels|);
    EnergySplits(m, labels, |labels|);
  }

  /*
   * Stage 3: terminal capacities
   */

  /**
   * What the terminal loop adds to the energy over the first `k` pixels:
   * the penalty of every real node whose penalty is not positive.
   */
  ghost function Shift(nodes: seq<Node>, slots: seq<nat>, penalty: seq<real>, k: nat): (r: real)
    requires k <= |slots| && k <= |penalty|
    requires forall i :: 0 <= i < |slots| ==> slots[i] < |nodes|
    ensures r <= 0.0
  {
    if k == 0 then 0.0
    else
      Shift(nodes, slots, penalty, k - 1)
        + if IsNode(nodes, slots[k - 1]) && penalty[k - 1] <= 0.0 then penalty[k - 1] else 0.0
  }

  /** The signed terminal capacity a real node with penalty `delta` receives. */
  function TerminalCapacity(alphaSink: bool, delta: real): real
  {
    if alphaSink then delta else -delta
  }
}
