/**
 * The maximum-likelihood energy minimiser: the labelling of the image stack
 * it improves in place, the cost methods it computes the energy with, the
 * alpha-expansion move that builds a flow network and cuts it, and the
 * round-robin loop over the labels that repeats the move until no label
 * improves the energy any more.
 *
 * The abstract base class and its one subclass are modelled together as the
 * class `Minimizer`; its cost methods are proved against the functions of
 * module `Costs` and its loops against the functions of module `Expansion`.
 */
module Minimizers {
  import opened Images
  import opened Coordinates
  import opened Graph
  import Histograms
  import opened Costs
  import opened Expansion
  import opened MaxFlow

  const MAX_ITERATION: nat := 100
  const ALPHA_EXPANSION_FLAG_DEFAULT: bool := false

  /** The four neighbours of `p`: left, right, above and below, in the order they are visited. */
  function Around(p: Point): (r: seq<Point>)
    ensures |r| == 4
  {
    [Point(p.col - 1, p.row), Point(p.col + 1, p.row), Point(p.col, p.row - 1), Point(p.col, p.row + 1)]
  }

  class Minimizer {
    const scene: Scene
    const width: int
    const height: int
    /** One label per pixel, row-major: the image the pixel is taken from. */
    const labels: array<int>
    const histogram: Histograms.Histogram
    var alphaSink: bool
    var termA: int
    var termB: int

    /** The dimensions agree with the images and the labels cover the grid. */
    ghost predicate Shaped()
    {
      && width == scene.images.width && height == scene.images.height
      && labels.Length == width * height
      && scene.images.count >= Histograms.MIN_REQUIRED_NUM_IMAGES
    }

    ghost predicate Valid()
      reads this, histogram, histogram.Repr
    {
      && Shaped()
      && histogram.Computed() && histogram.images == scene.images
      && labels !in histogram.Repr
      && termA == (if alphaSink then SOURCE else SINK)
      && termB == (if alphaSink then SINK else SOURCE)
    }

    /**
     * Takes the stack and the labelling, computes the histograms and sets
     * which terminal stands for the label being expanded.
     */
    constructor (scene: Scene, labels: array<int>, expansionFlag: bool)
      requires scene.images.count >= Histograms.MIN_REQUIRED_NUM_IMAGES
      requires labels.Length == scene.images.width * scene.images.height
      ensures Valid() && this.scene == scene && this.labels == labels && alphaSink == expansionFlag
    {
      this.scene := scene;
      width := scene.images.width;
      height := scene.images.height;
      this.labels := labels;
      var h := new Histograms.Histogram(scene.images);
      h.Compute();
      histogram := h;
      new;
      SetAlphaSink(expansionFlag);
    }

    /**
     * Construction as the program performs it: the first image is read for the
     * dimensions, which fails on an empty stack, then the histogram refuses a
     * single image.
     */
    static method Create(scene: Scene, labels: array<int>, expansionFlag: bool) returns (r: Result<Minimizer>)
      requires labels.Length == scene.images.width * scene.images.height
      ensures r.Failure? <==> scene.images.count < Histograms.MIN_REQUIRED_NUM_IMAGES
      ensures scene.images.count == 0 ==> r == Failure(IndexOutOfBounds)
      ensures scene.images.count == 1 ==> r == Failure(IllegalArgument)
      ensures r.Success? ==> fresh(r.value) && r.value.Valid()
      ensures r.Success? ==> r.value.scene == scene && r.value.labels == labels && r.value.alphaSink == expansionFlag
    {
      if scene.images.count == 0 {
        return Failure(IndexOutOfBounds);
      }
      if scene.images.count < Histograms.MIN_REQUIRED_NUM_IMAGES {
        return Failure(IllegalArgument);
      }
      var x := new Minimizer(scene, labels, expansionFlag);
      return Success(x);
    }

    /** With the flag set the label being expanded is on the sink side, otherwise on the source side. */
    method SetAlphaSink(flag: bool)
      modifies this`alphaSink, this`termA, this`termB
      ensures alphaSink == flag
      ensures termA == (if flag then SOURCE else SINK) && termB == (if flag then SINK else SOURCE)
      ensures termA != termB
    {
      alphaSink := flag;
      if alphaSink {
        termA := SOURCE;
        termB := SINK;
      } else {
        termA := SINK;
        termB := SOURCE;
      }
    }

    /**
     * `getDataCost`: looks up the pixel's histogram, reads label `d`'s colour
     * there and turns its probability into a cost.
     */
    method GetDataCost(p: Point, d: int) returns (r: Result<real>)
      requires Valid() && p.InGrid(width, height)
      ensures r == DataCost(scene.images, p, d)
    {
      var pixel := histogram.GetPixel(p.col, p.row);
      if !(0 <= d < scene.images.count) {
        return Failure(IndexOutOfBounds);
      }
      var probability := ColourProbability(pixel, p, d);
      if probability < 0.0 || probability > MAX_PROBABILITY {
        // The probabilities of a built histogram lie in [0, 1]: this check never fires.
        assert false;
      }
      return Success(MAX_PROBABILITY - probability);
    }

    /** The probability of label `d`'s colour at `p` under the histogram `pixel` built for `p`. */
    method ColourProbability(pixel: Histograms.Pixel, p: Point, d: nat) returns (probability: real)
      requires d < scene.images.count && scene.images.count > 0
      requires pixel.Built(scene.images, p.col, p.row, scene.images.count)
      ensures probability == Histograms.PixelProbability(scene.images, p.col, p.row, scene.images.sample(d, p.row, p.col, 0),
                                                         scene.images.sample(d, p.row, p.col, 1), scene.images.sample(d, p.row, p.col, 2))
    {
      var red, green, blue := scene.images.sample(d, p.row, p.col, 0), scene.images.sample(d, p.row, p.col, 1),
                              scene.images.sample(d, p.row, p.col, 2);
      probability := pixel.GetProbability(red, green, blue);
      ProbabilityOfSamples(scene.images, p.col, p.row, red, green, blue,
                           pixel.red.samples, pixel.green.samples, pixel.blue.samples);
    }

    /** `BVZDataPenalty`: the data cost on the grid, `INFINITE_CAPACITY` off it. */
    method DataPenaltyAt(p: Point, d: int) returns (r: Result<real>)
      requires Valid()
      ensures r == DataPenalty(scene.images, p, d)
    {
      if p.InGrid(width, height) {
        r := GetDataCost(p, d);
      } else {
        r := Success(INFINITE_CAPACITY);
      }
    }

    /** The squared colour difference of images `l1` and `l2` at `p`, channel by channel. */
    method SquaredDifference(l1: nat, l2: nat, p: Point) returns (a: int)
      ensures a == SquaredDistance(scene.images, l1, l2, p, NUM_CHANNEL)
    {
      a := 0;
      for c := 0 to NUM_CHANNEL
        invariant a == SquaredDistance(scene.images, l1, l2, p, c)
      {
        var k := scene.images.sample(l1, p.row, p.col, c) - scene.images.sample(l2, p.row, p.col, c);
        a := a + k * k;
      }
    }

    /** `EnergyMinimizer.BVZInteractionPenalty`: the colour seam cost, capped. */
    method BaseInteractionPenaltyAt(c: Point, n: Point, cLabel: int, nLabel: int) returns (r: Result<real>)
      ensures r == BaseInteraction(scene, c, n, cLabel, nLabel)
    {
      if cLabel >= scene.images.count || nLabel >= scene.images.count {
        return Failure(IllegalState);
      }
      if cLabel == nLabel {
        return Success(0.0);
      }
      if cLabel < 0 || nLabel < 0 {
        return Failure(IndexOutOfBounds);
      }
      var a := SquaredDifference(cLabel, nLabel, c);
      var m := scene.sqrt(a as real);
      a := SquaredDifference(cLabel, nLabel, n);
      m := m + scene.sqrt(a as real);
      m := m / INTERACTION_PENALTY_COEFFICIENT;
      if m > INFINITE_CAPACITY {
        m := INFINITE_CAPACITY;
      }
      return Success(m);
    }

    /** `MLOEnergyMinimizer.BVZInteractionPenalty`: zero stays zero, anything else is Potts-floored. */
    method InteractionPenaltyAt(c: Point, n: Point, cLabel: int, nLabel: int) returns (r: Result<real>)
      ensures r == Interaction(scene, c, n, cLabel, nLabel)
    {
      var m := BaseInteractionPenaltyAt(c, n, cLabel, nLabel);
      if m.Failure? || m.value == 0.0 {
        return m;
      }
      return Success(POTTS_INTERACTION_ENERGY_CONSTANT + REGULAR_INTERACTION_ENERGY_CONSTANT * m.value);
    }

    /**
     * The body of the energy loop for pixel `i`: its data cost and then its
     * seams are added to `energy`; the first cost that fails is the outcome.
     */
    method AddPixelEnergy(energy: real, i: nat) returns (r: Result<real>)
      requires Valid() && i < labels.Length
      ensures r == Then(Success(energy), PixelEnergy(Mlo(scene), labels[..], i))
    {
      ghost var m := Mlo(scene);
      var cPoint := Pixel(width, height, i);
      var cLabel := labels[i];
      var d := DataPenaltyAt(cPoint, cLabel);
      if d.Failure? {
        return d;
      }
      var sum := energy + d.value;
      for dir := 0 to |NEIGHBORS|
        invariant Then(Success(energy), SeamsUpTo(m, labels[..], i, dir)) == Success(sum)
      {
        var nPoint := Neighbour(cPoint, dir);
        if nPoint.InGrid(width, height) {
          IndexInRange(nPoint, width, height);
          var s := InteractionPenaltyAt(cPoint, nPoint, cLabel, labels[nPoint.OneDimensionalIndex(width)]);
          if s.Failure? {
            return s;
          }
          sum := sum + s.value;
        }
      }
      return Success(sum);
    }

    /** The energy of the first `i + 1` pixels from that of the first `i`. */
    method AddPixelEnergyUpTo(ghost m: CostModel, ghost L: seq<int>, energy: real, i: nat) returns (r: Result<real>)
      requires Valid() && m == Mlo(scene) && L == labels[..] && i < |L| && EnergyUpTo(m, L, i) == Success(energy)
      ensures r == EnergyUpTo(m, L, i + 1) && labels[..] == L
      ensures r.Failure? || i + 1 == |L| ==> r == Energy(m, L)
    {
      r := AddPixelEnergy(energy, i);
      if r.Failure? {
        EnergyFails(m, L, i + 1);
      }
    }

    /**
     * `BVZComputeEnergy`: the data cost of every pixel and the seam cost to
     * each of its neighbours, visited in row-major order; a cost that fails
     * is the outcome.
     */
    method ComputeEnergy() returns (r: Result<real>)
      requires Valid()
      ensures r == Energy(Mlo(scene), labels[..])
    {
      r := EnergyOf(Mlo(scene), labels[..]);
    }

    /** The loop of `BVZComputeEnergy` over the labels `L` under the costs `m`, pixel by pixel. */
    method EnergyOf(ghost m: CostModel, ghost L: seq<int>) returns (r: Result<real>)
      requires Valid() && m == Mlo(scene) && L == labels[..]
      ensures r == Energy(m, L)
    {
      var energy := 0.0;
      if |L| == 0 {
        NoPixels(m, L);
      }
      for i := 0 to labels.Length
        invariant Valid() && labels[..] == L
        invariant EnergyUpTo(m, L, i) == Success(energy)
        invariant i == |L| ==> Energy(m, L) == Success(energy)
      {
        r := AddPixelEnergyUpTo(m, L, energy, i);
        if r.Failure? {
          return;
        }
        energy := r.value;
      }
      r := Success(energy);
    }

    /**
     * The data loop of `BVZExpand`: a node for every pixel not labelled `a`
     * (the ACTIVE sentinel for the others), the data cost of each pixel's
     * label taken into the energy, and for each node the penalty of moving
     * it to `a`.
     */
    method BuildNodes(a: int) returns (energy: real, g: Network, nodeArray: array<nat>, penaltyArray: array<real>)
      requires Valid() && LabelsValid(Mlo(scene), labels[..]) && 0 <= a < scene.images.count
      ensures fresh(g) && fresh(nodeArray) && fresh(penaltyArray) && g.Valid()
      ensures nodeArray[..] == Slots(labels[..], a)
      ensures Build(energy, penaltyArray[..], g.nodes, g.arcs) == Built(Mlo(scene), labels[..], a)
    {
      ghost var m, L := Mlo(scene), labels[..];
      g := new Network();
      var _ := g.AddNode(ACTIVE_NODE_INDEX);
      var _ := g.AddNode(NON_PRESENT_NODE_INDEX);
      nodeArray := new nat[labels.Length](_ => ACTIVE_SLOT);
      penaltyArray := new real[labels.Length](_ => 0.0);
      energy := FillNodes(a, g, nodeArray, penaltyArray);
      DataLoopDone(m, L, a);
    }

    /** The data loop itself, over every pixel in row-major order. */
    method FillNodes(a: int, g: Network, nodeArray: array<nat>, penaltyArray: array<real>) returns (energy: real)
      requires Valid() && LabelsValid(Mlo(scene), labels[..]) && 0 <= a < scene.images.count
      requires labels.Length == nodeArray.Length == penaltyArray.Length
      requires {g, nodeArray, penaltyArray} !! {this, histogram, labels} + histogram.Repr
      requires g.Valid() && g.nodes == NodesUpTo(labels[..], a, 0) && g.arcs == []
      requires nodeArray[..] == SlotsUpTo(labels[..], a, 0)
      requires penaltyArray[..] == PenaltiesUpTo(Mlo(scene), labels[..], a, 0)
      modifies g, nodeArray, penaltyArray
      ensures g.Valid() && g.nodes == NodesUpTo(labels[..], a, labels.Length) && g.arcs == []
      ensures energy == DataSum(Mlo(scene), labels[..], labels.Length)
      ensures nodeArray[..] == SlotsUpTo(labels[..], a, labels.Length)
      ensures penaltyArray[..] == PenaltiesUpTo(Mlo(scene), labels[..], a, labels.Length)
    {
      ghost var m, L := Mlo(scene), labels[..];
      energy := 0.0;
      for i := 0 to labels.Length
        invariant Valid() && labels[..] == L && m == Mlo(scene)
        invariant {g, nodeArray, penaltyArray} !! {this, histogram, labels} + histogram.Repr
        invariant g.Valid() && g.nodes == NodesUpTo(L, a, i) && g.arcs == []
        invariant energy == DataSum(m, L, i)
        invariant nodeArray[..] == SlotsUpTo(L, a, i)
        invariant penaltyArray[..] == PenaltiesUpTo(m, L, a, i)
      {
        energy := FillNode(m, L, a, i, energy, g, nodeArray, penaltyArray);
      }
    }

    /** One turn of the data loop: what holds for the first `i` pixels then holds for the first `i + 1`. */
    method FillNode(ghost m: CostModel, ghost L: seq<int>, a: int, i: nat, energy: real, g: Network,
                    nodeArray: array<nat>, penaltyArray: array<real>)
      returns (energy': real)
      requires Valid() && m == Mlo(scene) && L == labels[..] && LabelsValid(m, L) && 0 <= a < scene.images.count
      requires i < labels.Length == nodeArray.Length == penaltyArray.Length
      requires g.Valid() && g.nodes == NodesUpTo(L, a, i) && g.arcs == []
      requires energy == DataSum(m, L, i)
      requires nodeArray[..] == SlotsUpTo(L, a, i) && penaltyArray[..] == PenaltiesUpTo(m, L, a, i)
      modifies g, nodeArray, penaltyArray
      ensures g.Valid() && g.nodes == NodesUpTo(L, a, i + 1) && g.arcs == []
      ensures energy' == DataSum(m, L, i + 1)
      ensures nodeArray[..] == SlotsUpTo(L, a, i + 1) && penaltyArray[..] == PenaltiesUpTo(m, L, a, i + 1)
    {
      DataLoopStep(m, L, a, i);
      energy' := AddPixelNode(m, L, a, i, energy, g, nodeArray, penaltyArray);
    }

    /** The body of the data loop for pixel `i`, with `m` and `L` the cost model and the labels. */
    method AddPixelNode(ghost m: CostModel, ghost L: seq<int>, a: int, i: nat, energy: real, g: Network,
                        nodeArray: array<nat>, penaltyArray: array<real>)
      returns (energy': real)
      requires Valid() && m == Mlo(scene) && L == labels[..] && LabelsValid(m, L) && 0 <= a < scene.images.count
      requires i < labels.Length == nodeArray.Length == penaltyArray.Length
      requires g.Valid() && g.nodes == NodesUpTo(L, a, i)
      modifies g, nodeArray, penaltyArray
      ensures g.Valid() && g.nodes == NodesUpTo(L, a, i + 1) && g.arcs == old(g.arcs)
      ensures energy' == energy + DataTerm(m, L, i, L[i])
      ensures nodeArray[..] == old(nodeArray[..])[i := SlotOf(L, a, i)]
      ensures L[i] == a ==> penaltyArray[..] == old(penaltyArray[..])
      ensures L[i] != a ==> penaltyArray[..] == old(penaltyArray[..])[i := InitialPenalty(m, L, a, i)]
    {
      var cPoint := Pixel(width, height, i);
      var cLabel := labels[i];
      var delta := DataPenaltyAt(cPoint, cLabel);
      if a == cLabel {
        nodeArray[i] := ACTIVE_SLOT;
        energy' := energy + delta.value;
      } else {
        var alpha := DataPenaltyAt(cPoint, a);
        var id := g.AddNode(i);
        nodeArray[i] := id;
        penaltyArray[i] := alpha.value - delta.value;
        energy' := energy + delta.value;
      }
    }

    /** An interaction cost between two labels that name images: it is always defined. */
    method DefinedInteraction(c: Point, n: Point, cLabel: int, nLabel: int) returns (cost: real)
      requires 0 <= cLabel < scene.images.count && 0 <= nLabel < scene.images.count
      ensures Interaction(scene, c, n, cLabel, nLabel) == Success(cost)
    {
      var r := InteractionPenaltyAt(c, n, cLabel, nLabel);
      InteractionOutcome(scene, c, n, cLabel, nLabel);
      if r.Failure? {
        assert false;
      }
      cost := r.value;
    }

    /**
     * Two real nodes: the pair's three costs `p00` (both keep their labels),
     * `p0A` (the neighbour moves to `a`) and `pA0` (the pixel moves to `a`)
     * folded, the shared parts taken into the energy and off the two
     * penalties, and the edge added.
     */
    method LinkPair(ghost m: CostModel, L: seq<int>, slots: seq<nat>, a: int, cp: Point, np: Point, i: nat, n: nat,
                    p00: real, p0A: real, pA0: real, energy: real, g: Network, penaltyArray: array<real>)
      returns (energy': real)
      requires i < |L| && n < |L| && g.Valid()
      requires Ready(m, L, a, slots, Build(energy, penaltyArray[..], g.nodes, g.arcs))
      requires p00 == Cost(m.interaction(cp, np, L[i], L[n]))
      requires p0A == Cost(m.interaction(cp, np, L[i], a))
      requires pA0 == Cost(m.interaction(cp, np, a, L[n]))
      modifies g, penaltyArray
      ensures g.Valid()
      ensures Build(energy', penaltyArray[..], g.nodes, g.arcs)
           == Joined(m, L, a, alphaSink, slots, old(Build(energy, penaltyArray[..], g.nodes, g.arcs)), cp, np, i, n)
    {
      var f := FoldPair(p00, p0A, pA0);
      penaltyArray[i] := penaltyArray[i] - f.d1;
      penaltyArray[n] := penaltyArray[n] - f.d2;
      energy' := energy + f.d1 + f.d2;
      if alphaSink {
        var _, _ := g.AddEdge(slots[i], slots[n], f.c0A, f.cA0);
      } else {
        var _, _ := g.AddEdge(slots[i], slots[n], f.cA0, f.c0A);
      }
    }

    /**
     * One pass of the neighbour loop of `BVZExpand`: pixel `i` and its
     * neighbour in direction `dir`, folded into the energy, the penalties
     * and an edge of the network.
     */
    method AddPair(ghost m: CostModel, L: seq<int>, slots: seq<nat>, a: int, i: nat, dir: nat,
                   energy: real, g: Network, penaltyArray: array<real>)
      returns (energy': real)
      requires Charges(m, scene)
      requires width == m.width && height == m.height
      requires LabelsValid(m, L) && 0 <= a < m.count && i < |L| && dir < |NEIGHBORS| && g.Valid()
      requires Ready(m, L, a, slots, Build(energy, penaltyArray[..], g.nodes, g.arcs))
      modifies g, penaltyArray
      ensures g.Valid()
      ensures Build(energy', penaltyArray[..], g.nodes, g.arcs)
           == PairStep(m, L, a, alphaSink, slots, old(Build(energy, penaltyArray[..], g.nodes, g.arcs)), i, dir)
    {
      var cp := Pixel(width, height, i);
      var np := Neighbour(cp, dir);
      if !np.InGrid(width, height) {
        return energy;
      }
      IndexInRange(np, width, height);
      var n := np.OneDimensionalIndex(width);
      var cReal, nReal := IsNode(g.nodes, slots[i]), IsNode(g.nodes, slots[n]);
      if cReal && nReal {
        var p00 := DefinedInteraction(cp, np, L[i], L[n]);
        var p0A := DefinedInteraction(cp, np, L[i], a);
        var pA0 := DefinedInteraction(cp, np, a, L[n]);
        energy' := LinkPair(m, L, slots, a, cp, np, i, n, p00, p0A, pA0, energy, g, penaltyArray);
      } else if cReal {
        var delta := DefinedInteraction(cp, np, L[i], a);
        penaltyArray[i] := penaltyArray[i] - delta;
        energy' := energy + delta;
      } else if nReal {
        var delta := DefinedInteraction(cp, np, a, L[n]);
        penaltyArray[n] := penaltyArray[n] - delta;
        energy' := energy + delta;
      } else {
        energy' := energy;
      }
    }

    /** The neighbour loop of `BVZExpand` for pixel `i`: each of its pairs in turn. */
    method AddPixelPairs(ghost m: CostModel, L: seq<int>, slots: seq<nat>, a: int, i: nat,
                         energy: real, g: Network, penaltyArray: array<real>)
      returns (energy': real)
      requires Charges(m, scene)
      requires width == m.width && height == m.height
      requires LabelsValid(m, L) && 0 <= a < m.count && i < |L| && g.Valid()
      requires Ready(m, L, a, slots, Build(energy, penaltyArray[..], g.nodes, g.arcs))
      modifies g, penaltyArray
      ensures g.Valid()
      ensures Build(energy', penaltyArray[..], g.nodes, g.arcs)
           == PixelStep(m, L, a, alphaSink, slots, old(Build(energy, penaltyArray[..], g.nodes, g.arcs)), i)
    {
      ghost var b := Build(energy, penaltyArray[..], g.nodes, g.arcs);
      energy' := energy;
      for dir := 0 to |NEIGHBORS|
        invariant g.Valid()
        invariant Build(energy', penaltyArray[..], g.nodes, g.arcs) == PairsUpTo(m, L, a, alphaSink, slots, b, i, dir)
      {
        energy' := AddPair(m, L, slots, a, i, dir, energy', g, penaltyArray);
      }
    }

    /**
     * The interaction loop of `BVZExpand`: every pixel, in row-major order,
     * with each of its neighbours.
     */
    method AddInteractions(ghost m: CostModel, L: seq<int>, slots: seq<nat>, a: int,
                           energy: real, g: Network, penaltyArray: array<real>)
      returns (energy': real)
      requires Charges(m, scene)
      requires width == m.width && height == m.height
      requires LabelsValid(m, L) && 0 <= a < m.count && g.Valid()
      requires Ready(m, L, a, slots, Build(energy, penaltyArray[..], g.nodes, g.arcs))
      modifies g, penaltyArray
      ensures g.Valid()
      ensures Build(energy', penaltyArray[..], g.nodes, g.arcs)
           == Interactions(m, L, a, alphaSink, slots, old(Build(energy, penaltyArray[..], g.nodes, g.arcs)), |L|)
    {
      ghost var b := Build(energy, penaltyArray[..], g.nodes, g.arcs);
      energy' := energy;
      for i := 0 to |L|
        invariant g.Valid()
        invariant Build(energy', penaltyArray[..], g.nodes, g.arcs) == Interactions(m, L, a, alphaSink, slots, b, i)
      {
        energy' := AddPixelPairs(m, L, slots, a, i, energy', g, penaltyArray);
      }
    }

    /**
     * The terminal loop of `BVZExpand`: every real node receives its
     * pixel's penalty as a terminal capacity, on the side `alphaSink`
     * names, and a penalty that is not positive is taken into the energy.
     */
    method SetTerminals(ghost nodes: seq<Node>, slots: seq<nat>, penalty: seq<real>, finder: MaxFlowFinder, energy: real)
      returns (energy': real)
      requires finder.Valid() && finder.g.nodes == nodes
      requires |penalty| == |slots| && forall i :: 0 <= i < |slots| ==> slots[i] < |nodes|
      modifies finder`flow, finder.g
      ensures finder.Valid() && finder.flow == old(finder.flow) && finder.g.arcs == old(finder.g.arcs)
      ensures finder.g.nodes == Terminals(nodes, slots, penalty, alphaSink, |slots|)
      ensures energy' == energy + Shift(nodes, slots, penalty, |slots|)
    {
      energy' := energy;
      for i := 0 to |slots|
        invariant finder.Valid() && finder.flow == old(finder.flow) && finder.g.arcs == old(finder.g.arcs)
        invariant finder.g.nodes == Terminals(nodes, slots, penalty, alphaSink, i)
        invariant energy' == energy + Shift(nodes, slots, penalty, i)
      {
        var cNode := slots[i];
        assert finder.g.nodes[cNode].index == nodes[cNode].index;
        if IsNode(finder.g.nodes, cNode) {
          var delta := penalty[i];
          if alphaSink {
            if delta > 0.0 {
              finder.SetTweights(cNode, delta, 0.0);
            } else {
              finder.SetTweights(cNode, 0.0, -delta);
              energy' := energy' + delta;
            }
          } else {
            if delta > 0.0 {
              finder.SetTweights(cNode, 0.0, delta);
            } else {
              finder.SetTweights(cNode, -delta, 0.0);
              energy' := energy' + delta;
            }
          }
        }
      }
    }

    /**
     * The relabel loop of `BVZExpand`: a pixel whose real node the cut left
     * on the `termB` side takes label `a`.
     */
    method Relabel(a: int, slots: seq<nat>, cut: seq<Node>)
      requires |slots| == labels.Length && forall i :: 0 <= i < |slots| ==> slots[i] < |cut|
      modifies labels
      ensures labels[..] == Relabelled(old(labels[..]), a, slots, cut, termB, labels.Length)
    {
      ghost var L := labels[..];
      for i := 0 to labels.Length
        invariant labels[..] == Relabelled(L, a, slots, cut, termB, i)
      {
        RelabelStep(L, a, slots, cut, termB, i);
        if IsNode(cut, slots[i]) && WhatSegment(cut[slots[i]]) == termB {
          labels[i] := a;
        }
      }
    }

    /**
     * The graph `BVZExpand` builds for label `a`: the data loop and then the
     * interaction loop.
     */
    method BuildGraph(a: int) returns (energy: real, g: Network, slots: seq<nat>, penalty: seq<real>)
      requires Valid() && LabelsValid(Mlo(scene), labels[..]) && 0 <= a < scene.images.count
      ensures fresh(g) && g.Valid() && slots == Slots(labels[..], a)
      ensures Build(energy, penalty, g.nodes, g.arcs) == Folded(Mlo(scene), labels[..], a, alphaSink)
    {
      var nodeArray, penaltyArray;
      energy, g, nodeArray, penaltyArray := BuildNodes(a);
      slots := nodeArray[..];
      ghost var m := Mlo(scene);
      MloCharges(scene);
      energy := AddInteractions(m, labels[..], slots, a, energy, g, penaltyArray);
      penalty := penaltyArray[..];
    }

    /**
     * The maximum flow `finder` finds within `fuel` rounds: `run` is the
     * whole run of `FindMaxFlow` from the finder's state, and `total` the
     * flow it ends with.
     */
    method FlowValue(finder: MaxFlowFinder, fuel: nat) returns (total: real, ghost run: FlowRun)
      requires finder.Valid() && NoOrphans(finder.g.nodes)
      modifies finder`orphans, finder`timestamp, finder`flow, finder.g, finder.queueFirst, finder.queueLast
      ensures finder.Valid() && |finder.g.nodes| == |old(finder.g.nodes)|
      ensures MaxFlowRun(finder.nodes, old(finder.State()), fuel, run) && run.end == finder.State() && total == run.end.flow
    {
      var finished, left;
      ghost var paths, bottlenecks, s0, rounds;
      total, finished, left, paths, bottlenecks, s0, rounds := finder.FindMaxFlow(fuel);
      run := FlowRun(s0, rounds, finished, left, paths, bottlenecks, finder.State());
    }

    /**
     * The first half of `BVZExpand`: the graph for label `a` is built, its
     * terminal capacities set and a maximum flow found (within `fuel`
     * rounds) by a run of `FindMaxFlow` on that graph (see `MaxFlowCut`).
     * The energy returned is the energy the graph accounts for plus the
     * flow; `cut` is the arena the run leaves, which the relabel loop reads.
     * The minimiser itself is not changed.
     */
    method FlowCut(a: int, fuel: nat) returns (energy: real, ghost flow: real, slots: seq<nat>, cut: seq<Node>)
      requires Valid() && LabelsValid(Mlo(scene), labels[..]) && 0 <= a < scene.images.count
      ensures slots == Slots(labels[..], a) && |cut| == |Folded(Mlo(scene), labels[..], a, alphaSink).nodes|
      ensures forall i :: 0 <= i < |slots| ==> slots[i] < |cut|
      ensures MaxFlowCut(Mlo(scene), labels[..], a, alphaSink, fuel, flow, cut)
      ensures energy == ExpansionEnergy(Mlo(scene), labels[..], a, alphaSink, flow)
    {
      ghost var m, L := Mlo(scene), labels[..];
      var e, finder;
      e, slots, finder := NewFinder(a);
      var total;
      ghost var run;
      total, run := FlowValue(finder, fuel);
      energy, flow, cut := e + total, total, finder.g.nodes;
      assert MaxFlowRun(Slots(L, a), FlowStart(m, L, a, alphaSink), fuel, run) && flow == run.end.flow && cut == run.end.nodes;
    }

    /**
     * The finder `BVZExpand` runs for label `a`: the graph for `a` with
     * its terminal capacities set, in the state `FlowStart` describes, and
     * the energy that graph accounts for before any flow.
     */
    method NewFinder(a: int) returns (energy: real, slots: seq<nat>, finder: MaxFlowFinder)
      requires Valid() && LabelsValid(Mlo(scene), labels[..]) && 0 <= a < scene.images.count
      ensures fresh(finder) && fresh(finder.g) && fresh(finder.queueFirst) && fresh(finder.queueLast)
      ensures finder.Valid() && NoOrphans(finder.g.nodes) && finder.nodes == slots && slots == Slots(labels[..], a)
      ensures forall i :: 0 <= i < |slots| ==> slots[i] < |finder.g.nodes|
      ensures |finder.g.nodes| == |Folded(Mlo(scene), labels[..], a, alphaSink).nodes|
      ensures finder.State() == FlowStart(Mlo(scene), labels[..], a, alphaSink)
      ensures energy == ExpansionEnergy(Mlo(scene), labels[..], a, alphaSink, 0.0)
    {
      ghost var m, L := Mlo(scene), labels[..];
      var g, penalty;
      energy, g, slots, penalty := BuildGraph(a);
      FoldedFree(m, L, a, alphaSink);
      finder := new MaxFlowFinder(g, slots);
      energy := SetTerminals(g.nodes, slots, penalty, finder, energy);
      TerminalsKeepParents(Folded(m, L, a, alphaSink).nodes, slots, penalty, alphaSink);
    }

    /**
     * `BVZExpand`: the alpha-expansion move for label `a`. When the energy
     * the cut stands for is below `energyOld` the cut relabels the pixels
     * and that energy is returned; otherwise nothing changes and
     * `energyOld` is returned.
     */
    method Expand(a: int, energyOld: real, fuel: nat) returns (energy: real, ghost flow: real, ghost cut: seq<Node>)
      requires Valid() && LabelsValid(Mlo(scene), labels[..]) && 0 <= a < scene.images.count
      modifies labels
      ensures Valid() && LabelsValid(Mlo(scene), labels[..])
      ensures |cut| == |Folded(Mlo(scene), old(labels[..]), a, alphaSink).nodes|
      ensures ExpansionStep(Mlo(scene), alphaSink, termB, fuel, old(labels[..]), a, energyOld, flow, cut, energy, labels[..])
    {
      ghost var L := labels[..];
      var e, slots, c;
      e, flow, slots, c := FlowCut(a, fuel);
      cut := c;
      if e < energyOld {
        Relabel(a, slots, c);
        RelabelKeepsValid(Mlo(scene), L, a, slots, c, termB);
        energy := e;
      } else {
        energy := energyOld;
      }
    }

    /**
     * `compute`: the starting energy, then up to `MAX_ITERATION` rounds of
     * expansions over the labels in order. The count of consecutive
     * expansions that left the energy unchanged is not reset between rounds;
     * once it reaches the number of images no further expansion runs.
     * Each expansion finds its maximum flow within `fuel` rounds.
     * `energies` records the energy before the first and after every
     * expansion, `steps` the label each expansion tried, `labelings` the
     * labels before the first and after every expansion, and `flows` and
     * `cuts` what each expansion's maximum flow left.
     */
    method Compute(fuel: nat) returns (status: Status, ghost energies: seq<real>, ghost steps: seq<int>,
                                       ghost labelings: seq<seq<int>>, ghost flows: seq<real>, ghost cuts: seq<seq<Node>>)
      requires Valid()
      modifies labels
      ensures Valid()
      ensures status.Raised? <==> !LabelsValid(Mlo(scene), old(labels[..]))
      ensures status.Raised? ==> Energy(Mlo(scene), old(labels[..])) == Failure(status.error) && labels[..] == old(labels[..])
      ensures status == Ok ==> LabelsValid(Mlo(scene), labels[..])
      ensures status == Ok ==> |energies| == |steps| + 1 && Energy(Mlo(scene), old(labels[..])) == Success(energies[0])
      ensures status == Ok ==>
        && Trace(Mlo(scene), alphaSink, termB, fuel, energies, steps, labelings, flows, cuts)
        && labelings[0] == old(labels[..]) && labels[..] == labelings[|steps|]
      ensures status == Ok ==> forall j :: 0 < j < |energies| ==> energies[j] <= energies[j - 1]
      ensures status == Ok ==> |steps| <= MAX_ITERATION * scene.images.count
      ensures status == Ok ==> forall j :: 0 <= j < |steps| ==> steps[j] == j % scene.images.count
      ensures status == Ok ==> forall t :: scene.images.count <= t < |steps| ==> Moved(energies, t, scene.images.count)
      ensures status == Ok && |steps| < MAX_ITERATION * scene.images.count ==>
        |steps| >= scene.images.count && forall j :: |steps| - scene.images.count < j <= |steps| ==> energies[j] == energies[j - 1]
    {
      ghost var m := Mlo(scene);
      MloAdmissible(scene);
      EnergyDefinedIffLabelsValid(m, labels[..]);
      var start := ComputeEnergy();
      if start.Failure? {
        return Raised(start.error), [], [], [], [], [];
      }
      var stepCounter;
      energies, steps, labelings, flows, cuts, stepCounter := Iterate(fuel, start.value);
      RunDone(m, alphaSink, termB, fuel, old(labels[..]), labels[..], energies[|steps|], energies, steps, labelings, flows, cuts,
              scene.images.count, stepCounter);
      status := Ok;
    }

    /**
     * The rounds of `compute` from valid labels whose energy is `energy`:
     * the expansions run, as `Trace` describes, until `MAX_ITERATION` rounds
     * are over or the number of images of them in a row left the energy
     * unchanged.
     */
    method Iterate(fuel: nat, energy: real) returns (ghost energies: seq<real>, ghost steps: seq<int>,
                                                     ghost labelings: seq<seq<int>>, ghost flows: seq<real>, ghost cuts: seq<seq<Node>>,
                                                     stepCounter: nat)
      requires Valid() && LabelsValid(Mlo(scene), labels[..])
      modifies labels
      ensures Valid() && |energies| == |steps| + 1 && energies[0] == energy
      ensures Run(Mlo(scene), alphaSink, termB, fuel, old(labels[..]), labels[..], energies[|steps|], energies, steps, labelings, flows, cuts,
                  scene.images.count, stepCounter)
      ensures |steps| <= MAX_ITERATION * scene.images.count
      ensures stepCounter < scene.images.count ==> |steps| == MAX_ITERATION * scene.images.count
    {
      ghost var m := Mlo(scene);
      var count := scene.images.count;
      var energy' := energy;
      stepCounter := 0;
      energies, steps := [energy], [];
      labelings, flows, cuts := [labels[..]], [], [];
      for i := 0 to MAX_ITERATION
        invariant Valid()
        invariant Run(m, alphaSink, termB, fuel, old(labels[..]), labels[..], energy', energies, steps, labelings, flows, cuts, count, stepCounter)
        invariant energies[0] == energy
        invariant |steps| <= i * count && (stepCounter < count ==> |steps| == i * count)
      {
        energy', stepCounter, energies, steps, labelings, flows, cuts :=
          Round(i, fuel, old(labels[..]), energy', stepCounter, energies, steps, labelings, flows, cuts);
        assert (i + 1) * count == i * count + count;
      }
    }

    /**
     * Round `i` of `compute`: the labels are tried in order while fewer than
     * the number of images of the expansions in a row left the energy
     * unchanged. The run from `labels0` goes on with every expansion.
     */
    method Round(i: nat, fuel: nat, ghost labels0: seq<int>, energy: real, stepCounter: nat,
                 ghost energies: seq<real>, ghost steps: seq<int>, ghost labelings: seq<seq<int>>,
                 ghost flows: seq<real>, ghost cuts: seq<seq<Node>>)
      returns (energy': real, stepCounter': nat, ghost energies': seq<real>, ghost steps': seq<int>,
               ghost labelings': seq<seq<int>>, ghost flows': seq<real>, ghost cuts': seq<seq<Node>>)
      requires Valid()
      requires Run(Mlo(scene), alphaSink, termB, fuel, labels0, labels[..], energy, energies, steps, labelings, flows, cuts,
                   scene.images.count, stepCounter)
      requires |steps| <= i * scene.images.count && (stepCounter < scene.images.count ==> |steps| == i * scene.images.count)
      modifies labels
      ensures Valid()
      ensures Run(Mlo(scene), alphaSink, termB, fuel, labels0, labels[..], energy', energies', steps', labelings', flows', cuts',
                  scene.images.count, stepCounter')
      ensures |energies| <= |energies'| && energies'[..|energies|] == energies
      ensures |steps'| <= i * scene.images.count + scene.images.count
      ensures stepCounter' < scene.images.count ==> |steps'| == i * scene.images.count + scene.images.count
    {
      ghost var m := Mlo(scene);
      var count := scene.images.count;
      energy', stepCounter' := energy, stepCounter;
      energies', steps', labelings', flows', cuts' := energies, steps, labelings, flows, cuts;
      var step := 0;
      while step < count && stepCounter' < count
        invariant 0 <= step <= count
        invariant Valid()
        invariant Run(m, alphaSink, termB, fuel, labels0, labels[..], energy', energies', steps', labelings', flows', cuts', count, stepCounter')
        invariant |energies| <= |energies'| && energies'[..|energies|] == energies
        invariant |steps'| == i * count + step || (step == 0 && |steps'| <= i * count)
        invariant stepCounter' < count ==> |steps'| == i * count + step
      {
        energy', stepCounter', energies', steps', labelings', flows', cuts' :=
          Step(i, step, fuel, labels0, energy', stepCounter', energies', steps', labelings', flows', cuts');
        step := step + 1;
      }
    }

    /**
     * One expansion of round `i`, on label `step`: the count of expansions
     * in a row that left the energy unchanged grows by one or starts again,
     * and the run from `labels0` goes on with it.
     */
    method Step(i: nat, step: nat, fuel: nat, ghost labels0: seq<int>, energy: real, stepCounter: nat,
                ghost energies: seq<real>, ghost steps: seq<int>, ghost labelings: seq<seq<int>>,
                ghost flows: seq<real>, ghost cuts: seq<seq<Node>>)
      returns (energy': real, stepCounter': nat, ghost energies': seq<real>, ghost steps': seq<int>,
               ghost labelings': seq<seq<int>>, ghost flows': seq<real>, ghost cuts': seq<seq<Node>>)
      requires Valid()
      requires Run(Mlo(scene), alphaSink, termB, fuel, labels0, labels[..], energy, energies, steps, labelings, flows, cuts,
                   scene.images.count, stepCounter)
      requires stepCounter < scene.images.count && step < scene.images.count && |steps| == i * scene.images.count + step
      modifies labels
      ensures Valid()
      ensures Run(Mlo(scene), alphaSink, termB, fuel, labels0, labels[..], energy', energies', steps', labelings', flows', cuts',
                  scene.images.count, stepCounter')
      ensures energies' == energies + [energy'] && steps' == steps + [step]
      ensures stepCounter' == if energy' == energy then stepCounter + 1 else 0
    {
      ghost var flow, cut;
      ghost var before := labels[..];
      energy', flow, cut := Expand(step, energy, fuel);
      RunStep(Mlo(scene), alphaSink, termB, fuel, labels0, before, energy, energies, steps, labelings, flows, cuts,
              scene.images.count, stepCounter, i, step, flow, cut, energy', labels[..]);
      if energy == energy' {
        stepCounter' := stepCounter + 1;
      } else {
        stepCounter' := 0;
      }
      energies', steps' := energies + [energy'], steps + [step];
      labelings', flows', cuts' := labelings + [labels[..]], flows + [flow], cuts + [cut];
    }

    /**
     * `getCurrentDataPenalty`: the data cost of the current label at `p`;
     * a point off the grid is refused.
     */
    method GetCurrentDataPenalty(p: Point) returns (r: Result<real>)
      requires Valid()
      ensures !p.InGrid(width, height) <==> r == Failure(IllegalArgument)
      ensures p.InGrid(width, height) ==>
        0 <= p.OneDimensionalIndex(width) < labels.Length && r == Mlo(scene).data(p, labels[p.OneDimensionalIndex(width)])
      ensures LabelsValid(Mlo(scene), labels[..]) ==>
        (r.Success? <==> p.InGrid(width, height)) && (r.Success? ==> 0.0 <= r.value <= MAX_PROBABILITY)
    {
      if !p.InGrid(width, height) {
        return Failure(IllegalArgument);
      }
      IndexInRange(p, width, height);
      r := DataPenaltyAt(p, labels[p.OneDimensionalIndex(width)]);
    }

    /** The interaction cost between `c` and its neighbour `n` under the current labels. */
    method SeamTo(c: Point, n: Point) returns (r: Result<real>)
      requires Shaped() && c.InGrid(width, height) && n.InGrid(width, height)
      ensures r == SeamAt(Mlo(scene), labels[..], c, n)
    {
      IndexInRange(c, width, height);
      IndexInRange(n, width, height);
      r := InteractionPenaltyAt(c, n, labels[c.OneDimensionalIndex(width)], labels[n.OneDimensionalIndex(width)]);
    }

    /**
     * One neighbour test of `getCurrentMaxInteractionPenalty`: when
     * `present`, the cost towards neighbour `k` of `p` is folded into the
     * running maximum.
     */
    method MaxSeamStep(p: Point, k: nat, present: bool, maxPenalty: real) returns (r: Result<real>)
      requires Shaped() && p.InGrid(width, height) && k < |Around(p)|
      requires MaxSeam(Mlo(scene), labels[..], p, k) == Success(maxPenalty)
      requires present <==> Around(p)[k].InGrid(width, height)
      ensures r == MaxSeam(Mlo(scene), labels[..], p, k + 1)
    {
      if present {
        r := SeamTo(p, Around(p)[k]);
        if r.Success? {
          r := Success(MaxOf(maxPenalty, r.value));
        }
      } else {
        r := Success(maxPenalty);
      }
    }

    /**
     * `getCurrentMaxInteractionPenalty`: the largest interaction cost between
     * `p` and its neighbours on the grid, starting from `Double.MIN_VALUE`;
     * a point off the grid is refused.
     */
    method GetCurrentMaxInteractionPenalty(p: Point) returns (r: Result<real>)
      requires Valid()
      ensures !p.InGrid(width, height) ==> r == Failure(IllegalArgument)
      ensures p.InGrid(width, height) ==> r == MaxSeam(Mlo(scene), labels[..], p, |Around(p)|)
    {
      if !p.InGrid(width, height) {
        return Failure(IllegalArgument);
      }
      ghost var m, L := Mlo(scene), labels[..];
      var col, row := p.col, p.row;
      ghost var k := 1;
      r := MaxSeamStep(p, 0, col > 0, DOUBLE_MIN_VALUE);
      if r.Success? {
        r := MaxSeamStep(p, 1, col < width - 1, r.value);
        k := 2;
      }
      if r.Success? {
        r := MaxSeamStep(p, 2, row > 0, r.value);
        k := 3;
      }
      if r.Success? {
        r := MaxSeamStep(p, 3, row < height - 1, r.value);
        k := 4;
      }
      if r.Failure? {
        MaxSeamFailureSticks(m, L, p, k, |Around(p)|);
      }
    }
  }

  /** The data cost of pixel `i` followed by its first `dir` seams; the first failure is the outcome. */
  ghost function SeamsUpTo(m: CostModel, labels: seq<int>, i: nat, dir: nat): Result<real>
    requires |labels| == m.width * m.height && i < |labels| && dir <= |NEIGHBORS|
  {
    if dir == 0 then m.data(Pixel(m.width, m.height, i), labels[i])
    else Then(SeamsUpTo(m, labels, i, dir - 1), Seam(m, labels, i, dir - 1))
  }

  /** `m` charges the interaction costs of `s` and counts its images. */
  ghost predicate Charges(m: CostModel, s: Scene)
  {
    && m.count == s.images.count
    && forall c, n, x, y :: m.interaction(c, n, x, y) == Interaction(s, c, n, x, y)
  }

  /** `Mlo` charges the interaction costs of its scene. */
  lemma MloCharges(s: Scene)
    ensures Charges(Mlo(s), s)
  {
  }

  /**
   * The arena after the terminal loop has seen the first `k` pixels: each
   * real node (judged on `nodes`) holds the signed terminal capacity of its
   * pixel's penalty. Nothing but terminal capacities changes.
   */
  ghost function Terminals(nodes: seq<Node>, slots: seq<nat>, penalty: seq<real>, alphaSink: bool, k: nat): (r: seq<Node>)
    requires k <= |slots| && k <= |penalty|
    requires forall i :: 0 <= i < |slots| ==> slots[i] < |nodes|
    ensures |r| == |nodes|
    ensures forall j :: 0 <= j < |nodes| ==> r[j] == nodes[j].(residualCapacity := r[j].residualCapacity)
  {
    if k == 0 then nodes
    else
      var prev := Terminals(nodes, slots, penalty, alphaSink, k - 1);
      if IsNode(nodes, slots[k - 1]) then
        prev[slots[k - 1] := prev[slots[k - 1]].(residualCapacity := TerminalCapacity(alphaSink, penalty[k - 1]))]
      else prev
  }

  /** The terminal loop leaves every node's parent as it was: free nodes stay free. */
  lemma TerminalsKeepParents(nodes: seq<Node>, slots: seq<nat>, penalty: seq<real>, alphaSink: bool)
    requires |penalty| == |slots| && forall i :: 0 <= i < |slots| ==> slots[i] < |nodes|
    requires forall j :: 0 <= j < |nodes| ==> nodes[j].parent == Free
    ensures NoOrphans(Terminals(nodes, slots, penalty, alphaSink, |slots|))
  {
    var r := Terminals(nodes, slots, penalty, alphaSink, |slots|);
    forall j | 0 <= j < |r|
      ensures r[j].parent != Orphan
    {
      assert r[j] == nodes[j].(residualCapacity := r[j].residualCapacity);
    }
  }

  /**
   * When distinct pixels have distinct real nodes, every real node holds
   * the terminal capacity of its own pixel's penalty.
   */
  lemma {:induction false} TerminalsCapacities(nodes: seq<Node>, slots: seq<nat>, penalty: seq<real>, alphaSink: bool, k: nat)
    requires k <= |slots| && k <= |penalty|
    requires forall i :: 0 <= i < |slots| ==> slots[i] < |nodes|
    requires forall i, j :: 0 <= i < |slots| && 0 <= j < |slots| && IsNode(nodes, slots[i]) && slots[i] == slots[j] ==> i == j
    ensures forall i :: 0 <= i < k && IsNode(nodes, slots[i]) ==>
      Terminals(nodes, slots, penalty, alphaSink, k)[slots[i]].residualCapacity == TerminalCapacity(alphaSink, penalty[i])
  {
    if k > 0 {
      TerminalsCapacities(nodes, slots, penalty, alphaSink, k - 1);
    }
  }

  /** Every node of the network the interaction loop hands on is free. */
  lemma FoldedFree(m: CostModel, labels: seq<int>, a: int, alphaSink: bool)
    requires |labels| == m.width * m.height
    ensures forall j :: 0 <= j < |Folded(m, labels, a, alphaSink).nodes| ==> Folded(m, labels, a, alphaSink).nodes[j].parent == Free
  {
    var b := Built(m, labels, a);
    var f := Folded(m, labels, a, alphaSink);
    NodesFree(labels, a, |labels|);
    InteractionsKeepNodes(m, labels, a, alphaSink, Slots(labels, a), b, |labels|);
    forall j | 0 <= j < |f.nodes|
      ensures f.nodes[j].parent == Free
    {
      assert Skeleton(f.nodes)[j] == Skeleton(b.nodes)[j];
    }
  }

  /**
   * The energy `BVZExpand` reports for a maximum flow of `flow`: the energy
   * the built graph accounts for, plus what the terminal loop adds, plus the
   * flow.
   */
  ghost function ExpansionEnergy(m: CostModel, labels: seq<int>, a: int, alphaSink: bool, flow: real): real
    requires |labels| == m.width * m.height
  {
    var b := Folded(m, labels, a, alphaSink);
    b.energy + Shift(b.nodes, Slots(labels, a), b.penalty, |labels|) + flow
  }

  /**
   * The finder `BVZExpand` hands the graph for label `a` to: the folded
   * network with each real node's terminal capacity set, both queues and
   * the orphan list empty, timestamp and flow 0.
   */
  ghost function FlowStart(m: CostModel, labels: seq<int>, a: int, alphaSink: bool): Finder
    requires |labels| == m.width * m.height
  {
    var b := Folded(m, labels, a, alphaSink);
    Finder(Terminals(b.nodes, Slots(labels, a), b.penalty, alphaSink, |labels|), b.arcs, Nil, Nil, Nil, Nil, [], 0, 0.0)
  }

  /**
   * `flow` and `cut` are what a run of `FindMaxFlow` within `fuel` rounds
   * on the graph `BVZExpand` builds for label `a` leaves: the flow it ends
   * with and its final arena.
   */
  ghost predicate MaxFlowCut(m: CostModel, labels: seq<int>, a: int, alphaSink: bool, fuel: nat, flow: real, cut: seq<Node>)
    requires |labels| == m.width * m.height
  {
    exists run :: MaxFlowRun(Slots(labels, a), FlowStart(m, labels, a, alphaSink), fuel, run)
                  && flow == run.end.flow && cut == run.end.nodes
  }

  /** The flow a run leaves is the sum of the bottlenecks it pushed, as the finder starts with no flow. */
  lemma MaxFlowCutSums(m: CostModel, labels: seq<int>, a: int, alphaSink: bool, fuel: nat, flow: real, cut: seq<Node>)
    requires |labels| == m.width * m.height && MaxFlowCut(m, labels, a, alphaSink, fuel, flow, cut)
    ensures exists run :: MaxFlowRun(Slots(labels, a), FlowStart(m, labels, a, alphaSink), fuel, run)
                          && flow == Sum(run.bottlenecks) && Accounted(run.paths, run.bottlenecks)
                          && cut == run.end.nodes && |cut| == |Folded(m, labels, a, alphaSink).nodes|
  {
    var run :| MaxFlowRun(Slots(labels, a), FlowStart(m, labels, a, alphaSink), fuel, run)
               && flow == run.end.flow && cut == run.end.nodes;
    assert flow == Sum(run.bottlenecks);
  }

  /**
   * One expansion as `BVZExpand` performs it: from valid labels `labels`
   * and the energy `energyOld`, label `a` is tried; `flow` and `cut` are
   * what `FindMaxFlow` within `fuel` rounds left on the graph built for it. The energy becomes the lower of the energy the
   * cut stands for and `energyOld`, and the labels become `Relabelled` by
   * the cut exactly when the cut's energy is lower.
   */
  ghost predicate ExpansionStep(m: CostModel, alphaSink: bool, termB: int, fuel: nat, labels: seq<int>, a: int, energyOld: real,
                                flow: real, cut: seq<Node>, energy: real, labels': seq<int>)
  {
    && LabelsValid(m, labels) && 0 <= a < m.count
    && (forall i :: 0 <= i < |labels| ==> Slots(labels, a)[i] < |cut|)
    && MaxFlowCut(m, labels, a, alphaSink, fuel, flow, cut)
    && var e := ExpansionEnergy(m, labels, a, alphaSink, flow);
    && energy == (if e < energyOld then e else energyOld)
    && labels' == if e < energyOld then Relabelled(labels, a, Slots(labels, a), cut, termB, |labels|) else labels
  }

  /**
   * An expansion never raises the energy; it keeps the labels valid and only
   * ever gives pixels the label it tried; and when the energy stays the
   * same, so do the labels.
   */
  lemma ExpansionStepMoves(m: CostModel, alphaSink: bool, termB: int, fuel: nat, labels: seq<int>, a: int, energyOld: real,
                           flow: real, cut: seq<Node>, energy: real, labels': seq<int>)
    requires ExpansionStep(m, alphaSink, termB, fuel, labels, a, energyOld, flow, cut, energy, labels')
    ensures energy <= energyOld && LabelsValid(m, labels') && |labels'| == |labels|
    ensures energy == energyOld ==> labels' == labels
    ensures forall i :: 0 <= i < |labels| ==> labels'[i] == labels[i] || labels'[i] == a
  {
    RelabelKeepsValid(m, labels, a, Slots(labels, a), cut, termB);
  }

  /**
   * What the expansions of `compute` did, one after the other: expansion
   * `j` tried label `steps[j]` on `labelings[j]` with energy `energies[j]`,
   * its maximum flow `flows[j]` left `cuts[j]`, and it ended with
   * `labelings[j + 1]` and `energies[j + 1]`.
   */
  ghost predicate Trace(m: CostModel, alphaSink: bool, termB: int, fuel: nat, energies: seq<real>, steps: seq<int>,
                        labelings: seq<seq<int>>, flows: seq<real>, cuts: seq<seq<Node>>)
  {
    && |energies| == |steps| + 1 && |labelings| == |energies| && |flows| == |steps| && |cuts| == |steps|
    && forall j :: 0 <= j < |steps| ==>
         ExpansionStep(m, alphaSink, termB, fuel, labelings[j], steps[j], energies[j], flows[j], cuts[j], energies[j + 1], labelings[j + 1])
  }

  /**
   * The state `compute` keeps between expansions: the history and the trace
   * so far, from the first labels `labels0` to the current `labels` and
   * `energy`, which stay valid.
   */
  ghost predicate Run(m: CostModel, alphaSink: bool, termB: int, fuel: nat, labels0: seq<int>, labels: seq<int>, energy: real,
                      energies: seq<real>, steps: seq<int>, labelings: seq<seq<int>>, flows: seq<real>, cuts: seq<seq<Node>>,
                      count: nat, stepCounter: nat)
  {
    && LabelsValid(m, labels)
    && History(energies, steps, count, stepCounter) && Trace(m, alphaSink, termB, fuel, energies, steps, labelings, flows, cuts)
    && labelings[0] == labels0 && labelings[|steps|] == labels && energies[|steps|] == energy
  }

  /** An expansion of label `step`, run while fewer than `count` expansions in a row left the energy unchanged, extends the run. */
  lemma RunStep(m: CostModel, alphaSink: bool, termB: int, fuel: nat, labels0: seq<int>, labels: seq<int>, energy: real,
                energies: seq<real>, steps: seq<int>, labelings: seq<seq<int>>, flows: seq<real>, cuts: seq<seq<Node>>,
                count: nat, stepCounter: nat, i: nat, step: nat, flow: real, cut: seq<Node>, energy': real, labels': seq<int>)
    requires Run(m, alphaSink, termB, fuel, labels0, labels, energy, energies, steps, labelings, flows, cuts, count, stepCounter)
    requires stepCounter < count && step < count && |steps| == i * count + step
    requires ExpansionStep(m, alphaSink, termB, fuel, labels, step, energy, flow, cut, energy', labels')
    ensures Run(m, alphaSink, termB, fuel, labels0, labels', energy', energies + [energy'], steps + [step], labelings + [labels'],
                flows + [flow], cuts + [cut], count, if energy' == energy then stepCounter + 1 else 0)
  {
    ExpansionStepMoves(m, alphaSink, termB, fuel, labels, step, energy, flow, cut, energy', labels');
    HistoryStep(energies, steps, count, stepCounter, i, step, energy');
    TraceStep(m, alphaSink, termB, fuel, energies, steps, labelings, flows, cuts, step, flow, cut, energy', labels');
  }

  /** One more expansion from the last labels and energy extends the trace. */
  lemma TraceStep(m: CostModel, alphaSink: bool, termB: int, fuel: nat, energies: seq<real>, steps: seq<int>,
                  labelings: seq<seq<int>>, flows: seq<real>, cuts: seq<seq<Node>>,
                  a: int, flow: real, cut: seq<Node>, energy: real, labels': seq<int>)
    requires Trace(m, alphaSink, termB, fuel, energies, steps, labelings, flows, cuts)
    requires ExpansionStep(m, alphaSink, termB, fuel, labelings[|steps|], a, energies[|steps|], flow, cut, energy, labels')
    ensures Trace(m, alphaSink, termB, fuel, energies + [energy], steps + [a], labelings + [labels'], flows + [flow], cuts + [cut])
  {
    var energies', steps', labelings' := energies + [energy], steps + [a], labelings + [labels'];
    forall j | 0 <= j < |steps'|
      ensures ExpansionStep(m, alphaSink, termB, fuel, labelings'[j], steps'[j], energies'[j], (flows + [flow])[j], (cuts + [cut])[j],
                            energies'[j + 1], labelings'[j + 1])
    {
      if j < |steps| {
        assert labelings'[j] == labelings[j] && labelings'[j + 1] == labelings[j + 1];
        assert energies'[j] == energies[j] && energies'[j + 1] == energies[j + 1];
      }
    }
  }

  /**
   * The labelling after the relabel loop has seen the first `k` pixels: a
   * pixel whose real node lies on the `termB` side of the cut takes label
   * `a`; every other pixel keeps its label.
   */
  ghost function Relabelled(labels: seq<int>, a: int, slots: seq<nat>, cut: seq<Node>, termB: int, k: nat): (r: seq<int>)
    requires |slots| == |labels| && k <= |labels|
    requires forall i :: 0 <= i < |slots| ==> slots[i] < |cut|
    ensures |r| == |labels|
  {
    seq(|labels|, i requires 0 <= i < |labels| =>
      if i < k && IsNode(cut, slots[i]) && WhatSegment(cut[slots[i]]) == termB then a else labels[i])
  }

  /** One pass of the relabel loop changes at most the label of pixel `k`. */
  lemma RelabelStep(labels: seq<int>, a: int, slots: seq<nat>, cut: seq<Node>, termB: int, k: nat)
    requires |slots| == |labels| && k < |labels|
    requires forall i :: 0 <= i < |slots| ==> slots[i] < |cut|
    ensures Relabelled(labels, a, slots, cut, termB, k + 1)
         == if IsNode(cut, slots[k]) && WhatSegment(cut[slots[k]]) == termB
            then Relabelled(labels, a, slots, cut, termB, k)[k := a]
            else Relabelled(labels, a, slots, cut, termB, k)
  {
    if IsNode(cut, slots[k]) && WhatSegment(cut[slots[k]]) == termB {
      assert Relabelled(labels, a, slots, cut, termB, k + 1) == Relabelled(labels, a, slots, cut, termB, k)[k := a];
    } else {
      assert Relabelled(labels, a, slots, cut, termB, k + 1) == Relabelled(labels, a, slots, cut, termB, k);
    }
  }

  /**
   * The move only ever gives a pixel the label `a`, keeps the pixels that
   * already have it, and so keeps a valid labelling valid.
   */
  lemma RelabelKeepsValid(m: CostModel, labels: seq<int>, a: int, slots: seq<nat>, cut: seq<Node>, termB: int)
    requires LabelsValid(m, labels) && 0 <= a < m.count
    requires |slots| == |labels| && forall i :: 0 <= i < |slots| ==> slots[i] < |cut|
    ensures var r := Relabelled(labels, a, slots, cut, termB, |labels|);
      && LabelsValid(m, r)
      && (forall i :: 0 <= i < |r| ==> r[i] == labels[i] || r[i] == a)
      && (forall i :: 0 <= i < |r| && labels[i] == a ==> r[i] == a)
  {
  }

  /**
   * Expansion `t` followed, within the `count` expansions before it, one
   * that changed the energy.
   */
  ghost predicate Moved(energies: seq<real>, t: nat, count: nat)
    requires t < |energies|
  {
    exists k :: t - count < k <= t && 0 < k && energies[k] != energies[k - 1]
  }

  /**
   * What `compute` has done so far: `energies` holds the energy before the
   * first and after every expansion and never rises, `steps` the label each
   * expansion tried, in turn; the last `stepCounter` expansions left the
   * energy unchanged and the one before them, if any, changed it; and every
   * expansion from the `count`-th on ran because one of the `count` before
   * it changed the energy.
   */
  ghost predicate History(energies: seq<real>, steps: seq<int>, count: nat, stepCounter: nat)
  {
    && count > 0
    && |energies| == |steps| + 1
    && (forall j :: 0 < j < |energies| ==> energies[j] <= energies[j - 1])
    && (forall j :: 0 <= j < |steps| ==> steps[j] == j % count)
    && stepCounter <= count && stepCounter <= |steps|
    && (forall j :: |steps| - stepCounter < j <= |steps| ==> energies[j] == energies[j - 1])
    && (stepCounter < |steps| ==> energies[|steps| - stepCounter] != energies[|steps| - stepCounter - 1])
    && (forall t :: count <= t < |steps| ==> Moved(energies, t, count))
  }

  /**
   * An expansion of label `step` that does not raise the energy extends the
   * history; the count of unchanged expansions grows by one or drops to zero.
   */
  lemma HistoryStep(energies: seq<real>, steps: seq<int>, count: nat, stepCounter: nat, i: nat, step: nat, energy: real)
    requires History(energies, steps, count, stepCounter) && stepCounter < count
    requires step < count && |steps| == i * count + step && energy <= energies[|steps|]
    ensures History(energies + [energy], steps + [step], count, if energy == energies[|steps|] then stepCounter + 1 else 0)
  {
    var energies', steps' := energies + [energy], steps + [step];
    var counter' := if energy == energies[|steps|] then stepCounter + 1 else 0;
    RoundRobin(i, count, step);
    assert forall j :: 0 <= j < |steps'| ==> steps'[j] == j % count;
    assert forall j :: 0 < j < |energies'| ==> energies'[j] <= energies'[j - 1];
    assert forall j :: |steps'| - counter' < j <= |steps'| ==> energies'[j] == energies'[j - 1];
    MovedStep(energies, count, stepCounter, energy);
  }

  /** The expansion after fewer than `count` unchanged ones ran because one of the `count` before it changed the energy. */
  lemma MovedStep(energies: seq<real>, count: nat, stepCounter: nat, energy: real)
    requires 0 < |energies| && stepCounter < count && stepCounter < |energies|
    requires stepCounter < |energies| - 1 ==> energies[|energies| - 1 - stepCounter] != energies[|energies| - 2 - stepCounter]
    requires forall t :: count <= t < |energies| - 1 ==> Moved(energies, t, count)
    ensures forall t :: count <= t < |energies| ==> Moved(energies + [energy], t, count)
  {
    var energies' := energies + [energy];
    var last := |energies| - 1;
    forall u | count <= u < |energies|
      ensures Moved(energies', u, count)
    {
      if u < last {
        assert Moved(energies, u, count);
        var k :| u - count < k <= u && 0 < k && energies[k] != energies[k - 1];
        assert energies'[k] == energies[k] && energies'[k - 1] == energies[k - 1];
      } else {
        var k := last - stepCounter;
        assert energies'[k] == energies[k] && energies'[k - 1] == energies[k - 1];
      }
    }
  }

  /**
   * A run that stops after `MAX_ITERATION` rounds, or earlier with `count`
   * expansions in a row that left the energy unchanged, has the shape
   * `compute` promises.
   */
  lemma RunDone(m: CostModel, alphaSink: bool, termB: int, fuel: nat, labels0: seq<int>, labels: seq<int>, energy: real,
                energies: seq<real>, steps: seq<int>, labelings: seq<seq<int>>, flows: seq<real>, cuts: seq<seq<Node>>,
                count: nat, stepCounter: nat)
    requires Run(m, alphaSink, termB, fuel, labels0, labels, energy, energies, steps, labelings, flows, cuts, count, stepCounter)
    requires |steps| <= MAX_ITERATION * count && (stepCounter < count ==> |steps| == MAX_ITERATION * count)
    ensures LabelsValid(m, labels) && |energies| == |steps| + 1
    ensures Trace(m, alphaSink, termB, fuel, energies, steps, labelings, flows, cuts)
    ensures labelings[0] == labels0 && labels == labelings[|steps|]
    ensures forall j :: 0 < j < |energies| ==> energies[j] <= energies[j - 1]
    ensures forall j :: 0 <= j < |steps| ==> steps[j] == j % count
    ensures forall t :: count <= t < |steps| ==> Moved(energies, t, count)
    ensures |steps| < MAX_ITERATION * count ==>
      |steps| >= count && forall j :: |steps| - count < j <= |steps| ==> energies[j] == energies[j - 1]
  {
    HistoryDone(energies, steps, count, stepCounter);
  }

  /** When `compute` stops early, the last `count` expansions changed nothing. */
  lemma HistoryDone(energies: seq<real>, steps: seq<int>, count: nat, stepCounter: nat)
    requires History(energies, steps, count, stepCounter)
    requires stepCounter < count ==> |steps| == MAX_ITERATION * count
    ensures |steps| < MAX_ITERATION * count ==>
      |steps| >= count && forall j :: |steps| - count < j <= |steps| ==> energies[j] == energies[j - 1]
  {
  }

  /** The index of expansion number `i * count + step` is `step`: labels are tried round-robin. */
  lemma {:induction false} RoundRobin(i: nat, count: nat, step: nat)
    requires step < count
    ensures (i * count + step) % count == step
  {
    if i > 0 {
      RoundRobin(i - 1, count, step);
      assert i * count + step == (i - 1) * count + step + count;
      ModShift((i - 1) * count + step, count);
    }
  }

  /** Adding the modulus does not change a remainder. */
  lemma ModShift(x: nat, count: nat)
    requires count > 0
    ensures (x + count) % count == x % count
  {
    var q, r := x / count, x % count;
    var q', r' := (x + count) / count, (x + count) % count;
    var d := q' - q - 1;
    assert count * d == r - r' by {
      assert count * q' + r' == count * q + r + count;
      assert count * d == count * q' - count * q - count;
    }
    if d > 0 {
      MulMonotone(1, d, count);
    } else if d < 0 {
      MulMonotone(1, -d, count);
      assert count * (-d) == -(count * d);
    }
  }

  /** `Math.max`. */
  function MaxOf(x: real, y: real): (r: real)
    ensures r >= x && r >= y && (r == x || r == y)
  {
    if x >= y then x else y
  }

  /** The interaction cost between two points of the grid under `labels`. */
  ghost function SeamAt(m: CostModel, labels: seq<int>, c: Point, n: Point): Result<real>
    requires |labels| == m.width * m.height && c.InGrid(m.width, m.height) && n.InGrid(m.width, m.height)
  {
    IndexInRange(c, m.width, m.height);
    IndexInRange(n, m.width, m.height);
    m.interaction(c, n, labels[c.OneDimensionalIndex(m.width)], labels[n.OneDimensionalIndex(m.width)])
  }

  /**
   * The largest interaction cost between `p` and those of its first `k`
   * neighbours that lie on the grid, starting from `DOUBLE_MIN_VALUE`; the
   * first cost that fails is the outcome.
   */
  ghost function MaxSeam(m: CostModel, labels: seq<int>, p: Point, k: nat): Result<real>
    requires |labels| == m.width * m.height && p.InGrid(m.width, m.height) && k <= |Around(p)|
  {
    if k == 0 then Success(DOUBLE_MIN_VALUE)
    else
      var prev := MaxSeam(m, labels, p, k - 1);
      var q := Around(p)[k - 1];
      if prev.Failure? || !q.InGrid(m.width, m.height) then prev
      else
        var s := SeamAt(m, labels, p, q);
        if s.Failure? then s else Success(MaxOf(prev.value, s.value))
  }

  /**
   * `MaxSeam` is defined exactly when every cost it looks at is; it is then
   * an upper bound of those costs, never below `DOUBLE_MIN_VALUE`, and is
   * either `DOUBLE_MIN_VALUE` or one of them.
   */
  lemma {:induction false} MaxSeamIsMaximum(m: CostModel, labels: seq<int>, p: Point, k: nat)
    requires |labels| == m.width * m.height && p.InGrid(m.width, m.height) && k <= |Around(p)|
    ensures var r := MaxSeam(m, labels, p, k);
      && (r.Success? <==> forall j :: 0 <= j < k && Around(p)[j].InGrid(m.width, m.height) ==>
            SeamAt(m, labels, p, Around(p)[j]).Success?)
      && (r.Success? ==> DOUBLE_MIN_VALUE <= r.value)
      && (r.Success? ==> forall j :: 0 <= j < k && Around(p)[j].InGrid(m.width, m.height) ==>
            SeamAt(m, labels, p, Around(p)[j]).value <= r.value)
      && (r.Success? ==>
            r.value == DOUBLE_MIN_VALUE || exists j :: 0 <= j < k && Around(p)[j].InGrid(m.width, m.height) && SeamAt(m, labels, p, Around(p)[j]) == r)
  {
    if k > 0 {
      MaxSeamIsMaximum(m, labels, p, k - 1);
    }
  }

  /** Once a cost fails, looking at further neighbours keeps that failure. */
  lemma {:induction false} MaxSeamFailureSticks(m: CostModel, labels: seq<int>, p: Point, k: nat, n: nat)
    requires |labels| == m.width * m.height && p.InGrid(m.width, m.height) && k <= n <= |Around(p)|
    requires MaxSeam(m, labels, p, k).Failure?
    ensures MaxSeam(m, labels, p, n) == MaxSeam(m, labels, p, k)
  {
    if n > k {
      MaxSeamFailureSticks(m, labels, p, k, n - 1);
    }
  }

  /** With every label naming an image, the largest interaction cost around a point of the grid is defined. */
  lemma MaxSeamDefined(s: Scene, labels: seq<int>, p: Point)
    requires LabelsValid(Mlo(s), labels) && p.InGrid(s.images.width, s.images.height)
    ensures MaxSeam(Mlo(s), labels, p, |Around(p)|).Success?
  {
    var m := Mlo(s);
    MloAdmissible(s);
    MaxSeamIsMaximum(m, labels, p, |Around(p)|);
    forall j | 0 <= j < |Around(p)| && Around(p)[j].InGrid(m.width, m.height)
      ensures SeamAt(m, labels, p, Around(p)[j]).Success?
    {
      IndexInRange(p, m.width, m.height);
      IndexInRange(Around(p)[j], m.width, m.height);
    }
  }

  /** The state after pixel `i` has been paired with its first `dir` neighbours. */
  ghost function PairsUpTo(m: CostModel, labels: seq<int>, a: int, alphaSink: bool, slots: seq<nat>, b: Build, i: nat, dir: nat): (r: Build)
    requires Ready(m, labels, a, slots, b) && i < |labels| && dir <= |NEIGHBORS|
    ensures Ready(m, labels, a, slots, r)
  {
    if dir == 0 then b else PairStep(m, labels, a, alphaSink, slots, PairsUpTo(m, labels, a, alphaSink, slots, b, i, dir - 1), i, dir - 1)
  }

  /** The probability a pixel's tables give a colour is the one its samples define. */
  lemma ProbabilityOfSamples(images: Stack, col: int, row: int, r: int, g: int, b: int,
                             red: seq<int>, green: seq<int>, blue: seq<int>)
    requires images.count > 0
    requires red == Histograms.Samples(images, col, row, 0, images.count)
    requires green == Histograms.Samples(images, col, row, 1, images.count)
    requires blue == Histograms.Samples(images, col, row, 2, images.count)
    ensures Histograms.PixelProbability(images, col, row, r, g, b)
         == Histograms.Frequency(red, r) * Histograms.Frequency(green, g) * Histograms.Frequency(blue, b)
  {
  }

  /** The node array after the data loop has seen the first `k` pixels. */
  ghost function SlotsUpTo(labels: seq<int>, a: int, k: nat): (r: seq<nat>)
    requires k <= |labels|
    ensures |r| == |labels|
  {
    seq(|labels|, j requires 0 <= j < |labels| => if j < k then SlotOf(labels, a, j) else ACTIVE_SLOT)
  }

  /** The penalty array after the data loop has seen the first `k` pixels. */
  ghost function PenaltiesUpTo(m: CostModel, labels: seq<int>, a: int, k: nat): (r: seq<real>)
    requires |labels| == m.width * m.height && k <= |labels|
    ensures |r| == |labels|
  {
    seq(|labels|, j requires 0 <= j < |labels| => if j < k then InitialPenalty(m, labels, a, j) else 0.0)
  }

  /** One pass of the data loop writes the entries of pixel `k` and no other. */
  lemma DataLoopStep(m: CostModel, labels: seq<int>, a: int, k: nat)
    requires |labels| == m.width * m.height && k < |labels|
    ensures SlotsUpTo(labels, a, k + 1) == SlotsUpTo(labels, a, k)[k := SlotOf(labels, a, k)]
    ensures labels[k] == a ==> PenaltiesUpTo(m, labels, a, k + 1) == PenaltiesUpTo(m, labels, a, k)
    ensures labels[k] != a ==>
      PenaltiesUpTo(m, labels, a, k + 1) == PenaltiesUpTo(m, labels, a, k)[k := InitialPenalty(m, labels, a, k)]
  {
    assert SlotsUpTo(labels, a, k + 1) == SlotsUpTo(labels, a, k)[k := SlotOf(labels, a, k)];
    if labels[k] == a {
      assert PenaltiesUpTo(m, labels, a, k + 1) == PenaltiesUpTo(m, labels, a, k);
    } else {
      assert PenaltiesUpTo(m, labels, a, k + 1) == PenaltiesUpTo(m, labels, a, k)[k := InitialPenalty(m, labels, a, k)];
    }
  }

  /** After the last pixel the arrays are those of the state the data loop hands on. */
  lemma DataLoopDone(m: CostModel, labels: seq<int>, a: int)
    requires |labels| == m.width * m.height
    ensures SlotsUpTo(labels, a, |labels|) == Slots(labels, a)
    ensures PenaltiesUpTo(m, labels, a, |labels|) == Built(m, labels, a).penalty
  {
    assert SlotsUpTo(labels, a, |labels|) == Slots(labels, a);
    assert PenaltiesUpTo(m, labels, a, |labels|) == Built(m, labels, a).penalty;
  }
}
