/**
 * The costs the photomontage optimiser minimises: the data cost of giving a
 * pixel a label (how unlikely that label's colour is under the pixel's
 * histogram) and the interaction cost of giving two neighbouring pixels
 * different labels (how visible the seam between the two images is).
 *
 * Doubles are modelled as reals and `Math.sqrt` as an arbitrary
 * non-negative function, part of the `Scene`.
 */
module Costs {
  import opened Images
  import opened Coordinates
  import opened Histograms

  const INFINITE_CAPACITY: real := 1000000.0
  const INTERACTION_PENALTY_COEFFICIENT: real := 6.0
  const NUM_CHANNEL: nat := 3
  const MAX_PROBABILITY: real := 1.0
  const POTTS_INTERACTION_ENERGY_CONSTANT: real := 0.000001
  const REGULAR_INTERACTION_ENERGY_CONSTANT: real := 0.1
  /** `Double.MIN_VALUE`, the least positive double. */
  const DOUBLE_MIN_VALUE: real := 4.9e-324

  /** The image stack and the square root the interaction cost is computed with. */
  datatype Scene = Scene(images: Stack, sqrt: real -> NonNegReal)

  /**
   * `getDataCost`: one minus the probability of label `d`'s colour at `p`
   * under the pixel's histogram. A label that names no image fails on the
   * image lookup; the range check on the probability never fires.
   */
  function DataCost(images: Stack, p: Point, d: int): (r: Result<real>)
    ensures r.Success? <==> 0 <= d < images.count
    ensures r.Failure? ==> r.error == IndexOutOfBounds
    ensures r.Success? ==> 0.0 <= r.value <= 1.0
  {
    if !(0 <= d < images.count) then Failure(IndexOutOfBounds)
    else
      var probability := PixelProbability(images, p.col, p.row, images.sample(d, p.row, p.col, 0),
                                          images.sample(d, p.row, p.col, 1), images.sample(d, p.row, p.col, 2));
      if probability < 0.0 || probability > MAX_PROBABILITY then Failure(IllegalState)
      else Success(MAX_PROBABILITY - probability)
  }

  /** A label whose colour every image shows at a pixel costs nothing there. */
  lemma SharedColourCostsNothing(images: Stack, p: Point, d: int)
    requires 0 <= d < images.count
    requires forall l, c :: 0 <= l < images.count && 0 <= c < NUM_CHANNEL ==>
      images.sample(l, p.row, p.col, c) == images.sample(d, p.row, p.col, c)
    ensures DataCost(images, p, d) == Success(0.0)
  {
    var r, g, b := images.sample(d, p.row, p.col, 0), images.sample(d, p.row, p.col, 1), images.sample(d, p.row, p.col, 2);
    assert forall l :: 0 <= l < images.count ==>
      images.sample(l, p.row, p.col, 0) == r && images.sample(l, p.row, p.col, 1) == g && images.sample(l, p.row, p.col, 2) == b;
    SharedColourIsCertain(images, p.col, p.row, r, g, b);
  }

  /**
   * `BVZDataPenalty`: the data cost inside the grid, `INFINITE_CAPACITY`
   * outside it.
   */
  function DataPenalty(images: Stack, p: Point, d: int): (r: Result<real>)
    ensures r.Success? <==> !p.InGrid(images.width, images.height) || 0 <= d < images.count
    ensures r.Success? ==> 0.0 <= r.value <= INFINITE_CAPACITY
    ensures !p.InGrid(images.width, images.height) ==> r == Success(INFINITE_CAPACITY)
  {
    if p.InGrid(images.width, images.height) then DataCost(images, p, d) else Success(INFINITE_CAPACITY)
  }

  /** The squared colour difference of images `l1` and `l2` at `p` over the first `n` channels. */
  function SquaredDistance(images: Stack, l1: nat, l2: nat, p: Point, n: nat): (a: int)
    ensures a >= 0
  {
    if n == 0 then 0
    else
      var k := images.sample(l1, p.row, p.col, n - 1) - images.sample(l2, p.row, p.col, n - 1);
      SquaredDistance(images, l1, l2, p, n - 1) + k * k
  }

  /** The squared distance is symmetric in the two images. */
  lemma {:induction false} SquaredDistanceSymmetric(images: Stack, l1: nat, l2: nat, p: Point, n: nat)
    ensures SquaredDistance(images, l1, l2, p, n) == SquaredDistance(images, l2, l1, p, n)
  {
    if n > 0 {
      SquaredDistanceSymmetric(images, l1, l2, p, n - 1);
      var k := images.sample(l1, p.row, p.col, n - 1) - images.sample(l2, p.row, p.col, n - 1);
      assert (-k) * (-k) == k * k;
    }
  }

  /** The squared distance is zero exactly when the two images agree on every channel at `p`. */
  lemma {:induction false} SquaredDistanceZero(images: Stack, l1: nat, l2: nat, p: Point, n: nat)
    ensures SquaredDistance(images, l1, l2, p, n) == 0 <==>
      forall c :: 0 <= c < n ==> images.sample(l1, p.row, p.col, c) == images.sample(l2, p.row, p.col, c)
  {
    if n > 0 {
      SquaredDistanceZero(images, l1, l2, p, n - 1);
      var k := images.sample(l1, p.row, p.col, n - 1) - images.sample(l2, p.row, p.col, n - 1);
      assert k * k >= 0;
      assert k * k == 0 <==> k == 0;
    }
  }

  /**
   * `EnergyMinimizer.BVZInteractionPenalty`: the seam cost between point `c`
   * labelled `cLabel` and point `n` labelled `nLabel`. A label beyond the
   * last image is refused, equal labels cost nothing, a negative label fails
   * on the image lookup; otherwise the colour distances of the two images at
   * both points, over the coefficient and capped at `INFINITE_CAPACITY`.
   */
  function BaseInteraction(s: Scene, c: Point, n: Point, cLabel: int, nLabel: int): (r: Result<real>)
    ensures r.Success? ==> 0.0 <= r.value <= INFINITE_CAPACITY
  {
    if cLabel >= s.images.count || nLabel >= s.images.count then Failure(IllegalState)
    else if cLabel == nLabel then Success(0.0)
    else if cLabel < 0 || nLabel < 0 then Failure(IndexOutOfBounds)
    else
      var m := (s.sqrt(SquaredDistance(s.images, cLabel, nLabel, c, NUM_CHANNEL) as real)
                + s.sqrt(SquaredDistance(s.images, cLabel, nLabel, n, NUM_CHANNEL) as real))
               / INTERACTION_PENALTY_COEFFICIENT;
      Success(if m > INFINITE_CAPACITY then INFINITE_CAPACITY else m)
  }

  /**
   * `MLOEnergyMinimizer.BVZInteractionPenalty`: a base cost of zero stays
   * zero, any other base cost `m` becomes the Potts constant plus a tenth of `m`.
   */
  function Interaction(s: Scene, c: Point, n: Point, cLabel: int, nLabel: int): (r: Result<real>)
    ensures r.Success? <==> BaseInteraction(s, c, n, cLabel, nLabel).Success?
    ensures r.Success? ==> r.value == 0.0 || r.value >= POTTS_INTERACTION_ENERGY_CONSTANT
    ensures r.Success? ==>
      0.0 <= r.value <= POTTS_INTERACTION_ENERGY_CONSTANT + REGULAR_INTERACTION_ENERGY_CONSTANT * INFINITE_CAPACITY
  {
    var m := BaseInteraction(s, c, n, cLabel, nLabel);
    if m.Failure? then m
    else if m.value == 0.0 then m
    else Success(POTTS_INTERACTION_ENERGY_CONSTANT + REGULAR_INTERACTION_ENERGY_CONSTANT * m.value)
  }

  /**
   * The interaction cost fails exactly for a label beyond the last image or
   * (when the labels differ) a negative one, and two equal labels cost nothing.
   */
  lemma InteractionOutcome(s: Scene, c: Point, n: Point, cLabel: int, nLabel: int)
    ensures var r := Interaction(s, c, n, cLabel, nLabel);
      && (cLabel >= s.images.count || nLabel >= s.images.count <==> r == Failure(IllegalState))
      && (r.Success? <==> cLabel < s.images.count && nLabel < s.images.count && (cLabel == nLabel || (0 <= cLabel && 0 <= nLabel)))
      && (cLabel == nLabel < s.images.count ==> r == Success(0.0))
  {
  }

  /** Swapping the two points together with their labels does not change the cost. */
  lemma InteractionSymmetric(s: Scene, c: Point, n: Point, cLabel: int, nLabel: int)
    ensures BaseInteraction(s, c, n, cLabel, nLabel) == BaseInteraction(s, n, c, nLabel, cLabel)
    ensures Interaction(s, c, n, cLabel, nLabel) == Interaction(s, n, c, nLabel, cLabel)
  {
    if 0 <= cLabel < s.images.count && 0 <= nLabel < s.images.count {
      SquaredDistanceSymmetric(s.images, cLabel, nLabel, c, NUM_CHANNEL);
      SquaredDistanceSymmetric(s.images, cLabel, nLabel, n, NUM_CHANNEL);
    }
  }

  /**
   * When the square root maps zero to zero, two different images cost
   * nothing at a seam exactly when they agree in colour at both points.
   */
  lemma InteractionZeroIffSameColours(s: Scene, c: Point, n: Point, cLabel: nat, nLabel: nat)
    requires cLabel < s.images.count && nLabel < s.images.count && cLabel != nLabel
    requires forall x: real :: x >= 0.0 ==> (s.sqrt(x) == 0.0 <==> x == 0.0)
    ensures Interaction(s, c, n, cLabel, nLabel) == Success(0.0) <==>
      forall ch :: 0 <= ch < NUM_CHANNEL ==>
        && s.images.sample(cLabel, c.row, c.col, ch) == s.images.sample(nLabel, c.row, c.col, ch)
        && s.images.sample(cLabel, n.row, n.col, ch) == s.images.sample(nLabel, n.row, n.col, ch)
  {
    SquaredDistanceZero(s.images, cLabel, nLabel, c, NUM_CHANNEL);
    SquaredDistanceZero(s.images, cLabel, nLabel, n, NUM_CHANNEL);
  }
}
