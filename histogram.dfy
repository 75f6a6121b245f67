/**
 * Per-pixel colour histograms over the image stack: every pixel has one
 * 20-bin frequency table per colour channel, filled with the values that
 * pixel takes in every image. The probability of a colour at a pixel is
 * the product of the relative frequencies of its three channel bins.
 *
 * `Channel`, `Pixel` and `Histogram` are the mutable objects the source
 * fills in place; `Bin`, `Count`, `Frequency`, `Samples` and
 * `PixelProbability` are the values those objects are proved to hold.
 */
module Histograms {
  import opened Images
  import opened Coordinates

  const MIN: int := 0
  const MAX: int := 256
  const NUM_BINS: int := 20
  const MIN_REQUIRED_NUM_IMAGES: nat := 2

  /**
   * The bin of a channel value: the truncating `(int) (val / BIN_SIZE)` with
   * `BIN_SIZE = (MAX - MIN) / NUM_BINS = 12.8`, computed exactly.
   */
  function Bin(val: int): (b: int)
    ensures MIN <= val < MAX ==> 0 <= b < NUM_BINS
    ensures val == MAX ==> b == NUM_BINS
  {
    if val >= 0 then val * NUM_BINS / (MAX - MIN) else -((-val) * NUM_BINS / (MAX - MIN))
  }

  /** `Bin` rounds `val / 12.8` toward zero, on either side of zero. */
  lemma BinRoundsTowardZero(val: int)
    ensures 0 <= val ==> 0 <= Bin(val) && Bin(val) * (MAX - MIN) <= val * NUM_BINS < (Bin(val) + 1) * (MAX - MIN)
    ensures val < 0 ==> Bin(val) <= 0 && -Bin(val) * (MAX - MIN) <= -val * NUM_BINS < (1 - Bin(val)) * (MAX - MIN)
  {
  }

  /**
   * What `addValue` does with a value: values outside `[MIN, MAX]` are
   * rejected; `MAX` itself passes that check but its bin is one past the
   * table, so the table update fails with an index error.
   */
  function Admit(val: int): (s: Status)
    ensures s.Ok? <==> MIN <= val < MAX
    ensures (val < MIN || MAX < val) ==> s == Raised(IllegalArgument)
    ensures val == MAX ==> s == Raised(IndexOutOfBounds)
  {
    if val < MIN || val > MAX then Raised(IllegalArgument)
    else if Bin(val) >= NUM_BINS then Raised(IndexOutOfBounds)
    else Ok
  }

  /** How many of `samples` fall into bin `b`. */
  function Count(samples: seq<int>, b: int): (n: nat)
    ensures n <= |samples|
  {
    if samples == [] then 0
    else Count(samples[..|samples| - 1], b) + if Bin(samples[|samples| - 1]) == b then 1 else 0
  }

  lemma CountAppend(samples: seq<int>, v: int, b: int)
    ensures Count(samples + [v], b) == Count(samples, b) + if Bin(v) == b then 1 else 0
  {
    assert (samples + [v])[..|samples|] == samples;
  }

  /** The counts of bins `0 .. k-1`, added up. */
  function BinTotal(samples: seq<int>, k: nat): int
  {
    if k == 0 then 0 else BinTotal(samples, k - 1) + Count(samples, k - 1)
  }

  lemma {:induction false} BinTotalAppend(samples: seq<int>, v: int, k: nat)
    ensures BinTotal(samples + [v], k) == BinTotal(samples, k) + if 0 <= Bin(v) < k then 1 else 0
  {
    if k > 0 {
      BinTotalAppend(samples, v, k - 1);
      CountAppend(samples, v, k - 1);
    }
  }

  /** Every in-range sample lies in exactly one of the `NUM_BINS` bins. */
  lemma {:induction false} CountsCoverSamples(samples: seq<int>)
    requires forall k :: 0 <= k < |samples| ==> MIN <= samples[k] < MAX
    ensures BinTotal(samples, NUM_BINS) == |samples|
  {
    if samples == [] {
      NothingCounted(NUM_BINS);
    } else {
      var init, last := samples[..|samples| - 1], samples[|samples| - 1];
      CountsCoverSamples(init);
      BinTotalAppend(init, last, NUM_BINS);
      assert init + [last] == samples;
      assert 0 <= Bin(last) < NUM_BINS;
    }
  }

  lemma {:induction false} NothingCounted(k: nat)
    ensures BinTotal([], k) == 0
  {
    if k > 0 {
      NothingCounted(k - 1);
    }
  }

  function SumOf(s: seq<int>): int
  {
    if s == [] then 0 else SumOf(s[..|s| - 1]) + s[|s| - 1]
  }

  /** A bin table that counts `samples` adds up to the number of samples. */
  lemma BinsSumToTotal(bins: seq<int>, samples: seq<int>)
    requires |bins| == NUM_BINS
    requires forall b :: 0 <= b < NUM_BINS ==> bins[b] == Count(samples, b)
    requires forall k :: 0 <= k < |samples| ==> MIN <= samples[k] < MAX
    ensures SumOf(bins) == |samples|
  {
    PrefixSums(bins, samples, NUM_BINS);
    assert bins[..NUM_BINS] == bins;
    CountsCoverSamples(samples);
  }

  lemma {:induction false} PrefixSums(bins: seq<int>, samples: seq<int>, k: nat)
    requires k <= |bins| && forall b :: 0 <= b < k ==> bins[b] == Count(samples, b)
    ensures SumOf(bins[..k]) == BinTotal(samples, k)
  {
    if k > 0 {
      PrefixSums(bins, samples, k - 1);
      assert bins[..k][..k - 1] == bins[..k - 1];
    }
  }

  lemma RatioInUnit(x: int, y: int)
    requires 0 <= x <= y && 0 < y
    ensures 0.0 <= x as real / y as real <= 1.0
  {
    var q := x as real / y as real;
    assert q * y as real == x as real;
  }

  /** The relative frequency of `val`'s bin among `samples`. */
  function Frequency(samples: seq<int>, val: int): (p: real)
    requires |samples| > 0
    ensures 0.0 <= p <= 1.0
  {
    RatioInUnit(Count(samples, Bin(val)), |samples|);
    Count(samples, Bin(val)) as real / |samples| as real
  }

  /** The values channel `channel` takes at (`col`, `row`) in the images `0 .. n-1`. */
  function Samples(images: Stack, col: int, row: int, channel: nat, n: nat): (s: seq<int>)
    ensures |s| == n
  {
    if n == 0 then [] else Samples(images, col, row, channel, n - 1) + [images.sample(n - 1, row, col, channel)]
  }

  /** Entry `l` of `Samples` is image `l`'s value. */
  lemma {:induction false} SamplesAt(images: Stack, col: int, row: int, channel: nat, n: nat)
    ensures forall l :: 0 <= l < n ==> Samples(images, col, row, channel, n)[l] == images.sample(l, row, col, channel)
  {
    if n > 0 {
      SamplesAt(images, col, row, channel, n - 1);
    }
  }

  /**
   * The probability of colour (`r`, `g`, `b`) at pixel (`col`, `row`), as the
   * histogram of the whole stack gives it.
   */
  function PixelProbability(images: Stack, col: int, row: int, r: int, g: int, b: int): (p: real)
    requires images.count > 0
    ensures 0.0 <= p <= 1.0
  {
    var pr := Frequency(Samples(images, col, row, 0, images.count), r);
    var pg := Frequency(Samples(images, col, row, 1, images.count), g);
    var pb := Frequency(Samples(images, col, row, 2, images.count), b);
    ProductInUnit(pr, pg, pb);
    pr * pg * pb
  }

  lemma ProductInUnit(x: real, y: real, z: real)
    requires 0.0 <= x <= 1.0 && 0.0 <= y <= 1.0 && 0.0 <= z <= 1.0
    ensures 0.0 <= x * y * z <= 1.0
  {
    assert 0.0 <= (1.0 - x) * y;
    assert 0.0 <= x * y <= y;
    assert 0.0 <= (1.0 - x * y) * z;
    assert 0.0 <= x * y * z <= z;
  }

  lemma {:induction false} CountAllSame(samples: seq<int>, v: int)
    requires forall k :: 0 <= k < |samples| ==> samples[k] == v
    ensures Count(samples, Bin(v)) == |samples|
  {
    if samples != [] {
      CountAllSame(samples[..|samples| - 1], v);
    }
  }

  lemma {:induction false} CountNone(samples: seq<int>, b: int)
    requires forall k :: 0 <= k < |samples| ==> Bin(samples[k]) != b
    ensures Count(samples, b) == 0
  {
    if samples != [] {
      CountNone(samples[..|samples| - 1], b);
    }
  }

  /** A colour that every image shows at a pixel has probability 1 there. */
  lemma SharedColourIsCertain(images: Stack, col: int, row: int, r: int, g: int, b: int)
    requires images.count > 0
    requires forall l :: 0 <= l < images.count ==>
      images.sample(l, row, col, 0) == r && images.sample(l, row, col, 1) == g && images.sample(l, row, col, 2) == b
    ensures PixelProbability(images, col, row, r, g, b) == 1.0
  {
    SharedChannel(images, col, row, 0, r);
    SharedChannel(images, col, row, 1, g);
    SharedChannel(images, col, row, 2, b);
  }

  lemma SharedChannel(images: Stack, col: int, row: int, channel: nat, v: int)
    requires images.count > 0
    requires forall l :: 0 <= l < images.count ==> images.sample(l, row, col, channel) == v
    ensures Frequency(Samples(images, col, row, channel, images.count), v) == 1.0
  {
    SamplesAt(images, col, row, channel, images.count);
    FrequencyOfShared(Samples(images, col, row, channel, images.count), v);
  }

  lemma FrequencyOfShared(samples: seq<int>, v: int)
    requires |samples| > 0 && forall k :: 0 <= k < |samples| ==> samples[k] == v
    ensures Frequency(samples, v) == 1.0
  {
    CountAllSame(samples, v);
    var n := |samples| as real;
    assert Frequency(samples, v) == n / n;
  }

  /** A colour whose red bin no image hits at a pixel has probability 0 there. */
  lemma UnseenColourIsImpossible(images: Stack, col: int, row: int, r: int, g: int, b: int)
    requires images.count > 0
    requires forall l :: 0 <= l < images.count ==> Bin(images.sample(l, row, col, 0)) != Bin(r)
    ensures PixelProbability(images, col, row, r, g, b) == 0.0
  {
    SamplesAt(images, col, row, 0, images.count);
    CountNone(Samples(images, col, row, 0, images.count), Bin(r));
  }

  /** Bin `peak` holds a largest count of `table`. */
  ghost predicate IsPeak(table: seq<int>, peak: int)
  {
    0 <= peak < |table| && forall b :: 0 <= b < |table| ==> table[b] <= table[peak]
  }

  /** Counting one more value bumps its own bin and leaves the others. */
  lemma CountedTable(table: seq<int>, samples: seq<int>, val: int)
    requires |table| == NUM_BINS && 0 <= Bin(val) < NUM_BINS
    requires forall b :: 0 <= b < NUM_BINS ==> table[b] == Count(samples, b)
    ensures forall b :: 0 <= b < NUM_BINS ==>
      table[Bin(val) := table[Bin(val)] + 1][b] == Count(samples + [val], b)
  {
    forall b | 0 <= b < NUM_BINS
      ensures table[Bin(val) := table[Bin(val)] + 1][b] == Count(samples + [val], b)
    {
      CountAppend(samples, val, b);
    }
  }

  /**
   * After bumping bin `k`, moving the peak to `k` exactly when it is unset or
   * `k` now strictly exceeds it keeps a largest bin.
   */
  lemma BumpKeepsPeak(table: seq<int>, peak: int, k: int)
    requires 0 <= k < |table|
    requires (peak == -1 && forall b :: 0 <= b < |table| ==> table[b] == 0) || IsPeak(table, peak)
    ensures var t := table[k := table[k] + 1];
      IsPeak(t, if peak < 0 || t[k] > t[peak] then k else peak)
  {
  }

  /**
   * The bookkeeping of one channel: `table` counts `samples`, all of them in
   * range, `total` is their number, and `peak` is a largest bin (-1 before
   * the first value).
   */
  ghost predicate Tally(table: seq<int>, total: int, peak: int, samples: seq<int>)
  {
    && |table| == NUM_BINS
    && total == |samples|
    && (forall k :: 0 <= k < |samples| ==> MIN <= samples[k] < MAX)
    && (forall b :: 0 <= b < NUM_BINS ==> table[b] == Count(samples, b))
    && (total == 0 ==> peak == -1)
    && (total > 0 ==> IsPeak(table, peak))
  }

  /**
   * Counting one in-range value keeps the bookkeeping: its bin and the total
   * go up by one, and the peak moves to that bin when it is unset or that bin
   * now strictly exceeds it.
   */
  lemma TallyStep(table: seq<int>, total: int, peak: int, samples: seq<int>, val: int)
    requires Tally(table, total, peak, samples) && MIN <= val < MAX
    ensures var k := Bin(val);
      var t := table[k := table[k] + 1];
      Tally(t, total + 1, if peak < 0 || t[k] > t[peak] then k else peak, samples + [val])
  {
    var k := Bin(val);
    CountedTable(table, samples, val);
    if total == 0 {
      assert samples == [];
    }
    BumpKeepsPeak(table, peak, k);
    var s := samples + [val];
    forall j | 0 <= j < |s|
      ensures MIN <= s[j] < MAX
    {
      if j < |samples| {
        assert s[j] == samples[j];
      }
    }
  }

  /** One colour channel's frequency table at one pixel. */
  class Channel {
    /** The count of each bin. */
    const bins: array<int>
    var total: int
    /** A bin of maximal count, or -1 before the first value. */
    var peak: int
    /** The values added so far, in order. */
    ghost var samples: seq<int>

    ghost predicate Valid()
      reads this, bins
    {
      bins.Length == NUM_BINS && Tally(bins[..], total, peak, samples)
    }

    constructor ()
      ensures Valid() && fresh(bins) && samples == []
    {
      bins := new int[NUM_BINS](_ => 0);
      total := 0;
      peak := -1;
      samples := [];
    }

    /**
     * Counts one more value: its bin and the total go up by one, and the
     * peak moves to that bin when it is now strictly the largest.
     */
    method AddValue(val: int) returns (status: Status)
      requires Valid()
      modifies this, bins
      ensures Valid() && status == Admit(val)
      ensures status.Ok? ==> samples == old(samples) + [val] && total == old(total) + 1
      ensures status.Ok? ==> bins[..] == old(bins[..])[Bin(val) := old(bins[Bin(val)]) + 1]
      ensures status.Raised? ==>
        samples == old(samples) && total == old(total) && peak == old(peak) && bins[..] == old(bins[..])
    {
      if val < MIN || val > MAX {
        return Raised(IllegalArgument);
      }
      var binIdx := Bin(val);
      if binIdx >= bins.Length {
        return Raised(IndexOutOfBounds);
      }
      ghost var table := bins[..];
      bins[binIdx] := bins[binIdx] + 1;
      total := total + 1;
      if peak < 0 || bins[binIdx] > bins[peak] {
        peak := binIdx;
      }
      samples := samples + [val];
      assert bins[..] == table[binIdx := table[binIdx] + 1];
      TallyStep(table, old(total), old(peak), old(samples), val);
      status := Ok;
    }

    /** The relative frequency of `val`'s bin. */
    function GetProbability(val: int): (p: real)
      reads this, bins
      requires Valid() && total > 0 && 0 <= Bin(val) < NUM_BINS
      ensures p == Frequency(samples, val)
    {
      bins[Bin(val)] as real / total as real
    }
  }

  /** The three channel tables of one pixel. */
  class Pixel {
    const red: Channel
    const green: Channel
    const blue: Channel
    ghost const Repr: set<object>

    ghost predicate Valid()
      reads this, Repr
    {
      && Repr == {this, red, green, blue, red.bins, green.bins, blue.bins}
      && red != green && red != blue && green != blue
      && red.bins != green.bins && red.bins != blue.bins && green.bins != blue.bins
      && red.Valid() && green.Valid() && blue.Valid()
    }

    /**
     * The tables are well formed and hold exactly the values the first `n`
     * images show at (`col`, `row`).
     */
    ghost predicate Built(images: Stack, col: int, row: int, n: nat)
      reads this, Repr
    {
      && Valid()
      && red.samples == Samples(images, col, row, 0, n)
      && green.samples == Samples(images, col, row, 1, n)
      && blue.samples == Samples(images, col, row, 2, n)
    }

    constructor ()
      ensures Valid() && fresh(Repr)
      ensures red.samples == [] && green.samples == [] && blue.samples == []
    {
      var r := new Channel();
      var g := new Channel();
      var b := new Channel();
      red, green, blue := r, g, b;
      Repr := {this, r, g, b, r.bins, g.bins, b.bins};
    }

    /**
     * Adds one colour, channel by channel; a channel that refuses its value
     * stops the ones after it.
     */
    method AddValues(r: int, g: int, b: int) returns (status: Status)
      requires Valid()
      modifies Repr
      ensures Valid()
      ensures status == if Admit(r).Raised? then Admit(r) else if Admit(g).Raised? then Admit(g) else Admit(b)
      ensures red.samples == old(red.samples) + if Admit(r).Ok? then [r] else []
      ensures green.samples == old(green.samples) + if Admit(r).Ok? && Admit(g).Ok? then [g] else []
      ensures blue.samples == old(blue.samples) + if status.Ok? then [b] else []
    {
      status := red.AddValue(r);
      if status.Raised? {
        return;
      }
      status := green.AddValue(g);
      if status.Raised? {
        return;
      }
      status := blue.AddValue(b);
    }

    /** The product of the three channel frequencies. */
    function GetProbability(r: int, g: int, b: int): (p: real)
      reads this, Repr
      requires Valid() && red.total > 0 && green.total > 0 && blue.total > 0
      requires 0 <= Bin(r) < NUM_BINS && 0 <= Bin(g) < NUM_BINS && 0 <= Bin(b) < NUM_BINS
      ensures p == Frequency(red.samples, r) * Frequency(green.samples, g) * Frequency(blue.samples, b)
    {
      red.GetProbability(r) * green.GetProbability(g) * blue.GetProbability(b)
    }
  }

  /** Refuses a stack of fewer than `MIN_REQUIRED_NUM_IMAGES` images. */
  method Create(images: Stack) returns (r: Result<Histogram>)
    ensures r.Failure? <==> images.count < MIN_REQUIRED_NUM_IMAGES
    ensures r.Failure? ==> r.error == IllegalArgument
    ensures r.Success? ==> fresh(r.value) && fresh(r.value.Repr) && r.value.Valid() && r.value.images == images
  {
    if images.count < MIN_REQUIRED_NUM_IMAGES {
      return Failure(IllegalArgument);
    }
    var h := new Histogram(images);
    return Success(h);
  }

  /** The histograms of every pixel of the stack, stored row-major. */
  class Histogram {
    const images: Stack
    const width: int
    const height: int
    const pixels: array<Pixel?>
    ghost var Repr: set<object>

    ghost predicate Valid()
      reads this, Repr
    {
      && pixels in Repr
      && width == images.width && height == images.height
      && pixels.Length == width * height
      && images.count >= MIN_REQUIRED_NUM_IMAGES
    }

    /** The pixel in slot `i` is built for the point that slot stands for. */
    ghost predicate HoldsAt(i: int)
      reads this, Repr
      requires Valid() && 0 <= i < pixels.Length && width > 0
    {
      var p := pixels[i];
      var pt := PointAt(i, width);
      && p != null && p in Repr && p.Repr <= Repr && pixels !in p.Repr && this !in p.Repr
      && p.Built(images, pt.col, pt.row, images.count)
    }

    /** Pixel (`col`, `row`) is built: its tables describe the stack there. */
    ghost predicate Holds(col: int, row: int)
      reads this, Repr
      requires Valid() && 0 <= col < width && 0 <= row < height
    {
      IndexInRange(Point(col, row), width, height);
      HoldsAt(Point(col, row).OneDimensionalIndex(width))
    }

    ghost predicate Computed()
      reads this, Repr
    {
      && Valid()
      && forall col, row :: 0 <= col < width && 0 <= row < height ==> Holds(col, row)
    }

    constructor (images: Stack)
      requires images.count >= MIN_REQUIRED_NUM_IMAGES
      ensures Valid() && this.images == images && fresh(Repr)
    {
      this.images := images;
      width := images.width;
      height := images.height;
      var a := new Pixel?[images.width * images.height](_ => null);
      pixels := a;
      Repr := {a};
    }

    /** Builds every pixel's tables, column by column. */
    method Compute()
      requires Valid()
      modifies this, pixels
      ensures Computed() && fresh(Repr - old(Repr))
    {
      var col := 0;
      while col < width
        invariant 0 <= col <= width && Valid() && fresh(Repr - old(Repr))
        invariant forall c, r :: 0 <= c < col && 0 <= r < height ==> Holds(c, r)
      {
        ComputeColumn(col);
        col := col + 1;
      }
    }

    /** The inner loop of `Compute`: builds column `col`, row by row. */
    method ComputeColumn(col: int)
      requires Valid() && 0 <= col < width
      modifies this, pixels
      ensures Valid() && fresh(Repr - old(Repr))
      ensures forall r :: 0 <= r < height ==> Holds(col, r)
      ensures forall c, r :: 0 <= c < width && 0 <= r < height && old(Holds(c, r)) ==> Holds(c, r)
    {
      var row := 0;
      while row < height
        invariant 0 <= row <= height && Valid() && fresh(Repr - old(Repr))
        invariant forall r :: 0 <= r < row ==> Holds(col, r)
        invariant forall c, r :: 0 <= c < width && 0 <= r < height && old(Holds(c, r)) ==> Holds(c, r)
      {
        ComputePixel(col, row);
        row := row + 1;
      }
    }

    /** Builds the pixel at (`col`, `row`) and stores it; every other built pixel stays built. */
    method ComputePixel(col: int, row: int)
      requires Valid() && 0 <= col < width && 0 <= row < height
      modifies this, pixels
      ensures Valid() && fresh(Repr - old(Repr)) && Holds(col, row)
      ensures forall c, r :: 0 <= c < width && 0 <= r < height && old(Holds(c, r)) ==> Holds(c, r)
    {
      var p := BuildPixel(col, row);
      IndexInRange(Point(col, row), width, height);
      PointAtIndex(Point(col, row), width);
      label built:
      Store(Point(col, row).OneDimensionalIndex(width), p);
      forall c, r | 0 <= c < width && 0 <= r < height && old(Holds(c, r))
        ensures Holds(c, r)
      {
        IndexInRange(Point(c, r), width, height);
        var k := Point(c, r).OneDimensionalIndex(width);
        assert old(HoldsAt(k));
        assert old@built(HoldsAt(k));
      }
    }

    /** Puts a built pixel in slot `i`. */
    method Store(i: int, p: Pixel)
      requires Valid() && 0 <= i < pixels.Length && width > 0
      requires p.Built(images, PointAt(i, width).col, PointAt(i, width).row, images.count)
      requires p.Repr !! Repr && this !in p.Repr
      modifies this, pixels
      ensures Valid() && Repr == old(Repr) + p.Repr && HoldsAt(i)
      ensures forall k :: 0 <= k < pixels.Length && old(HoldsAt(k)) ==> HoldsAt(k)
    {
      pixels[i] := p;
      Repr := Repr + p.Repr;
    }

    /** The tables of one pixel, from the value that pixel takes in each image. */
    method BuildPixel(col: int, row: int) returns (p: Pixel)
      ensures fresh(p.Repr) && p.Built(images, col, row, images.count)
    {
      p := new Pixel();
      for l := 0 to images.count
        invariant fresh(p.Repr) && p.Built(images, col, row, l)
      {
        var _ := p.AddValues(images.sample(l, row, col, 0), images.sample(l, row, col, 1), images.sample(l, row, col, 2));
      }
    }

    /** The pixel stored at row-major index `row * width + col`: the one `Compute` built for (`col`, `row`). */
    function GetPixel(col: int, row: int): (p: Pixel?)
      reads this, Repr
      requires Valid() && 0 <= col < width && 0 <= row < height
      ensures Computed() ==> p != null && p.Repr <= Repr && p.Built(images, col, row, images.count)
    {
      IndexInRange(Point(col, row), width, height);
      PointAtIndex(Point(col, row), width);
      assert Computed() ==> Holds(col, row);
      pixels[Point(col, row).OneDimensionalIndex(width)]
    }
  }
}
