/**
 * Grid coordinates: a (col, row) pair, the component-wise comparisons used to
 * test membership in the image grid, and the row-major linear index.
 *
 * `Point` is the value the comparisons and the index are computed on;
 * `Coordinate` is the mutable cursor whose column and row are stepped in place.
 */
module Coordinates {

  datatype Point = Point(col: int, row: int) {

    /** Component-wise `>=`: both the column and the row are at least the other's. */
    predicate GreaterThanOrEqualTo(other: Point)
    {
      col >= other.col && row >= other.row
    }

    /** Component-wise strict `<`: both the column and the row are below the other's. */
    predicate SmallerThan(other: Point)
    {
      col < other.col && row < other.row
    }

    /** Row-major linear index of this point in a grid `width` columns wide. */
    function OneDimensionalIndex(width: int): int
    {
      row * width + col
    }

    /** The grid test used throughout: `(0,0) <= p < (width,height)`. */
    predicate InGrid(width: int, height: int)
    {
      GreaterThanOrEqualTo(Point(0, 0)) && SmallerThan(Point(width, height))
    }
  }

  /** `>=` on points is a partial order: reflexive, antisymmetric and transitive. */
  lemma GreaterThanOrEqualToIsPartialOrder(p: Point, q: Point, s: Point)
    ensures p.GreaterThanOrEqualTo(p)
    ensures p.GreaterThanOrEqualTo(q) && q.GreaterThanOrEqualTo(p) ==> p == q
    ensures p.GreaterThanOrEqualTo(q) && q.GreaterThanOrEqualTo(s) ==> p.GreaterThanOrEqualTo(s)
  {
  }

  /** `SmallerThan` is irreflexive and excludes `>=` in the reverse direction on both axes. */
  lemma SmallerThanIsStrict(p: Point, q: Point)
    ensures !p.SmallerThan(p)
    ensures p.SmallerThan(q) ==> !p.GreaterThanOrEqualTo(q) && !q.SmallerThan(p)
  {
  }

  /** The grid test is exactly `0 <= col < width` and `0 <= row < height`. */
  lemma InGridIff(p: Point, width: int, height: int)
    ensures p.InGrid(width, height) <==> 0 <= p.col < width && 0 <= p.row < height
  {
  }

  /** An in-grid point's linear index lies in `[0, width * height)`. */
  lemma IndexInRange(p: Point, width: int, height: int)
    requires p.InGrid(width, height)
    ensures 0 <= p.OneDimensionalIndex(width) < width * height
  {
    var i := p.OneDimensionalIndex(width);
    assert 0 <= p.row * width by {
      MulNonNegative(p.row, width);
    }
    assert p.row * width + width == (p.row + 1) * width;
    assert (p.row + 1) * width <= height * width by {
      MulMonotone(p.row + 1, height, width);
    }
  }

  /** Distinct in-grid points have distinct linear indices. */
  lemma IndexInjective(p: Point, q: Point, width: int, height: int)
    requires p.InGrid(width, height) && q.InGrid(width, height)
    requires p.OneDimensionalIndex(width) == q.OneDimensionalIndex(width)
    ensures p == q
  {
    if p.row < q.row {
      RowsApart(p, q, width);
    } else if q.row < p.row {
      RowsApart(q, p, width);
    }
  }

  /** The point at a linear index: the inverse of `OneDimensionalIndex` on the grid. */
  function PointAt(index: int, width: int): (p: Point)
    requires 0 <= index && 0 < width
    ensures p.OneDimensionalIndex(width) == index
    ensures 0 <= p.col < width && 0 <= p.row
  {
    Point(index % width, index / width)
  }

  /** `PointAt` recovers every point of a row of width `width` from its index. */
  lemma PointAtIndex(p: Point, width: int)
    requires 0 <= p.col < width && 0 <= p.row
    ensures PointAt(p.OneDimensionalIndex(width), width) == p
  {
    MulNonNegative(p.row, width);
    var q := PointAt(p.OneDimensionalIndex(width), width);
    if q.row < p.row {
      RowsApart(q, p, width);
    } else if p.row < q.row {
      RowsApart(p, q, width);
    }
  }

  lemma PointAtInGrid(index: int, width: int, height: int)
    requires 0 <= index < width * height && 0 < width
    ensures PointAt(index, width).InGrid(width, height)
  {
    var p := PointAt(index, width);
    if p.row >= height {
      MulMonotone(height, p.row, width);
      assert false;
    }
  }

  lemma RowsApart(p: Point, q: Point, width: int)
    requires 0 <= p.col < width && 0 <= q.col < width && p.row < q.row
    ensures p.OneDimensionalIndex(width) < q.OneDimensionalIndex(width)
  {
    MulMonotone(p.row + 1, q.row, width);
    assert (p.row + 1) * width == p.row * width + width;
  }

  lemma MulNonNegative(x: int, y: int)
    requires 0 <= x && 0 <= y
    ensures 0 <= x * y
  {
  }

  lemma MulMonotone(x: int, y: int, w: int)
    requires x <= y && 0 <= w
    ensures x * w <= y * w
  {
    assert y * w - x * w == (y - x) * w;
    MulNonNegative(y - x, w);
  }

  /**
   * The program's mutable cursor: its column and row are stepped in place
   * by the grid loops.
   */
  class Coordinate {
    var col: int
    var row: int

    constructor (col: int, row: int)
      ensures this.col == col && this.row == row
    {
      this.col := col;
      this.row := row;
    }

    /** The current value of the cursor. */
    function Value(): Point
      reads this
    {
      Point(col, row)
    }

    method IncrementColumn()
      modifies this
      ensures col == old(col) + 1 && row == old(row)
    {
      col := col + 1;
    }

    method IncrementRow()
      modifies this
      ensures row == old(row) + 1 && col == old(col)
    {
      row := row + 1;
    }
  }
}
