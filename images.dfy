/**
 * The input of the optimiser: a stack of same-sized colour images, one per
 * label, and the exceptions the optimiser raises.
 */
module Images {

  /** One 8-bit colour channel value, as the images deliver it. */
  type Intensity = x: int | 0 <= x <= 255

  /** A non-negative real, the range of the square root. */
  type NonNegReal = x: real | x >= 0.0

  /**
   * The image stack. `sample(label, row, col, channel)` is channel `channel`
   * of pixel (`col`, `row`) of the image with that label; all images share
   * `width` and `height`, which are those of the first image.
   */
  datatype Stack = Stack(count: nat, width: nat, height: nat, sample: (nat, int, int, nat) -> Intensity)

  /** The exceptions the optimiser throws. */
  datatype Exception = IllegalArgument | IllegalState | IndexOutOfBounds

  /** A value, or the exception that was thrown instead. */
  datatype Result<T> = Success(value: T) | Failure(error: Exception)

  /** The outcome of an operation that returns nothing. */
  datatype Status = Ok | Raised(error: Exception)
}
