/** Image sizes, crop boxes and the geometric edits the preprocessing
    helpers hand to the imaging library. A helper either returns its input
    untouched (`Keep`), resamples it to a new size (`Resize`), cuts a box out
    of it (`Crop`) or mirrors it left to right (`Mirror`). */
module Geometry {

  /** PIL's `img.size`: width first, then height. */
  datatype Size = Size(w: nat, h: nat)

  /** The crop box `(x, y, x + w, y + h)` handed to `img.crop`. The origin may
      lie outside the image; the imaging library pads what falls outside. */
  datatype Box = Box(x: int, y: int, w: nat, h: nat)

  datatype Edit = Keep | Resize(to: Size) | Crop(box: Box) | Mirror

  /** Why an operation raises instead of returning an image. */
  datatype Error =
    | ZeroDivision          // `//`, `%` or `/` by zero
    | MissingParam(key: string)  // `params[key]` on `None` or on a record without that key
    | CropTooLarge          // the library's random crop on an image smaller than the crop
    | CannotUnpack          // `img, depth = f(...)` where `f` returned one image

  function BoxSize(b: Box): Size {
    Size(b.w, b.h)
  }

  /** The size of the image an edit produces from an image of size `s`. */
  function Apply(e: Edit, s: Size): Size {
    match e
    case Keep => s
    case Resize(to) => to
    case Crop(b) => BoxSize(b)
    case Mirror => s
  }

  /** The box lies entirely within an image of size `s`: no padding. */
  predicate Inside(b: Box, s: Size) {
    0 <= b.x && b.x + b.w <= s.w && 0 <= b.y && b.y + b.h <= s.h
  }

  function Max(a: int, b: int): int {
    if a >= b then a else b
  }

  function Min(a: int, b: int): int {
    if a <= b then a else b
  }
}
