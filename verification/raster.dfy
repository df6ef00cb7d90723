/** Rasters as grids of pixels, for the two edits whose effect on pixels is
    pure index arithmetic: cropping and the left-right mirror. A grid is a
    sequence of rows; `Shaped(g, s)` says it has `s.h` rows of `s.w` pixels.
    Resampling is not modelled on pixels, only on sizes. */
module Raster {
  import opened Geometry
  import opened Wrappers

  predicate Shaped<T>(g: seq<seq<T>>, s: Size) {
    |g| == s.h && forall i :: 0 <= i < |g| ==> |g[i]| == s.w
  }

  /** The pixel in row `r`, column `c`, or `fill` when that lies outside the
      image: the imaging library pads a crop box that leaves the image. */
  function PixelAt<T>(g: seq<seq<T>>, s: Size, r: int, c: int, fill: T): T
    requires Shaped(g, s)
  {
    if 0 <= r < s.h && 0 <= c < s.w then g[r][c] else fill
  }

  /** `img.crop((x, y, x + w, y + h))`. */
  function CropGrid<T>(g: seq<seq<T>>, s: Size, b: Box, fill: T): (out: seq<seq<T>>)
    requires Shaped(g, s)
    ensures Shaped(out, BoxSize(b))
    ensures forall i, j :: 0 <= i < b.h && 0 <= j < b.w ==>
              out[i][j] == PixelAt(g, s, b.y + i, b.x + j, fill)
  {
    seq(b.h, i requires 0 <= i < b.h => seq(b.w, j requires 0 <= j < b.w => PixelAt(g, s, b.y + i, b.x + j, fill)))
  }

  /** A box inside the image copies pixels and pads nothing. */
  lemma CropInsideCopies<T>(g: seq<seq<T>>, s: Size, b: Box, fill: T, i: int, j: int)
    requires Shaped(g, s)
    requires Inside(b, s)
    requires 0 <= i < b.h && 0 <= j < b.w
    ensures CropGrid(g, s, b, fill)[i][j] == g[b.y + i][b.x + j]
  {
  }

  /** Cropping the whole image gives the image back, which is why the
      helpers may return their input instead of cropping. */
  lemma CropWholeIsIdentity<T>(g: seq<seq<T>>, s: Size, fill: T)
    requires Shaped(g, s)
    ensures CropGrid(g, s, Box(0, 0, s.w, s.h), fill) == g
  {
    var out := CropGrid(g, s, Box(0, 0, s.w, s.h), fill);
    forall i | 0 <= i < s.h
      ensures out[i] == g[i]
    {
      assert forall j :: 0 <= j < s.w ==> out[i][j] == g[i][j];
    }
  }

  /** `img.transpose(Image.FLIP_LEFT_RIGHT)`. */
  function FlipGrid<T>(g: seq<seq<T>>, s: Size): (out: seq<seq<T>>)
    requires Shaped(g, s)
    ensures Shaped(out, s)
    ensures forall i, j :: 0 <= i < s.h && 0 <= j < s.w ==> out[i][j] == g[i][s.w - 1 - j]
  {
    seq(s.h, i requires 0 <= i < s.h => seq(s.w, j requires 0 <= j < s.w => g[i][s.w - 1 - j]))
  }

  /** Mirroring twice restores the image. */
  lemma FlipTwiceIsIdentity<T>(g: seq<seq<T>>, s: Size)
    requires Shaped(g, s)
    ensures FlipGrid(FlipGrid(g, s), s) == g
  {
    var out := FlipGrid(FlipGrid(g, s), s);
    forall i | 0 <= i < s.h
      ensures out[i] == g[i]
    {
      assert forall j :: 0 <= j < s.w ==> out[i][j] == g[i][j];
    }
  }

  /** The pixels an edit produces, when the edit does not resample. */
  function ApplyGrid<T>(e: Edit, g: seq<seq<T>>, s: Size, fill: T): (r: Option<seq<seq<T>>>)
    requires Shaped(g, s)
    ensures r.Some? <==> !e.Resize?
    ensures r.Some? ==> Shaped(r.value, Apply(e, s))
  {
    match e
    case Keep => Some(g)
    case Crop(b) => Some(CropGrid(g, s, b, fill))
    case Mirror => Some(FlipGrid(g, s))
    case Resize(_) => None
  }

  /** An image and its depth map viewed as one grid of (pixel, depth) pairs. */
  function Zip<A, B>(a: seq<seq<A>>, b: seq<seq<B>>, s: Size): (z: seq<seq<(A, B)>>)
    requires Shaped(a, s) && Shaped(b, s)
    ensures Shaped(z, s)
  {
    seq(s.h, i requires 0 <= i < s.h => seq(s.w, j requires 0 <= j < s.w => (a[i][j], b[i][j])))
  }

  /** Applying one edit to an image and, separately, to its depth map is the
      same as applying it to the paired grid: every pixel stays with its depth
      value, so crop and mirror keep the two modalities aligned. */
  lemma EditKeepsPairs<A, B>(e: Edit, a: seq<seq<A>>, b: seq<seq<B>>, s: Size, fa: A, fb: B)
    requires Shaped(a, s) && Shaped(b, s)
    requires !e.Resize?
    ensures ApplyGrid(e, Zip(a, b, s), s, (fa, fb)).value
            == Zip(ApplyGrid(e, a, s, fa).value, ApplyGrid(e, b, s, fb).value, Apply(e, s))
  {
    var t := Apply(e, s);
    var lhs := ApplyGrid(e, Zip(a, b, s), s, (fa, fb)).value;
    var rhs := Zip(ApplyGrid(e, a, s, fa).value, ApplyGrid(e, b, s, fb).value, t);
    forall i | 0 <= i < t.h
      ensures lhs[i] == rhs[i]
    {
      assert forall j :: 0 <= j < t.w ==> lhs[i][j] == rhs[i][j];
    }
  }
}
