/** The single-image geometric helpers of the preprocessing pipeline, on
    sizes. Each returns the edit it makes (`Keep` when it hands back its
    input), or the error `data/base_dataset.py` raises. The value a helper draws at
    random is a parameter constrained to the range it is drawn from. */
module Ops {
  import opened Geometry
  import opened Wrappers
  import opened Rounding
  import opened Raster

  /** `__make_power_2`: round both sides to the nearest multiple of `base`,
      ties to the even multiple, and leave an image that is already aligned
      alone. */
  function MakePower2(s: Size, base: nat): (e: Edit)
    requires base > 0
    ensures e.Keep? <==> s.w % base == 0 && s.h % base == 0
    ensures e.Keep? || e.Resize?
    ensures NearestMultiple(s.w, base, Apply(e, s).w)
    ensures NearestMultiple(s.h, base, Apply(e, s).h)
  {
    var w := RoundToMultiple(s.w, base);
    var h := RoundToMultiple(s.h, base);
    RoundToMultipleFixes(s.w, base);
    RoundToMultipleFixes(s.h, base);
    if h == s.h && w == s.w then Keep else Resize(Size(w, h))
  }

  /** Rounding an already rounded image changes nothing. */
  lemma MakePower2Idempotent(s: Size, base: nat)
    requires base > 0
    ensures MakePower2(Apply(MakePower2(s, base), s), base) == Keep
  {
  }

  /** `__scale_width`: the width becomes `target`, the height follows the
      aspect ratio (`target * oh / ow`, truncated) but never drops below
      `crop`. An image that already has the target width and is tall enough
      is returned as is; a zero-width image that is not raises. */
  function ScaleWidth(s: Size, target: nat, crop: nat): (r: Result<Edit, Error>)
    ensures r == Ok(Keep) <==> s.w == target && s.h >= crop
    ensures r.Err? <==> s.w == 0 && !(target == 0 && s.h >= crop)
    ensures r.Ok? ==> Apply(r.value, s).w == target && Apply(r.value, s).h >= crop
    ensures r.Ok? && !r.value.Keep? ==> r.value.Resize?
    ensures r.Ok? && !r.value.Keep? ==>
              var h := Apply(r.value, s).h;
              && target * s.h < (h + 1) * s.w
              && (h == crop || h * s.w <= target * s.h)
  {
    if s.w == target && s.h >= crop then Ok(Keep)
    else if s.w == 0 then Err(ZeroDivision)
    else
      var q := target * s.h / s.w;
      Rounding.FloorDivBounds(target * s.h, s.w);
      Rounding.MulMonotone(Max(q, crop) + 1, q + 1, s.w);
      Ok(Resize(Size(target, Max(q, crop))))
  }

  /** Scaling the width of an image already scaled to that width is a no-op. */
  lemma ScaleWidthIdempotent(s: Size, target: nat, crop: nat)
    requires ScaleWidth(s, target, crop).Ok?
    ensures ScaleWidth(Apply(ScaleWidth(s, target, crop).value, s), target, crop) == Ok(Keep)
  {
  }

  /** `__scale_shortside`: an image whose shorter side reaches `target` is
      returned as is; otherwise both sides are multiplied by
      `target / shortside` and rounded. A zero short side raises. */
  function ScaleShortside(s: Size, target: nat, crop: nat): (r: Result<Edit, Error>)
    ensures r == Ok(Keep) <==> Min(s.w, s.h) >= target
    ensures r.Err? <==> Min(s.w, s.h) == 0 && target > 0
    ensures r.Ok? && !r.value.Keep? ==>
              r.value.Resize? && Min(r.value.to.w, r.value.to.h) == target
    ensures r.Ok? && !r.value.Keep? ==>
              && IsHalfEvenRounding(s.w * target, Min(s.w, s.h), r.value.to.w)
              && IsHalfEvenRounding(s.h * target, Min(s.w, s.h), r.value.to.h)
  {
    var short := Min(s.w, s.h);
    if short >= target then Ok(Keep)
    else if short == 0 then Err(ZeroDivision)
    else
      ScaledSideAtLeast(s.w, short, target);
      ScaledSideAtLeast(s.h, short, target);
      Ok(Resize(Size(ScaledSide(s.w, short, target), ScaledSide(s.h, short, target))))
  }

  /** `round(n * (target / short))`: one side scaled by the factor that maps
      the short side onto `target`. */
  function ScaledSide(n: nat, short: nat, target: nat): (m: nat)
    requires 0 < short <= n
    ensures IsHalfEvenRounding(n * target, short, m)
    ensures m >= target
    ensures n == short ==> m == target
  {
    ScaledSideAtLeast(n, short, target);
    RoundDiv(n * target, short)
  }

  /** The short side lands exactly on `target`; a longer side at or above it. */
  lemma ScaledSideAtLeast(n: nat, short: nat, target: nat)
    requires 0 < short <= n
    ensures RoundDiv(n * target, short) >= target
    ensures n == short ==> RoundDiv(n * target, short) == target
  {
    MulMonotone(n, short, target);
    RoundDivAtLeast(n * target, short, target);
    if n == short {
      RoundDivExact(target, short);
    }
  }

  /** `__random_zoom`: each side is multiplied by its zoom factor, kept at
      least `crop`, and rounded. */
  function RandomZoom(s: Size, crop: nat, fx: real, fy: real): (e: Edit)
    ensures e.Resize? && e.to.w >= crop && e.to.h >= crop
    ensures fx <= 1.0 ==> e.to.w <= Max(crop, s.w)
    ensures fy <= 1.0 ==> e.to.h <= Max(crop, s.h)
  {
    Resize(Size(ZoomSide(s.w, crop, fx), ZoomSide(s.h, crop, fy)))
  }

  /** `int(round(max(crop, n * f)))`. */
  function ZoomSide(n: nat, crop: nat, f: real): (v: nat)
    ensures v >= crop
    ensures f <= 1.0 ==> v <= Max(crop, n)
  {
    var z := MaxReal(crop as real, Scaled(n, f));
    RoundRealAtLeast(z, crop);
    RoundRealAtMost(z, Max(crop, n));
    RoundReal(z)
  }

  /** Python's `max` on two numbers: the first wins a tie. */
  function MaxReal(a: real, b: real): (m: real)
    ensures m >= a && m >= b && (m == a || m == b)
  {
    if a >= b then a else b
  }

  /** `n * f`: a side scaled by a zoom factor, never longer when `f <= 1`. */
  function Scaled(n: nat, f: real): (p: real)
    ensures f <= 1.0 ==> p <= n as real
  {
    assert n as real * f == n as real - n as real * (1.0 - f);
    n as real * f
  }

  /** `__crop`: cut the `size x size` box at `(x, y)` unless the image fits in
      that square on both axes. The box is not clipped to the image. */
  function Crop(s: Size, x: int, y: int, size: nat): (e: Edit)
    ensures e.Keep? <==> s.w <= size && s.h <= size
    ensures !e.Keep? ==> e.Crop? && e.box.x == x && e.box.y == y
    ensures !e.Keep? ==> Apply(e, s) == Size(size, size)
  {
    if s.w > size || s.h > size then Geometry.Crop(Box(x, y, size, size)) else Keep
  }

  /** A crop offset in range yields a box inside the image. */
  lemma CropInRangeIsInside(s: Size, x: int, y: int, size: nat)
    requires 0 <= x <= s.w - size && 0 <= y <= s.h - size
    requires Crop(s, x, y, size).Crop?
    ensures Inside(Crop(s, x, y, size).box, s)
  {
  }

  /** Cropping the cropped image again at the same offset changes nothing. */
  lemma CropIdempotent(s: Size, x: int, y: int, size: nat)
    ensures Crop(Apply(Crop(s, x, y, size), s), x, y, size) == Keep
  {
  }

  /** The library's random square crop (`RandomCrop(size)` without padding):
      an image smaller than the square raises; otherwise the square at the
      drawn offset, which always lies inside the image. */
  function RandomCrop(s: Size, size: nat, left: int, top: int): (r: Result<Edit, Error>)
    requires s.w >= size && s.h >= size ==> 0 <= left <= s.w - size && 0 <= top <= s.h - size
    ensures r.Err? <==> s.w < size || s.h < size
    ensures r.Ok? ==> r.value.Crop? && Inside(r.value.box, s)
    ensures r.Ok? ==> r.value.box == Box(left, top, size, size)
    ensures r.Ok? ==> Apply(r.value, s) == Size(size, size)
  {
    if s.w < size || s.h < size then Err(CropTooLarge)
    else Ok(Geometry.Crop(Box(left, top, size, size)))
  }

  /** Column-major numbering of an `nw x nh` grid of tiles: tile `index`
      (taken modulo the tile count) sits in column `index / nh`, row
      `index % nh`, and the column and row give the reduced index back. */
  function TileOf(index: int, nw: nat, nh: nat): (t: (nat, nat))
    requires nw > 0 && nh > 0
    ensures t.0 < nw && t.1 < nh
    ensures t.0 * nh + t.1 == index % (nw * nh)
  {
    var i := index % (nw * nh);
    assert i == (i / nh) * nh + i % nh;
    TileColumnBound(i, nw, nh);
    (i / nh, i % nh)
  }

  lemma TileColumnBound(i: nat, nw: nat, nh: nat)
    requires nh > 0
    requires i < nw * nh
    ensures i / nh < nw
  {
  }

  /** Distinct indices below the tile count pick distinct tiles, and indices
      a whole tile count apart pick the same tile. */
  lemma TileOfNumbering(i: int, j: int, nw: nat, nh: nat)
    requires nw > 0 && nh > 0
    ensures 0 <= i < nw * nh && 0 <= j < nw * nh && i != j ==> TileOf(i, nw, nh) != TileOf(j, nw, nh)
    ensures TileOf(i + nw * nh, nw, nh) == TileOf(i, nw, nh)
  {
    var n := nw * nh;
    ProductZero(nw, nh);
    assert i == (i / n) * n + i % n;
    assert i + n == (i / n + 1) * n + i % n;
    DivModUnique(i + n, n, i / n + 1, i % n);
    if 0 <= i < n && 0 <= j < n {
      DivModUnique(i, n, 0, i);
      DivModUnique(j, n, 0, j);
    }
  }

  /** The room a grid of `size`-sided tiles leaves along an axis of length `n`. */
  function Room(n: nat, size: nat): (room: nat)
    requires size > 0
    ensures room < size
    ensures room <= n && (n - room) % size == 0
  {
    var q := n / size;
    assert n == q * size + n % size;
    DivModUnique(q * size, size, q, 0);
    n - q * size
  }

  /** `__patch`: tile the image with `size x size` squares shifted by the drawn
      margin `(startx, starty)` and cut out tile `index`, counted column-major
      modulo the tile count. A zero `size`, or an image narrower or lower than
      one tile (no tiles at all), raises on the division. */
  function Patch(s: Size, index: int, size: nat, startx: int, starty: int): (r: Result<Edit, Error>)
    requires size > 0 ==> 0 <= startx <= Room(s.w, size) && 0 <= starty <= Room(s.h, size)
    ensures r.Err? <==> size == 0 || s.w < size || s.h < size
    ensures r.Ok? ==> r.value.Crop? && Inside(r.value.box, s)
    ensures r.Ok? ==> Apply(r.value, s) == Size(size, size)
    ensures r.Ok? ==>
              var t := TileOf(index, s.w / size, s.h / size);
              r.value.box.x == startx + t.0 * size && r.value.box.y == starty + t.1 * size
  {
    if size == 0 then Err(ZeroDivision)
    else
      var nw := s.w / size;
      var nh := s.h / size;
      NoTilesIffShort(s.w, size);
      NoTilesIffShort(s.h, size);
      ProductZero(nw, nh);
      if nw * nh == 0 then Err(ZeroDivision)
      else Ok(Geometry.Crop(PatchBox(s, index, size, startx, starty)))
  }

  /** An axis holds no whole tile exactly when it is shorter than one. */
  lemma NoTilesIffShort(n: nat, size: nat)
    requires size > 0
    ensures n / size == 0 <==> n < size
  {
    assert n == (n / size) * size + n % size;
    MulAwayFromZero(n / size, size);
  }

  /** The square of tile `index` of the grid shifted by `(startx, starty)`. */
  function PatchBox(s: Size, index: int, size: nat, startx: int, starty: int): (b: Box)
    requires size > 0 && s.w >= size && s.h >= size
    requires 0 <= startx <= Room(s.w, size) && 0 <= starty <= Room(s.h, size)
    ensures Inside(b, s) && BoxSize(b) == Size(size, size)
    ensures var t := TileOf(index, s.w / size, s.h / size);
            b.x == startx + t.0 * size && b.y == starty + t.1 * size
  {
    NoTilesIffShort(s.w, size);
    NoTilesIffShort(s.h, size);
    var t := TileOf(index, s.w / size, s.h / size);
    TileInside(s.w, size, startx, t.0);
    TileInside(s.h, size, starty, t.1);
    var x, y := startx + t.0 * size, starty + t.1 * size;
    assert 0 <= t.0 * size && 0 <= t.1 * size;
    assert 0 <= x && x + size <= s.w && 0 <= y && y + size <= s.h;
    Box(x, y, size, size)
  }

  /** A tile of a column below `n / size`, shifted by at most the room, ends
      inside an axis of length `n`. */
  lemma TileInside(n: nat, size: nat, start: int, col: nat)
    requires size > 0
    requires 0 <= start <= Room(n, size)
    requires col < n / size
    ensures start + col * size + size <= n
  {
    MulAwayFromZero(n / size - col, size);
    assert (n / size) * size == (n / size - col) * size + col * size;
  }

  /** `__trim`: on each axis longer than `trim`, keep a `trim`-long window
      starting at the drawn offset; on a shorter axis keep everything. The
      drawn offset excludes `n - trim` (an exclusive bound), so a trimmed axis
      never keeps its last pixel. */
  function Trim(s: Size, trim: nat, xstart: int, ystart: int): (e: Edit)
    requires s.w > trim ==> 0 <= xstart < s.w - trim
    requires s.h > trim ==> 0 <= ystart < s.h - trim
    ensures e.Crop? && Inside(e.box, s)
    ensures Apply(e, s) == Size(Min(s.w, trim), Min(s.h, trim))
    ensures s.w <= trim ==> e.box.x == 0
    ensures s.h <= trim ==> e.box.y == 0
    ensures s.w > trim ==> e.box.x == xstart && e.box.x + e.box.w < s.w
    ensures s.h > trim ==> e.box.y == ystart && e.box.y + e.box.h < s.h
  {
    var (x0, x1) := if s.w > trim then (xstart, xstart + trim) else (0, s.w);
    var (y0, y1) := if s.h > trim then (ystart, ystart + trim) else (0, s.h);
    Geometry.Crop(Box(x0, y0, x1 - x0, y1 - y0))
  }

  /** Trimming a trimmed image again keeps all of it. */
  lemma TrimIdempotent(s: Size, trim: nat, xstart: int, ystart: int, x2: int, y2: int)
    requires s.w > trim ==> 0 <= xstart < s.w - trim
    requires s.h > trim ==> 0 <= ystart < s.h - trim
    ensures Trim(Apply(Trim(s, trim, xstart, ystart), s), trim, x2, y2)
            == Geometry.Crop(Box(0, 0, Min(s.w, trim), Min(s.h, trim)))
  {
  }

  /** `__flip`: mirror left to right when asked to. */
  function Flip(flip: bool): (e: Edit)
    ensures flip <==> e == Mirror
    ensures !flip ==> e == Keep
  {
    if flip then Mirror else Keep
  }

  /** Flipping keeps the size, does nothing when not asked, and undoes
      itself when applied twice. */
  lemma FlipProperties<T>(flip: bool, g: seq<seq<T>>, s: Size, fill: T)
    requires Shaped(g, s)
    ensures Apply(Flip(flip), s) == s
    ensures !flip ==> ApplyGrid(Flip(flip), g, s, fill) == Some(g)
    ensures ApplyGrid(Flip(flip), ApplyGrid(Flip(flip), g, s, fill).value, s, fill) == Some(g)
  {
    if flip {
      FlipTwiceIsIdentity(g, s);
    }
  }
}
