/** The paired image/depth helpers (`__*_dual`). Each reads the size of the
    image only and returns what it returns in `data/base_dataset.py`: a pair of edits,
    one for the image and one for the depth map, or, on the two faulty
    branches, a single image. The corrected helpers return the single-image
    helper's edit for both rasters. */
module DualOps {
  import opened Geometry
  import opened Wrappers
  import Ops
  import Rounding

  /** What a dual helper hands back: `(img, depth)`, or just `img`. */
  datatype Returned = Pair(img: Edit, depth: Edit) | Single(only: Edit)

  /** The same edit for both rasters. */
  function Both(e: Edit): Returned {
    Pair(e, e)
  }

  function BothOr(r: Result<Edit, Error>): Result<Returned, Error> {
    match r
    case Ok(e) => Ok(Both(e))
    case Err(err) => Err(err)
  }

  /** `img, depth = f(...)`: a pair gives both new sizes; a single image
      cannot be unpacked into two names and raises. */
  function Unpack(r: Returned, si: Size, sd: Size): (out: Result<(Size, Size), Error>)
    ensures out.Err? <==> r.Single?
    ensures out.Err? ==> out.error == CannotUnpack
    ensures r.Pair? && r.img == r.depth && si == sd ==> out.Ok? && out.value.0 == out.value.1
  {
    match r
    case Pair(ei, ed) => Ok((Apply(ei, si), Apply(ed, sd)))
    case Single(_) => Err(CannotUnpack)
  }

  /** `__make_power_2_dual`: the depth map is resized to the size computed
      from the image. */
  function MakePower2Dual(si: Size, base: nat): (r: Returned)
    requires base > 0
    ensures r == Both(Ops.MakePower2(si, base))
  {
    var w := Rounding.RoundToMultiple(si.w, base);
    var h := Rounding.RoundToMultiple(si.h, base);
    if h == si.h && w == si.w then Pair(Keep, Keep)
    else Pair(Resize(Size(w, h)), Resize(Size(w, h)))
  }

  /** `__scale_width_dual` as written: the no-op branch returns the image
      alone (line 238), dropping the depth map. */
  function ScaleWidthDualAsWritten(si: Size, target: nat, crop: nat): (r: Result<Returned, Error>)
    ensures r == Ok(Single(Keep)) <==> si.w == target && si.h >= crop
    ensures !(si.w == target && si.h >= crop) ==> r == BothOr(Ops.ScaleWidth(si, target, crop))
  {
    if si.w == target && si.h >= crop then Ok(Single(Keep))
    else if si.w == 0 then Err(ZeroDivision)
    else
      var w, h := target, Max(target * si.h / si.w, crop);
      Ok(Pair(Resize(Size(w, h)), Resize(Size(w, h))))
  }

  /** `__scale_width_dual` corrected: the no-op branch returns both rasters;
      the resize is the one written at lines 239-241. */
  function ScaleWidthDual(si: Size, target: nat, crop: nat): (r: Result<Returned, Error>)
    ensures r.Ok? ==> r.value.Pair? && r.value.img == r.value.depth
    ensures r.Ok? <==> Ops.ScaleWidth(si, target, crop).Ok?
    ensures r.Ok? ==> Ops.ScaleWidth(si, target, crop) == Ok(r.value.img)
  {
    if si.w == target && si.h >= crop then Ok(Pair(Keep, Keep))
    else ScaleWidthDualAsWritten(si, target, crop)
  }

  /** `__scale_shortside_dual` as written: the no-op branch returns the image
      alone (line 190). */
  function ScaleShortsideDualAsWritten(si: Size, target: nat, crop: nat): (r: Result<Returned, Error>)
    ensures r == Ok(Single(Keep)) <==> Min(si.w, si.h) >= target
    ensures Min(si.w, si.h) < target ==> r == BothOr(Ops.ScaleShortside(si, target, crop))
  {
    var short := Min(si.w, si.h);
    if short >= target then Ok(Single(Keep))
    else if short == 0 then Err(ZeroDivision)
    else
      var w, h := Ops.ScaledSide(si.w, short, target), Ops.ScaledSide(si.h, short, target);
      Ok(Pair(Resize(Size(w, h)), Resize(Size(w, h))))
  }

  /** `__scale_shortside_dual` corrected: the no-op branch returns both
      rasters; the resize is the one written at lines 192-193. */
  function ScaleShortsideDual(si: Size, target: nat, crop: nat): (r: Result<Returned, Error>)
    ensures r.Ok? ==> r.value.Pair? && r.value.img == r.value.depth
    ensures r.Ok? <==> Ops.ScaleShortside(si, target, crop).Ok?
    ensures r.Ok? ==> Ops.ScaleShortside(si, target, crop) == Ok(r.value.img)
  {
    if Min(si.w, si.h) >= target then Ok(Pair(Keep, Keep))
    else ScaleShortsideDualAsWritten(si, target, crop)
  }

  /** `__random_zoom_dual`: both rasters get the zoom computed from the image. */
  function RandomZoomDual(si: Size, crop: nat, fx: real, fy: real): (r: Returned)
    ensures r == Both(Ops.RandomZoom(si, crop, fx, fy))
  {
    var zw := Ops.ZoomSide(si.w, crop, fx);
    var zh := Ops.ZoomSide(si.h, crop, fy);
    Pair(Resize(Size(zw, zh)), Resize(Size(zw, zh)))
  }

  /** `__crop_dual`: one box, or no crop, for both. */
  function CropDual(si: Size, x: int, y: int, size: nat): (r: Returned)
    ensures r == Both(Ops.Crop(si, x, y, size))
  {
    if si.w > size || si.h > size then
      Pair(Geometry.Crop(Box(x, y, size, size)), Geometry.Crop(Box(x, y, size, size)))
    else Pair(Keep, Keep)
  }

  /** `__random_crop_dual`: the library draws one square from the image's
      size and both rasters are cut with it. */
  function RandomCropDual(si: Size, size: nat, left: int, top: int): (r: Result<Returned, Error>)
    requires si.w >= size && si.h >= size ==> 0 <= left <= si.w - size && 0 <= top <= si.h - size
    ensures r == BothOr(Ops.RandomCrop(si, size, left, top))
  {
    if si.w < size || si.h < size then Err(CropTooLarge)
    else
      var b := Box(left, top, size, size);
      Ok(Pair(Geometry.Crop(b), Geometry.Crop(b)))
  }

  /** `__patch_dual`: one tile, drawn from the image's grid, for both. */
  function PatchDual(si: Size, index: int, size: nat, startx: int, starty: int): (r: Result<Returned, Error>)
    requires size > 0 ==> 0 <= startx <= Ops.Room(si.w, size) && 0 <= starty <= Ops.Room(si.h, size)
    ensures r == BothOr(Ops.Patch(si, index, size, startx, starty))
  {
    if size == 0 then Err(ZeroDivision)
    else
      var nw := si.w / size;
      var nh := si.h / size;
      Ops.NoTilesIffShort(si.w, size);
      Ops.NoTilesIffShort(si.h, size);
      Rounding.ProductZero(nw, nh);
      if nw * nh == 0 then Err(ZeroDivision)
      else
        var b := Ops.PatchBox(si, index, size, startx, starty);
        Ok(Pair(Geometry.Crop(b), Geometry.Crop(b)))
  }

  /** `__trim_dual`: one window, drawn from the image's size, for both. */
  function TrimDual(si: Size, trim: nat, xstart: int, ystart: int): (r: Returned)
    requires si.w > trim ==> 0 <= xstart < si.w - trim
    requires si.h > trim ==> 0 <= ystart < si.h - trim
    ensures r == Both(Ops.Trim(si, trim, xstart, ystart))
  {
    var (x0, x1) := if si.w > trim then (xstart, xstart + trim) else (0, si.w);
    var (y0, y1) := if si.h > trim then (ystart, ystart + trim) else (0, si.h);
    var b := Box(x0, y0, x1 - x0, y1 - y0);
    Pair(Geometry.Crop(b), Geometry.Crop(b))
  }

  /** `__flip_dual`: with no decision given, one draw (`np.random.rand() < 0.5`,
      passed in as `drawn`) decides for both rasters. */
  function FlipDual(flip: Option<bool>, drawn: bool): (r: Returned)
    ensures r.Pair? && r.img == r.depth
    ensures flip.Some? ==> r == Both(Ops.Flip(flip.value))
    ensures flip.None? ==> r == Both(Ops.Flip(drawn))
  {
    var f := if flip.None? then drawn else flip.value;
    if f then Pair(Mirror, Mirror) else Pair(Keep, Keep)
  }

  /** The faulty no-op branches make the unpacking in the caller raise. */
  lemma ScaleWidthDualAsWrittenCannotUnpack()
    ensures ScaleWidthDualAsWritten(Size(200, 180), 200, 180) == Ok(Single(Keep))
    ensures Unpack(ScaleWidthDualAsWritten(Size(200, 180), 200, 180).value, Size(200, 180), Size(200, 180))
            == Err(CannotUnpack)
    ensures ScaleWidthDual(Size(200, 180), 200, 180) == Ok(Pair(Keep, Keep))
  {
  }

  lemma ScaleShortsideDualAsWrittenCannotUnpack()
    ensures ScaleShortsideDualAsWritten(Size(200, 150), 100, 100) == Ok(Single(Keep))
    ensures Unpack(ScaleShortsideDualAsWritten(Size(200, 150), 100, 100).value, Size(200, 150), Size(200, 150))
            == Err(CannotUnpack)
    ensures ScaleShortsideDual(Size(200, 150), 100, 100) == Ok(Pair(Keep, Keep))
  {
  }
}
