/** `get_params`: the crop offset and flip decision drawn once per sample so
    that they can be replayed on several images. */
module Params {
  import opened Wrappers
  import opened Geometry
  import opened Config
  import Ops
  import Rounding
  import Keywords
  import Pipeline

  /** The size the crop will see, as `get_params` predicts it from the exact
      value of `preprocess`: the load size for `resize_and_crop`, the load
      width and the floored proportional height for `scale_width_and_crop`,
      the image's own size otherwise. The floor division by a zero width
      raises. */
  function PreCropSize(opt: Options, s: Size): (r: Result<Size, Error>)
    ensures r.Err? <==> opt.preprocess == "scale_width_and_crop" && s.w == 0
    ensures opt.preprocess == "resize_and_crop" ==> r == Ok(Size(opt.loadSize, opt.loadSize))
    ensures opt.preprocess == "scale_width_and_crop" && r.Ok? ==>
              r.value.w == opt.loadSize && r.value.h * s.w <= opt.loadSize * s.h < (r.value.h + 1) * s.w
    ensures opt.preprocess != "resize_and_crop" && opt.preprocess != "scale_width_and_crop" ==> r == Ok(s)
  {
    if opt.preprocess == "resize_and_crop" then Ok(Size(opt.loadSize, opt.loadSize))
    else if opt.preprocess == "scale_width_and_crop" then
      if s.w == 0 then Err(ZeroDivision)
      else
        var n := opt.loadSize * s.h;
        assert n == (n / s.w) * s.w + n % s.w;
        Ok(Size(opt.loadSize, n / s.w))
    else Ok(s)
  }

  /** The inclusive upper bound of `random.randint(0, max(0, n - crop))`. */
  function OffsetBound(n: nat, crop: nat): nat {
    Max(0, n - crop)
  }

  /** `get_params`: `x` and `y` are the two `randint` draws, `u` the
      `random.random()` draw. The crop offset is kept as drawn; the flip is
      decided by `u > 0.5`. */
  function GetParams(opt: Options, s: Size, x: int, y: int, u: real): (r: Result<ParamRecord, Error>)
    requires 0.0 <= u < 1.0
    requires PreCropSize(opt, s).Ok? ==>
               && 0 <= x <= OffsetBound(PreCropSize(opt, s).value.w, opt.cropSize)
               && 0 <= y <= OffsetBound(PreCropSize(opt, s).value.h, opt.cropSize)
    ensures r.Ok? <==> PreCropSize(opt, s).Ok?
    ensures r.Ok? ==> r.value.cropPos == Some((x, y)) && r.value.flip == Some(u > 0.5)
    ensures r.Ok? ==> r.value.scaleFactor.None? && r.value.patchIndex.None? && r.value.size.None?
    // The offset leaves room for a whole crop on every axis that can hold one,
    // and is zero on an axis that cannot.
    ensures r.Ok? ==>
              var t := PreCropSize(opt, s).value;
              && (t.w >= opt.cropSize ==> x + opt.cropSize <= t.w)
              && (t.h >= opt.cropSize ==> y + opt.cropSize <= t.h)
              && (t.w < opt.cropSize ==> x == 0)
              && (t.h < opt.cropSize ==> y == 0)
  {
    var t :- PreCropSize(opt, s);
    Ok(ParamRecord(Some((x, y)), Some(u > 0.5), None, None, None))
  }
  /** On `resize_and_crop`, away from the gta2cityscapes data, the offset
      drawn here fits the image the plan's resize produces: the crop the
      plan replays is the whole image or lies inside it. */
  lemma ResizeOffsetsFit(opt: Options, x: int, y: int)
    requires opt.preprocess == "resize_and_crop"
    requires !Keywords.Contains(opt.dataroot, "gta2cityscapes")
    requires 0 <= x <= OffsetBound(opt.loadSize, opt.cropSize)
    requires 0 <= y <= OffsetBound(opt.loadSize, opt.cropSize)
    ensures var st := Pipeline.LoadResize(opt);
            var e := Ops.Crop(Size(st.w, st.h), x, y, opt.cropSize);
            e.Keep? || Inside(e.box, Size(st.w, st.h))
  {
  }

  /** On `scale_width_and_crop`, the offset drawn here fits the image the
      width scaling produces, provided the load size reaches the crop size:
      the floored height predicted here never exceeds the scaled height. */
  lemma ScaleWidthOffsetsFit(opt: Options, s: Size, x: int, y: int)
    requires opt.preprocess == "scale_width_and_crop" && s.w > 0
    requires opt.cropSize <= opt.loadSize
    requires 0 <= x <= OffsetBound(PreCropSize(opt, s).value.w, opt.cropSize)
    requires 0 <= y <= OffsetBound(PreCropSize(opt, s).value.h, opt.cropSize)
    ensures Ops.ScaleWidth(s, opt.loadSize, opt.cropSize).Ok?
    ensures var t := Apply(Ops.ScaleWidth(s, opt.loadSize, opt.cropSize).value, s);
            var e := Ops.Crop(t, x, y, opt.cropSize);
            e.Keep? || Inside(e.box, t)
  {
    var r := Ops.ScaleWidth(s, opt.loadSize, opt.cropSize);
    var t := Apply(r.value, s);
    var ph := PreCropSize(opt, s).value.h;
    // Both heights are at most `load * h / w`, the scaled one by less than one.
    if r.value.Keep? {
      assert (t.h + 1) * s.w == t.h * s.w + s.w;
    }
    assert opt.loadSize * s.h < (t.h + 1) * s.w;
    if ph > t.h {
      Rounding.MulMonotone(ph, t.h + 1, s.w);
    }
    assert y + opt.cropSize <= t.h;
  }

  /** `get_params` corrected for the gta2cityscapes data: on
      `resize_and_crop` it predicts the size the plan's resize produces,
      with the height halved, instead of a `load x load` square. */
  function PreCropSizeCorrected(opt: Options, s: Size): (r: Result<Size, Error>)
    ensures opt.preprocess == "resize_and_crop" ==>
              r == Ok(Size(Pipeline.LoadResize(opt).w, Pipeline.LoadResize(opt).h))
    ensures opt.preprocess != "resize_and_crop" ==> r == PreCropSize(opt, s)
  {
    if opt.preprocess == "resize_and_crop" && Pipeline.IsGta(opt) then Ok(Size(opt.loadSize, opt.loadSize / 2))
    else PreCropSize(opt, s)
  }

  /** `get_params` with the corrected size prediction. */
  function GetParamsCorrected(opt: Options, s: Size, x: int, y: int, u: real): (r: Result<ParamRecord, Error>)
    requires 0.0 <= u < 1.0
    requires PreCropSizeCorrected(opt, s).Ok? ==>
               && 0 <= x <= OffsetBound(PreCropSizeCorrected(opt, s).value.w, opt.cropSize)
               && 0 <= y <= OffsetBound(PreCropSizeCorrected(opt, s).value.h, opt.cropSize)
    ensures r.Ok? <==> PreCropSizeCorrected(opt, s).Ok?
    ensures r.Ok? ==> r.value == ParamRecord(Some((x, y)), Some(u > 0.5), None, None, None)
    ensures r.Ok? ==>
              var t := PreCropSizeCorrected(opt, s).value;
              && (t.w >= opt.cropSize ==> x + opt.cropSize <= t.w)
              && (t.h >= opt.cropSize ==> y + opt.cropSize <= t.h)
  {
    var t :- PreCropSizeCorrected(opt, s);
    Ok(ParamRecord(Some((x, y)), Some(u > 0.5), None, None, None))
  }

  /** With the corrected prediction, on `resize_and_crop` and on every
      dataset, the crop replayed at the drawn offset is a no-op or lies inside
      the resized image whenever that image is high enough to hold it. */
  lemma ResizeOffsetsFitCorrected(opt: Options, s: Size, x: int, y: int)
    requires opt.preprocess == "resize_and_crop"
    requires 0 <= x <= OffsetBound(PreCropSizeCorrected(opt, s).value.w, opt.cropSize)
    requires 0 <= y <= OffsetBound(PreCropSizeCorrected(opt, s).value.h, opt.cropSize)
    ensures var st := Pipeline.LoadResize(opt);
            var e := Ops.Crop(Size(st.w, st.h), x, y, opt.cropSize);
            e.Keep? || st.h < opt.cropSize || Inside(e.box, Size(st.w, st.h))
  {
    var st := Pipeline.LoadResize(opt);
    assert PreCropSizeCorrected(opt, s).value == Size(st.w, st.h);
  }
}
