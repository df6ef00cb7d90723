/** Worked examples of the pipeline, and the inputs that expose the two
    single-image returns of the dual helpers. Each keyword test is settled
    by a letter of the keyword that the option string lacks. */
module Scenarios {
  import opened Wrappers
  import opened Geometry
  import opened Config
  import opened Keywords
  import opened Pipeline
  import Ops
  import Rounding
  import DualOps
  import Params

  predicate GeometricKeyword(k: string) {
    k in ["fixsize", "resize", "scale_width", "scale_shortside", "zoom", "crop", "patch", "trim"]
  }

  lemma ResizeLacks(k: string)
    requires GeometricKeyword(k) && k != "resize"
    ensures !Contains("resize", k)
  {
    if k == "fixsize" { MissingCharRulesOut("resize", k, 'f'); }
    else if k == "zoom" { MissingCharRulesOut("resize", k, 'o'); }
    else if k == "patch" { MissingCharRulesOut("resize", k, 'p'); }
    else if k == "trim" { MissingCharRulesOut("resize", k, 't'); }
    else { MissingCharRulesOut("resize", k, 'c'); }
  }

  lemma ScaleWidthLacks(k: string)
    requires GeometricKeyword(k) && k != "scale_width" && k != "scale_shortside"
    ensures !Contains("scale_width", k)
  {
    if k == "fixsize" { MissingCharRulesOut("scale_width", k, 'f'); }
    else if k == "zoom" { MissingCharRulesOut("scale_width", k, 'z'); }
    else if k == "patch" { MissingCharRulesOut("scale_width", k, 'p'); }
    else { MissingCharRulesOut("scale_width", k, 'r'); }
  }

  lemma ScaleShortsideLacks(k: string)
    requires GeometricKeyword(k) && k != "scale_shortside"
    ensures !Contains("scale_shortside", k)
  {
    if k == "fixsize" { MissingCharRulesOut("scale_shortside", k, 'f'); }
    else if k == "resize" || k == "zoom" { MissingCharRulesOut("scale_shortside", k, 'z'); }
    else if k == "scale_width" { MissingCharRulesOut("scale_shortside", k, 'w'); }
    else if k == "trim" { MissingCharRulesOut("scale_shortside", k, 'm'); }
    else { MissingCharRulesOut("scale_shortside", k, 'p'); }
  }

  lemma CropLacks(k: string)
    requires GeometricKeyword(k) && k != "crop"
    ensures !Contains("crop", k)
  {
    if k == "fixsize" { MissingCharRulesOut("crop", k, 'f'); }
    else if k == "resize" { MissingCharRulesOut("crop", k, 'e'); }
    else if k == "zoom" { MissingCharRulesOut("crop", k, 'z'); }
    else if k == "patch" { MissingCharRulesOut("crop", k, 'a'); }
    else if k == "trim" { MissingCharRulesOut("crop", k, 't'); }
    else { MissingCharRulesOut("crop", k, 's'); }
  }

  lemma NoneLacks(k: string)
    requires GeometricKeyword(k)
    ensures !Contains("none", k)
  {
    MissingCharRulesOut("none", k, k[0]);
  }

  lemma NotGta()
    ensures !Contains("x", "gta2cityscapes")
  {
    MissingCharRulesOut("x", "gta2cityscapes", 'g');
  }

  /** The keyword tests for `preprocess="resize"`. */
  lemma ResizeKeywords()
    ensures Contains("resize", "resize")
    ensures !Contains("resize", "fixsize") && !Contains("resize", "zoom") && !Contains("resize", "crop")
    ensures !Contains("resize", "patch") && !Contains("resize", "trim")
  {
    ContainsSelf("resize");
    ResizeLacks("fixsize"); ResizeLacks("zoom"); ResizeLacks("crop"); ResizeLacks("patch"); ResizeLacks("trim");
  }

  /** With `resize` and no crop keyword, the plan holds one resize, to
      `[load, load]` or, on gta2cityscapes, `[load // 2, load]`. */
  lemma ResizePlan(opt: Options)
    requires Contains(opt.preprocess, "resize")
    requires !Contains(opt.preprocess, "zoom") && !Contains(opt.preprocess, "crop")
    requires !Contains(opt.preprocess, "patch") && !Contains(opt.preprocess, "trim")
    ensures ResizeSegment(opt) + CropSegment(opt, None) == [LoadResize(opt)]
  {
    assert ResizeSegment(opt) == [LoadResize(opt)];
  }

  lemma Rounded256x256()
    ensures Rounded(Size(256, 256)) == Size(256, 256)
  {
    Rounding.RoundDivExact(64, 4);
  }

  lemma Rounded256x128()
    ensures Rounded(Size(256, 128)) == Size(256, 128)
  {
    Rounding.RoundDivExact(64, 4);
    Rounding.RoundDivExact(32, 4);
  }

  /** `preprocess="resize"`, `load_size=256`: a 300 x 200 image becomes
      256 x 256, already a multiple of 4. */
  lemma ResizeScenario(opt: Options, d: Draws)
    requires opt == Options("resize", 256, 256, false, "x")
    ensures Transform(opt, None, false, true, Size(300, 200), d)
            == Ok(Size(256, 256))
  {
    ResizeKeywords();
    NotGta();
    ResizePlan(opt);
    assert LoadResize(opt) == ResizeTo(256, 256);
    assert StepEdit(ResizeTo(256, 256), Size(300, 200), d) == Ok(Resize(Size(256, 256)));
    Rounded256x256();
    TransformOneStep(opt, None, false, true, Size(300, 200), d, ResizeTo(256, 256));
  }

  /** On the gta2cityscapes data the first entry of `[load_size, load_size]`
      is halved; the library reads that list as (height, width), so the
      image becomes 256 wide and 128 high, whatever the other options. */
  lemma GtaResizeScenario(opt: Options, d: Draws)
    requires opt.preprocess == "resize" && opt.loadSize == 256
    requires Contains(opt.dataroot, "gta2cityscapes")
    ensures Transform(opt, None, false, false, Size(300, 200), d) == Ok(Size(256, 128))
  {
    ResizeKeywords();
    ResizePlan(opt);
    var st := LoadResize(opt);
    assert st == ResizeTo(128, 256);
    GtaResizeStep(d);
    TransformOneStep(opt, None, false, false, Size(300, 200), d, st);
  }

  /** The halved resize takes a 300 x 200 image to 256 x 128, which the
      rounding keeps. */
  lemma GtaResizeStep(d: Draws)
    ensures StepEdit(ResizeTo(128, 256), Size(300, 200), d) == Ok(Resize(Size(256, 128)))
    ensures Rounded(Apply(Resize(Size(256, 128)), Size(300, 200))) == Size(256, 128)
  {
    Rounded256x128();
  }

  /** The keyword tests for `preprocess="scale_width"`. */
  lemma ScaleWidthKeywords()
    ensures Contains("scale_width", "scale_width")
    ensures !Contains("scale_width", "fixsize") && !Contains("scale_width", "resize")
    ensures !Contains("scale_width", "zoom") && !Contains("scale_width", "crop")
    ensures !Contains("scale_width", "patch") && !Contains("scale_width", "trim")
  {
    ContainsSelf("scale_width");
    ScaleWidthLacks("fixsize"); ScaleWidthLacks("resize"); ScaleWidthLacks("zoom");
    ScaleWidthLacks("crop"); ScaleWidthLacks("patch"); ScaleWidthLacks("trim");
  }

  /** With `scale_width` the only geometric keyword, the plan holds one
      width scaling. */
  lemma ScaleWidthPlan(opt: Options)
    requires Contains(opt.preprocess, "scale_width") && !Contains(opt.preprocess, "resize")
    requires !Contains(opt.preprocess, "zoom") && !Contains(opt.preprocess, "crop")
    requires !Contains(opt.preprocess, "patch") && !Contains(opt.preprocess, "trim")
    ensures ResizeSegment(opt) + CropSegment(opt, None) == [ScaleWidth(opt.loadSize, opt.cropSize)]
  {
    assert ResizeSegment(opt) == [ScaleWidth(opt.loadSize, opt.cropSize)];
  }

  /** `load_size=200`, `crop_size=180`: a 400 x 100 image becomes 200 wide
      and `max(200 * 100 / 400, 180) = 180` high. */
  lemma ScaleWidthResizes(d: Draws)
    ensures StepEdit(ScaleWidth(200, 180), Size(400, 100), d) == Ok(Resize(Size(200, 180)))
  {
  }

  /** A 200 x 180 image already has the load width and the crop height: it
      is kept, and the as-written dual helper hands it back alone. */
  lemma ScaleWidthKeeps(d: Draws)
    ensures StepEdit(ScaleWidth(200, 180), Size(200, 180), d) == Ok(Keep)
    ensures StepDual(ScaleWidth(200, 180), Size(200, 180), d, false) == Ok(DualOps.Single(Keep))
  {
  }

  /** 200 x 180 is already a multiple of 4 on both sides. */
  lemma Rounded200x180()
    ensures Rounded(Size(200, 180)) == Size(200, 180)
  {
    Rounding.RoundDivExact(50, 4);
    Rounding.RoundDivExact(45, 4);
  }

  /** `preprocess="scale_width"`, `load_size=200`, `crop_size=180`: a 400 x 100
      image ends 200 x 180. */
  lemma ScaleWidthScenario(opt: Options, d: Draws)
    requires opt == Options("scale_width", 200, 180, true, "x")
    ensures Transform(opt, None, false, false, Size(400, 100), d) == Ok(Size(200, 180))
  {
    ScaleWidthKeywords();
    ScaleWidthPlan(opt);
    ScaleWidthResizes(d);
    Rounded200x180();
    TransformOneStep(opt, None, false, false, Size(400, 100), d, ScaleWidth(200, 180));
  }

  /** The keyword tests for `preprocess="crop"`. */
  lemma CropKeywords()
    ensures Contains("crop", "crop")
    ensures !Contains("crop", "fixsize") && !Contains("crop", "resize") && !Contains("crop", "scale_width")
    ensures !Contains("crop", "scale_shortside") && !Contains("crop", "zoom")
    ensures !Contains("crop", "patch") && !Contains("crop", "trim")
  {
    ContainsSelf("crop");
    CropLacks("fixsize"); CropLacks("resize"); CropLacks("scale_width"); CropLacks("scale_shortside");
    CropLacks("zoom"); CropLacks("patch"); CropLacks("trim");
  }

  /** With `crop` the only geometric keyword and a `crop_pos` given, the plan
      holds one crop at that position. */
  lemma CropPlan(opt: Options, x: int, y: int)
    requires Contains(opt.preprocess, "crop")
    requires !Contains(opt.preprocess, "resize") && !Contains(opt.preprocess, "scale_width")
    requires !Contains(opt.preprocess, "scale_shortside") && !Contains(opt.preprocess, "zoom")
    requires !Contains(opt.preprocess, "patch") && !Contains(opt.preprocess, "trim")
    ensures var p := Some(ParamRecord(Some((x, y)), None, None, None, None));
            ResizeSegment(opt) + CropSegment(opt, p) == [CropAt(x, y, opt.cropSize)]
  {
    var p := Some(ParamRecord(Some((x, y)), None, None, None, None));
    assert CropSegment(opt, p) == [] + [CropAt(x, y, opt.cropSize)] + [] + [];
  }

  /** `preprocess="crop"`, `crop_size=128`, `crop_pos=(10, 10)`: a 300 x 300
      image is cut to the 128 x 128 square at (10, 10). */
  lemma CropScenario(opt: Options, d: Draws)
    requires opt == Options("crop", 256, 128, true, "x")
    ensures Transform(opt, Some(ParamRecord(Some((10, 10)), None, None, None, None)),
                      false, false, Size(300, 300), d)
            == Ok(Size(128, 128))
  {
    var p := Some(ParamRecord(Some((10, 10)), None, None, None, None));
    CropKeywords();
    CropPlan(opt, 10, 10);
    TransformOneStep(opt, p, false, false, Size(300, 300), d, CropAt(10, 10, 128));
    Rounding.RoundDivExact(32, 4);
  }

  /** `preprocess="none"`: only the rounding changes the size; 101 x 103
      becomes 100 x 104. */
  lemma NoneScenario(opt: Options, d: Draws)
    requires opt == Options("none", 256, 256, false, "x")
    ensures Transform(opt, None, false, true, Size(101, 103), d)
            == Ok(Size(100, 104))
  {
    NoneLacks("fixsize"); NoneLacks("resize"); NoneLacks("scale_width"); NoneLacks("scale_shortside");
    NoneLacks("zoom"); NoneLacks("crop"); NoneLacks("patch"); NoneLacks("trim");
    TransformWithoutKeywords(opt, None, false, true, Size(101, 103), d);
    assert Rounding.RoundDiv(101, 4) == 25;
    assert Rounding.RoundDiv(103, 4) == 26;
  }

  /** Ties go to the even multiple: 6 and 10 both round to 8. */
  lemma RoundingTies()
    ensures Apply(Ops.MakePower2(Size(6, 10), 4), Size(6, 10)) == Size(8, 8)
  {
    assert Rounding.RoundDiv(6, 4) == 2;
    assert Rounding.RoundDiv(10, 4) == 2;
  }

  /** `preprocess="scale_width"` on an image that already has the load width
      and is tall enough: the as-written dual transform raises while
      unpacking the lone image, the corrected one returns both unchanged. */
  lemma ScaleWidthDualFinding(opt: Options, d: Draws)
    requires opt == Options("scale_width", 200, 180, true, "x")
    ensures DualTransformAsWritten(opt, None, false, false,
                                   Size(200, 180), Size(200, 180), d)
            == Err(CannotUnpack)
    ensures DualTransform(opt, None, false, false,
                          Size(200, 180), Size(200, 180), d)
            == Ok((Size(200, 180), Size(200, 180)))
  {
    var s := Size(200, 180);
    ScaleWidthKeywords();
    ScaleWidthPlan(opt);
    ScaleWidthKeeps(d);
    Rounded200x180();
    DualAsWrittenRaisesOnStep(opt, None, false, false, s, s, d, ScaleWidth(200, 180));
    TransformOneStep(opt, None, false, false, s, d, ScaleWidth(200, 180));
  }

  /** The keyword tests for `preprocess="scale_shortside"`. */
  lemma ScaleShortsideKeywords()
    ensures Contains("scale_shortside", "scale_shortside")
    ensures !Contains("scale_shortside", "fixsize") && !Contains("scale_shortside", "resize")
    ensures !Contains("scale_shortside", "scale_width") && !Contains("scale_shortside", "zoom")
    ensures !Contains("scale_shortside", "crop") && !Contains("scale_shortside", "patch")
    ensures !Contains("scale_shortside", "trim")
  {
    ContainsSelf("scale_shortside");
    ScaleShortsideLacks("fixsize"); ScaleShortsideLacks("resize"); ScaleShortsideLacks("scale_width");
    ScaleShortsideLacks("zoom"); ScaleShortsideLacks("crop"); ScaleShortsideLacks("patch");
    ScaleShortsideLacks("trim");
  }

  /** With `scale_shortside` the only geometric keyword, the plan holds one
      short-side scaling. */
  lemma ScaleShortsidePlan(opt: Options)
    requires Contains(opt.preprocess, "scale_shortside")
    requires !Contains(opt.preprocess, "fixsize") && !Contains(opt.preprocess, "resize")
    requires !Contains(opt.preprocess, "scale_width") && !Contains(opt.preprocess, "zoom")
    requires !Contains(opt.preprocess, "crop") && !Contains(opt.preprocess, "patch")
    requires !Contains(opt.preprocess, "trim")
    ensures ResizeSegment(opt) + CropSegment(opt, None) == [ScaleShortside(opt.loadSize, opt.cropSize)]
  {
    assert ResizeSegment(opt) == [ScaleShortside(opt.loadSize, opt.cropSize)];
  }

  /** A 200 x 152 image whose short side already reaches 100 is kept, and
      the as-written dual helper hands it back alone. */
  lemma ScaleShortsideKeeps(d: Draws)
    ensures StepEdit(ScaleShortside(100, 100), Size(200, 152), d) == Ok(Keep)
    ensures StepDual(ScaleShortside(100, 100), Size(200, 152), d, false) == Ok(DualOps.Single(Keep))
  {
  }

  /** 200 x 152 is already a multiple of 4 on both sides. */
  lemma Rounded200x152()
    ensures Rounded(Size(200, 152)) == Size(200, 152)
  {
    Rounding.RoundDivExact(50, 4);
    Rounding.RoundDivExact(38, 4);
  }

  /** `preprocess="scale_shortside"` on an image whose short side already
      reaches the load size: the same failure. */
  lemma ScaleShortsideDualFinding(opt: Options, d: Draws)
    requires opt == Options("scale_shortside", 100, 100, true, "x")
    ensures DualTransformAsWritten(opt, None, false, false,
                                   Size(200, 152), Size(200, 152), d)
            == Err(CannotUnpack)
    ensures DualTransform(opt, None, false, false,
                          Size(200, 152), Size(200, 152), d)
            == Ok((Size(200, 152), Size(200, 152)))
  {
    var s := Size(200, 152);
    ScaleShortsideKeywords();
    ScaleShortsidePlan(opt);
    ScaleShortsideKeeps(d);
    Rounded200x152();
    DualAsWrittenRaisesOnStep(opt, None, false, false, s, s, d, ScaleShortside(100, 100));
    TransformOneStep(opt, None, false, false, s, d, ScaleShortside(100, 100));
  }
  /** `get_params` predicts a `load_size` x `load_size` image for
      `resize_and_crop` even on the gta2cityscapes data, where the resize
      halves the height: it may draw `y = 128` for a 256 x 128 image and a
      128 crop, and the replayed crop then hangs entirely below the image. */
  lemma GetParamsGtaOverrun(opt: Options)
    requires opt == Options("resize_and_crop", 256, 128, false, "gta2cityscapes")
    ensures Params.GetParams(opt, Size(300, 200), 0, 128, 0.0)
            == Ok(ParamRecord(Some((0, 128)), Some(false), None, None, None))
    ensures LoadResize(opt) == ResizeTo(128, 256)
    ensures Ops.Crop(Size(256, 128), 0, 128, 128) == Crop(Box(0, 128, 128, 128))
    ensures !Inside(Box(0, 128, 128, 128), Size(256, 128))
    // The corrected prediction leaves only `y = 0`.
    ensures Params.PreCropSizeCorrected(opt, Size(300, 200)) == Ok(Size(256, 128))
    ensures Params.OffsetBound(128, 128) == 0
  {
    ContainsSelf(opt.dataroot);
  }
}
