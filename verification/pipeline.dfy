/** `get_transform` and `dual_transform`: the options decide, keyword by
    keyword, which steps run and in what order; the steps then run one after
    the other on an image, or on an image and its depth map in lock-step.
    Both functions test the same keywords in the same order, so one plan
    serves both; the dual run uses the `__*_dual` helpers. */
module Pipeline {
  import opened Wrappers
  import opened Geometry
  import opened Config
  import opened Keywords
  import opened Sampling
  import opened DualOps
  import Ops
  import Rounding

  /** `base=4` at both call sites of the rounding helper. */
  const PowerBase: nat := 4

  /** Where a zoom step gets its factors: drawn now (`params is None`), from
      `params["scale_factor"]`, or from a record that lacks that key. */
  datatype ZoomFactor = Sampled | Given(fx: real, fy: real) | Missing

  datatype Step =
    | Grayscale                          // `Grayscale(1)`
    | Fixsize(h: nat, w: nat)            // `Resize(params["size"])`
    | ResizeTo(h: nat, w: nat)           // `Resize(osize)`
    | ScaleWidth(target: nat, crop: nat)
    | ScaleShortside(target: nat, crop: nat)
    | Zoom(factor: ZoomFactor, crop: nat)
    | RandomCrop(size: nat)              // `RandomCrop(crop_size)`
    | CropAt(x: int, y: int, size: nat)  // `__crop` at `params["crop_pos"]`
    | Patch(index: Option<int>, size: nat)
    | Trim(size: nat)
    | MakePower2
    | RandomFlip                         // `RandomHorizontalFlip()`
    | FlipIf(flip: bool)                 // `__flip` with `params["flip"]`
    | ToTensor
    | Normalize(channels: nat)

  /** The steps that may precede the rounding. */
  predicate Geometric(st: Step) {
    !(st.MakePower2? || Finishing(st))
  }

  /** The steps that follow the rounding: flips and tensor conversion. */
  predicate Finishing(st: Step) {
    st.RandomFlip? || st.FlipIf? || st.ToTensor? || st.Normalize?
  }

  /** The plan rounds exactly once, after every geometric step and before
      every flip and conversion. */
  ghost predicate RoundsOnceInOrder(steps: seq<Step>) {
    exists k ::
      && 0 <= k < |steps|
      && steps[k] == MakePower2
      && (forall j :: 0 <= j < k ==> Geometric(steps[j]))
      && (forall j :: k < j < |steps| ==> Finishing(steps[j]))
  }

  predicate IsGta(opt: Options) {
    Contains(opt.dataroot, "gta2cityscapes")
  }

  /** The resize target `[load_size, load_size]`, with the first entry (the
      height, for the library's `Resize`) halved on the gta2cityscapes data. */
  function LoadResize(opt: Options): (r: Step)
    ensures r.ResizeTo? && r.w == opt.loadSize
    ensures IsGta(opt) ==> 2 * r.h <= r.w < 2 * r.h + 2
    ensures !IsGta(opt) ==> r.h == r.w
  {
    ResizeTo(if IsGta(opt) then opt.loadSize / 2 else opt.loadSize, opt.loadSize)
  }

  /** `fixsize`: resize to `params["size"]`; the lookup raises without it. */
  function FixSegment(opt: Options, params: Option<ParamRecord>): (r: Result<seq<Step>, Error>)
    ensures !Contains(opt.preprocess, "fixsize") ==> r == Ok([])
    ensures r.Err? <==> Contains(opt.preprocess, "fixsize") && (params.None? || params.value.size.None?)
    ensures r.Ok? && Contains(opt.preprocess, "fixsize") ==>
              && params.Some? && params.value.size.Some?
              && r.value == [Fixsize(params.value.size.value.0, params.value.size.value.1)]
    ensures r.Ok? ==> forall st :: st in r.value ==> st.Fixsize?
  {
    if !Contains(opt.preprocess, "fixsize") then Ok([])
    else if params.None? || params.value.size.None? then Err(MissingParam("size"))
    else Ok([Fixsize(params.value.size.value.0, params.value.size.value.1)])
  }

  /** The `if`/`elif` chain of `resize`, `scale_width`, `scale_shortside`. */
  function ResizeSegment(opt: Options): (r: seq<Step>)
    ensures Contains(opt.preprocess, "resize") ==> r == [LoadResize(opt)]
    ensures !Contains(opt.preprocess, "resize") && Contains(opt.preprocess, "scale_width") ==>
              r == [ScaleWidth(opt.loadSize, opt.cropSize)]
    ensures !Contains(opt.preprocess, "resize") && !Contains(opt.preprocess, "scale_width") ==>
              r == (if Contains(opt.preprocess, "scale_shortside")
                    then [ScaleShortside(opt.loadSize, opt.cropSize)] else [])
    ensures forall st :: st in r ==> st.ResizeTo? || st.ScaleWidth? || st.ScaleShortside?
  {
    var pre := opt.preprocess;
    if Contains(pre, "resize") then [LoadResize(opt)]
    else if Contains(pre, "scale_width") then [ScaleWidth(opt.loadSize, opt.cropSize)]
    else if Contains(pre, "scale_shortside") then [ScaleShortside(opt.loadSize, opt.cropSize)]
    else []
  }

  /** The steps the `zoom`, `crop`, `patch` and `trim` keywords add. */
  predicate CropFamily(st: Step) {
    st.Zoom? || st.RandomCrop? || st.CropAt? || st.Patch? || st.Trim?
  }

  /** The order in which `get_transform` tests those keywords; both crop
      steps share the rank of the `crop` keyword. */
  function CropRank(st: Step): nat {
    match st
    case Zoom(_, _) => 0
    case RandomCrop(_) => 1
    case CropAt(_, _, _) => 1
    case Patch(_, _) => 2
    case Trim(_) => 3
    case _ => 4
  }

  /** The zoom factors a zoom step uses: drawn when there is no record,
      otherwise `params["scale_factor"]`, whose lookup may fail. */
  function ZoomFactorOf(params: Option<ParamRecord>): ZoomFactor {
    if params.None? then Sampled
    else if params.value.scaleFactor.None? then Missing
    else Given(params.value.scaleFactor.value.0, params.value.scaleFactor.value.1)
  }

  function ZoomPart(opt: Options, params: Option<ParamRecord>): (r: seq<Step>)
    ensures |r| <= 1 && forall st :: st in r ==> CropRank(st) == 0
  {
    if Contains(opt.preprocess, "zoom") then [Zoom(ZoomFactorOf(params), opt.cropSize)] else []
  }

  function CropPart(opt: Options, params: Option<ParamRecord>): (r: seq<Step>)
    ensures |r| <= 1 && forall st :: st in r ==> CropRank(st) == 1
  {
    if !Contains(opt.preprocess, "crop") then []
    else if params.None? || params.value.cropPos.None? then [RandomCrop(opt.cropSize)]
    else [CropAt(params.value.cropPos.value.0, params.value.cropPos.value.1, opt.cropSize)]
  }

  function PatchPart(opt: Options, params: Option<ParamRecord>): (r: seq<Step>)
    ensures |r| <= 1 && forall st :: st in r ==> CropRank(st) == 2
  {
    if !Contains(opt.preprocess, "patch") then []
    else [Patch(if params.None? then None else params.value.patchIndex, opt.cropSize)]
  }

  function TrimPart(opt: Options): (r: seq<Step>)
    ensures |r| <= 1 && forall st :: st in r ==> CropRank(st) == 3
  {
    if Contains(opt.preprocess, "trim") then [Trim(opt.cropSize)] else []
  }

  /** `zoom`, `crop`, `patch` and `trim`, each when its keyword is present;
      `CropSegmentOrder`, `CropSegmentPresence` and `CropSegmentParams`
      state which steps and in what order. */
  function CropSegment(opt: Options, params: Option<ParamRecord>): (r: seq<Step>)
    ensures (!Contains(opt.preprocess, "zoom") && !Contains(opt.preprocess, "crop")
             && !Contains(opt.preprocess, "patch") && !Contains(opt.preprocess, "trim")) ==> r == []
    ensures forall st :: st in r ==> CropFamily(st)
  {
    ZoomPart(opt, params) + CropPart(opt, params) + PatchPart(opt, params) + TrimPart(opt)
  }

  /** Strictly increasing crop ranks: at most one step per keyword, in the
      order the keywords are checked. */
  predicate CropRanked(r: seq<Step>) {
    forall i, j :: 0 <= i < j < |r| ==> CropRank(r[i]) < CropRank(r[j])
  }

  predicate RanksAtMost(r: seq<Step>, k: nat) {
    forall i :: 0 <= i < |r| ==> CropRank(r[i]) <= k
  }

  /** A strictly ranked list whose ranks are at most `k`, extended by at
      most one step of a higher rank `m`, stays strictly ranked. */
  lemma RankedConcat(a: seq<Step>, b: seq<Step>, k: nat, m: nat)
    requires CropRanked(a) && RanksAtMost(a, k)
    requires |b| <= 1 && k < m
    requires forall st :: st in b ==> CropRank(st) == m
    ensures CropRanked(a + b) && RanksAtMost(a + b, m)
  {
    assert |b| == 1 ==> b[0] in b;
  }

  /** The crop segment is ranked by keyword order. */
  lemma CropSegmentOrder(opt: Options, params: Option<ParamRecord>)
    ensures CropRanked(CropSegment(opt, params))
  {
    var zoom, crop, patch, trim := ZoomPart(opt, params), CropPart(opt, params), PatchPart(opt, params), TrimPart(opt);
    assert |zoom| == 1 ==> zoom[0] in zoom;
    assert CropRanked(zoom) && RanksAtMost(zoom, 0);
    RankedConcat(zoom, crop, 0, 1);
    RankedConcat(zoom + crop, patch, 1, 2);
    RankedConcat(zoom + crop + patch, trim, 2, 3);
    assert CropSegment(opt, params) == zoom + crop + patch + trim;
  }

  /** Every step of the crop segment cuts or zooms to `crop_size`. */
  lemma CropSegmentSizes(opt: Options, params: Option<ParamRecord>)
    ensures forall st :: st in CropSegment(opt, params) ==> (if st.Zoom? then st.crop else st.size) == opt.cropSize
  {
    var zoom, crop, patch, trim := ZoomPart(opt, params), CropPart(opt, params), PatchPart(opt, params), TrimPart(opt);
    var r := zoom + crop + patch + trim;
    assert forall st :: st in r <==> st in zoom || st in crop || st in patch || st in trim;
  }

  /** Each of the four keywords is present exactly when its step is. */
  lemma CropSegmentPresence(opt: Options, params: Option<ParamRecord>)
    ensures var r := CropSegment(opt, params);
            && ((exists st :: st in r && st.Zoom?) <==> Contains(opt.preprocess, "zoom"))
            && ((exists st :: st in r && (st.RandomCrop? || st.CropAt?)) <==> Contains(opt.preprocess, "crop"))
            && ((exists st :: st in r && st.Patch?) <==> Contains(opt.preprocess, "patch"))
            && ((exists st :: st in r && st.Trim?) <==> Contains(opt.preprocess, "trim"))
  {
    var zoom, crop, patch, trim := ZoomPart(opt, params), CropPart(opt, params), PatchPart(opt, params), TrimPart(opt);
    var r := zoom + crop + patch + trim;
    assert forall st :: st in r <==> st in zoom || st in crop || st in patch || st in trim;
    if |zoom| > 0 { assert zoom[0] in r; }
    if |crop| > 0 { assert crop[0] in r; }
    if |patch| > 0 { assert patch[0] in r; }
    if |trim| > 0 { assert trim[0] in r; }
  }

  /** The steps read the record: a recorded crop position replaces the random
      crop, the zoom takes its factors from the record, and the patch its
      index. */
  lemma CropSegmentParams(opt: Options, params: Option<ParamRecord>)
    ensures var r := CropSegment(opt, params);
            && (forall x, y, n :: CropAt(x, y, n) in r <==>
                  Contains(opt.preprocess, "crop") && params.Some? && params.value.cropPos == Some((x, y))
                  && n == opt.cropSize)
            && (forall st :: st in r && st.Zoom? ==> st.factor == ZoomFactorOf(params))
            && (forall st :: st in r && st.Patch? ==>
                  st.index == (if params.None? then None else params.value.patchIndex))
  {
    var zoom, crop, patch, trim := ZoomPart(opt, params), CropPart(opt, params), PatchPart(opt, params), TrimPart(opt);
    var r := zoom + crop + patch + trim;
    assert forall st :: st in r <==> st in zoom || st in crop || st in patch || st in trim;
  }

  /** The steps before the rounding (lines 85-115 and 343-373). Only the
      `fixsize` lookup can fail while the plan is built. */
  function Head(opt: Options, params: Option<ParamRecord>, grayscale: bool): (r: Result<seq<Step>, Error>)
    ensures r.Err? <==> FixSegment(opt, params).Err?
    ensures r.Ok? ==> r.value == (if grayscale then [Grayscale] else []) + FixSegment(opt, params).value
                                 + ResizeSegment(opt) + CropSegment(opt, params)
    ensures r.Ok? ==> forall st :: st in r.value ==> Geometric(st)
  {
    var gray := if grayscale then [Grayscale] else [];
    var fix :- FixSegment(opt, params);
    var rs, cs := ResizeSegment(opt), CropSegment(opt, params);
    GeometricConcat(gray, fix, rs, cs);
    Ok(gray + fix + rs + cs)
  }

  /** The four segments before the rounding, joined, hold only geometric
      steps. */
  lemma GeometricConcat(gray: seq<Step>, fix: seq<Step>, rs: seq<Step>, cs: seq<Step>)
    requires gray == [] || gray == [Grayscale]
    requires forall st :: st in fix ==> st.Fixsize?
    requires forall st :: st in rs ==> st.ResizeTo? || st.ScaleWidth? || st.ScaleShortside?
    requires forall st :: st in cs ==> CropFamily(st)
    ensures forall st :: st in gray + fix + rs + cs ==> Geometric(st)
  {
  }

  /** The order of the finishing steps: the flip, then the tensor
      conversion, then the normalisation. */
  function FinishRank(st: Step): nat {
    match st
    case RandomFlip => 0
    case FlipIf(_) => 0
    case ToTensor => 1
    case Normalize(_) => 2
    case _ => 3
  }

  /** The steps after the rounding (lines 120-131 and 378-386);
      `TailSteps` states which steps and in what order. */
  function Tail(opt: Options, params: Option<ParamRecord>, grayscale: bool, convert: bool): (r: seq<Step>)
    ensures forall st :: st in r ==> Finishing(st)
  {
    FlipPart(opt, params) + ConvertPart(grayscale, convert)
  }

  /** The flip: none under `no_flip`, the recorded decision when there is
      one, a random flip otherwise. */
  function FlipPart(opt: Options, params: Option<ParamRecord>): (r: seq<Step>)
    ensures r == [] || r == [RandomFlip] || (|r| == 1 && r[0].FlipIf?)
    ensures r != [] <==> !opt.noFlip
    ensures forall b :: FlipIf(b) in r <==> !opt.noFlip && params.Some? && params.value.flip == Some(b)
    ensures RandomFlip in r <==> !opt.noFlip && (params.None? || params.value.flip.None?)
  {
    if opt.noFlip then []
    else if params.None? || params.value.flip.None? then [RandomFlip]
    else [FlipIf(params.value.flip.value)]
  }

  /** The tensor conversion and the normalisation for the channel count. */
  function ConvertPart(grayscale: bool, convert: bool): (r: seq<Step>)
    ensures r == [] || (|r| == 2 && r[0] == ToTensor && r[1].Normalize?)
    ensures r != [] <==> convert
    ensures forall c :: Normalize(c) in r <==> convert && c == (if grayscale then 1 else 3)
  {
    if convert then [ToTensor, Normalize(if grayscale then 1 else 3)] else []
  }

  /** A flip step is present exactly when flipping is allowed, and it replays
      a recorded decision when there is one; the tensor conversion and the
      normalisation for the channel count follow exactly when converting. */
  lemma TailSteps(opt: Options, params: Option<ParamRecord>, grayscale: bool, convert: bool)
    ensures var r := Tail(opt, params, grayscale, convert);
            && (forall i, j :: 0 <= i < j < |r| ==> FinishRank(r[i]) < FinishRank(r[j]))
            && ((exists st :: st in r && FinishRank(st) == 0) <==> !opt.noFlip)
            && (forall b :: FlipIf(b) in r <==> !opt.noFlip && params.Some? && params.value.flip == Some(b))
            && (RandomFlip in r <==> !opt.noFlip && (params.None? || params.value.flip.None?))
            && (ToTensor in r <==> convert)
            && (forall c :: Normalize(c) in r <==> convert && c == (if grayscale then 1 else 3))
  {
    FinishSteps(FlipPart(opt, params), ConvertPart(grayscale, convert));
  }

  /** A flip run of at most one flip, then a conversion run that is either
      empty or the tensor conversion and one normalisation. */
  lemma FinishSteps(flip: seq<Step>, conv: seq<Step>)
    requires flip == [] || flip == [RandomFlip] || (|flip| == 1 && flip[0].FlipIf?)
    requires conv == [] || (|conv| == 2 && conv[0] == ToTensor && conv[1].Normalize?)
    ensures var r := flip + conv;
            && (forall i, j :: 0 <= i < j < |r| ==> FinishRank(r[i]) < FinishRank(r[j]))
            && ((exists st :: st in r && FinishRank(st) == 0) <==> flip != [])
            && (forall b :: FlipIf(b) in r <==> FlipIf(b) in flip)
            && (RandomFlip in r <==> RandomFlip in flip)
            && (ToTensor in r <==> conv != [])
            && (forall c :: Normalize(c) in r <==> Normalize(c) in conv)
  {
    var r := flip + conv;
    if flip != [] {
      assert r[0] in r && FinishRank(r[0]) == 0;
    }
  }

  /** `get_transform`: the ordered list of steps, or the error raised while
      building it. */
  function GetTransform(opt: Options, params: Option<ParamRecord>, grayscale: bool, convert: bool)
    : (r: Result<seq<Step>, Error>)
    ensures r.Err? <==> Contains(opt.preprocess, "fixsize") && (params.None? || params.value.size.None?)
    ensures r.Ok? ==> RoundsOnceInOrder(r.value)
  {
    var head :- Head(opt, params, grayscale);
    var tail := Tail(opt, params, grayscale, convert);
    RoundedPlanShape(head, tail);
    Ok(head + [MakePower2] + tail)
  }

  /** Geometric steps, then the rounding, then finishing steps: the plan
      rounds once and in order. */
  lemma RoundedPlanShape(head: seq<Step>, tail: seq<Step>)
    requires forall st :: st in head ==> Geometric(st)
    requires forall st :: st in tail ==> Finishing(st)
    ensures RoundsOnceInOrder(head + [MakePower2] + tail)
  {
    var steps := head + [MakePower2] + tail;
    assert steps[|head|] == MakePower2;
    assert forall j :: 0 <= j < |head| ==> steps[j] == head[j] && head[j] in head;
    assert forall j :: |head| < j < |steps| ==> steps[j] == tail[j - |head| - 1] && tail[j - |head| - 1] in tail;
  }

  /** One arbitrary number per random draw of the pipeline: integers for the
      offsets and starts, reals for the two zoom factors, and the coin. */
  datatype Draws = Draws(
    zoom: (real, real),
    cropLeft: int, cropTop: int,
    patchX: int, patchY: int,
    trimX: int, trimY: int,
    flip: bool)

  /** The sampled zoom factors, `np.random.uniform(0.8, 1.0, size=[2])`,
      each in `[0.8, 1.0)`. */
  function ZoomDraw(d: Draws): (f: (real, real))
    ensures 0.8 <= f.0 < 1.0 && 0.8 <= f.1 < 1.0
    ensures 0.8 <= d.zoom.0 < 1.0 && 0.8 <= d.zoom.1 < 1.0 ==> f == d.zoom
  {
    (PickReal(d.zoom.0, 0.8, 1.0), PickReal(d.zoom.1, 0.8, 1.0))
  }

  /** A sampled zoom never fails, and since its factors are below 1 it
      neither shrinks a side below the crop nor grows it past the larger of
      the crop and the old side. */
  lemma SampledZoomBounds(s: Size, c: nat, d: Draws)
    ensures StepEdit(Zoom(Sampled, c), s, d).Ok?
    ensures var e := StepEdit(Zoom(Sampled, c), s, d).value;
            && e.Resize?
            && c <= e.to.w <= Max(c, s.w)
            && c <= e.to.h <= Max(c, s.h)
  {
    var f := ZoomDraw(d);
    assert StepEdit(Zoom(Sampled, c), s, d) == Ok(Ops.RandomZoom(s, c, f.0, f.1));
  }

  /** The random crop's offset, in `[0, w - size] x [0, h - size]`. */
  function CropOffsets(s: Size, size: nat, d: Draws): (o: (int, int))
    ensures s.w >= size && s.h >= size ==> 0 <= o.0 <= s.w - size && 0 <= o.1 <= s.h - size
  {
    (if s.w >= size then Pick(d.cropLeft, 0, s.w - size) else 0,
     if s.h >= size then Pick(d.cropTop, 0, s.h - size) else 0)
  }

  /** The patch margin, `np.random.randint(room + 1)` on each axis. */
  function PatchStarts(s: Size, size: nat, d: Draws): (o: (int, int))
    ensures size > 0 ==> 0 <= o.0 <= Ops.Room(s.w, size) && 0 <= o.1 <= Ops.Room(s.h, size)
  {
    if size == 0 then (0, 0)
    else (Pick(d.patchX, 0, Ops.Room(s.w, size)), Pick(d.patchY, 0, Ops.Room(s.h, size)))
  }

  /** The trim window's start, `np.random.randint(n - size)` on a long axis. */
  function TrimStarts(s: Size, size: nat, d: Draws): (o: (int, int))
    ensures s.w > size ==> 0 <= o.0 < s.w - size
    ensures s.h > size ==> 0 <= o.1 < s.h - size
  {
    (if s.w > size then Pick(d.trimX, 0, s.w - size - 1) else 0,
     if s.h > size then Pick(d.trimY, 0, s.h - size - 1) else 0)
  }

  /** Every offset in range is drawn by some value of the crop draws, so the
      random crop step can cut any square that fits. */
  lemma RandomCropReachesEvery(s: Size, n: nat, x: int, y: int, d: Draws)
    requires n <= s.w && n <= s.h
    requires 0 <= x <= s.w - n && 0 <= y <= s.h - n
    ensures StepEdit(RandomCrop(n), s, d.(cropLeft := x, cropTop := y)) == Ok(Geometry.Crop(Box(x, y, n, n)))
  {
    PickCovers(0, s.w - n, x);
    PickCovers(0, s.h - n, y);
  }

  /** What one step does to a single image of size `s`. A step raises only
      on a division by zero, a missing record key or a random crop larger
      than the image; flips and conversions never raise nor resize. */
  function StepEdit(st: Step, s: Size, d: Draws): (r: Result<Edit, Error>)
    ensures r.Err? ==>
              r.error == ZeroDivision || r.error == CropTooLarge
              || r.error == MissingParam("scale_factor") || r.error == MissingParam("patch_index")
    ensures Finishing(st) ==> r.Ok? && Apply(r.value, s) == s
  {
    match st
    case Grayscale => Ok(Keep)
    case Fixsize(h, w) => Ok(Resize(Size(w, h)))
    case ResizeTo(h, w) => Ok(Resize(Size(w, h)))
    case ScaleWidth(t, c) => Ops.ScaleWidth(s, t, c)
    case ScaleShortside(t, c) => Ops.ScaleShortside(s, t, c)
    case Zoom(f, c) =>
      (match f
       case Sampled => var f := ZoomDraw(d); Ok(Ops.RandomZoom(s, c, f.0, f.1))
       case Given(fx, fy) => Ok(Ops.RandomZoom(s, c, fx, fy))
       case Missing => Err(MissingParam("scale_factor")))
    case RandomCrop(n) =>
      var o := CropOffsets(s, n, d);
      Ops.RandomCrop(s, n, o.0, o.1)
    case CropAt(x, y, n) => Ok(Ops.Crop(s, x, y, n))
    case Patch(index, n) =>
      if index.None? then Err(MissingParam("patch_index"))
      else
        var o := PatchStarts(s, n, d);
        Ops.Patch(s, index.value, n, o.0, o.1)
    case Trim(n) =>
      var o := TrimStarts(s, n, d);
      Ok(Ops.Trim(s, n, o.0, o.1))
    case MakePower2 => Ok(Ops.MakePower2(s, PowerBase))
    case RandomFlip => Ok(Ops.Flip(d.flip))
    case FlipIf(b) => Ok(Ops.Flip(b))
    case ToTensor => Ok(Keep)
    case Normalize(_) => Ok(Keep)
  }

  /** The composed transform applied to one image: its final size. The run
      raises only what one of its steps raises. */
  function RunSingle(steps: seq<Step>, s: Size, d: Draws): (r: Result<Size, Error>)
    ensures r.Err? ==>
              r.error == ZeroDivision || r.error == CropTooLarge
              || r.error == MissingParam("scale_factor") || r.error == MissingParam("patch_index")
    decreases |steps|
  {
    if |steps| == 0 then Ok(s)
    else
      match StepEdit(steps[0], s, d)
      case Err(e) => Err(e)
      case Ok(e) => RunSingle(steps[1..], Apply(e, s), d)
  }

  /** A scale step on an image that its helper returns untouched: the
      width already the target and the height reaching the crop, or the
      short side already reaching the target. These are the two branches
      whose as-written dual helper returns the image alone. */
  predicate ScaleNoOp(st: Step, si: Size) {
    || (st.ScaleWidth? && si.w == st.target && si.h >= st.crop)
    || (st.ScaleShortside? && Min(si.w, si.h) >= st.target)
  }

  /** What one step does to an image of size `si` and its depth map, as
      `dual_transform` calls it; `fixed` selects the corrected scale helpers. */
  function StepDual(st: Step, si: Size, d: Draws, fixed: bool): (r: Result<Returned, Error>)
    ensures r != Err(CannotUnpack)
    ensures r.Ok? && r.value.Single? ==> !fixed && r.value == Single(Keep) && ScaleNoOp(st, si)
    ensures fixed && r.Ok? ==> r.value.Pair? && r.value.img == r.value.depth
  {
    match st
    case Grayscale => Ok(Pair(Keep, Keep))
    case Fixsize(h, w) => Ok(Pair(Resize(Size(w, h)), Resize(Size(w, h))))
    case ResizeTo(h, w) => Ok(Pair(Resize(Size(w, h)), Resize(Size(w, h))))
    case ScaleWidth(t, c) =>
      if fixed then ScaleWidthDual(si, t, c) else ScaleWidthDualAsWritten(si, t, c)
    case ScaleShortside(t, c) =>
      if fixed then ScaleShortsideDual(si, t, c) else ScaleShortsideDualAsWritten(si, t, c)
    case Zoom(f, c) =>
      (match f
       case Sampled => var f := ZoomDraw(d); Ok(RandomZoomDual(si, c, f.0, f.1))
       case Given(fx, fy) => Ok(RandomZoomDual(si, c, fx, fy))
       case Missing => Err(MissingParam("scale_factor")))
    case RandomCrop(n) =>
      var o := CropOffsets(si, n, d);
      RandomCropDual(si, n, o.0, o.1)
    case CropAt(x, y, n) => Ok(CropDual(si, x, y, n))
    case Patch(index, n) =>
      if index.None? then Err(MissingParam("patch_index"))
      else
        var o := PatchStarts(si, n, d);
        PatchDual(si, index.value, n, o.0, o.1)
    case Trim(n) =>
      var o := TrimStarts(si, n, d);
      Ok(TrimDual(si, n, o.0, o.1))
    case MakePower2 => Ok(MakePower2Dual(si, PowerBase))
    case RandomFlip => Ok(FlipDual(None, d.flip))
    case FlipIf(b) => Ok(FlipDual(Some(b), d.flip))
    case ToTensor => Ok(Pair(Keep, Keep))
    case Normalize(_) => Ok(Pair(Keep, Keep))
  }

  /** The steps applied to an image and its depth map: their final sizes.
      With the corrected helpers the unpacking never fails, whatever the two
      sizes. */
  function RunDual(steps: seq<Step>, si: Size, sd: Size, d: Draws, fixed: bool): (r: Result<(Size, Size), Error>)
    ensures fixed ==> r != Err(CannotUnpack)
    decreases |steps|
  {
    if |steps| == 0 then Ok((si, sd))
    else
      match StepDual(steps[0], si, d, fixed)
      case Err(e) => Err(e)
      case Ok(ret) =>
        match Unpack(ret, si, sd)
        case Err(e) => Err(e)
        case Ok(p) => RunDual(steps[1..], p.0, p.1, d, fixed)
  }

  /** Flips and conversions never fail and never change the size. */
  lemma {:induction false} FinishingKeepsSize(steps: seq<Step>, s: Size, d: Draws)
    requires forall j :: 0 <= j < |steps| ==> Finishing(steps[j])
    ensures RunSingle(steps, s, d) == Ok(s)
    decreases |steps|
  {
    if |steps| > 0 {
      assert Finishing(steps[0]);
      FinishingKeepsSize(steps[1..], s, d);
    }
  }

  /** A run whose last resizing step is the rounding ends on multiples of the
      base. */
  lemma {:induction false} RunEndsRounded(steps: seq<Step>, s: Size, d: Draws, k: nat)
    requires k < |steps| && steps[k] == MakePower2
    requires forall j :: k < j < |steps| ==> Finishing(steps[j])
    ensures RunSingle(steps, s, d).Ok? ==>
              RunSingle(steps, s, d).value.w % PowerBase == 0 && RunSingle(steps, s, d).value.h % PowerBase == 0
    decreases |steps|
  {
    match StepEdit(steps[0], s, d)
    case Err(_) =>
    case Ok(e) =>
      if k == 0 {
        var t := Apply(e, s);
        FinishingKeepsSize(steps[1..], t, d);
      } else {
        RunEndsRounded(steps[1..], Apply(e, s), d, k - 1);
      }
  }

  lemma PlanEndsRounded(steps: seq<Step>, s: Size, d: Draws)
    requires RoundsOnceInOrder(steps)
    ensures RunSingle(steps, s, d).Ok? ==>
              RunSingle(steps, s, d).value.w % PowerBase == 0 && RunSingle(steps, s, d).value.h % PowerBase == 0
  {
    var k :| 0 <= k < |steps| && steps[k] == MakePower2
             && (forall j :: 0 <= j < k ==> Geometric(steps[j]))
             && (forall j :: k < j < |steps| ==> Finishing(steps[j]));
    RunEndsRounded(steps, s, d, k);
  }

  /** `get_transform(...)` applied to an image of size `s`: the size of the
      result. Whatever the options, both sides end on multiples of 4. */
  function Transform(opt: Options, params: Option<ParamRecord>, grayscale: bool, convert: bool, s: Size, d: Draws)
    : (r: Result<Size, Error>)
    ensures r.Ok? ==> r.value.w % PowerBase == 0 && r.value.h % PowerBase == 0
    ensures GetTransform(opt, params, grayscale, convert).Err? ==> r.Err? && r.error == MissingParam("size")
  {
    match GetTransform(opt, params, grayscale, convert)
    case Err(e) => Err(e)
    case Ok(steps) =>
      PlanEndsRounded(steps, s, d);
      RunSingle(steps, s, d)
  }

  /** The dual step with the corrected helpers gives both rasters the edit the
      single-image step gives the image. */
  lemma StepDualIsBoth(st: Step, si: Size, d: Draws)
    ensures StepDual(st, si, d, true) == BothOr(StepEdit(st, si, d))
  {
  }

  /** The as-written dual step either agrees with the corrected one or returns
      the image alone. */
  lemma StepDualAsWrittenDeviation(st: Step, si: Size, d: Draws)
    ensures StepDual(st, si, d, false) == StepDual(st, si, d, true)
            || StepDual(st, si, d, false) == Ok(Single(Keep))
    ensures (StepDual(st, si, d, false).Ok? && StepDual(st, si, d, false).value.Single?) <==> ScaleNoOp(st, si)
    ensures ScaleNoOp(st, si) ==> StepDual(st, si, d, false) == Ok(Single(Keep))
    ensures !ScaleNoOp(st, si) ==> StepDual(st, si, d, false) == StepDual(st, si, d, true)
  {
  }

  function LiftPair(r: Result<Size, Error>): Result<(Size, Size), Error> {
    match r
    case Ok(t) => Ok((t, t))
    case Err(e) => Err(e)
  }

  /** Image and depth of equal size stay of equal size after every step: the
      corrected dual run is the single run on both. */
  lemma {:induction false} DualRunMatchesSingle(steps: seq<Step>, s: Size, d: Draws)
    ensures RunDual(steps, s, s, d, true) == LiftPair(RunSingle(steps, s, d))
    decreases |steps|
  {
    if |steps| > 0 {
      StepDualIsBoth(steps[0], s, d);
      match StepEdit(steps[0], s, d)
      case Err(_) =>
      case Ok(e) =>
        DualRunMatchesSingle(steps[1..], Apply(e, s), d);
    }
  }

  /** The corrected run gets through the first `k` steps and then meets a
      scale step on its no-op branch. */
  predicate NoOpAt(steps: seq<Step>, si: Size, sd: Size, d: Draws, k: int) {
    && 0 <= k < |steps|
    && RunDual(steps[..k], si, sd, d, true).Ok?
    && ScaleNoOp(steps[k], RunDual(steps[..k], si, sd, d, true).value.0)
  }

  /** Some step of the corrected run is a scale step on its no-op branch. */
  ghost predicate ReachesNoOp(steps: seq<Step>, si: Size, sd: Size, d: Draws) {
    exists k :: NoOpAt(steps, si, sd, d, k)
  }

  /** The first step of a run that the corrected first step gets past: the
      prefixes of the rest are the prefixes of the run, one step shorter. */
  lemma PrefixAfterFirst(steps: seq<Step>, si: Size, sd: Size, d: Draws, p: (Size, Size), k: nat)
    requires 0 < |steps| && k < |steps|
    requires StepDual(steps[0], si, d, true).Ok?
    requires Unpack(StepDual(steps[0], si, d, true).value, si, sd) == Ok(p)
    ensures RunDual(steps[..k + 1], si, sd, d, true) == RunDual(steps[1..][..k], p.0, p.1, d, true)
  {
    assert steps[..k + 1][0] == steps[0];
    assert steps[..k + 1][1..] == steps[1..][..k];
  }

  /** A no-op is met at the first step, or, once the corrected first step
      succeeds, somewhere in the rest. */
  lemma ReachesNoOpFirst(steps: seq<Step>, si: Size, sd: Size, d: Draws)
    requires 0 < |steps|
    ensures ReachesNoOp(steps, si, sd, d) <==>
              || ScaleNoOp(steps[0], si)
              || (&& StepDual(steps[0], si, d, true).Ok?
                  && Unpack(StepDual(steps[0], si, d, true).value, si, sd).Ok?
                  && var p := Unpack(StepDual(steps[0], si, d, true).value, si, sd).value;
                     ReachesNoOp(steps[1..], p.0, p.1, d))
  {
    assert steps[..0] == [];
    if ScaleNoOp(steps[0], si) {
      assert NoOpAt(steps, si, sd, d, 0);
    } else {
      var first := StepDual(steps[0], si, d, true);
      if first.Ok? && Unpack(first.value, si, sd).Ok? {
        var p := Unpack(first.value, si, sd).value;
        if ReachesNoOp(steps, si, sd, d) {
          var k :| NoOpAt(steps, si, sd, d, k);
          PrefixAfterFirst(steps, si, sd, d, p, k - 1);
          assert NoOpAt(steps[1..], p.0, p.1, d, k - 1);
        }
        if ReachesNoOp(steps[1..], p.0, p.1, d) {
          var k :| NoOpAt(steps[1..], p.0, p.1, d, k);
          PrefixAfterFirst(steps, si, sd, d, p, k);
          assert NoOpAt(steps, si, sd, d, k + 1);
        }
      } else {
        forall k | 0 < k < |steps|
          ensures !NoOpAt(steps, si, sd, d, k)
        {
          assert steps[..k][0] == steps[0];
        }
      }
    }
  }

  /** The as-written dual run raises the unpacking error exactly when the
      corrected run meets a scale step on its no-op branch; otherwise the
      two runs agree. */
  lemma {:induction false} AsWrittenFailsOrAgrees(steps: seq<Step>, si: Size, sd: Size, d: Draws)
    ensures RunDual(steps, si, sd, d, false) == Err(CannotUnpack)
            || RunDual(steps, si, sd, d, false) == RunDual(steps, si, sd, d, true)
    ensures ReachesNoOp(steps, si, sd, d) ==> RunDual(steps, si, sd, d, false) == Err(CannotUnpack)
    ensures !ReachesNoOp(steps, si, sd, d) ==> RunDual(steps, si, sd, d, false) == RunDual(steps, si, sd, d, true)
    decreases |steps|
  {
    if |steps| > 0 {
      StepDualAsWrittenDeviation(steps[0], si, d);
      ReachesNoOpFirst(steps, si, sd, d);
      if !ScaleNoOp(steps[0], si) {
        match StepDual(steps[0], si, d, true)
        case Err(_) =>
        case Ok(ret) =>
          match Unpack(ret, si, sd)
          case Err(_) =>
          case Ok(p) =>
            AsWrittenFailsOrAgrees(steps[1..], p.0, p.1, d);
      }
    }
  }

  /** A plan without a width or short-side scaling runs the same with the
      helpers as written and corrected. */
  lemma {:induction false} NoScaleStepsAgree(steps: seq<Step>, si: Size, sd: Size, d: Draws)
    requires forall i :: 0 <= i < |steps| ==> !steps[i].ScaleWidth? && !steps[i].ScaleShortside?
    ensures RunDual(steps, si, sd, d, false) == RunDual(steps, si, sd, d, true)
  {
    assert !ReachesNoOp(steps, si, sd, d);
    AsWrittenFailsOrAgrees(steps, si, sd, d);
  }

  /** `dual_transform` with the corrected helpers: the sizes of the image and
      depth results. It never fails to unpack, and on an aligned pair it is
      the single-image transform applied to both. */
  function DualTransform(opt: Options, params: Option<ParamRecord>, grayscale: bool, convert: bool,
                         si: Size, sd: Size, d: Draws): (r: Result<(Size, Size), Error>)
    ensures r != Err(CannotUnpack)
    ensures si == sd ==> r == LiftPair(Transform(opt, params, grayscale, convert, si, d))
  {
    match GetTransform(opt, params, grayscale, convert)
    case Err(e) => Err(e)
    case Ok(steps) =>
      DualRunMatchesSingle(steps, si, d);
      RunDual(steps, si, sd, d, true)
  }

  /** `dual_transform` as written: it raises whenever a scale helper takes
      its no-op branch, and otherwise agrees with the corrected version. */
  function DualTransformAsWritten(opt: Options, params: Option<ParamRecord>, grayscale: bool, convert: bool,
                                  si: Size, sd: Size, d: Draws): (r: Result<(Size, Size), Error>)
    ensures r == Err(CannotUnpack) || r == DualTransform(opt, params, grayscale, convert, si, sd, d)
    ensures GetTransform(opt, params, grayscale, convert).Ok?
            && ReachesNoOp(GetTransform(opt, params, grayscale, convert).value, si, sd, d)
            ==> r == Err(CannotUnpack)
    ensures !(GetTransform(opt, params, grayscale, convert).Ok?
              && ReachesNoOp(GetTransform(opt, params, grayscale, convert).value, si, sd, d))
            ==> r == DualTransform(opt, params, grayscale, convert, si, sd, d)
  {
    match GetTransform(opt, params, grayscale, convert)
    case Err(e) => Err(e)
    case Ok(steps) =>
      AsWrittenFailsOrAgrees(steps, si, sd, d);
      RunDual(steps, si, sd, d, false)
  }

  /** With `resize` in `preprocess`, or with neither `scale_width` nor
      `scale_shortside`, the plan holds no scale helper, so `dual_transform`
      as written agrees with the corrected version. */
  lemma DualTransformAsWrittenAgrees(opt: Options, params: Option<ParamRecord>, grayscale: bool, convert: bool,
                                     si: Size, sd: Size, d: Draws)
    ensures Contains(opt.preprocess, "resize")
            || (!Contains(opt.preprocess, "scale_width") && !Contains(opt.preprocess, "scale_shortside"))
            ==> DualTransformAsWritten(opt, params, grayscale, convert, si, sd, d)
                == DualTransform(opt, params, grayscale, convert, si, sd, d)
  {
    var pre := opt.preprocess;
    if GetTransform(opt, params, grayscale, convert).Ok?
       && (Contains(pre, "resize") || (!Contains(pre, "scale_width") && !Contains(pre, "scale_shortside")))
    {
      var steps := GetTransform(opt, params, grayscale, convert).value;
      PlanResizeChoice(opt, params, grayscale, convert);
      forall i | 0 <= i < |steps|
        ensures !steps[i].ScaleWidth? && !steps[i].ScaleShortside?
      {
        assert steps[i] in steps;
      }
      NoScaleStepsAgree(steps, si, sd, d);
    }
  }

  /** `resize`, `scale_width` and `scale_shortside` exclude each other, in
      that order of priority, and the resize target is
      `[load_size, load_size]` with the height halved on gta2cityscapes. */
  lemma PlanResizeChoice(opt: Options, params: Option<ParamRecord>, grayscale: bool, convert: bool)
    requires GetTransform(opt, params, grayscale, convert).Ok?
    ensures var steps := GetTransform(opt, params, grayscale, convert).value;
            var pre := opt.preprocess;
            && ((exists st :: st in steps && st.ResizeTo?) <==> Contains(pre, "resize"))
            && ((exists st :: st in steps && st.ScaleWidth?) <==>
                  !Contains(pre, "resize") && Contains(pre, "scale_width"))
            && ((exists st :: st in steps && st.ScaleShortside?) <==>
                  !Contains(pre, "resize") && !Contains(pre, "scale_width") && Contains(pre, "scale_shortside"))
            && (forall st :: st in steps && st.ResizeTo? ==>
                  st.w == opt.loadSize
                  && st.h == (if Contains(opt.dataroot, "gta2cityscapes") then opt.loadSize / 2 else opt.loadSize))
  {
    PlanResizeView(opt, params, grayscale, convert);
    ResizeSegmentChoice(opt);
    SameResizeKinds(GetTransform(opt, params, grayscale, convert).value, ResizeSegment(opt));
  }

  predicate ResizeKind(st: Step) {
    st.ResizeTo? || st.ScaleWidth? || st.ScaleShortside?
  }

  /** The resize segment on its own: which keyword gives which step, and
      the resize target. */
  lemma ResizeSegmentChoice(opt: Options)
    ensures var rs := ResizeSegment(opt);
            var pre := opt.preprocess;
            && ((exists st :: st in rs && st.ResizeTo?) <==> Contains(pre, "resize"))
            && ((exists st :: st in rs && st.ScaleWidth?) <==>
                  !Contains(pre, "resize") && Contains(pre, "scale_width"))
            && ((exists st :: st in rs && st.ScaleShortside?) <==>
                  !Contains(pre, "resize") && !Contains(pre, "scale_width") && Contains(pre, "scale_shortside"))
            && (forall st :: st in rs && st.ResizeTo? ==>
                  st.w == opt.loadSize
                  && st.h == (if Contains(opt.dataroot, "gta2cityscapes") then opt.loadSize / 2 else opt.loadSize))
  {
    var rs := ResizeSegment(opt);
    if |rs| == 1 {
      assert rs[0] in rs;
    }
  }

  /** Within the whole plan the resizing steps are exactly those of the
      resize segment. */
  lemma PlanResizeView(opt: Options, params: Option<ParamRecord>, grayscale: bool, convert: bool)
    requires GetTransform(opt, params, grayscale, convert).Ok?
    ensures forall st :: st in GetTransform(opt, params, grayscale, convert).value && ResizeKind(st)
                         <==> st in ResizeSegment(opt) && ResizeKind(st)
  {
    var steps := GetTransform(opt, params, grayscale, convert).value;
    var gray := if grayscale then [Grayscale] else [];
    var fix := FixSegment(opt, params).value;
    var rs := ResizeSegment(opt);
    var cs := CropSegment(opt, params);
    var tail := Tail(opt, params, grayscale, convert);
    PlanSegments(opt, params, grayscale, convert);
    assert steps == gray + fix + rs + cs + [MakePower2] + tail;
    forall st | st in steps && ResizeKind(st)
      ensures st in rs
    {
      OnlyResizeSegment(gray, fix, rs, cs, tail, st);
    }
    assert forall x :: x in rs ==> x in steps;
  }

  /** Plans that agree on their resizing members agree on which kinds of
      resizing step they hold. */
  lemma SameResizeKinds(steps: seq<Step>, rs: seq<Step>)
    requires forall st :: st in steps && ResizeKind(st) <==> st in rs && ResizeKind(st)
    ensures (exists st :: st in steps && st.ResizeTo?) <==> (exists st :: st in rs && st.ResizeTo?)
    ensures (exists st :: st in steps && st.ScaleWidth?) <==> (exists st :: st in rs && st.ScaleWidth?)
    ensures (exists st :: st in steps && st.ScaleShortside?) <==> (exists st :: st in rs && st.ScaleShortside?)
    ensures forall st :: st in steps && st.ResizeTo? ==> st in rs
  {
  }

  /** Only the resize segment holds resizing steps. */
  lemma OnlyResizeSegment(gray: seq<Step>, fix: seq<Step>, rs: seq<Step>, cs: seq<Step>, tail: seq<Step>, st: Step)
    requires forall x :: x in gray ==> x.Grayscale?
    requires forall x :: x in fix ==> x.Fixsize?
    requires forall x :: x in cs ==> x.Zoom? || x.RandomCrop? || x.CropAt? || x.Patch? || x.Trim?
    requires forall x :: x in tail ==> Finishing(x)
    requires st in gray + fix + rs + cs + [MakePower2] + tail
    requires st.ResizeTo? || st.ScaleWidth? || st.ScaleShortside?
    ensures st in rs
  {
  }

  /** `steps` holds the same crop-family steps as `cs`. */
  ghost predicate SameCropSteps(steps: seq<Step>, cs: seq<Step>) {
    forall st :: st in steps && CropFamily(st) <==> st in cs && CropFamily(st)
  }

  /** The crop-family steps of `steps` come in strictly increasing rank. */
  predicate CropStepsRanked(steps: seq<Step>) {
    forall i, j :: 0 <= i < j < |steps| && CropFamily(steps[i]) && CropFamily(steps[j]) ==>
      CropRank(steps[i]) < CropRank(steps[j])
  }

  /** Only the crop segment holds crop-family steps, so the plan holds such a
      step exactly when the segment does, and in the segment's order. */
  lemma OnlyCropSegment(pre: seq<Step>, cs: seq<Step>, post: seq<Step>)
    requires forall x :: x in pre ==> !CropFamily(x)
    requires forall x :: x in post ==> !CropFamily(x)
    requires CropRanked(cs)
    ensures SameCropSteps(pre + cs + post, cs)
    ensures CropStepsRanked(pre + cs + post)
  {
    var steps := pre + cs + post;
    forall i | 0 <= i < |pre|
      ensures !CropFamily(steps[i])
    {
      assert steps[i] == pre[i] && pre[i] in pre;
    }
    forall i | |pre| + |cs| <= i < |steps|
      ensures !CropFamily(steps[i])
    {
      assert steps[i] == post[i - |pre| - |cs|] && post[i - |pre| - |cs|] in post;
    }
    assert forall i :: |pre| <= i < |pre| + |cs| ==> steps[i] == cs[i - |pre|];
  }


  /** A successful plan is the grayscale step, the four segments, the
      rounding and the tail, in that order. */
  lemma PlanSegments(opt: Options, params: Option<ParamRecord>, grayscale: bool, convert: bool)
    requires GetTransform(opt, params, grayscale, convert).Ok?
    ensures FixSegment(opt, params).Ok?
    ensures GetTransform(opt, params, grayscale, convert).value
            == (if grayscale then [Grayscale] else []) + FixSegment(opt, params).value + ResizeSegment(opt)
               + CropSegment(opt, params) + [MakePower2] + Tail(opt, params, grayscale, convert)
  {
  }

  /** Plans that agree on their crop-family members agree on which kinds
      of crop-family step they hold. */
  lemma SameCropKinds(steps: seq<Step>, cs: seq<Step>)
    requires forall st :: st in steps && CropFamily(st) <==> st in cs && CropFamily(st)
    ensures (exists st :: st in steps && st.Zoom?) <==> (exists st :: st in cs && st.Zoom?)
    ensures (exists st :: st in steps && (st.RandomCrop? || st.CropAt?))
            <==> (exists st :: st in cs && (st.RandomCrop? || st.CropAt?))
    ensures (exists st :: st in steps && st.Patch?) <==> (exists st :: st in cs && st.Patch?)
    ensures (exists st :: st in steps && st.Trim?) <==> (exists st :: st in cs && st.Trim?)
    ensures forall x, y, n :: CropAt(x, y, n) in steps <==> CropAt(x, y, n) in cs
  {
  }

  /** The steps before the crop segment: grayscale, `fixsize` and resize. */
  function PreCrop(opt: Options, params: Option<ParamRecord>, grayscale: bool): seq<Step>
    requires FixSegment(opt, params).Ok?
  {
    (if grayscale then [Grayscale] else []) + FixSegment(opt, params).value + ResizeSegment(opt)
  }

  /** A successful plan is the steps before the crop segment, the segment,
      and the rounding with the tail. */
  lemma PlanAroundCrop(opt: Options, params: Option<ParamRecord>, grayscale: bool, convert: bool)
    requires GetTransform(opt, params, grayscale, convert).Ok?
    ensures FixSegment(opt, params).Ok?
    ensures GetTransform(opt, params, grayscale, convert).value
            == PreCrop(opt, params, grayscale) + CropSegment(opt, params)
               + ([MakePower2] + Tail(opt, params, grayscale, convert))
  {
    PlanSegments(opt, params, grayscale, convert);
    SplitAround(PreCrop(opt, params, grayscale), CropSegment(opt, params), [MakePower2],
                Tail(opt, params, grayscale, convert));
  }

  lemma PreCropHasNoCrop(opt: Options, params: Option<ParamRecord>, grayscale: bool)
    requires FixSegment(opt, params).Ok?
    ensures forall x :: x in PreCrop(opt, params, grayscale) ==> !CropFamily(x)
  {
    assert forall x :: x in ResizeSegment(opt) ==> x.ResizeTo? || x.ScaleWidth? || x.ScaleShortside?;
  }

  lemma RoundingThenTailHasNoCrop(tail: seq<Step>)
    requires forall x :: x in tail ==> Finishing(x)
    ensures forall x :: x in [MakePower2] + tail ==> !CropFamily(x)
  {
  }

  /** Within the whole plan the crop-family steps are exactly those of the
      crop segment, in its order. */
  lemma PlanCropView(opt: Options, params: Option<ParamRecord>, grayscale: bool, convert: bool)
    requires GetTransform(opt, params, grayscale, convert).Ok?
    ensures SameCropSteps(GetTransform(opt, params, grayscale, convert).value, CropSegment(opt, params))
    ensures CropStepsRanked(GetTransform(opt, params, grayscale, convert).value)
  {
    PlanAroundCrop(opt, params, grayscale, convert);
    PreCropHasNoCrop(opt, params, grayscale);
    var pre, cs, tail := PreCrop(opt, params, grayscale), CropSegment(opt, params), Tail(opt, params, grayscale, convert);
    RoundingThenTailHasNoCrop(tail);
    CropSegmentOrder(opt, params);
    OnlyCropSegment(pre, cs, [MakePower2] + tail);
  }

  /** In the whole plan, each of `zoom`, `crop`, `patch` and `trim` is
      present exactly when its step is, a recorded crop position replaces
      the random crop, and the four steps come in the order the keywords are
      checked. */
  lemma PlanCropChoice(opt: Options, params: Option<ParamRecord>, grayscale: bool, convert: bool)
    requires GetTransform(opt, params, grayscale, convert).Ok?
    ensures var steps := GetTransform(opt, params, grayscale, convert).value;
            var pre := opt.preprocess;
            && ((exists st :: st in steps && st.Zoom?) <==> Contains(pre, "zoom"))
            && ((exists st :: st in steps && (st.RandomCrop? || st.CropAt?)) <==> Contains(pre, "crop"))
            && ((exists st :: st in steps && st.Patch?) <==> Contains(pre, "patch"))
            && ((exists st :: st in steps && st.Trim?) <==> Contains(pre, "trim"))
            && (forall x, y, n :: CropAt(x, y, n) in steps <==>
                  Contains(pre, "crop") && params.Some? && params.value.cropPos == Some((x, y))
                  && n == opt.cropSize)
            && (forall i, j :: 0 <= i < j < |steps| && CropFamily(steps[i]) && CropFamily(steps[j]) ==>
                  CropRank(steps[i]) < CropRank(steps[j]))
  {
    PlanCropView(opt, params, grayscale, convert);
    CropSegmentPresence(opt, params);
    CropSegmentParams(opt, params);
    SameCropKinds(GetTransform(opt, params, grayscale, convert).value, CropSegment(opt, params));
  }

  lemma SplitAround(a: seq<Step>, b: seq<Step>, c: seq<Step>, d: seq<Step>)
    ensures a + b + c + d == a + b + (c + d)
  {
  }

  /** Only the tail holds flips and conversions. */
  lemma OnlyTail(pre: seq<Step>, tail: seq<Step>)
    requires forall x :: x in pre ==> !Finishing(x)
    ensures SameFinishSteps(pre + tail, tail)
  {
  }

  /** Plans that agree on their finishing members agree on which finishing
      steps they hold. */
  lemma SameFinishKinds(steps: seq<Step>, tail: seq<Step>)
    requires SameFinishSteps(steps, tail)
    ensures (exists st :: st in steps && (st.RandomFlip? || st.FlipIf?))
            <==> (exists st :: st in tail && FinishRank(st) == 0)
    ensures forall b :: FlipIf(b) in steps <==> FlipIf(b) in tail
    ensures RandomFlip in steps <==> RandomFlip in tail
    ensures ToTensor in steps <==> ToTensor in tail
    ensures forall c :: Normalize(c) in steps <==> Normalize(c) in tail
  {
  }

  /** In the whole plan, a flip step is present exactly when flipping is
      allowed, replaying a recorded decision when there is one, and the
      tensor conversion and normalisation exactly when converting. */
  lemma PlanFinishChoice(opt: Options, params: Option<ParamRecord>, grayscale: bool, convert: bool)
    requires GetTransform(opt, params, grayscale, convert).Ok?
    ensures var steps := GetTransform(opt, params, grayscale, convert).value;
            && ((exists st :: st in steps && (st.RandomFlip? || st.FlipIf?)) <==> !opt.noFlip)
            && (forall b :: FlipIf(b) in steps <==> !opt.noFlip && params.Some? && params.value.flip == Some(b))
            && (RandomFlip in steps <==> !opt.noFlip && (params.None? || params.value.flip.None?))
            && (ToTensor in steps <==> convert)
            && (forall c :: Normalize(c) in steps <==> convert && c == (if grayscale then 1 else 3))
  {
    PlanFinishView(opt, params, grayscale, convert);
    SameFinishKinds(GetTransform(opt, params, grayscale, convert).value, Tail(opt, params, grayscale, convert));
    TailSteps(opt, params, grayscale, convert);
  }

  /** `steps` holds the same finishing steps as `tail`. */
  ghost predicate SameFinishSteps(steps: seq<Step>, tail: seq<Step>) {
    forall st :: st in steps && Finishing(st) <==> st in tail && Finishing(st)
  }

  /** Within the whole plan the finishing steps are exactly those of the
      tail. */
  lemma PlanFinishView(opt: Options, params: Option<ParamRecord>, grayscale: bool, convert: bool)
    requires GetTransform(opt, params, grayscale, convert).Ok?
    ensures SameFinishSteps(GetTransform(opt, params, grayscale, convert).value, Tail(opt, params, grayscale, convert))
  {
    var head := Head(opt, params, grayscale).value;
    var tail := Tail(opt, params, grayscale, convert);
    assert GetTransform(opt, params, grayscale, convert).value == (head + [MakePower2]) + tail;
    GeometricThenRounding(head);
    OnlyTail(head + [MakePower2], tail);
  }

  lemma GeometricThenRounding(head: seq<Step>)
    requires forall x :: x in head ==> Geometric(x)
    ensures forall x :: x in head + [MakePower2] ==> !Finishing(x)
  {
  }

  /** In the whole plan, the grayscale conversion appears exactly when asked
      for, and the `fixsize` resize exactly when the keyword is present, to
      the recorded size. */
  lemma PlanFixChoice(opt: Options, params: Option<ParamRecord>, grayscale: bool, convert: bool)
    requires GetTransform(opt, params, grayscale, convert).Ok?
    ensures var steps := GetTransform(opt, params, grayscale, convert).value;
            && (Grayscale in steps <==> grayscale)
            && (forall h: nat, w: nat :: Fixsize(h, w) in steps <==>
                  Contains(opt.preprocess, "fixsize") && params.Some? && params.value.size == Some((h, w)))
  {
    PlanAroundFix(opt, params, grayscale, convert);
    AfterFixHasNeither(opt, params, grayscale, convert);
    var gray := if grayscale then [Grayscale] else [];
    GrayFixView(gray, FixSegment(opt, params).value, AfterFix(opt, params, grayscale, convert));
  }

  /** The grayscale and `fixsize` steps of a plan are those of its first
      two segments when the rest holds neither. */
  lemma GrayFixView(gray: seq<Step>, fix: seq<Step>, after: seq<Step>)
    requires forall x :: x in fix ==> x.Fixsize?
    requires forall x :: x in after ==> !x.Grayscale? && !x.Fixsize?
    ensures Grayscale in gray + fix + after <==> Grayscale in gray
    ensures forall h: nat, w: nat :: Fixsize(h, w) in gray + fix + after <==> Fixsize(h, w) in gray + fix
  {
  }

  /** The steps after the `fixsize` resize. */
  function AfterFix(opt: Options, params: Option<ParamRecord>, grayscale: bool, convert: bool): seq<Step> {
    ResizeSegment(opt) + CropSegment(opt, params) + [MakePower2] + Tail(opt, params, grayscale, convert)
  }

  lemma PlanAroundFix(opt: Options, params: Option<ParamRecord>, grayscale: bool, convert: bool)
    requires GetTransform(opt, params, grayscale, convert).Ok?
    ensures FixSegment(opt, params).Ok?
    ensures GetTransform(opt, params, grayscale, convert).value
            == (if grayscale then [Grayscale] else []) + FixSegment(opt, params).value
               + AfterFix(opt, params, grayscale, convert)
  {
    PlanSegments(opt, params, grayscale, convert);
    var gray := if grayscale then [Grayscale] else [];
    var rs, cs, tail := ResizeSegment(opt), CropSegment(opt, params), Tail(opt, params, grayscale, convert);
    RegroupAfter(gray, FixSegment(opt, params).value, rs, cs, [MakePower2], tail);
  }

  lemma RegroupAfter(a: seq<Step>, b: seq<Step>, c: seq<Step>, d: seq<Step>, e: seq<Step>, f: seq<Step>)
    ensures a + b + c + d + e + f == a + b + (c + d + e + f)
  {
  }

  lemma AfterFixHasNeither(opt: Options, params: Option<ParamRecord>, grayscale: bool, convert: bool)
    ensures forall x :: x in AfterFix(opt, params, grayscale, convert) ==> !x.Grayscale? && !x.Fixsize?
  {
    NoGrayscaleOrFix(ResizeSegment(opt), CropSegment(opt, params), Tail(opt, params, grayscale, convert));
  }

  lemma NoGrayscaleOrFix(rs: seq<Step>, cs: seq<Step>, tail: seq<Step>)
    requires forall x :: x in rs ==> x.ResizeTo? || x.ScaleWidth? || x.ScaleShortside?
    requires forall x :: x in cs ==> CropFamily(x)
    requires forall x :: x in tail ==> Finishing(x)
    ensures forall x :: x in rs + cs + [MakePower2] + tail ==> !x.Grayscale? && !x.Fixsize?
  {
  }


  /** The grayscale conversion keeps the size: a plan run with it in front
      ends where the plan alone ends. */
  lemma GrayscalePrefix(grayscale: bool, steps: seq<Step>, si: Size, sd: Size, d: Draws, fixed: bool)
    ensures RunSingle((if grayscale then [Grayscale] else []) + steps, si, d) == RunSingle(steps, si, d)
    ensures RunDual((if grayscale then [Grayscale] else []) + steps, si, sd, d, fixed)
            == RunDual(steps, si, sd, d, fixed)
  {
    if grayscale {
      assert ([Grayscale] + steps)[1..] == steps;
    } else {
      assert [] + steps == steps;
    }
  }

  /** The plan when the geometric keywords contribute the steps `mid`. */
  lemma PlanAround(opt: Options, params: Option<ParamRecord>, grayscale: bool, convert: bool, mid: seq<Step>)
    requires !Contains(opt.preprocess, "fixsize")
    requires ResizeSegment(opt) + CropSegment(opt, params) == mid
    ensures GetTransform(opt, params, grayscale, convert)
            == Ok((if grayscale then [Grayscale] else []) + (mid + [MakePower2] + Tail(opt, params, grayscale, convert)))
  {
    var gray := if grayscale then [Grayscale] else [];
    var tail := Tail(opt, params, grayscale, convert);
    var rs, cs := ResizeSegment(opt), CropSegment(opt, params);
    assert FixSegment(opt, params) == Ok([]);
    assert Head(opt, params, grayscale) == Ok(gray + [] + rs + cs);
    assert GetTransform(opt, params, grayscale, convert) == Ok(gray + [] + rs + cs + [MakePower2] + tail);
    Regroup(gray, rs, cs, [MakePower2], tail);
  }

  lemma Regroup(a: seq<Step>, b: seq<Step>, c: seq<Step>, d: seq<Step>, e: seq<Step>)
    ensures a + [] + b + c + d + e == a + (b + c + d + e)
  {
    assert a + [] == a;
  }

  /** The rounding followed by finishing steps gives the rounded size. */
  lemma RoundThenFinish(tail: seq<Step>, t: Size, d: Draws)
    requires forall st :: st in tail ==> Finishing(st)
    ensures RunSingle([MakePower2] + tail, t, d) == Ok(Rounded(t))
  {
    assert ([MakePower2] + tail)[1..] == tail;
    FinishingKeepsSize(tail, Rounded(t), d);
  }

  /** With no geometric keyword in `preprocess`, the rounding alone decides
      the final size. */
  lemma TransformWithoutKeywords(opt: Options, params: Option<ParamRecord>, grayscale: bool, convert: bool,
                                 s: Size, d: Draws)
    requires !Contains(opt.preprocess, "fixsize") && !Contains(opt.preprocess, "resize")
    requires !Contains(opt.preprocess, "scale_width") && !Contains(opt.preprocess, "scale_shortside")
    requires !Contains(opt.preprocess, "zoom") && !Contains(opt.preprocess, "crop")
    requires !Contains(opt.preprocess, "patch") && !Contains(opt.preprocess, "trim")
    ensures Transform(opt, params, grayscale, convert, s, d) == Ok(Rounded(s))
  {
    var gray := if grayscale then [Grayscale] else [];
    var tail := Tail(opt, params, grayscale, convert);
    var rest := [MakePower2] + tail;
    assert ResizeSegment(opt) + CropSegment(opt, params) == [];
    PlanAround(opt, params, grayscale, convert, []);
    assert [] + [MakePower2] + tail == rest;
    assert GetTransform(opt, params, grayscale, convert) == Ok(gray + rest);
    RoundThenFinish(tail, s, d);
    GrayscalePrefix(grayscale, rest, s, s, d, true);
    assert Transform(opt, params, grayscale, convert, s, d) == RunSingle(gray + rest, s, d);
  }

  /** Both sides rounded to the nearest multiple of the base. */
  function Rounded(t: Size): (r: Size)
    ensures r.w % PowerBase == 0 && r.h % PowerBase == 0
    ensures Apply(Ops.MakePower2(t, PowerBase), t) == r
  {
    Rounding.RoundToMultipleFixes(t.w, PowerBase);
    Rounding.RoundToMultipleFixes(t.h, PowerBase);
    Size(Rounding.RoundToMultiple(t.w, PowerBase), Rounding.RoundToMultiple(t.h, PowerBase))
  }

  /** With a single geometric keyword step `st` in the plan, the transform is
      that step followed by the rounding; the flips and conversions change
      nothing. */
  lemma TransformOneStep(opt: Options, params: Option<ParamRecord>, grayscale: bool, convert: bool,
                         s: Size, d: Draws, st: Step)
    requires !Contains(opt.preprocess, "fixsize")
    requires ResizeSegment(opt) + CropSegment(opt, params) == [st]
    ensures Transform(opt, params, grayscale, convert, s, d)
            == match StepEdit(st, s, d)
               case Err(e) => Err(e)
               case Ok(e) => Ok(Rounded(Apply(e, s)))
  {
    var tail := Tail(opt, params, grayscale, convert);
    var rest := [st] + [MakePower2] + tail;
    PlanAround(opt, params, grayscale, convert, [st]);
    GrayscalePrefix(grayscale, rest, s, s, d, true);
    StepThenRound(st, tail, s, d);
  }

  /** One step, the rounding, then finishing steps: the step's edit
      followed by the rounding, or the step's error. */
  lemma StepThenRound(st: Step, tail: seq<Step>, s: Size, d: Draws)
    requires forall x :: x in tail ==> Finishing(x)
    ensures RunSingle([st] + [MakePower2] + tail, s, d)
            == match StepEdit(st, s, d)
               case Err(e) => Err(e)
               case Ok(e) => Ok(Rounded(Apply(e, s)))
  {
    assert ([st] + [MakePower2] + tail)[1..] == [MakePower2] + tail;
    match StepEdit(st, s, d)
    case Err(_) =>
    case Ok(e) =>
      RoundThenFinish(tail, Apply(e, s), d);
  }

  /** With a single geometric keyword step `st` whose as-written dual helper
      hands back the image alone, the as-written `dual_transform` raises
      while unpacking, whatever the later steps. */
  lemma DualAsWrittenRaisesOnStep(opt: Options, params: Option<ParamRecord>, grayscale: bool, convert: bool,
                                  si: Size, sd: Size, d: Draws, st: Step)
    requires !Contains(opt.preprocess, "fixsize")
    requires ResizeSegment(opt) + CropSegment(opt, params) == [st]
    requires StepDual(st, si, d, false).Ok? && StepDual(st, si, d, false).value.Single?
    ensures DualTransformAsWritten(opt, params, grayscale, convert, si, sd, d) == Err(CannotUnpack)
  {
    var tail := Tail(opt, params, grayscale, convert);
    var rest := [st] + [MakePower2] + tail;
    PlanAround(opt, params, grayscale, convert, [st]);
    GrayscalePrefix(grayscale, rest, si, sd, d, false);
    assert RunDual(rest, si, sd, d, false) == Err(CannotUnpack);
  }
}
