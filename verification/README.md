# Image/depth preprocessing of the structure-preserving CycleGAN

This project models the preprocessing core of `data/base_dataset.py` in Dafny.
That core builds the chain of image transforms that every dataset applies
before training:

- `get_params` draws a crop offset and a flip decision;
- `get_transform` composes the single-image transforms;
- `dual_transform` applies the same chain to an RGB image and its depth map.

The model works on geometry:

- An image is described by its `Size`.
- Each step becomes an `Edit`: keep, resize to a size, crop a `Box`, or mirror.
- Crop (with PIL's zero padding outside the image) and mirror are also given
  on pixel grids, so that "crop inside copies pixels" and "flipping twice is
  the identity" are stated about pixels, not only about sizes.

Modules, in dependency order:

- `Wrappers` holds `Option` and `Result`.
- `Geometry` holds sizes, boxes, edits and the error kinds.
- `Rounding` models Python's half-to-even `round`, both on exact quotients
  and on reals.
- `Keywords` models Python's substring test `sub in s`.
- `Sampling` maps an arbitrary integer draw into a `randint` range.
- `Raster` holds pixel grids.
- `Ops` holds the single-image helpers (`__make_power_2`, `__scale_width`,
  `__scale_shortside`, `__random_zoom`, `__crop`, the library's `RandomCrop`,
  `__patch`, `__trim`, `__flip`).
- `DualOps` holds the `__*_dual` helpers. All but two follow the source and
  are proved to give both rasters their single-image counterpart's edit.
  `__scale_width_dual` and `__scale_shortside_dual` appear twice: as written
  (`ScaleWidthDualAsWritten`, `ScaleShortsideDualAsWritten`), where the no-op
  branch returns the image alone, and corrected (`ScaleWidthDual`,
  `ScaleShortsideDual`), where it returns both rasters; see Findings.
- `Config` holds the options and the parameter record.
- `Params` holds `get_params`.
- `Pipeline` holds the plan that `get_transform` and `dual_transform` share,
  and its run on one image or on an image/depth pair.
- `Scenarios` holds worked examples and the inputs that expose the defects
  listed under Findings.

The plan is a list of `Step`s built by the same `if`/`elif` chain as lines
84-131 and 343-386. The chain keys on substrings of `preprocess`, so
`"resize_and_crop"` both resizes and crops. The properties proved about it:

- The rounding to multiples of 4 happens exactly once, after every geometric
  step and before every flip or conversion.
- So every successful run ends on multiples of 4.
- `resize`, `scale_width` and `scale_shortside` exclude each other, in that
  order of priority.
- `zoom`, `crop`, `patch` and `trim` each add their step exactly when present,
  in that order; a recorded `crop_pos` replaces the random crop.
- A flip step is present exactly when `no_flip` is off, and replays a
  recorded `flip` when there is one; the tensor conversion is present exactly
  when `convert` is set; `fixsize` adds exactly a resize to `params["size"]`.

`dual_transform` runs the same plan through the `__*_dual` helpers. Every
helper reads the size of the image only, as in the source. The properties:

- With the corrected helpers it never fails to unpack.
- On an image and a depth map of the same size, it is the single-image
  transform applied to both.
- The as-written version raises the unpacking error exactly when the
  corrected run meets a scale helper on its no-op branch, and otherwise agrees
  with the corrected one. With `resize` in `preprocess`, or with neither
  `scale_width` nor `scale_shortside`, it always agrees.

Two consequences of the code worth stating plainly:

- torchvision's `Resize` reads its list as (height, width), so on the
  gta2cityscapes data `osize[0] = load_size // 2` halves the height. A 256
  load size gives a 256-wide, 128-high image (`Scenarios.GtaResizeScenario`).
- With `preprocess="none"`, the rounding turns a 101 x 103 image into
  100 x 104 (`Scenarios.NoneScenario`).

## Model

| member | source | states |
|---|---|---|
| Rounding.RoundDiv | data/base_dataset.py:137-138 | `round(n / d)` lies within half a unit of the exact quotient, and on a tie it is even |
| Rounding.HalfEvenRoundingUnique | data/base_dataset.py:137-138 | two half-to-even roundings of the same quotient are equal |
| Rounding.RoundDivUnique | data/base_dataset.py:137-138 | any half-to-even rounding of `n / d` is the one `RoundDiv` computes |
| Rounding.RoundToMultiple | data/base_dataset.py:137-138 | `int(round(n / base) * base)` is a multiple of `base` within half of `base` of `n`, and on a tie it is the even multiple |
| Rounding.NearestMultipleUnique | data/base_dataset.py:137-138 | the nearest multiple is unique, so the reference predicate pins down the rounded side |
| Rounding.RoundToMultipleFixes | data/base_dataset.py:139-140 | a side is left unchanged exactly when it is already a multiple of the base |
| Rounding.RoundReal | data/base_dataset.py:161 | Python's `round` of a real is within half a unit of it, ties to even |
| Keywords.Contains | data/base_dataset.py:87-114 | Python's `sub in s`: the empty keyword is in every string, and a keyword found is no longer than the string |
| Keywords.ContainsIffOccurs | data/base_dataset.py:87 | the recursive substring test holds exactly when the keyword occurs at some index of the option string |
| Keywords.ContainsChars | data/base_dataset.py:87 | every character of a keyword found in the option string occurs in that string |
| Keywords.MissingCharRulesOut | data/base_dataset.py:87 | a keyword with a character the option string lacks is not in it |
| Sampling.Pick | data/base_dataset.py:75-76 | an arbitrary draw is mapped into the inclusive `randint` range |
| Sampling.PickCovers | data/base_dataset.py:75-76 | every value of the range is reached by some draw, so the mapping loses no outcome |
| Sampling.PickReal | data/base_dataset.py:155 | an arbitrary real is mapped into the half-open `np.random.uniform` range `[lo, hi)`, and every value of that range is drawn as itself |
| Raster.CropGrid | data/base_dataset.py:249 | the cropped grid has the box's size, and each pixel is the source pixel at the box offset or the padding value outside the image |
| Raster.CropInsideCopies | data/base_dataset.py:249 | a box inside the image copies the source pixels, with no padding |
| Raster.CropWholeIsIdentity | data/base_dataset.py:249 | cropping the whole image gives the image back |
| Raster.FlipGrid | data/base_dataset.py:293 | a left-right mirror keeps the shape and sends column `j` to column `w - 1 - j` |
| Raster.FlipTwiceIsIdentity | data/base_dataset.py:291-294 | mirroring twice gives the image back |
| Raster.ApplyGrid | data/base_dataset.py:249 | every non-resize edit yields a grid of the size the geometric edit predicts |
| Raster.EditKeepsPairs | data/base_dataset.py:252-258 | editing an image/depth pair as one zipped grid equals editing each raster separately, so one box keeps pixels aligned |
| Ops.MakePower2 | data/base_dataset.py:135-142 | the image is kept exactly when both sides are multiples of the base; otherwise each side becomes its nearest multiple |
| Ops.MakePower2Idempotent | data/base_dataset.py:135-142 | rounding an already rounded image keeps it |
| Ops.ScaleWidth | data/base_dataset.py:227-233 | kept exactly when the width is the target and the height reaches the crop; raises exactly on a zero width that is not kept as is; otherwise a resize whose width is the target and whose height is the truncated proportional height, but at least the crop |
| Ops.ScaleWidthIdempotent | data/base_dataset.py:227-233 | scaling an already scaled image keeps it |
| Ops.ScaleShortside | data/base_dataset.py:177-184 | kept exactly when the short side reaches the target; raises exactly on a zero short side below a positive target; otherwise a resize whose short side becomes the target and each of whose sides is the half-to-even rounding of the old side times `target / short` |
| Ops.ScaledSide | data/base_dataset.py:183-184 | `round(n * (target / short))` is the half-to-even rounding of the exact product, at least the target, and exactly the target for the short side |
| Ops.ScaledSideAtLeast | data/base_dataset.py:183-184 | the rounded long side is at least the target, and the short side rounds to the target exactly |
| Ops.RandomZoom | data/base_dataset.py:153-162 | the zoomed image is resized, each side at least the crop size, and with a factor at most 1 each side is at most the larger of the crop and the old side |
| Ops.ZoomSide | data/base_dataset.py:159-161 | one zoomed side, `round(max(crop, n * f))`, is at least the crop and, for `f <= 1`, at most the larger of the crop and `n` |
| Ops.Crop | data/base_dataset.py:244-250 | kept exactly when both sides are at most the crop size; otherwise a `size x size` box at the given offset |
| Ops.CropInRangeIsInside | data/base_dataset.py:244-250 | an offset in range gives a box inside the image |
| Ops.CropIdempotent | data/base_dataset.py:244-250 | cropping the cropped image again is a no-op |
| Ops.RandomCrop | data/base_dataset.py:107 | raises exactly when a side is shorter than the crop; otherwise the `size x size` box at the drawn offset, inside the image |
| Ops.TileOf | data/base_dataset.py:268-270 | the tile's column and row are in the grid, and the index modulo the tile count is `column * rows + row` |
| Ops.TileOfNumbering | data/base_dataset.py:268-270 | distinct indices below the tile count give distinct tiles, and indices a tile count apart give the same tile |
| Ops.Room | data/base_dataset.py:263-264 | the margin left over by whole tiles is less than one tile, and the whole tiles cover exactly the rest of the axis, so the margin is the side modulo the tile size |
| Ops.NoTilesIffShort | data/base_dataset.py:262 | there are no whole tiles along an axis exactly when it is shorter than a tile |
| Ops.Patch | data/base_dataset.py:260-273 | raises exactly on a zero tile size or a side shorter than a tile; otherwise a `size x size` box inside the image, at the margin plus the grid position of the index's tile |
| Ops.PatchBox | data/base_dataset.py:265-273 | the tile box lies inside the image and sits at the drawn margin plus the tile's grid position |
| Ops.TileInside | data/base_dataset.py:271-273 | a tile in any column fits inside the image, whatever margin is drawn |
| Ops.Trim | data/base_dataset.py:195-209 | a box inside the image whose sides are capped at the trim size; it starts at 0 on short axes and at the drawn start on long ones, and it never reaches the last pixel there (`randint`'s bound is exclusive) |
| Ops.TrimIdempotent | data/base_dataset.py:195-209 | trimming a trimmed image again cuts out the whole image, whatever start is drawn |
| Ops.Flip | data/base_dataset.py:291-294 | the edit is a mirror exactly when asked to flip, and keeps the image otherwise |
| Ops.FlipProperties | data/base_dataset.py:291-294 | flipping keeps the size, a false flag keeps the pixels, and flipping twice restores them |
| DualOps.Unpack | data/base_dataset.py:353 | `img, depth = ...` raises exactly when the helper returned a single image, and then the error is the unpacking error |
| DualOps.MakePower2Dual | data/base_dataset.py:144-151 | both rasters get the edit `__make_power_2` computes from the image |
| DualOps.ScaleWidthDualAsWritten | data/base_dataset.py:235-241 | returns the image alone exactly when the width is the target and the height reaches the crop; otherwise the pair resize, computed from lines 239-241, is the single-image edit given to both rasters |
| DualOps.ScaleWidthDual | data/base_dataset.py:235-241 | the corrected helper succeeds exactly when `__scale_width` does, and gives both rasters its edit |
| DualOps.ScaleShortsideDualAsWritten | data/base_dataset.py:186-193 | returns the image alone exactly when the short side reaches the target; otherwise the pair resize, computed from lines 192-193, is the single-image edit given to both rasters |
| DualOps.ScaleShortsideDual | data/base_dataset.py:186-193 | the corrected helper succeeds exactly when `__scale_shortside` does, and gives both rasters its edit |
| DualOps.RandomZoomDual | data/base_dataset.py:164-174 | both rasters get the zoom computed from the image |
| DualOps.CropDual | data/base_dataset.py:252-258 | both rasters get the crop `__crop` computes from the image |
| DualOps.RandomCropDual | data/base_dataset.py:332-336 | both rasters are cut with the one square drawn from the image's size |
| DualOps.PatchDual | data/base_dataset.py:275-288 | both rasters get the tile `__patch` computes from the image |
| DualOps.TrimDual | data/base_dataset.py:211-225 | both rasters get the window `__trim` computes from the image |
| DualOps.FlipDual | data/base_dataset.py:297-302 | one decision, given or drawn, mirrors both rasters or neither |
| DualOps.ScaleWidthDualAsWrittenCannotUnpack | data/base_dataset.py:237-238 | a 200 x 180 image with target 200 and crop 180 is returned alone, the caller's unpacking raises, and the corrected helper keeps both |
| DualOps.ScaleShortsideDualAsWrittenCannotUnpack | data/base_dataset.py:189-190 | a 200 x 150 image with target 100 is returned alone, the caller's unpacking raises, and the corrected helper keeps both |
| Params.PreCropSize | data/base_dataset.py:66-73 | the predicted size is the load square for `resize_and_crop`, the load width with the floored proportional height for `scale_width_and_crop`, and the image's own size otherwise; floor division by a zero width raises |
| Params.GetParams | data/base_dataset.py:65-80 | succeeds exactly when the prediction does; records the drawn offset and `u > 0.5` as the flip, and nothing else; the offset leaves room for a whole crop on each axis that can hold one and is 0 on the others |
| Params.ResizeOffsetsFit | data/base_dataset.py:69-76 | on `resize_and_crop` away from gta2cityscapes, the crop replayed at the drawn offset on the resized image is a no-op or lies inside it |
| Params.PreCropSizeCorrected | data/base_dataset.py:69-70 | corrected prediction: on `resize_and_crop` it is the size the plan's load resize produces, halved height included; otherwise as written |
| Params.GetParamsCorrected | data/base_dataset.py:65-80 | `get_params` with the corrected prediction: the same record, and the offset leaves room for a whole crop on every axis of the resized image that can hold one |
| Params.ResizeOffsetsFitCorrected | data/base_dataset.py:69-76 | with the corrected prediction, on `resize_and_crop` and on every dataset, the replayed crop is a no-op or lies inside the resized image whenever that image can hold it |
| Params.ScaleWidthOffsetsFit | data/base_dataset.py:71-76 | on `scale_width_and_crop` with a crop no larger than the load size, the crop replayed at the drawn offset on the width-scaled image is a no-op or lies inside it |
| Pipeline.LoadResize | data/base_dataset.py:90-93 | the load resize is `load_size` wide; its height is `load_size`, or the floor of half of it when `'gta2cityscapes' in opt.dataroot` (the predicate `Pipeline.IsGta`) |
| Pipeline.FixSegment | data/base_dataset.py:87-88 | without `fixsize` nothing is added; with it, a missing `size` parameter raises, and otherwise exactly the resize to `params["size"]` is added |
| Pipeline.ResizeSegment | data/base_dataset.py:89-97 | the `if`/`elif` chain: a load resize when `resize` is present, otherwise a width scaling for `scale_width`, otherwise a short-side scaling for `scale_shortside` |
| Pipeline.CropSegment | data/base_dataset.py:99-115 | no crop keyword gives no step, and only zoom, crop, patch and trim steps come from here |
| Pipeline.CropSegmentOrder | data/base_dataset.py:99-115 | at most one step per keyword, in the order `zoom`, `crop`, `patch`, `trim` |
| Pipeline.CropSegmentSizes | data/base_dataset.py:99-115 | every step of the segment zooms or cuts to `crop_size` |
| Pipeline.CropSegmentPresence | data/base_dataset.py:99-115 | each of `zoom`, `crop`, `patch` and `trim` is present exactly when its step is |
| Pipeline.CropSegmentParams | data/base_dataset.py:99-112 | a crop at a recorded position is present exactly when `crop` is and the record holds `crop_pos`; the zoom draws its factors without a record and reads `scale_factor` with one; the patch reads `patch_index` |
| Pipeline.Head | data/base_dataset.py:84-115 | the geometric steps are grayscale, then fixsize, resize and crop segments in that order, and building them fails exactly when the fixsize lookup does |
| Pipeline.Tail | data/base_dataset.py:120-131 | the steps after the rounding are flips and conversions only |
| Pipeline.FlipPart | data/base_dataset.py:120-124 | no flip under `no_flip`; otherwise a random flip exactly when there is no record or it lacks `flip`, and the recorded decision replayed exactly when it has one |
| Pipeline.ConvertPart | data/base_dataset.py:126-131 | the tensor conversion and one normalisation exactly when `convert`, normalising one channel for grayscale and three otherwise |
| Pipeline.TailSteps | data/base_dataset.py:120-131 | flip, then tensor conversion, then normalisation; a flip exactly when `no_flip` is off, replaying the recorded `flip` exactly when there is one; conversion exactly when `convert`, normalising one channel for grayscale and three otherwise |
| Pipeline.GetTransform | data/base_dataset.py:83-132 | building the plan raises exactly when `fixsize` is requested without a `size` parameter; otherwise the rounding occurs once, after every geometric step and before every finishing step |
| Pipeline.RoundedPlanShape | data/base_dataset.py:117-131 | geometric steps, then the rounding, then finishing steps make a plan that rounds once and in order |
| Pipeline.ZoomDraw | data/base_dataset.py:155 | both sampled zoom factors lie in `[0.8, 1.0)`, and every pair in that range is reached |
| Pipeline.SampledZoomBounds | data/base_dataset.py:154-161 | a zoom with sampled factors never raises, and each side ends between the crop size and the larger of the crop size and the old side |
| Pipeline.CropOffsets | data/base_dataset.py:107 | the random crop's offset lies in the range that fits the crop |
| Pipeline.PatchStarts | data/base_dataset.py:265-266 | the patch margins lie in `[0, room]` on each axis |
| Pipeline.RandomCropReachesEvery | data/base_dataset.py:107 | every offset that fits the crop is drawn by some value of the crop draws |
| Pipeline.TrimStarts | data/base_dataset.py:198-204 | the trim starts lie in `[0, n - size)` on each long axis |
| Pipeline.StepEdit | data/base_dataset.py:85-131 | a step raises only a division by zero, a too-large random crop or a missing `scale_factor` or `patch_index`; flips and conversions never raise nor resize |
| Pipeline.RunSingle | data/base_dataset.py:132 | the composed transform raises only what one of its steps raises |
| Pipeline.StepDual | data/base_dataset.py:343-386 | a dual step never raises the unpacking error itself; a single image comes back only from an as-written scale helper on its no-op branch, unchanged; the corrected steps give both rasters the same edit |
| Pipeline.RunDual | data/base_dataset.py:342-388 | with the corrected helpers, the unpacking after each step never fails, whatever the two sizes |
| Pipeline.FinishingKeepsSize | data/base_dataset.py:120-131 | flips and conversions never fail and never change the size |
| Pipeline.RunEndsRounded | data/base_dataset.py:118-131 | a run whose last resizing step is the rounding ends on multiples of 4 |
| Pipeline.PlanEndsRounded | data/base_dataset.py:83-132 | every successful run of a built plan ends on multiples of 4 |
| Pipeline.Transform | data/base_dataset.py:83-132 | every successful transform ends on multiples of 4, and a plan that cannot be built gives the missing `size` error |
| Pipeline.StepDualIsBoth | data/base_dataset.py:343-386 | each corrected dual step gives both rasters the single-image step's edit |
| Pipeline.StepDualAsWrittenDeviation | data/base_dataset.py:352-355 | an as-written dual step returns the image alone exactly when it is a width scaling with the width already the target and the height reaching the crop, or a short-side scaling with the short side already reaching the target; every other step agrees with the corrected one |
| Pipeline.DualRunMatchesSingle | data/base_dataset.py:342-388 | on an image and a depth map of equal size, the corrected dual run is the single run applied to both |
| Pipeline.AsWrittenFailsOrAgrees | data/base_dataset.py:352-355 | the as-written dual run raises the unpacking error exactly when the corrected run meets a scale step on its no-op branch, and equals the corrected run otherwise |
| Pipeline.ReachesNoOpFirst | data/base_dataset.py:342-388 | a no-op scale step is met at the first step, or, once the corrected first step succeeds, somewhere in the rest of the run |
| Pipeline.NoScaleStepsAgree | data/base_dataset.py:352-355 | a run without width or short-side scaling gives the same result with the helpers as written and corrected |
| Pipeline.DualTransform | data/base_dataset.py:342-388 | `dual_transform` with the corrected helpers never fails to unpack, and on equal sizes it equals `get_transform` applied to both rasters |
| Pipeline.DualTransformAsWritten | data/base_dataset.py:342-388 | `dual_transform` as written raises the unpacking error exactly when its plan, run with the corrected helpers, meets a scale step on its no-op branch, and equals the corrected version otherwise |
| Pipeline.DualTransformAsWrittenAgrees | data/base_dataset.py:89-97 | with `resize` in `preprocess`, or with neither `scale_width` nor `scale_shortside`, `dual_transform` as written equals the corrected version |
| Pipeline.PlanResizeChoice | data/base_dataset.py:89-97 | the plan holds a load resize exactly when `resize` is present, a width scaling exactly when `scale_width` is and `resize` is not, and a short-side scaling exactly when only `scale_shortside` is; the load resize is `load` wide and `load` high, or `load // 2` high on gta2cityscapes |
| Pipeline.ResizeSegmentChoice | data/base_dataset.py:89-97 | the resize segment holds a load resize exactly when `resize` is present, a width scaling exactly when `scale_width` is and `resize` is not, a short-side scaling exactly when only `scale_shortside` is, and the load resize has the gta-dependent target |
| Pipeline.PlanResizeView | data/base_dataset.py:84-131 | in the whole plan, the resizing steps are exactly those of the resize segment |
| Pipeline.PlanFinishView | data/base_dataset.py:84-131 | in the whole plan, the flips and conversions are exactly those of the tail |
| Pipeline.PlanSegments | data/base_dataset.py:84-131 | a built plan is grayscale, fixsize, resize and crop segments, the rounding, and the tail, in that order |
| Pipeline.PlanCropView | data/base_dataset.py:99-115 | in the whole plan, the zoom, crop, patch and trim steps are exactly the crop segment's, in its order |
| Pipeline.PlanCropChoice | data/base_dataset.py:99-115 | in the whole plan, each of `zoom`, `crop`, `patch` and `trim` is present exactly when its step is, they come in that order, and a crop at a recorded position appears exactly when `crop` is present and the record holds `crop_pos` |
| Pipeline.PlanFinishChoice | data/base_dataset.py:120-131 | in the whole plan, a flip step appears exactly when `no_flip` is off, it replays the recorded `flip` exactly when there is one, and the tensor conversion and normalisation appear exactly when `convert` |
| Pipeline.PlanFixChoice | data/base_dataset.py:85-88 | in the whole plan, the grayscale conversion appears exactly when asked for, and a fixed resize to `(h, w)` exactly when `fixsize` is present and the record's `size` is `(h, w)` |
| Pipeline.GrayscalePrefix | data/base_dataset.py:85-86 | the grayscale conversion changes no size in either run |
| Pipeline.PlanAround | data/base_dataset.py:84-132 | without `fixsize`, the plan is grayscale, the keyword steps, the rounding and the finishing steps |
| Pipeline.RoundThenFinish | data/base_dataset.py:118-131 | the rounding followed by flips and conversions gives the rounded size |
| Pipeline.TransformWithoutKeywords | data/base_dataset.py:117-131 | with no geometric keyword, the result is the image rounded to multiples of 4 |
| Pipeline.Rounded | data/base_dataset.py:135-142 | the rounded size is a multiple of 4 on both sides and is what `__make_power_2` produces |
| Pipeline.TransformOneStep | data/base_dataset.py:83-132 | with a single keyword step, the transform is that step followed by the rounding, and it fails exactly when that step does |
| Pipeline.StepThenRound | data/base_dataset.py:117-131 | one step, the rounding and then flips and conversions give the step's edit followed by the rounding, or the step's error |
| Pipeline.DualAsWrittenRaisesOnStep | data/base_dataset.py:352-355 | a single keyword step whose as-written dual helper returns the image alone makes the as-written `dual_transform` raise |
| Scenarios.ResizeScenario | data/base_dataset.py:89-93 | `resize` with load 256 turns a 300 x 200 image into 256 x 256 |
| Scenarios.GtaResizeScenario | data/base_dataset.py:90-93 | on gta2cityscapes, `resize` with load 256 gives 256 wide and 128 high |
| Scenarios.ScaleWidthScenario | data/base_dataset.py:227-233 | `scale_width` with load 200 and crop 180 turns 400 x 100 into 200 x 180 |
| Scenarios.CropScenario | data/base_dataset.py:105-109 | `crop` of 128 at (10, 10) turns 300 x 300 into 128 x 128 |
| Scenarios.NoneScenario | data/base_dataset.py:117-118 | with `none`, 101 x 103 is rounded to 100 x 104 |
| Scenarios.RoundingTies | data/base_dataset.py:135-142 | sides 6 and 10 sit on ties and both round to the even multiple, 8 |
| Scenarios.ScaleWidthDualFinding | data/base_dataset.py:352-353 | with `scale_width`, load 200 and crop 180 on a 200 x 180 pair, the as-written `dual_transform` raises and the corrected one returns both rasters unchanged |
| Scenarios.ScaleShortsideDualFinding | data/base_dataset.py:354-355 | with `scale_shortside` and load 100 on a 200 x 152 pair, the as-written `dual_transform` raises and the corrected one returns both rasters unchanged |
| Scenarios.GetParamsGtaOverrun | data/base_dataset.py:69-76 | on gta2cityscapes, `get_params` may draw `y = 128` for `resize_and_crop` with load 256 and crop 128, and the replayed crop then lies wholly below the 128-high image; the corrected prediction allows only `y = 0` |

## Left out

- `BaseDataset`, the abstract dataset class, holds no preprocessing logic.
- Pixel values of resizing, grayscale conversion, `ToTensor` and
  `Normalize` are not modelled: PIL and torchvision compute them in floating
  point. Only sizes are modelled for these steps. Crop and mirror are also
  modelled on pixel grids.
- The interpolation `method` only affects pixel values, so the model does not
  carry it.
- Floating point:
  - `target * oh / ow` in `__scale_width` is modelled as the exact rational
    quotient, truncated.
  - `target / shortside` and `ow * scale` in `__scale_shortside` are modelled
    as the exact rational `ow * target / shortside`, rounded half to even.
  - `oh / base` in `__make_power_2` is modelled as the exact rational
    quotient.
  - The zoom factors are exact reals.
  - These agree with the float results only while no rounding error crosses
    a tie or an integer.
- Randomness is not modelled. Every `randint`, `random.random`, `np.random`
  draw and the coin of `RandomHorizontalFlip` is a parameter. In the plan,
  the draws are arbitrary numbers that `Sampling.Pick` (integers) and
  `Sampling.PickReal` (the zoom factors, into `[0.8, 1.0)`) map into range.
- `__print_size_warning` and its print-once flag only print.
- With `fixsize`, `params["size"]` is taken to be a `(height, width)` pair.
  torchvision's scaling of the shorter side for a single integer is not
  modelled.
- PIL's own errors are not modelled (a resize to a zero side, for example).
  Only the errors the source raises itself are modelled: division by zero,
  a missing parameter key, `RandomCrop` on an image smaller than the crop,
  and unpacking a single image.
- `load_size` and `crop_size` are natural numbers. The command line does not
  forbid negative values, but PIL fails on the sizes they produce.
- Params.ResizeOffsetsFit: stated away from gta2cityscapes only, because the
  gta case does not hold as written; `Scenarios.GetParamsGtaOverrun` exhibits
  the overrun and Findings lists it.
- Params.ResizeOffsetsFitCorrected: says nothing when the resized image is
  lower than the crop. The replayed crop is then padded, as `__crop` pads any
  image smaller than the crop.
- Params.ScaleWidthOffsetsFit: assumes the crop is no larger than the load
  size. A narrower image cannot hold the crop, and the replayed crop is then
  padded.
- Ops.RandomZoom: the upper bound on the zoomed sides is stated only for
  factors at most 1. A factor replayed from `params["scale_factor"]` may be
  larger. The sampled factors always satisfy the bound, because
  `Pipeline.ZoomDraw` keeps them in `[0.8, 1.0)`; `Pipeline.SampledZoomBounds`
  states the bound for the sampled zoom step.

## Findings

| source | as written | input that shows it | evidently intended | confidence | as-written member | corrected member |
|---|---|---|---|---|---|---|
| data/base_dataset.py:237-238 | `__scale_width_dual` returns `img` alone when the image already has the target width and at least the crop height, and the caller's `img, depth = ...` then raises | `preprocess="scale_width"`, `load_size=200`, `crop_size=180`, image and depth 200 x 180 (`Scenarios.ScaleWidthDualFinding`, `DualOps.ScaleWidthDualAsWrittenCannotUnpack`) | return `img, depth` unchanged, as `__make_power_2_dual` does on its no-op branch | high, not executed | DualOps.ScaleWidthDualAsWritten | DualOps.ScaleWidthDual |
| data/base_dataset.py:69-70 | on `resize_and_crop`, `get_params` predicts a `load_size` x `load_size` image even on the gta2cityscapes data, where the resize halves the height, so the drawn `y` may place the replayed crop below the image | `preprocess="resize_and_crop"`, `load_size=256`, `crop_size=128`, dataroot containing `gta2cityscapes`: `y = 128` may be drawn for a 256 x 128 image (`Scenarios.GetParamsGtaOverrun`) | predict the halved height, so that the offset fits the resized image | medium, not executed | Params.GetParams | Params.GetParamsCorrected |
| data/base_dataset.py:189-190 | `__scale_shortside_dual` returns `img` alone when the short side already reaches the target, and the caller's `img, depth = ...` then raises | `preprocess="scale_shortside"`, `load_size=100`, image and depth 200 x 152 (`Scenarios.ScaleShortsideDualFinding`, `DualOps.ScaleShortsideDualAsWrittenCannotUnpack`) | return `img, depth` unchanged | high, not executed | DualOps.ScaleShortsideDualAsWritten | DualOps.ScaleShortsideDual |

The corrected prediction's property is `Params.ResizeOffsetsFitCorrected`.
`Pipeline.DualTransform` uses the corrected helpers. `Pipeline.DualTransformAsWritten`
uses the helpers as written. It raises the unpacking error exactly when a
scale helper meets its no-op branch during the run, and agrees with the
corrected version otherwise.
