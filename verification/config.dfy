/** The run options the pipeline reads, and the per-sample parameter record.
    A Python dict that may lack a key becomes a record of `Option` fields; a
    missing record (`params=None`) is `None` at the use site. */
module Config {
  import opened Wrappers

  /** `opt.preprocess`, `opt.load_size`, `opt.crop_size`, `opt.no_flip`,
      `opt.dataroot`. */
  datatype Options = Options(
    preprocess: string,
    loadSize: nat,
    cropSize: nat,
    noFlip: bool,
    dataroot: string)

  /** The keys `crop_pos`, `flip`, `scale_factor`, `patch_index` and `size`
      of a parameter dict. `size` is the `(height, width)` list handed to the
      library's resize. */
  datatype ParamRecord = ParamRecord(
    cropPos: Option<(int, int)>,
    flip: Option<bool>,
    scaleFactor: Option<(real, real)>,
    patchIndex: Option<int>,
    size: Option<(nat, nat)>)
}
