/** The random source, made an explicit input. Each operation's helper takes
    the value it draws as a parameter constrained to the range its call site
    draws from; the pipeline, which cannot know those ranges in advance,
    receives one arbitrary number per draw and maps it into the range with
    `Pick` or `PickReal`. Both reach every value of their range, so no
    outcome of the sampling in `data/base_dataset.py` is lost. */
module Sampling {

  /** `random.randint(lo, hi)`: an integer in `[lo, hi]`, both inclusive. */
  function Pick(k: int, lo: int, hi: int): (v: int)
    requires lo <= hi
    ensures lo <= v <= hi
  {
    lo + k % (hi - lo + 1)
  }

  /** `np.random.uniform(lo, hi)`: a real in `[lo, hi)`. A value already in
      the range is drawn as itself, so every outcome is reached; one outside
      it stands for `lo`. */
  function PickReal(x: real, lo: real, hi: real): (v: real)
    requires lo < hi
    ensures lo <= v < hi
    ensures lo <= x < hi ==> v == x
  {
    if lo <= x < hi then x else lo
  }

  /** Every value of the range is drawn by some integer. */
  lemma PickCovers(lo: int, hi: int, v: int)
    requires lo <= v <= hi
    ensures Pick(v - lo, lo, hi) == v
  {
  }
}
