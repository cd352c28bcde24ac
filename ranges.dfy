/** Python's `range(lo, hi)` with step 1, shared by the selection expansion and the runs of frames. */
module Ranges {
  /** `lo, lo + 1, ..., hi - 1`; empty when `hi <= lo`. */
  function Range(lo: int, hi: int): (s: seq<int>)
    ensures |s| == if hi <= lo then 0 else hi - lo
    decreases hi - lo
  {
    if hi <= lo then [] else Range(lo, hi - 1) + [hi - 1]
  }

  /** Element `k` of the range is `lo + k`. */
  lemma {:induction false} RangeIndex(lo: int, hi: int, k: nat)
    requires k < |Range(lo, hi)|
    ensures Range(lo, hi)[k] == lo + k
    decreases hi - lo
  {
    if k < |Range(lo, hi - 1)| {
      RangeIndex(lo, hi - 1, k);
    }
  }
}
