/** `_has_dense_window` (backend/analyzer.py:134-146): the two-pointer scan
    over an account's sorted timestamps. */
module Window {
  import opened Seqs
  import opened Ordering
  import opened Ledger

  /** `SMURF_MIN`. */
  const SMURF_MIN: nat := 10

  /** `SMURF_WINDOW_HOURS * 3600` seconds. */
  const WINDOW: nat := 72 * 3600

  /** Some `SMURF_MIN` consecutive entries of the sorted sequence lie within
      `WINDOW` seconds of each other. */
  predicate Dense(ts: seq<int>) {
    exists i :: 0 <= i && i + SMURF_MIN <= |ts| && ts[i + SMURF_MIN - 1] - ts[i] <= WINDOW
  }

  /** There is a dense window exactly when the present timestamps, sorted,
      contain `SMURF_MIN` consecutive ones spanning at most `WINDOW`; in
      particular never with fewer than `SMURF_MIN` present timestamps. */
  method HasDenseWindow(timestamps: seq<Option<int>>) returns (dense: bool)
    ensures dense == Dense(SortInts(Present(timestamps)))
    ensures |Present(timestamps)| < SMURF_MIN ==> !dense
  {
    var ts := SortInts(Present(timestamps));
    SortIntsSorted(Present(timestamps));
    if |ts| < SMURF_MIN {
      return false;
    }
    var left := 0;
    for right := 0 to |ts|
      invariant left <= right
      invariant forall i :: 0 <= i < left ==> right > 0 && ts[right - 1] - ts[i] > WINDOW
      invariant forall j :: SMURF_MIN - 1 <= j < right ==> ts[j] - ts[j - (SMURF_MIN - 1)] > WINDOW
    {
      assert forall i :: 0 <= i < left ==> ts[right] - ts[i] > WINDOW by {
        forall i | 0 <= i < left ensures ts[right] - ts[i] > WINDOW {
          assert IntLe(ts[right - 1], ts[right]);
        }
      }
      while ts[right] - ts[left] > WINDOW
        invariant left <= right
        invariant forall i :: 0 <= i < left ==> ts[right] - ts[i] > WINDOW
        decreases right - left
      {
        left := left + 1;
      }
      if right - left + 1 >= SMURF_MIN {
        ghost var i := right - (SMURF_MIN - 1);
        assert IntLe(ts[left], ts[i]) || left == i;
        return true;
      }
      if right >= SMURF_MIN - 1 {
        ghost var i := right - (SMURF_MIN - 1);
        assert i < left;
      }
    }
    return false;
  }
}
