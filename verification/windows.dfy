/**
 The window primitive of the rule engine: `sliding_window` enumerates the
 contiguous slices of fixed length of a sample list, in increasing order of
 their starting index.
 */
module Windows {

  /** How many windows `range(len(arr) - window_size + 1)` enumerates:
      a range whose bound is zero or negative is empty. */
  function WindowCount(n: nat, windowSize: nat): nat
  {
    if windowSize <= n + 1 then n + 1 - windowSize else 0
  }

  /** The windows from index `idx` onward; the generator's loop body unrolled. */
  function WindowsFrom(arr: seq<real>, windowSize: nat, idx: nat): (r: seq<seq<real>>)
    requires idx <= WindowCount(|arr|, windowSize)
    ensures |r| == WindowCount(|arr|, windowSize) - idx
    ensures forall k :: 0 <= k < |r| ==> r[k] == arr[idx + k .. idx + k + windowSize]
    decreases WindowCount(|arr|, windowSize) - idx
  {
    if idx == WindowCount(|arr|, windowSize) then []
    else [arr[idx .. idx + windowSize]] + WindowsFrom(arr, windowSize, idx + 1)
  }

  /** `sliding_window(arr, window_size, start)`. The `start` argument is
      accepted and ignored: enumeration always begins at index 0. */
  function SlidingWindow(arr: seq<real>, windowSize: nat, start: int := 0): (r: seq<seq<real>>)
    ensures |r| == (if windowSize <= |arr| + 1 then |arr| + 1 - windowSize else 0)
    ensures windowSize > |arr| ==> r == []
    ensures forall idx :: 0 <= idx < |r| ==> |r[idx]| == windowSize
    ensures forall idx :: 0 <= idx < |r| ==> r[idx] == arr[idx .. idx + windowSize]
  {
    WindowsFrom(arr, windowSize, 0)
  }
}
