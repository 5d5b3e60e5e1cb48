/**
 The cycle predicate `is_cycle`: do the directions of consecutive steps
 strictly alternate? A step whose difference is not negative (a rise or a
 tie) counts as "up".
 */
module Cycles {
  import opened Ordering

  /** Direction of the step from `arr[i]` to `arr[i + 1]`; a tie counts as up. */
  predicate StepUp(arr: seq<real>, i: nat)
    requires i + 1 < |arr|
  {
    !(arr[i + 1] - arr[i] < 0.0)
  }

  /** Reference meaning of a cycle: at least four points, and every step
      reverses the direction of the step before it. */
  predicate Alternates(arr: seq<real>)
  {
    |arr| >= 4 && forall i :: 1 <= i < |arr| - 1 ==> StepUp(arr, i) != StepUp(arr, i - 1)
  }

  /** `is_cycle(arr)`, with the short-input branch returning a plain false. */
  method IsCycle(arr: seq<real>) returns (r: bool)
    ensures |arr| < 4 ==> !r
    ensures r <==> Alternates(arr)
  {
    if |arr| < 4 {
      return false;
    }
    var isIncreasing := !(arr[1] - arr[0] < 0.0);
    for idx := 1 to |arr| - 1
      invariant isIncreasing == StepUp(arr, idx - 1)
      invariant forall i :: 1 <= i < idx ==> StepUp(arr, i) != StepUp(arr, i - 1)
    {
      var nextStep := !(arr[idx + 1] - arr[idx] < 0.0);
      if isIncreasing == nextStep {
        assert StepUp(arr, idx) == StepUp(arr, idx - 1);
        return false;
      }
      isIncreasing := nextStep;
    }
    return true;
  }

  /** A cycle is "up, down, up, ..." or "down, up, down, ...": step `i`
      has the direction of step 0 exactly when `i` is even. */
  lemma {:induction false} AlternatesByParity(arr: seq<real>)
    requires |arr| >= 4
    ensures Alternates(arr) <==>
      forall i :: 0 <= i < |arr| - 1 ==> StepUp(arr, i) == (StepUp(arr, 0) == (i % 2 == 0))
  {
    if Alternates(arr) {
      var i := 0;
      while i < |arr| - 1
        invariant 0 <= i <= |arr| - 1
        invariant forall k :: 0 <= k < i ==> StepUp(arr, k) == (StepUp(arr, 0) == (k % 2 == 0))
      {
        if i > 0 {
          assert StepUp(arr, i) != StepUp(arr, i - 1);
        }
        i := i + 1;
      }
    } else {
      var k :| 1 <= k < |arr| - 1 && StepUp(arr, k) == StepUp(arr, k - 1);
      assert (k % 2 == 0) != ((k - 1) % 2 == 0);
    }
  }

  /** Two rising or flat steps in a row break a cycle, so no non-decreasing
      sequence of four or more points is one. */
  lemma NonDecreasingIsNoCycle(arr: seq<real>)
    requires Ordered(arr, false)
    ensures !Alternates(arr)
  {
    if |arr| >= 4 {
      assert arr[0] <= arr[1] <= arr[2];
      assert StepUp(arr, 0) && StepUp(arr, 1);
    }
  }

  /** Every contiguous stretch of at least four points of a cycle is a cycle. */
  lemma {:induction false} SubWindowAlternates(arr: seq<real>, lo: nat, hi: nat)
    requires Alternates(arr)
    requires lo + 4 <= hi <= |arr|
    ensures Alternates(arr[lo .. hi])
  {
    var sub := arr[lo .. hi];
    forall i | 1 <= i < |sub| - 1
      ensures StepUp(sub, i) != StepUp(sub, i - 1)
    {
      assert StepUp(sub, i) == StepUp(arr, lo + i);
      assert StepUp(sub, i - 1) == StepUp(arr, lo + i - 1);
    }
  }

  /** What the source's `is_cycle` returns: a bare flag, or, on fewer than
      four points, the pair `(False, [])`. */
  datatype CycleValue = Flag(b: bool) | FlagWithPoints(b: bool, points: seq<real>)

  /** Python truthiness of the returned value: a non-empty tuple is true. */
  predicate Truthy(v: CycleValue)
  {
    match v
    case Flag(b) => b
    case FlagWithPoints(_, _) => true
  }

  /** `is_cycle` as written, return types included. */
  function IsCycleAsWritten(arr: seq<real>): (v: CycleValue)
    ensures |arr| < 4 ==> v == FlagWithPoints(false, [])
    ensures |arr| >= 4 ==> (Truthy(v) <==> Alternates(arr))
  {
    if |arr| < 4 then FlagWithPoints(false, [])
    else Flag(Alternates(arr))
  }

  /** As written, a three-point list is no cycle, yet `if is_cycle(...)`
      takes the cycle branch for it. */
  lemma ShortInputReadsAsCycle()
    ensures !Alternates([1.0, 2.0, 3.0])
    ensures Truthy(IsCycleAsWritten([1.0, 2.0, 3.0]))
  {
  }

  /** Two examples: `[1,3,2,4,3]` alternates, `[1,2,3,4,5]` does not. */
  lemma CycleExamples()
    ensures Alternates([1.0, 3.0, 2.0, 4.0, 3.0])
    ensures !Alternates([1.0, 2.0, 3.0, 4.0, 5.0])
  {
    var a := [1.0, 3.0, 2.0, 4.0, 3.0];
    assert StepUp(a, 0) && !StepUp(a, 1) && StepUp(a, 2) && !StepUp(a, 3);
    var b := [1.0, 2.0, 3.0, 4.0, 5.0];
    assert StepUp(b, 0) && StepUp(b, 1);
  }
}
