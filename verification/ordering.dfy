/**
 The Python built-ins the rules lean on: `max`, `min` and `sorted` (with its
 `reverse` keyword) over a list of samples.
 */
module Ordering {

  /** `x` may stand before `y` in ascending order, or in descending order when `reverse`. */
  predicate Precedes(x: real, y: real, reverse: bool)
  {
    if reverse then x >= y else x <= y
  }

  /** Every earlier element precedes every later one: non-decreasing, or non-increasing when `reverse`. */
  predicate Ordered(s: seq<real>, reverse: bool)
  {
    forall i, j :: 0 <= i < j < |s| ==> Precedes(s[i], s[j], reverse)
  }

  /** `max(s)`; Python raises on an empty list. */
  function Max(s: seq<real>): (m: real)
    requires |s| > 0
    ensures m in s
    ensures forall x :: x in s ==> x <= m
  {
    if |s| == 1 then s[0]
    else
      var rest := Max(s[1..]);
      assert forall x :: x in s ==> x == s[0] || x in s[1..];
      if s[0] >= rest then s[0] else rest
  }

  /** `min(s)`; Python raises on an empty list. */
  function Min(s: seq<real>): (m: real)
    requires |s| > 0
    ensures m in s
    ensures forall x :: x in s ==> m <= x
  {
    if |s| == 1 then s[0]
    else
      var rest := Min(s[1..]);
      assert forall x :: x in s ==> x == s[0] || x in s[1..];
      if s[0] <= rest then s[0] else rest
  }

  /** Inserts `x` before the first element it precedes. */
  function Insert(x: real, s: seq<real>, reverse: bool): (r: seq<real>)
    ensures multiset(r) == multiset(s) + multiset{x}
  {
    if |s| == 0 then [x]
    else if Precedes(x, s[0], reverse) then [x] + s
    else
      assert s == [s[0]] + s[1..];
      [s[0]] + Insert(x, s[1..], reverse)
  }

  /** Inserting into an ordered list keeps it ordered. */
  lemma {:induction false} InsertKeepsOrder(x: real, s: seq<real>, reverse: bool)
    requires Ordered(s, reverse)
    ensures Ordered(Insert(x, s, reverse), reverse)
  {
    if |s| > 0 && !Precedes(x, s[0], reverse) {
      var tail := Insert(x, s[1..], reverse);
      InsertKeepsOrder(x, s[1..], reverse);
      forall y | y in tail
        ensures Precedes(s[0], y, reverse)
      {
        assert y in multiset(tail);
        assert y == x || y in s[1..];
      }
    }
  }

  /** `sorted(s, reverse=reverse)`: an ordered rearrangement of `s`. */
  function Sorted(s: seq<real>, reverse: bool): (r: seq<real>)
    ensures Ordered(r, reverse)
    ensures multiset(r) == multiset(s)
  {
    if |s| == 0 then []
    else
      assert s == [s[0]] + s[1..];
      InsertKeepsOrder(s[0], Sorted(s[1..], reverse), reverse);
      Insert(s[0], Sorted(s[1..], reverse), reverse)
  }

  /** A list equals its own sort exactly when it is already ordered: the
      test `window == sorted(window)` is a monotonicity test. */
  lemma {:induction false} SortedFixpoint(s: seq<real>, reverse: bool)
    ensures s == Sorted(s, reverse) <==> Ordered(s, reverse)
  {
    if Ordered(s, reverse) && |s| > 0 {
      assert Ordered(s[1..], reverse);
      SortedFixpoint(s[1..], reverse);
      assert Sorted(s[1..], reverse) == s[1..];
      if |s| > 1 {
        assert Precedes(s[0], s[1], reverse);
      }
      assert s == [s[0]] + s[1..];
    }
  }
}
