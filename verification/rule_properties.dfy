/**
 What each rule reports, stated on the points themselves, together with the
 boundary cases the rules are built around: strict comparisons, the preset
 parameters, overlap suppression of cycles, and a zero standard deviation.
 */
module RuleProperties {
  import opened Windows
  import opened Ordering
  import opened Cycles
  import opened Detections
  import opened Rules

  // ----- every rule -----

  /** Positions are 1-based window (or sample) starts, strictly increasing,
      and a rule reports nothing on data shorter than its window. */
  lemma OutputShape(kind: RuleKind, data: seq<real>, mean: real, std: real)
    ensures var r := Expected(kind, data, mean, std);
      && (forall i :: 0 <= i < |r| ==>
            r[i].rule == kind && 1 <= r[i].position <= WindowCount(|data|, WindowSize(kind)))
      && (forall i, j :: 0 <= i < j < |r| ==> r[i].position < r[j].position)
      && (|data| < WindowSize(kind) ==> r == [])
  {
    assert |Flags(kind, data, mean, std)| == WindowCount(|data|, WindowSize(kind));
  }

  /** "Every point of the slice" read as "every index of the range". */
  lemma AllInSlice(data: seq<real>, lo: nat, hi: nat, P: real -> bool)
    requires lo <= hi <= |data|
    ensures (forall x :: x in data[lo .. hi] ==> P(x)) <==> (forall k :: lo <= k < hi ==> P(data[k]))
  {
    var window := data[lo .. hi];
    assert forall k :: lo <= k < hi ==> data[k] == window[k - lo];
    forall x | x in window
      ensures exists k :: lo <= k < hi && data[k] == x
    {
      var i :| 0 <= i < |window| && window[i] == x;
      assert data[lo + i] == x;
    }
  }

  // ----- LimitRule and its presets -----

  /** The indices of the points strictly above `limit`. */
  function IndicesAbove(s: seq<real>, limit: real): set<nat>
  {
    set i: nat | i < |s| && s[i] > limit
  }

  /** The indices of the points strictly below `limit`. */
  function IndicesBelow(s: seq<real>, limit: real): set<nat>
  {
    set i: nat | i < |s| && s[i] < limit
  }

  /** The summed list comprehensions count exactly the points strictly beyond the limit. */
  lemma {:induction false} CountsAreCardinalities(s: seq<real>, limit: real)
    ensures CountAbove(s, limit) == |IndicesAbove(s, limit)|
    ensures CountBelow(s, limit) == |IndicesBelow(s, limit)|
  {
    if |s| > 0 {
      var last := |s| - 1;
      CountsAreCardinalities(s[..last], limit);
      assert IndicesAbove(s, limit) ==
        IndicesAbove(s[..last], limit) + (if s[last] > limit then {last} else {});
      assert IndicesBelow(s, limit) ==
        IndicesBelow(s[..last], limit) + (if s[last] < limit then {last} else {});
    }
  }

  /** `LimitRule` reports window `pos - 1` exactly when at least `failCount`
      of its points lie strictly above the upper limit `mean + sigmas*std`,
      or at least `failCount` lie strictly below the lower limit `mean - sigmas*std`. */
  lemma LimitReportsIff(p: LimitParams, kind: RuleKind, data: seq<real>, mean: real, std: real, pos: nat)
    requires 1 <= pos <= WindowCount(|data|, p.windowSize)
    ensures var window := data[pos - 1 .. pos - 1 + p.windowSize];
      Detection(kind, pos) in Select(kind, LimitFlags(p, data, mean, std)) <==>
        || |IndicesAbove(window, UpperLimit(p, mean, std))| >= p.failCount
        || |IndicesBelow(window, LowerLimit(p, mean, std))| >= p.failCount
  {
    var window := data[pos - 1 .. pos - 1 + p.windowSize];
    LimitFlagAt(p, data, mean, std, pos - 1, window);
    CountsAreCardinalities(window, UpperLimit(p, mean, std));
    CountsAreCardinalities(window, LowerLimit(p, mean, std));
  }

  /** `ControlLimitRule` (3 sigmas, window 1, fail count 1) reports a sample
      exactly when it lies strictly beyond `upper = mean + 3*std` or
      `lower = mean - 3*std`; a point on a limit is not reported. */
  lemma ControlLimitReportsIff(data: seq<real>, mean: real, std: real, pos: nat, upper: real, lower: real)
    requires 1 <= pos <= |data|
    requires upper == mean + 3.0 * std && lower == mean - 3.0 * std
    ensures Detection(ControlLimitRule, pos) in Expected(ControlLimitRule, data, mean, std) <==>
      data[pos - 1] > upper || data[pos - 1] < lower
  {
    var window := data[pos - 1 .. pos];
    assert window[..0] == [] && window[0] == data[pos - 1];
    assert CountAbove(window, upper) == (if data[pos - 1] > upper then 1 else 0);
    assert CountBelow(window, lower) == (if data[pos - 1] < lower then 1 else 0);
    assert UpperLimit(ControlLimits, mean, std) == upper && LowerLimit(ControlLimits, mean, std) == lower;
    LimitFlagAt(ControlLimits, data, mean, std, pos - 1, window);
    assert Expected(ControlLimitRule, data, mean, std) == Select(ControlLimitRule, LimitFlags(ControlLimits, data, mean, std));
  }

  /** With a zero standard deviation the control limits collapse onto the
      mean and every sample off the mean is reported. */
  lemma ControlLimitDegenerate(data: seq<real>, mean: real, pos: nat)
    requires 1 <= pos <= |data|
    ensures Detection(ControlLimitRule, pos) in Expected(ControlLimitRule, data, mean, 0.0) <==>
      data[pos - 1] != mean
  {
    ControlLimitReportsIff(data, mean, 0.0, pos, mean, mean);
  }

  /** `LimitReportsIff` for a registered preset, with its window, limits and fail count written out. */
  lemma PresetReportsIff(p: LimitParams, kind: RuleKind, data: seq<real>, mean: real, std: real, pos: nat,
                         window: seq<real>, upper: real, lower: real, failCount: int)
    requires (p, kind) in {(WarningLimits, WarningLimitRule), (ZoneCLimits, ZoneCLimitRule)}
    requires 1 <= pos <= WindowCount(|data|, p.windowSize)
    requires window == data[pos - 1 .. pos - 1 + p.windowSize]
    requires upper == UpperLimit(p, mean, std) && lower == LowerLimit(p, mean, std)
    requires failCount == p.failCount
    ensures Detection(kind, pos) in Expected(kind, data, mean, std) <==>
      |IndicesAbove(window, upper)| >= failCount || |IndicesBelow(window, lower)| >= failCount
  {
    assert Expected(kind, data, mean, std) == Select(kind, LimitFlags(p, data, mean, std));
    LimitReportsIff(p, kind, data, mean, std, pos);
  }

  /** `WarningLimitRule`: two of three consecutive points strictly beyond the
      same 2-sigma limit, `upper = mean + 2*std` or `lower = mean - 2*std`. */
  lemma WarningLimitReportsIff(data: seq<real>, mean: real, std: real, pos: nat, upper: real, lower: real)
    requires 1 <= pos <= WindowCount(|data|, 3)
    requires upper == mean + 2.0 * std && lower == mean - 2.0 * std
    ensures Detection(WarningLimitRule, pos) in Expected(WarningLimitRule, data, mean, std) <==>
      |IndicesAbove(data[pos - 1 .. pos + 2], upper)| >= 2 || |IndicesBelow(data[pos - 1 .. pos + 2], lower)| >= 2
  {
    PresetReportsIff(WarningLimits, WarningLimitRule, data, mean, std, pos, data[pos - 1 .. pos + 2], upper, lower, 2);
  }

  /** `ZoneCLimitRule`: four of five consecutive points strictly beyond the
      same 1-sigma limit, `upper = mean + std` or `lower = mean - std`. */
  lemma ZoneCLimitReportsIff(data: seq<real>, mean: real, std: real, pos: nat, upper: real, lower: real)
    requires 1 <= pos <= WindowCount(|data|, 5)
    requires upper == mean + std && lower == mean - std
    ensures Detection(ZoneCLimitRule, pos) in Expected(ZoneCLimitRule, data, mean, std) <==>
      |IndicesAbove(data[pos - 1 .. pos + 4], upper)| >= 4 || |IndicesBelow(data[pos - 1 .. pos + 4], lower)| >= 4
  {
    PresetReportsIff(ZoneCLimits, ZoneCLimitRule, data, mean, std, pos, data[pos - 1 .. pos + 4], upper, lower, 4);
  }

  /** A window breaching on both sides still yields one detection, not two. */
  lemma LimitReportedOnce(p: LimitParams, kind: RuleKind, data: seq<real>, mean: real, std: real, pos: nat)
    requires 1 <= pos <= WindowCount(|data|, p.windowSize)
    requires var window := data[pos - 1 .. pos - 1 + p.windowSize];
      && |IndicesAbove(window, UpperLimit(p, mean, std))| >= p.failCount
      && |IndicesBelow(window, LowerLimit(p, mean, std))| >= p.failCount
    ensures multiset(Select(kind, LimitFlags(p, data, mean, std)))[Detection(kind, pos)] == 1
  {
    LimitReportsIff(p, kind, data, mean, std, pos);
    SelectReportsOnce(kind, LimitFlags(p, data, mean, std), Detection(kind, pos));
  }

  // ----- SingleSideConsecutiveRule -----

  /** `OneSided` read point by point. */
  lemma OneSidedPointwise(data: seq<real>, mean: real, lo: nat)
    requires lo + 8 <= |data|
    ensures OneSided(data[lo .. lo + 8], mean) <==>
      (forall k :: lo <= k < lo + 8 ==> data[k] > mean) ||
      (forall k :: lo <= k < lo + 8 ==> data[k] < mean)
  {
    AllInSlice(data, lo, lo + 8, x => x > mean);
    AllInSlice(data, lo, lo + 8, x => x < mean);
  }

  /** Eight consecutive points all strictly above the mean, or all strictly below it. */
  lemma SingleSideReportsIff(data: seq<real>, mean: real, std: real, pos: nat)
    requires 1 <= pos <= WindowCount(|data|, 8)
    ensures Detection(SingleSideConsecutiveRule, pos) in Expected(SingleSideConsecutiveRule, data, mean, std) <==>
      (forall k :: pos - 1 <= k < pos + 7 ==> data[k] > mean) ||
      (forall k :: pos - 1 <= k < pos + 7 ==> data[k] < mean)
  {
    OneSidedPointwise(data, mean, pos - 1);
    assert OneSidedFlags(data, mean)[pos - 1] == OneSided(data[pos - 1 .. pos + 7], mean);
  }

  /** One point exactly on the mean suppresses the window. */
  lemma SingleSideCentreLineSuppresses(data: seq<real>, mean: real, std: real, pos: nat, k: nat)
    requires 1 <= pos <= WindowCount(|data|, 8)
    requires pos - 1 <= k < pos + 7 && data[k] == mean
    ensures Detection(SingleSideConsecutiveRule, pos) !in Expected(SingleSideConsecutiveRule, data, mean, std)
  {
    SingleSideReportsIff(data, mean, std, pos);
  }

  // ----- RunRule -----

  /** `Ordered` on a slice read on the indices of the whole series. */
  lemma OrderedPointwise(data: seq<real>, lo: nat, hi: nat, reverse: bool)
    requires lo <= hi <= |data|
    ensures Ordered(data[lo .. hi], reverse) <==>
      forall i, j :: lo <= i < j < hi ==> Precedes(data[i], data[j], reverse)
  {
    var window := data[lo .. hi];
    assert forall i :: lo <= i < hi ==> data[i] == window[i - lo];
  }

  /** Six consecutive points that never fall, or never rise. */
  lemma RunReportsIff(data: seq<real>, mean: real, std: real, pos: nat)
    requires 1 <= pos <= WindowCount(|data|, 6)
    ensures Detection(RunRule, pos) in Expected(RunRule, data, mean, std) <==>
      (forall i, j :: pos - 1 <= i < j < pos + 5 ==> data[i] <= data[j]) ||
      (forall i, j :: pos - 1 <= i < j < pos + 5 ==> data[i] >= data[j])
  {
    OrderedPointwise(data, pos - 1, pos + 5, false);
    OrderedPointwise(data, pos - 1, pos + 5, true);
    assert RunFlags(data)[pos - 1] == Monotone(data[pos - 1 .. pos + 5]);
  }

  /** The one window of six ascending points is monotone. */
  lemma AscendingSixFlagged()
    ensures RunFlags([1.0, 2.0, 3.0, 4.0, 5.0, 6.0]) == [true]
  {
    var six := [1.0, 2.0, 3.0, 4.0, 5.0, 6.0];
    var flags := RunFlags(six);
    assert |flags| == 1;
    assert six[0 .. 6] == six;
    assert Ordered(six, false);
    assert flags[0];
  }

  /** An ascending run of exactly six points is reported once, at position 1;
      five points are too few for a window. */
  lemma RunExamples(mean: real, std: real)
    ensures Expected(RunRule, [1.0, 2.0, 3.0, 4.0, 5.0, 6.0], mean, std) == [Detection(RunRule, 1)]
    ensures Expected(RunRule, [1.0, 2.0, 3.0, 4.0, 5.0], mean, std) == []
  {
    var six := [1.0, 2.0, 3.0, 4.0, 5.0, 6.0];
    var flags := RunFlags(six);
    AscendingSixFlagged();
    SelectOnlyFirst(RunRule, flags);
    assert Expected(RunRule, six, mean, std) == Select(RunRule, flags);
    var five := [1.0, 2.0, 3.0, 4.0, 5.0];
    assert RunFlags(five) == [];
    SelectNone(RunRule, RunFlags(five));
  }

  // ----- CycleRule -----

  /** A 15-point window is reported when it is a cycle and the window one
      step earlier is not. */
  lemma CycleReportsIff(data: seq<real>, mean: real, std: real, pos: nat)
    requires 1 <= pos <= WindowCount(|data|, 15)
    ensures Detection(CycleRule, pos) in Expected(CycleRule, data, mean, std) <==>
      CyclicAt(data, pos - 1) && (pos == 1 || !CyclicAt(data, pos - 2))
  {
    assert CycleFlags(data)[pos - 1] == (CyclicAt(data, pos - 1) && (pos == 1 || !CyclicAt(data, pos - 2)));
  }

  /** A maximal stretch of cyclic windows `a..b` is reported once, at its first window. */
  lemma CycleStretchReportedOnce(data: seq<real>, mean: real, std: real, a: nat, b: nat)
    requires a <= b < WindowCount(|data|, 15)
    requires forall idx :: a <= idx <= b ==> CyclicAt(data, idx)
    requires a == 0 || !CyclicAt(data, a - 1)
    ensures forall pos :: a + 1 <= pos <= b + 1 ==>
      (Detection(CycleRule, pos) in Expected(CycleRule, data, mean, std) <==> pos == a + 1)
  {
    forall pos | a + 1 <= pos <= b + 1
      ensures Detection(CycleRule, pos) in Expected(CycleRule, data, mean, std) <==> pos == a + 1
    {
      CycleReportsIff(data, mean, std, pos);
      if pos > a + 1 {
        assert CyclicAt(data, pos - 2);
      }
    }
  }

  /** A strictly alternating series of 15 or more points is one cycle and is
      reported exactly once, at position 1, however many windows it spans. */
  lemma AlternatingSeriesReportedOnce(data: seq<real>, mean: real, std: real)
    requires |data| >= 15 && Alternates(data)
    ensures Expected(CycleRule, data, mean, std) == [Detection(CycleRule, 1)]
  {
    var flags := CycleFlags(data);
    SubWindowAlternates(data, 0, 15);
    forall idx | 1 <= idx < |flags|
      ensures !flags[idx]
    {
      SubWindowAlternates(data, idx - 1, idx + 14);
    }
    SelectOnlyFirst(CycleRule, flags);
  }

  // ----- ZoneCCycleRule -----

  /** A 14-point window is reported when it is a cycle lying wholly inside zone C. */
  lemma ZoneCCycleReportsIff(data: seq<real>, mean: real, std: real, pos: nat)
    requires 1 <= pos <= WindowCount(|data|, 14)
    ensures Detection(ZoneCCycleRule, pos) in Expected(ZoneCCycleRule, data, mean, std) <==>
      Alternates(data[pos - 1 .. pos + 13]) &&
      forall k :: pos - 1 <= k < pos + 13 ==> InZoneC(data[k], mean, std)
  {
    AllInSlice(data, pos - 1, pos + 13, x => InZoneC(x, mean, std));
  }

  /** Without suppression, an alternating series inside zone C is reported at every window. */
  lemma ZoneCCycleNotSuppressed(data: seq<real>, mean: real, std: real)
    requires |data| >= 14 && Alternates(data)
    requires forall k :: 0 <= k < |data| ==> InZoneC(data[k], mean, std)
    ensures forall pos :: 1 <= pos <= |data| - 13 ==>
      Detection(ZoneCCycleRule, pos) in Expected(ZoneCCycleRule, data, mean, std)
  {
    forall pos | 1 <= pos <= |data| - 13
      ensures Detection(ZoneCCycleRule, pos) in Expected(ZoneCCycleRule, data, mean, std)
    {
      SubWindowAlternates(data, pos - 1, pos + 13);
      ZoneCCycleReportsIff(data, mean, std, pos);
    }
  }

  // ----- MissingZoneCRule -----

  /** Eight consecutive points none of which lies strictly inside `(mean - std, mean + std)`. */
  lemma MissingZoneCReportsIff(data: seq<real>, mean: real, std: real, pos: nat)
    requires 1 <= pos <= WindowCount(|data|, 8)
    ensures Detection(MissingZoneCRule, pos) in Expected(MissingZoneCRule, data, mean, std) <==>
      forall k :: pos - 1 <= k < pos + 7 ==> !InZoneC(data[k], mean, std)
  {
    AllInSlice(data, pos - 1, pos + 7, x => !InZoneC(x, mean, std));
  }

  /** Every point of the series equals the mean. */
  predicate Flat(data: seq<real>, mean: real)
  {
    forall k :: 0 <= k < |data| ==> data[k] == mean
  }

  /** Data sitting on the mean with a positive spread is never reported. */
  lemma MissingZoneCAtMean(data: seq<real>, mean: real, std: real)
    requires std > 0.0
    requires Flat(data, mean)
    ensures Expected(MissingZoneCRule, data, mean, std) == []
  {
    var flags := MissingZoneCFlags(data, mean, std);
    forall idx | 0 <= idx < |flags|
      ensures !flags[idx]
    {
      AllInSlice(data, idx, idx + 8, x => !InZoneC(x, mean, std));
      assert InZoneC(data[idx], mean, std);
    }
    SelectNone(MissingZoneCRule, flags);
  }

  /** With a zero standard deviation zone C is empty and every window is reported. */
  lemma MissingZoneCDegenerate(data: seq<real>, mean: real)
    ensures forall pos :: 1 <= pos <= WindowCount(|data|, 8) ==>
      Detection(MissingZoneCRule, pos) in Expected(MissingZoneCRule, data, mean, 0.0)
  {
  }

  // ----- NearLimitRule -----

  /** A sample is reported exactly when its deviation from the mean lies
      strictly inside the quarter-sigma margin below the 3- or 2-sigma limit,
      or above the -3- or -2-sigma limit. */
  lemma NearLimitReportsIff(data: seq<real>, mean: real, std: real, pos: nat)
    requires 1 <= pos <= |data|
    ensures Detection(NearLimitRule, pos) in Expected(NearLimitRule, data, mean, std) <==>
      var z := data[pos - 1] - mean;
      || 2.75 * std < z < 3.0 * std
      || 1.75 * std < z < 2.0 * std
      || -3.0 * std < z < -2.75 * std
      || -2.0 * std < z < -1.75 * std
  {
  }

  /** Points exactly on a limit or on a margin edge are not reported. */
  lemma NearLimitBoundaries(mean: real, std: real)
    requires std >= 0.0
    ensures !NearLimit(mean + 3.0 * std, mean, std) && !NearLimit(mean - 3.0 * std, mean, std)
    ensures !NearLimit(mean + 2.0 * std, mean, std) && !NearLimit(mean - 2.0 * std, mean, std)
    ensures !NearLimit(mean + 2.75 * std, mean, std) && !NearLimit(mean - 2.75 * std, mean, std)
    ensures !NearLimit(mean + 1.75 * std, mean, std) && !NearLimit(mean - 1.75 * std, mean, std)
  {
  }

  /** A point a tenth of a sigma below the upper control limit is reported. */
  lemma NearLimitInsideMargin(mean: real, std: real)
    requires std > 0.0
    ensures NearLimit(mean + 3.0 * std - 0.1 * std, mean, std)
  {
  }

  /** With a zero standard deviation every margin is empty: nothing is reported. */
  lemma NearLimitDegenerate(data: seq<real>, mean: real)
    ensures Expected(NearLimitRule, data, mean, 0.0) == []
  {
    SelectNone(NearLimitRule, NearLimitFlags(data, mean, 0.0));
  }

  // ----- scenarios across rules -----

  /** With no point outside the band between the limits, a limit rule with a
      positive fail count reports nothing. */
  lemma LimitQuietInsideLimits(p: LimitParams, kind: RuleKind, data: seq<real>, mean: real, std: real)
    requires p.failCount >= 1
    requires forall k :: 0 <= k < |data| ==> LowerLimit(p, mean, std) <= data[k] <= UpperLimit(p, mean, std)
    ensures Select(kind, LimitFlags(p, data, mean, std)) == []
  {
    var flags := LimitFlags(p, data, mean, std);
    forall idx | 0 <= idx < |flags|
      ensures !flags[idx]
    {
      var window := data[idx .. idx + p.windowSize];
      assert forall i :: 0 <= i < |window| ==> window[i] == data[idx + i];
      LimitFlagAt(p, data, mean, std, idx, window);
      CountsAreCardinalities(window, UpperLimit(p, mean, std));
      CountsAreCardinalities(window, LowerLimit(p, mean, std));
      assert IndicesAbove(window, UpperLimit(p, mean, std)) == {};
      assert IndicesBelow(window, LowerLimit(p, mean, std)) == {};
    }
    SelectNone(kind, flags);
  }

  /** A flat series never alternates: every step is a non-decrease. */
  lemma FlatNeverCyclic(data: seq<real>, mean: real, lo: nat, hi: nat)
    requires Flat(data, mean) && lo + 4 <= hi <= |data|
    ensures !Alternates(data[lo .. hi])
  {
    var window := data[lo .. hi];
    assert window[0] == data[lo] && window[1] == data[lo + 1] && window[2] == data[lo + 2];
    assert StepUp(window, 0) && StepUp(window, 1);
  }

  /** A series sitting on the mean with a positive spread trips no limit,
      side, cycle, zone or margin rule. */
  lemma FlatSeriesQuiet(kind: RuleKind, data: seq<real>, mean: real, std: real)
    requires std > 0.0 && Flat(data, mean)
    requires kind != RunRule
    ensures Expected(kind, data, mean, std) == []
  {
    match kind
    case ControlLimitRule =>
      LimitQuietInsideLimits(ControlLimits, kind, data, mean, std);
    case WarningLimitRule =>
      LimitQuietInsideLimits(WarningLimits, kind, data, mean, std);
    case ZoneCLimitRule =>
      LimitQuietInsideLimits(ZoneCLimits, kind, data, mean, std);
    case SingleSideConsecutiveRule =>
      var flags := OneSidedFlags(data, mean);
      forall idx | 0 <= idx < |flags|
        ensures !flags[idx]
      {
        OneSidedPointwise(data, mean, idx);
        assert data[idx] == mean;
      }
      SelectNone(kind, flags);
    case CycleRule =>
      var flags := CycleFlags(data);
      forall idx | 0 <= idx < |flags|
        ensures !flags[idx]
      {
        FlatNeverCyclic(data, mean, idx, idx + 15);
      }
      SelectNone(kind, flags);
    case ZoneCCycleRule =>
      var flags := ZoneCCycleFlags(data, mean, std);
      forall idx | 0 <= idx < |flags|
        ensures !flags[idx]
      {
        FlatNeverCyclic(data, mean, idx, idx + 14);
      }
      SelectNone(kind, flags);
    case MissingZoneCRule =>
      MissingZoneCAtMean(data, mean, std);
    case NearLimitRule =>
      var flags := NearLimitFlags(data, mean, std);
      SelectNone(kind, flags);
  }

  /** ... while the run rule, whose ordering test is non-strict, reports
      every window of a flat series, each once although a flat window is
      both non-decreasing and non-increasing. */
  lemma FlatSeriesIsARun(data: seq<real>, mean: real, std: real)
    requires Flat(data, mean)
    ensures forall pos :: 1 <= pos <= WindowCount(|data|, 6) ==>
      multiset(Expected(RunRule, data, mean, std))[Detection(RunRule, pos)] == 1
  {
    forall pos | 1 <= pos <= WindowCount(|data|, 6)
      ensures multiset(Expected(RunRule, data, mean, std))[Detection(RunRule, pos)] == 1
    {
      var window := data[pos - 1 .. pos + 5];
      assert forall k :: 0 <= k < |window| ==> window[k] == data[pos - 1 + k];
      assert Ordered(window, false);
      assert RunFlags(data)[pos - 1];
      SelectReportsOnce(RunRule, RunFlags(data), Detection(RunRule, pos));
    }
  }
}
