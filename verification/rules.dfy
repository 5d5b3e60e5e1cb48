/**
 The rule objects. Each rule maps `(data, mean, std)` to its detections,
 one per window (or sample) that shows the rule's pattern, at the window's
 1-based starting position. Every rule is given twice: a method that walks
 the windows the way the source does, and a reference list of flags that
 says, in terms of the points alone, which windows show the pattern.
 */
module Rules {
  import opened Windows
  import opened Ordering
  import opened Cycles
  import opened Detections

  /** The three constructor arguments of `LimitRule`. */
  datatype LimitParams = LimitParams(sigmas: real, windowSize: nat, failCount: int)

  /** `LimitRule`'s defaults, which `ControlLimitRule` keeps. */
  const ControlLimits := LimitParams(3.0, 1, 1)
  const WarningLimits := LimitParams(2.0, 3, 2)
  const ZoneCLimits := LimitParams(1.0, 5, 4)

  /** The fixed window sizes of the other windowed rules. */
  const SingleSideWindow: nat := 8
  const RunWindow: nat := 6
  const CycleWindow: nat := 15
  const ZoneCCycleWindow: nat := 14
  const MissingZoneCWindow: nat := 8

  /** The presets as the three subclasses construct them: sigmas, window size, fail count. */
  lemma PresetParameters()
    ensures ControlLimits.sigmas == 3.0 && ControlLimits.windowSize == 1 && ControlLimits.failCount == 1
    ensures WarningLimits.sigmas == 2.0 && WarningLimits.windowSize == 3 && WarningLimits.failCount == 2
    ensures ZoneCLimits.sigmas == 1.0 && ZoneCLimits.windowSize == 5 && ZoneCLimits.failCount == 4
  {
  }

  // ----- LimitRule -----

  /** `sum([1 if point > limit else 0 for point in s])`. */
  function CountAbove(s: seq<real>, limit: real): nat
  {
    if |s| == 0 then 0
    else CountAbove(s[..|s| - 1], limit) + (if s[|s| - 1] > limit then 1 else 0)
  }

  /** `sum([1 if point < limit else 0 for point in s])`. */
  function CountBelow(s: seq<real>, limit: real): nat
  {
    if |s| == 0 then 0
    else CountBelow(s[..|s| - 1], limit) + (if s[|s| - 1] < limit then 1 else 0)
  }

  /** `mean + sigmas * std` */
  function UpperLimit(p: LimitParams, mean: real, std: real): real
  {
    mean + p.sigmas * std
  }

  /** `mean - sigmas * std` */
  function LowerLimit(p: LimitParams, mean: real, std: real): real
  {
    mean - p.sigmas * std
  }

  /** At least `failCount` points of the window lie strictly beyond the upper
      limit, or at least `failCount` strictly beyond the lower one (the two
      counts are compared separately, never added). */
  predicate LimitBreached(window: seq<real>, mean: real, std: real, p: LimitParams)
  {
    || CountAbove(window, UpperLimit(p, mean, std)) >= p.failCount
    || CountBelow(window, LowerLimit(p, mean, std)) >= p.failCount
  }

  function LimitFlags(p: LimitParams, data: seq<real>, mean: real, std: real): (f: seq<bool>)
    ensures |f| == WindowCount(|data|, p.windowSize)
    ensures forall idx :: 0 <= idx < |f| ==>
      f[idx] == LimitBreached(data[idx .. idx + p.windowSize], mean, std, p)
  {
    var n := WindowCount(|data|, p.windowSize);
    seq(n, idx requires 0 <= idx < n => LimitBreached(data[idx .. idx + p.windowSize], mean, std, p))
  }

  /** The appended list after one more flag is the list so far plus that flag's detection. */
  lemma SelectStep(kind: RuleKind, flags: seq<bool>, idx: nat)
    requires idx < |flags|
    ensures Select(kind, flags[..idx + 1]) ==
      Select(kind, flags[..idx]) + (if flags[idx] then [Detection(kind, idx + 1)] else [])
  {
    assert flags[..idx + 1][..idx] == flags[..idx];
  }

  /** The flag of window `idx` is the source's test on that window's two counts. */
  lemma LimitFlagAt(p: LimitParams, data: seq<real>, mean: real, std: real, idx: nat, window: seq<real>)
    requires idx < WindowCount(|data|, p.windowSize)
    requires window == data[idx .. idx + p.windowSize]
    ensures LimitFlags(p, data, mean, std)[idx] ==
      (CountAbove(window, UpperLimit(p, mean, std)) >= p.failCount
       || CountBelow(window, LowerLimit(p, mean, std)) >= p.failCount)
  {
  }

  /** `LimitRule.run`. */
  method EvaluateLimit(p: LimitParams, kind: RuleKind, data: seq<real>, mean: real, std: real)
    returns (issues: seq<Detection>)
    ensures issues == Select(kind, LimitFlags(p, data, mean, std))
  {
    ghost var flags := LimitFlags(p, data, mean, std);
    var upper := UpperLimit(p, mean, std);
    var lower := LowerLimit(p, mean, std);
    var windows := SlidingWindow(data, p.windowSize);
    issues := [];
    for idx := 0 to |windows|
      invariant issues == Select(kind, flags[..idx])
    {
      var window := windows[idx];
      var countAbove := CountAbove(window, upper);
      var countBelow := CountBelow(window, lower);
      LimitFlagAt(p, data, mean, std, idx, window);
      SelectStep(kind, flags, idx);
      if countAbove >= p.failCount || countBelow >= p.failCount {
        issues := issues + [Detection(kind, idx + 1)];
      }
    }
    assert flags[..|windows|] == flags;
  }

  // ----- SingleSideConsecutiveRule -----

  /** All points strictly above the centre line, or all strictly below it. */
  predicate OneSided(window: seq<real>, mean: real)
  {
    (forall x :: x in window ==> x > mean) || (forall x :: x in window ==> x < mean)
  }

  function OneSidedFlags(data: seq<real>, mean: real): (f: seq<bool>)
    ensures |f| == WindowCount(|data|, SingleSideWindow)
    ensures forall idx :: 0 <= idx < |f| ==> f[idx] == OneSided(data[idx .. idx + SingleSideWindow], mean)
  {
    var n := WindowCount(|data|, SingleSideWindow);
    seq(n, idx requires 0 <= idx < n => OneSided(data[idx .. idx + SingleSideWindow], mean))
  }

  /** Reading the window's max and min decides one-sidedness. */
  lemma OneSidedByExtremes(window: seq<real>, mean: real)
    requires |window| > 0
    ensures ((Max(window) > mean && Min(window) > mean) || (Max(window) < mean && Min(window) < mean))
      <==> OneSided(window, mean)
  {
  }

  /** `SingleSideConsecutiveRule.run`, which tests the window's max and min. */
  method EvaluateSingleSide(data: seq<real>, mean: real, std: real) returns (issues: seq<Detection>)
    ensures issues == Select(SingleSideConsecutiveRule, OneSidedFlags(data, mean))
  {
    ghost var flags := OneSidedFlags(data, mean);
    var windows := SlidingWindow(data, SingleSideWindow);
    issues := [];
    for idx := 0 to |windows|
      invariant issues == Select(SingleSideConsecutiveRule, flags[..idx])
    {
      var window := windows[idx];
      var hi := Max(window);
      var lo := Min(window);
      OneSidedByExtremes(window, mean);
      assert flags[idx] == OneSided(window, mean);
      SelectStep(SingleSideConsecutiveRule, flags, idx);
      if (hi > mean && lo > mean) || (hi < mean && lo < mean) {
        issues := issues + [Detection(SingleSideConsecutiveRule, idx + 1)];
      }
    }
    assert flags[..|windows|] == flags;
  }

  // ----- RunRule -----

  /** Non-decreasing or non-increasing. */
  predicate Monotone(window: seq<real>)
  {
    Ordered(window, false) || Ordered(window, true)
  }

  function RunFlags(data: seq<real>): (f: seq<bool>)
    ensures |f| == WindowCount(|data|, RunWindow)
    ensures forall idx :: 0 <= idx < |f| ==> f[idx] == Monotone(data[idx .. idx + RunWindow])
  {
    var n := WindowCount(|data|, RunWindow);
    seq(n, idx requires 0 <= idx < n => Monotone(data[idx .. idx + RunWindow]))
  }

  /** `RunRule.run`, which compares the window with its ascending and descending sorts. */
  method EvaluateRun(data: seq<real>, mean: real, std: real) returns (issues: seq<Detection>)
    ensures issues == Select(RunRule, RunFlags(data))
  {
    ghost var flags := RunFlags(data);
    var windows := SlidingWindow(data, RunWindow);
    issues := [];
    for idx := 0 to |windows|
      invariant issues == Select(RunRule, flags[..idx])
    {
      var window := windows[idx];
      SortedFixpoint(window, false);
      SortedFixpoint(window, true);
      assert flags[idx] == Monotone(window);
      SelectStep(RunRule, flags, idx);
      if window == Sorted(window, false) || window == Sorted(window, true) {
        issues := issues + [Detection(RunRule, idx + 1)];
      }
    }
    assert flags[..|windows|] == flags;
  }

  // ----- CycleRule -----

  /** Window `idx` exists and is a cycle. */
  predicate CyclicAt(data: seq<real>, idx: nat)
  {
    idx + CycleWindow <= |data| && Alternates(data[idx .. idx + CycleWindow])
  }

  /** Reference meaning of `CycleRule`: window `idx` is a cycle and the window
      just before it is not, so a stretch of cyclic windows reports once. */
  function CycleFlags(data: seq<real>): (f: seq<bool>)
    ensures |f| == WindowCount(|data|, CycleWindow)
    ensures forall idx :: 0 <= idx < |f| ==>
      f[idx] == (CyclicAt(data, idx) && (idx == 0 || !CyclicAt(data, idx - 1)))
  {
    var n := WindowCount(|data|, CycleWindow);
    seq(n, idx requires 0 <= idx < n => CyclicAt(data, idx) && (idx == 0 || !CyclicAt(data, idx - 1)))
  }

  /** `last_cycle`: `None`, or the index of the last cyclic window. */
  datatype LastCycle = NoCycleYet | CycleAt(index: int)

  /** `CycleRule.run`. */
  method EvaluateCycle(data: seq<real>, mean: real, std: real) returns (issues: seq<Detection>)
    ensures issues == Select(CycleRule, CycleFlags(data))
  {
    ghost var flags := CycleFlags(data);
    var windows := SlidingWindow(data, CycleWindow);
    issues := [];
    var lastCycle := NoCycleYet;
    for idx := 0 to |windows|
      invariant issues == Select(CycleRule, flags[..idx])
      invariant lastCycle.CycleAt? ==> 0 <= lastCycle.index < idx
      invariant idx > 0 ==> (lastCycle == CycleAt(idx - 1) <==> Alternates(windows[idx - 1]))
    {
      var window := windows[idx];
      var cyclic := IsCycle(window);
      assert window == data[idx .. idx + CycleWindow];
      assert CyclicAt(data, idx) == cyclic;
      assert idx > 0 ==> windows[idx - 1] == data[idx - 1 .. (idx - 1) + CycleWindow];
      assert idx > 0 ==> CyclicAt(data, idx - 1) == Alternates(windows[idx - 1]);
      assert flags[idx] == (cyclic && (idx == 0 || !Alternates(windows[idx - 1])));
      SelectStep(CycleRule, flags, idx);
      if cyclic {
        if lastCycle != CycleAt(idx - 1) {
          issues := issues + [Detection(CycleRule, idx + 1)];
        }
        lastCycle := CycleAt(idx);
      }
    }
    assert flags[..|windows|] == flags;
  }

  // ----- ZoneCCycleRule and MissingZoneCRule -----

  /** Strictly inside the band `(mean - std, mean + std)`. */
  predicate InZoneC(x: real, mean: real, std: real)
  {
    mean - std < x < mean + std
  }

  function ZoneCCycleFlags(data: seq<real>, mean: real, std: real): (f: seq<bool>)
    ensures |f| == WindowCount(|data|, ZoneCCycleWindow)
    ensures forall idx :: 0 <= idx < |f| ==>
      f[idx] == (Alternates(data[idx .. idx + ZoneCCycleWindow]) && forall x :: x in data[idx .. idx + ZoneCCycleWindow] ==> InZoneC(x, mean, std))
  {
    var n := WindowCount(|data|, ZoneCCycleWindow);
    seq(n, idx requires 0 <= idx < n =>
      Alternates(data[idx .. idx + ZoneCCycleWindow]) && forall x :: x in data[idx .. idx + ZoneCCycleWindow] ==> InZoneC(x, mean, std))
  }

  /** Reading the window's max and min decides whether it lies inside zone C. */
  lemma InsideByExtremes(window: seq<real>, mean: real, std: real)
    requires |window| > 0
    ensures (Min(window) > mean - std && Max(window) < mean + std)
      <==> forall x :: x in window ==> InZoneC(x, mean, std)
  {
  }

  /** `ZoneCCycleRule.run`, which bounds the window's min and max. */
  method EvaluateZoneCCycle(data: seq<real>, mean: real, std: real) returns (issues: seq<Detection>)
    ensures issues == Select(ZoneCCycleRule, ZoneCCycleFlags(data, mean, std))
  {
    ghost var flags := ZoneCCycleFlags(data, mean, std);
    var upper := mean + std;
    var lower := mean - std;
    var windows := SlidingWindow(data, ZoneCCycleWindow);
    issues := [];
    for idx := 0 to |windows|
      invariant issues == Select(ZoneCCycleRule, flags[..idx])
    {
      var window := windows[idx];
      var cyclic := IsCycle(window);
      var inside := Min(window) > lower && Max(window) < upper;
      InsideByExtremes(window, mean, std);
      assert flags[idx] == (cyclic && inside);
      SelectStep(ZoneCCycleRule, flags, idx);
      if cyclic && inside {
        issues := issues + [Detection(ZoneCCycleRule, idx + 1)];
      }
    }
    assert flags[..|windows|] == flags;
  }

  /** `MissingZoneCRule._points_in_zone_c`: stops at the first point in the band. */
  method PointsInZoneC(points: seq<real>, mean: real, std: real) returns (found: bool)
    ensures found <==> exists x :: x in points && InZoneC(x, mean, std)
  {
    var upper := mean + std;
    var lower := mean - std;
    for k := 0 to |points|
      invariant forall j :: 0 <= j < k ==> !InZoneC(points[j], mean, std)
    {
      if points[k] > lower && points[k] < upper {
        assert points[k] in points && InZoneC(points[k], mean, std);
        return true;
      }
    }
    return false;
  }

  function MissingZoneCFlags(data: seq<real>, mean: real, std: real): (f: seq<bool>)
    ensures |f| == WindowCount(|data|, MissingZoneCWindow)
    ensures forall idx :: 0 <= idx < |f| ==>
      f[idx] == forall x :: x in data[idx .. idx + MissingZoneCWindow] ==> !InZoneC(x, mean, std)
  {
    var n := WindowCount(|data|, MissingZoneCWindow);
    seq(n, idx requires 0 <= idx < n => forall x :: x in data[idx .. idx + MissingZoneCWindow] ==> !InZoneC(x, mean, std))
  }

  /** `MissingZoneCRule.run`. */
  method EvaluateMissingZoneC(data: seq<real>, mean: real, std: real) returns (issues: seq<Detection>)
    ensures issues == Select(MissingZoneCRule, MissingZoneCFlags(data, mean, std))
  {
    ghost var flags := MissingZoneCFlags(data, mean, std);
    var windows := SlidingWindow(data, MissingZoneCWindow);
    issues := [];
    for idx := 0 to |windows|
      invariant issues == Select(MissingZoneCRule, flags[..idx])
    {
      var window := windows[idx];
      var found := PointsInZoneC(window, mean, std);
      assert flags[idx] == !found;
      SelectStep(MissingZoneCRule, flags, idx);
      if !found {
        issues := issues + [Detection(MissingZoneCRule, idx + 1)];
      }
    }
    assert flags[..|windows|] == flags;
  }

  // ----- NearLimitRule -----

  /** Strictly inside the quarter-sigma margin just inside one of the four
      limits `ucl`, `uwl`, `lcl`, `lwl`. */
  predicate NearLimit(point: real, mean: real, std: real)
  {
    var near := 0.25;
    var ucl := mean + 3.0 * std;
    var lcl := mean - 3.0 * std;
    var uwl := mean + 2.0 * std;
    var lwl := mean - 2.0 * std;
    || (point < ucl && point > ucl - near * std)
    || (point < uwl && point > uwl - near * std)
    || (point > lcl && point < lcl + near * std)
    || (point > lwl && point < lwl + near * std)
  }

  function NearLimitFlags(data: seq<real>, mean: real, std: real): (f: seq<bool>)
    ensures |f| == |data|
    ensures forall idx :: 0 <= idx < |f| ==> f[idx] == NearLimit(data[idx], mean, std)
  {
    seq(|data|, i requires 0 <= i < |data| => NearLimit(data[i], mean, std))
  }

  /** `NearLimitRule.run`: per sample, not per window. */
  method EvaluateNearLimit(data: seq<real>, mean: real, std: real) returns (issues: seq<Detection>)
    ensures issues == Select(NearLimitRule, NearLimitFlags(data, mean, std))
  {
    ghost var flags := NearLimitFlags(data, mean, std);
    issues := [];
    for idx := 0 to |data|
      invariant issues == Select(NearLimitRule, flags[..idx])
    {
      SelectStep(NearLimitRule, flags, idx);
      if NearLimit(data[idx], mean, std) {
        issues := issues + [Detection(NearLimitRule, idx + 1)];
      }
    }
    assert flags[..|data|] == flags;
  }

  // ----- all rules -----

  /** Which windows (or samples) trigger `kind`. */
  function Flags(kind: RuleKind, data: seq<real>, mean: real, std: real): seq<bool>
  {
    match kind
    case ControlLimitRule => LimitFlags(ControlLimits, data, mean, std)
    case WarningLimitRule => LimitFlags(WarningLimits, data, mean, std)
    case ZoneCLimitRule => LimitFlags(ZoneCLimits, data, mean, std)
    case SingleSideConsecutiveRule => OneSidedFlags(data, mean)
    case RunRule => RunFlags(data)
    case CycleRule => CycleFlags(data)
    case ZoneCCycleRule => ZoneCCycleFlags(data, mean, std)
    case MissingZoneCRule => MissingZoneCFlags(data, mean, std)
    case NearLimitRule => NearLimitFlags(data, mean, std)
  }

  /** The detections `kind` must report on `(data, mean, std)`. */
  function Expected(kind: RuleKind, data: seq<real>, mean: real, std: real): seq<Detection>
  {
    Select(kind, Flags(kind, data, mean, std))
  }

  /** Every detection a rule reports carries that rule's name. */
  lemma ExpectedCarriesRule(kind: RuleKind, data: seq<real>, mean: real, std: real)
    ensures forall d :: d in Expected(kind, data, mean, std) ==> d.rule == kind
  {
  }

  /** Window length of each rule; the per-sample rule counts as length 1. */
  function WindowSize(kind: RuleKind): nat
  {
    match kind
    case ControlLimitRule => ControlLimits.windowSize
    case WarningLimitRule => WarningLimits.windowSize
    case ZoneCLimitRule => ZoneCLimits.windowSize
    case SingleSideConsecutiveRule => SingleSideWindow
    case RunRule => RunWindow
    case CycleRule => CycleWindow
    case ZoneCCycleRule => ZoneCCycleWindow
    case MissingZoneCRule => MissingZoneCWindow
    case NearLimitRule => 1
  }

  /** `rule.run(data, mean, std)` for any registered rule. */
  method Evaluate(kind: RuleKind, data: seq<real>, mean: real, std: real) returns (issues: seq<Detection>)
    ensures issues == Expected(kind, data, mean, std)
  {
    match kind
    case ControlLimitRule => issues := EvaluateLimit(ControlLimits, kind, data, mean, std);
    case WarningLimitRule => issues := EvaluateLimit(WarningLimits, kind, data, mean, std);
    case ZoneCLimitRule => issues := EvaluateLimit(ZoneCLimits, kind, data, mean, std);
    case SingleSideConsecutiveRule => issues := EvaluateSingleSide(data, mean, std);
    case RunRule => issues := EvaluateRun(data, mean, std);
    case CycleRule => issues := EvaluateCycle(data, mean, std);
    case ZoneCCycleRule => issues := EvaluateZoneCCycle(data, mean, std);
    case MissingZoneCRule => issues := EvaluateMissingZoneC(data, mean, std);
    case NearLimitRule => issues := EvaluateNearLimit(data, mean, std);
  }
}
