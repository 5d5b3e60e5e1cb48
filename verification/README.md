# SPC rule engine — a Dafny model

This project models the rule-evaluation core of a small statistical process
control (SPC) tool. It covers three parts:

- **Inputs:** a series of samples, with the series mean and standard deviation.
- **Rules:** ten control-chart rules each scan the series and report 1-based
  positions:
  - points beyond the control limits;
  - clusters beyond the warning and zone C limits;
  - long runs on one side of the mean;
  - monotone runs;
  - zigzag cycles;
  - cycles hugging the centre line;
  - series that avoid zone C;
  - points just inside a limit.
- **Caller:** the caller runs every registered rule and concatenates their
  detections in list order.

Samples, means and deviations are `real`. A detection is a
`Detection(rule, position)` value, where `rule` is a `RuleKind` tag naming
the rule's class.

The modules follow the source:

- `Windows` — `sliding_window` (`utils.py`).
- `Ordering` — what the rules use of Python's `max`, `min` and `sorted`.
- `Cycles` — `is_cycle` (`utils.py`). It holds the corrected function, the
  function as written, and the facts about strict alternation.
- `Detections` — the rule tags, the detection record, and `Select`, the
  reference filter "one detection per flagged window, at window index + 1".
- `Rules` — every rule of `rules.py`, each given twice:
  - a method that walks the windows as the source's loop does;
  - a reference "flags" function saying, window by window, what is
    reported.

  Each method's contract is that its output equals `Select` over the
  reference flags.
- `Engine` — the `rules` list and the caller's concatenation loop
  (`app.py`).
- `RuleProperties` — what each rule reports, restated on the points
  themselves, plus the boundary cases. These cover:
  - the strict comparisons;
  - the preset parameters;
  - cycle suppression;
  - a zero standard deviation;
  - flat series.

## Model

| member | source | states |
|---|---|---|
| Windows.SlidingWindow | utils.py:1-3 | Exactly `max(0, n - w + 1)` windows. Window `idx` is `arr[idx .. idx + w]`, so each has length `w`. Nothing is produced when `w > n`. Enumeration starts at index 0 whatever `start` is. |
| Ordering.Max | rules.py:74-75 | The largest point of a non-empty window: it is one of the points and no point exceeds it. |
| Ordering.Min | rules.py:74-75 | The smallest point of a non-empty window: it is one of the points and no point is below it. |
| Ordering.Sorted | rules.py:95 | An ordering of the window (ascending, or descending with `reverse`) that is a permutation of it. |
| Ordering.SortedFixpoint | rules.py:95 | A window equals its sorted copy exactly when it is already ordered, so `window == sorted(window)` tests "non-decreasing". |
| Cycles.IsCycle | utils.py:6-21 | True exactly when the window has at least 4 points and each step's direction differs from the previous step's. A step is "up" when the difference is not negative. Fewer than 4 points is not a cycle. |
| Cycles.AlternatesByParity | utils.py:11-21 | Alternation is the same as every step having the direction of step 0 at even steps and the opposite direction at odd steps. |
| Cycles.NonDecreasingIsNoCycle | utils.py:11-17 | Ties count as up, so a non-decreasing series is never a cycle. |
| Cycles.SubWindowAlternates | utils.py:13-21 | Every contiguous piece of a cycle with at least 4 points is itself a cycle. |
| Cycles.CycleExamples | utils.py:11-21 | A concrete zigzag is a cycle and a concrete rising series is not. |
| Cycles.IsCycleAsWritten | utils.py:6-21 | The value the function returns as written: the pair `(False, [])` for short input, otherwise the flag. Its truth value agrees with `IsCycle` from 4 points on. |
| Cycles.ShortInputReadsAsCycle | utils.py:8-9 | A three-point rising series is not a cycle, yet the as-written return value is truthy. |
| Detections.Select | rules.py:28-40 | Per-window reporting. Detections carry the rule's tag and come in strictly increasing positions within `1..n`. Position `pos` is present exactly when window `pos - 1` is flagged. |
| Detections.SelectReportsOnce | rules.py:39-40 | A reported position is reported exactly once. |
| Rules.PresetParameters | rules.py:48-60 | The three registered presets as their subclasses construct them: (3, 1, 1), (2, 3, 2) and (1, 5, 4) for sigmas, window size and fail count. |
| Rules.EvaluateLimit | rules.py:16-45 | The base `LimitRule.run` for any sigmas, window size and fail count reports exactly the windows whose count above the upper limit, or whose count below the lower limit, reaches the fail count. |
| Rules.EvaluateSingleSide | rules.py:63-82 | Reports exactly the 8-point windows lying wholly above or wholly below the mean, as decided through max and min. |
| Rules.OneSidedByExtremes | rules.py:73-76 | The max/min test reads as "all points strictly above the mean, or all strictly below". |
| Rules.EvaluateRun | rules.py:85-101 | Reports exactly the 6-point windows that equal their ascending or descending sort, which are the monotone windows. |
| Rules.EvaluateCycle | rules.py:104-124 | Reports a 15-point window exactly when it is a cycle and the window just before it is not. `last_cycle` advances even on suppressed windows. |
| Rules.EvaluateZoneCCycle | rules.py:127-151 | Reports exactly the 14-point windows that are cycles with min above `mean - std` and max below `mean + std`. |
| Rules.InsideByExtremes | rules.py:143-144 | The min/max bounds read as "every point strictly inside zone C". |
| Rules.PointsInZoneC | rules.py:155-162 | True exactly when some point lies strictly inside `(mean - std, mean + std)`. |
| Rules.EvaluateMissingZoneC | rules.py:164-181 | Reports exactly the 8-point windows with no point strictly inside zone C. |
| Rules.EvaluateNearLimit | rules.py:184-211 | Reports exactly the samples inside one of the four quarter-sigma margins, at sample index + 1. |
| Rules.ExpectedCarriesRule | rules.py:40 | Every detection a rule emits carries that rule's own tag. |
| Rules.Evaluate | rules.py:214-225 | Dispatch over the registered rule kinds: each kind runs its own rule, with the window sizes and presets of the list. |
| Engine.RunRules | app.py:44-47 | The concatenation, in list order, of each rule's detections. Every detection in it was emitted by a rule of the list. |
| Engine.ConcatMembers | app.py:46-47 | A detection is in the concatenation exactly when some rule's output holds it. |
| Engine.OtherRulesDoNotReport | app.py:46-47 | Rules of a different kind contribute no copy of a detection. |
| Engine.ConcatOccurrences | app.py:46-47 | Concatenation neither loses nor invents occurrences: counts add up rule by rule. |
| Engine.RegisteredTwiceReportedTwice | app.py:46-47 | A kind registered at exactly two places has each of its detections appear exactly twice in the result. |
| Engine.DefaultRulesInSourceOrder | rules.py:214-225 | The ten registered rules in source order. Every rule kind is registered, and the only repeated entry is `MissingZoneCRule`, at places 7 and 8. |
| Engine.MissingZoneCRegisteredAt7And8 | rules.py:214-225 | The default list has ten rules, with `MissingZoneCRule` in places 7 and 8 (0-based) and nowhere else. |
| Engine.MissingZoneCReportedTwice | rules.py:222-223 | With the default list, every `MissingZoneCRule` detection appears exactly twice in the combined result. |
| RuleProperties.OutputShape | rules.py:28-40 | Every rule's positions are strictly increasing and lie in `1..n - w + 1` (or `1..n` for the sample rule). The output is empty when `n < w`. |
| RuleProperties.CountsAreCardinalities | rules.py:31-38 | The summed list comprehension equals the number of points strictly above the limit. Likewise for points strictly below. |
| RuleProperties.LimitReportsIff | rules.py:18-40 | Window `pos - 1` is reported exactly when at least `fail_count` points lie strictly above `mean + sigmas*std`, or at least `fail_count` strictly below `mean - sigmas*std`. |
| RuleProperties.LimitReportedOnce | rules.py:39 | A window breaching both limits still yields exactly one detection. |
| RuleProperties.ControlLimitReportsIff | rules.py:48-50 | The control preset reports a sample exactly when it is strictly beyond `mean ± 3 std`. A point on the limit is not reported. |
| RuleProperties.ControlLimitDegenerate | rules.py:48-50 | With a zero deviation, every sample off the mean is reported. |
| RuleProperties.WarningLimitReportsIff | rules.py:53-55 | The warning preset reports when 2 of 3 consecutive points are strictly beyond the same 2-sigma limit. |
| RuleProperties.ZoneCLimitReportsIff | rules.py:58-60 | The zone C preset reports when 4 of 5 consecutive points are strictly beyond the same 1-sigma limit. |
| RuleProperties.SingleSideReportsIff | rules.py:70-77 | Reported exactly when all 8 points are strictly above the mean, or all strictly below. |
| RuleProperties.SingleSideCentreLineSuppresses | rules.py:73-76 | One point exactly on the mean suppresses the window. |
| RuleProperties.RunReportsIff | rules.py:92-96 | Reported exactly when the 6 points never fall, or never rise. |
| RuleProperties.RunExamples | rules.py:92-96 | Six ascending points give one detection at position 1. Five points give none. |
| RuleProperties.CycleReportsIff | rules.py:111-119 | Reported exactly when window `pos - 1` is a cycle and window `pos - 2` (if any) is not. |
| RuleProperties.CycleStretchReportedOnce | rules.py:115-119 | A maximal stretch of consecutive cyclic windows is reported once, at its first window. |
| RuleProperties.AlternatingSeriesReportedOnce | rules.py:115-119 | An alternating series of 15 or more points gives exactly one detection, at position 1. |
| RuleProperties.ZoneCCycleReportsIff | rules.py:138-146 | Reported exactly when the 14-point window is a cycle and every point is strictly inside zone C. |
| RuleProperties.ZoneCCycleNotSuppressed | rules.py:138-146 | Unlike `CycleRule`, an alternating series inside zone C is reported at every window. |
| RuleProperties.MissingZoneCReportsIff | rules.py:155-176 | Reported exactly when no point of the 8-point window is strictly inside `(mean - std, mean + std)`. |
| RuleProperties.MissingZoneCAtMean | rules.py:155-176 | A series sitting on the mean with a positive deviation is never reported. |
| RuleProperties.MissingZoneCDegenerate | rules.py:155-176 | With a zero deviation zone C is empty, so every window is reported. |
| RuleProperties.NearLimitReportsIff | rules.py:187-206 | A sample is reported exactly when its deviation from the mean is in `(2.75σ, 3σ)`, `(1.75σ, 2σ)`, `(-3σ, -2.75σ)` or `(-2σ, -1.75σ)`, all open. |
| RuleProperties.NearLimitBoundaries | rules.py:200-205 | A point exactly on any limit or margin edge is not reported. |
| RuleProperties.NearLimitInsideMargin | rules.py:201 | A point a tenth of a sigma below the upper control limit is reported. |
| RuleProperties.NearLimitDegenerate | rules.py:187-206 | With a zero deviation every margin is empty, so nothing is reported. |
| RuleProperties.LimitQuietInsideLimits | rules.py:31-40 | With a positive fail count and no point outside the limits, a limit rule reports nothing. |
| RuleProperties.FlatSeriesQuiet | rules.py:214-225 | A series on the mean with a positive deviation trips no registered rule except the run rule. |
| RuleProperties.FlatSeriesIsARun | rules.py:95-96 | A flat series is a run at every window (the sort test is non-strict). Each window is reported once, though it is ordered both ways. |

## Left out

- The `verbose` printing in every `run` method is not modelled. It is a
  console side effect that does not change the detections.
- The unused `last` variable in `LimitRule.run` and the `std` parameter of
  the rules that ignore it carry no behaviour.
- Floating point is not modelled: samples, limits and margins are exact
  reals. Results for points within rounding distance of a limit can differ
  from IEEE-754 doubles.
- `sliding_window` is a generator in the source; here it is a sequence.
  Laziness and restartability are not modelled.
- The `start` argument of `sliding_window` is accepted and ignored, as in
  the code, so enumeration always begins at index 0. A starting offset is
  not modelled.
- The detection's `rule_name` string (the class name) is the `RuleKind`
  tag.
- The base `LimitRule` (default 3, 1, 1) is not in the registered list. It
  is modelled as `Rules.EvaluateLimit` over any parameters; the three
  registered presets are its instances.
- Ordering.Sorted: insertion sort stands in for Python's `sorted`. Its
  contract (ordered permutation) is what the run rule needs. Uniqueness of
  the ordered permutation is not proved separately; the rule only compares
  a window with its sort, which `Ordering.SortedFixpoint` settles.
- Rules.EvaluateLimit and the other `Evaluate…` methods state their result
  as the reference filter over per-window flags. The point-level "reported
  exactly when" statements are the `RuleProperties` lemmas.
- `app.py` beyond its concatenation loop is not part of this model: CSV
  loading, mean and standard deviation through numpy, chart rendering and
  printing.

## Findings

| source | as written | input that shows it | evidently intended | confidence | as-written member | corrected member |
|---|---|---|---|---|---|---|
| utils.py:8-9 | `is_cycle` on fewer than 4 points returns the pair `(False, [])`. Every other path returns a bool. A non-empty tuple is truthy, so `if is_cycle(window)` would treat it as a cycle. | `[1.0, 2.0, 3.0]` | `False`: fewer than 4 points is not a cycle | not executed; unreachable from the registered rules, whose windows hold 14 or 15 points | Cycles.IsCycleAsWritten (shown by Cycles.ShortInputReadsAsCycle) | Cycles.IsCycle |
