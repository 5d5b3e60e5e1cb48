/**
 The rule list and the caller's loop that runs every rule over the same
 `(data, mean, std)` and concatenates their detections in list order.
 */
module Engine {
  import opened Detections
  import opened Rules

  /** The registered rules, in order; `MissingZoneCRule` is registered twice. */
  const DefaultRules: seq<RuleKind> := [
    ControlLimitRule,
    WarningLimitRule,
    ZoneCLimitRule,
    SingleSideConsecutiveRule,
    RunRule,
    CycleRule,
    ZoneCCycleRule,
    MissingZoneCRule,
    MissingZoneCRule,
    NearLimitRule
  ]

  /** The lists appended one after another, in order. */
  function Concat(outs: seq<seq<Detection>>): seq<Detection>
  {
    if |outs| == 0 then [] else Concat(outs[..|outs| - 1]) + outs[|outs| - 1]
  }

  /** A detection is in the concatenation exactly when some entry holds it. */
  lemma {:induction false} ConcatMembers(outs: seq<seq<Detection>>, d: Detection)
    ensures d in Concat(outs) <==> exists k :: 0 <= k < |outs| && d in outs[k]
  {
    if |outs| > 0 {
      var last := |outs| - 1;
      ConcatMembers(outs[..last], d);
      assert forall k :: 0 <= k < last ==> outs[..last][k] == outs[k];
    }
  }

  /** Each rule's own detections, in rule-list order. */
  function RuleOutputs(rules: seq<RuleKind>, data: seq<real>, mean: real, std: real): (outs: seq<seq<Detection>>)
    ensures |outs| == |rules|
    ensures forall k :: 0 <= k < |rules| ==> outs[k] == Expected(rules[k], data, mean, std)
  {
    seq(|rules|, k requires 0 <= k < |rules| => Expected(rules[k], data, mean, std))
  }

  /** The caller's loop: `issues = issues + rule.run(data, mean, std)` for each rule. */
  method RunRules(rules: seq<RuleKind>, data: seq<real>, mean: real, std: real) returns (issues: seq<Detection>)
    ensures issues == Concat(RuleOutputs(rules, data, mean, std))
    ensures forall d :: d in issues ==> d.rule in rules
  {
    ghost var outs := RuleOutputs(rules, data, mean, std);
    issues := [];
    for i := 0 to |rules|
      invariant issues == Concat(outs[..i])
    {
      var found := Evaluate(rules[i], data, mean, std);
      assert outs[..i + 1][..i] == outs[..i];
      issues := issues + found;
    }
    assert outs[..|rules|] == outs;
    forall d | d in issues
      ensures d.rule in rules
    {
      ConcatMembers(outs, d);
      var k :| 0 <= k < |outs| && d in outs[k];
      assert d in Select(rules[k], Flags(rules[k], data, mean, std));
    }
  }

  /** A stretch of the list that does not register `d`'s rule contributes no `d`. */
  lemma OtherRulesDoNotReport(rules: seq<RuleKind>, data: seq<real>, mean: real, std: real,
                              d: Detection, lo: nat, hi: nat)
    requires lo <= hi <= |rules|
    requires forall k :: lo <= k < hi ==> rules[k] != d.rule
    ensures d !in Concat(RuleOutputs(rules, data, mean, std)[lo..hi])
  {
    var outs := RuleOutputs(rules, data, mean, std)[lo..hi];
    ConcatMembers(outs, d);
    if d in Concat(outs) {
      var k :| 0 <= k < |outs| && d in outs[k];
      ExpectedCarriesRule(rules[lo + k], data, mean, std);
    }
  }

  /** How often `d` occurs in the first `k` lists, counted list by list. */
  function Occurrences(outs: seq<seq<Detection>>, d: Detection, k: nat): nat
    requires k <= |outs|
  {
    if k == 0 then 0 else Occurrences(outs, d, k - 1) + multiset(outs[k - 1])[d]
  }

  /** Concatenation neither loses nor invents occurrences. */
  lemma {:induction false} ConcatOccurrences(outs: seq<seq<Detection>>, d: Detection, k: nat)
    requires k <= |outs|
    ensures multiset(Concat(outs[..k]))[d] == Occurrences(outs, d, k)
  {
    if k > 0 {
      ConcatOccurrences(outs, d, k - 1);
      assert outs[..k][..k - 1] == outs[..k - 1];
      assert Concat(outs[..k]) == Concat(outs[..k - 1]) + outs[k - 1];
    }
  }

  /** Occurrences when `d` is once in entries `i` and `j` and nowhere else. */
  lemma {:induction false} OccurrencesOfTwice(outs: seq<seq<Detection>>, i: nat, j: nat, d: Detection, k: nat)
    requires i < j < |outs| && k <= |outs|
    requires multiset(outs[i])[d] == 1 && multiset(outs[j])[d] == 1
    requires forall m :: 0 <= m < |outs| && m != i && m != j ==> d !in outs[m]
    ensures Occurrences(outs, d, k) == (if i < k then 1 else 0) + (if j < k then 1 else 0)
  {
    if k > 0 {
      OccurrencesOfTwice(outs, i, j, d, k - 1);
    }
  }

  /** A detection found once in each of two entries and in no other entry
      occurs twice in the concatenation. */
  lemma ConcatCountsTwice(outs: seq<seq<Detection>>, i: nat, j: nat, d: Detection)
    requires i < j < |outs|
    requires multiset(outs[i])[d] == 1 && multiset(outs[j])[d] == 1
    requires forall k :: 0 <= k < |outs| && k != i && k != j ==> d !in outs[k]
    ensures multiset(Concat(outs))[d] == 2
  {
    ConcatOccurrences(outs, d, |outs|);
    OccurrencesOfTwice(outs, i, j, d, |outs|);
    assert outs[..|outs|] == outs;
  }

  /** A rule registered at two places `i < j` of a list, and nowhere else,
      has each of its detections appear exactly twice in the list's output. */
  lemma RegisteredTwiceReportedTwice(rules: seq<RuleKind>, kind: RuleKind, data: seq<real>, mean: real, std: real,
                                     i: nat, j: nat)
    requires i < j < |rules|
    requires rules[i] == kind && rules[j] == kind
    requires forall k :: 0 <= k < |rules| && k != i && k != j ==> rules[k] != kind
    ensures forall d :: d in Expected(kind, data, mean, std) ==>
      multiset(Concat(RuleOutputs(rules, data, mean, std)))[d] == 2
  {
    var outs := RuleOutputs(rules, data, mean, std);
    forall d | d in Expected(kind, data, mean, std)
      ensures multiset(Concat(outs))[d] == 2
    {
      SelectReportsOnce(kind, Flags(kind, data, mean, std), d);
      ExpectedCarriesRule(kind, data, mean, std);
      forall k | 0 <= k < |outs| && k != i && k != j
        ensures d !in outs[k]
      {
        ExpectedCarriesRule(rules[k], data, mean, std);
      }
      ConcatCountsTwice(outs, i, j, d);
    }
  }

  /** The default list: the ten registrations in source order, every kind
      once except `MissingZoneCRule`, which is registered twice. */
  lemma DefaultRulesInSourceOrder()
    ensures DefaultRules == [ControlLimitRule, WarningLimitRule, ZoneCLimitRule,
                             SingleSideConsecutiveRule, RunRule, CycleRule, ZoneCCycleRule,
                             MissingZoneCRule, MissingZoneCRule, NearLimitRule]
    ensures forall kind: RuleKind :: kind in DefaultRules
    ensures forall i, j :: 0 <= i < j < |DefaultRules| && DefaultRules[i] == DefaultRules[j] ==> i == 7 && j == 8
  {
    forall kind: RuleKind
      ensures kind in DefaultRules
    {
      var i := match kind
        case ControlLimitRule => 0
        case WarningLimitRule => 1
        case ZoneCLimitRule => 2
        case SingleSideConsecutiveRule => 3
        case RunRule => 4
        case CycleRule => 5
        case ZoneCCycleRule => 6
        case MissingZoneCRule => 7
        case NearLimitRule => 9;
      assert DefaultRules[i] == kind;
    }
  }

  /** Where `MissingZoneCRule` sits in the default list. */
  lemma MissingZoneCRegisteredAt7And8()
    ensures |DefaultRules| == 10
    ensures DefaultRules[7] == MissingZoneCRule && DefaultRules[8] == MissingZoneCRule
    ensures forall k :: 0 <= k < 10 && k != 7 && k != 8 ==> DefaultRules[k] != MissingZoneCRule
  {
  }

  /** Because `MissingZoneCRule` is registered twice, each of its detections
      occurs exactly twice in the combined output of the default list. */
  lemma MissingZoneCReportedTwice(data: seq<real>, mean: real, std: real)
    ensures forall d :: d in Expected(MissingZoneCRule, data, mean, std) ==>
      multiset(Concat(RuleOutputs(DefaultRules, data, mean, std)))[d] == 2
  {
    MissingZoneCRegisteredAt7And8();
    RegisteredTwiceReportedTwice(DefaultRules, MissingZoneCRule, data, mean, std, 7, 8);
  }
}
