/**
 Detections: what a rule reports. A detection pairs the rule that fired
 (standing for the class name the source reports) with a 1-based position.
 */
module Detections {

  /** The registered rule classes; each tag stands for its class name. */
  datatype RuleKind =
    | ControlLimitRule
    | WarningLimitRule
    | ZoneCLimitRule
    | SingleSideConsecutiveRule
    | RunRule
    | CycleRule
    | ZoneCCycleRule
    | MissingZoneCRule
    | NearLimitRule

  datatype Detection = Detection(rule: RuleKind, position: nat)

  /** The detections a rule emits when `flags[idx]` says whether window (or
      sample) `idx` triggers it: one detection at `idx + 1` per set flag, in
      index order. This is the list the rules' append loops build. */
  function Select(kind: RuleKind, flags: seq<bool>): (r: seq<Detection>)
    ensures |r| <= |flags|
    ensures forall i :: 0 <= i < |r| ==> r[i].rule == kind && 1 <= r[i].position <= |flags|
    ensures forall i, j :: 0 <= i < j < |r| ==> r[i].position < r[j].position
    ensures forall pos :: 1 <= pos <= |flags| ==> (Detection(kind, pos) in r <==> flags[pos - 1])
  {
    if |flags| == 0 then []
    else
      var last := |flags| - 1;
      var prefix := Select(kind, flags[..last]);
      assert forall idx :: 0 <= idx < last ==> flags[..last][idx] == flags[idx];
      prefix + (if flags[last] then [Detection(kind, |flags|)] else [])
  }

  /** A detection the rule reports is reported exactly once, so a window that
      qualifies in two ways still yields one detection. */
  lemma {:induction false} SelectReportsOnce(kind: RuleKind, flags: seq<bool>, d: Detection)
    requires d in Select(kind, flags)
    ensures multiset(Select(kind, flags))[d] == 1
  {
    var last := |flags| - 1;
    var prefix := Select(kind, flags[..last]);
    assert Select(kind, flags) == prefix + (if flags[last] then [Detection(kind, |flags|)] else []);
    if d in prefix {
      SelectReportsOnce(kind, flags[..last], d);
      assert d.position <= last;
    } else {
      assert multiset(prefix)[d] == 0;
    }
  }

  /** Nothing flagged, nothing reported. */
  lemma SelectNone(kind: RuleKind, flags: seq<bool>)
    requires forall idx :: 0 <= idx < |flags| ==> !flags[idx]
    ensures Select(kind, flags) == []
  {
    var r := Select(kind, flags);
    if |r| > 0 {
      assert r[0] in r;
    }
  }

  /** Only the first window flagged: the single detection at position 1. */
  lemma SelectOnlyFirst(kind: RuleKind, flags: seq<bool>)
    requires |flags| > 0 && flags[0]
    requires forall idx :: 1 <= idx < |flags| ==> !flags[idx]
    ensures Select(kind, flags) == [Detection(kind, 1)]
  {
    var r := Select(kind, flags);
    assert Detection(kind, 1) in r;
    forall i | 0 <= i < |r|
      ensures r[i] == Detection(kind, 1)
    {
      assert r[i] in r;
      assert flags[r[i].position - 1];
    }
  }
}
