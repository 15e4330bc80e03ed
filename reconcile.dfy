/**
  `build_intervals` as a whole: group the events by plate, order each group
  by timestamp, report every event of an all-digit plate as a hazard, and
  walk every other plate's group with the open-entry register.
 */
module Reconciliation {
  import opened Events
  import opened Grouping
  import opened PlateWalk

  /** One "Hazard plate number" issue per event, each carrying that event's timestamp. */
  function HazardIssues(plate: string, s: seq<Event>): (r: seq<Issue>)
    ensures |r| == |s|
    ensures forall i :: 0 <= i < |s| ==> r[i] == Issue(plate, HazardPlate, s[i].timestamp)
    decreases |s|
  {
    if s == [] then []
    else HazardIssues(plate, s[..|s| - 1]) + [Issue(plate, HazardPlate, s[|s| - 1].timestamp)]
  }

  /** The loop over a hazard plate's rows. */
  method ReportHazard(plate: string, group: seq<Event>) returns (issues: seq<Issue>)
    ensures issues == HazardIssues(plate, group)
  {
    issues := [];
    for i := 0 to |group|
      invariant issues == HazardIssues(plate, group[..i])
    {
      assert group[..i + 1][..i] == group[..i];
      issues := issues + [Issue(plate, HazardPlate, group[i].timestamp)];
    }
    assert group[..|group|] == group;
  }

  /** What one plate's (sorted) group contributes. */
  function PlateReport(plate: string, m: Markers, group: seq<Event>): Report {
    if IsHazard(plate) then Report([], HazardIssues(plate, group))
    else WalkReport(plate, m, group)
  }

  /** The events of one plate, ordered by timestamp. */
  function Group(events: seq<Event>, plate: string): seq<Event> {
    SortByTime(Select(events, PlateOf, plate))
  }

  /** The reports of the plates `ps`, concatenated in that order. */
  function ReconcileGroups(events: seq<Event>, m: Markers, ps: seq<string>): Report
    decreases |ps|
  {
    if ps == [] then Report([], [])
    else
      var r := ReconcileGroups(events, m, ps[..|ps| - 1]);
      var p := ps[|ps| - 1];
      var g := PlateReport(p, m, Group(events, p));
      Report(r.intervals + g.intervals, r.issues + g.issues)
  }

  function Reconcile(events: seq<Event>, m: Markers): Report {
    if events == [] then Report([], [])
    else ReconcileGroups(events, m, Keys(events, PlateOf))
  }

  /** Taking one more plate appends that plate's report to the reports of the plates before it. */
  lemma ReconcileGroupsStep(events: seq<Event>, m: Markers, ps: seq<string>, k: nat)
    requires k < |ps|
    ensures var r, g := ReconcileGroups(events, m, ps[..k]), PlateReport(ps[k], m, Group(events, ps[k]));
      ReconcileGroups(events, m, ps[..k + 1]) == Report(r.intervals + g.intervals, r.issues + g.issues)
  {
    assert ps[..k + 1][..k] == ps[..k];
  }

  /**
    The outer loop over the plates, each group sorted first; the two tables
    it builds are those of `Reconcile`, and empty input gives two empty tables.
   */
  method BuildIntervals(events: seq<Event>, m: Markers) returns (intervals: seq<Interval>, issues: seq<Issue>)
    ensures Report(intervals, issues) == Reconcile(events, m)
    ensures events == [] ==> intervals == [] && issues == []
  {
    intervals, issues := [], [];
    if events == [] {
      return;
    }
    var plates := Keys(events, PlateOf);
    for k := 0 to |plates|
      invariant Report(intervals, issues) == ReconcileGroups(events, m, plates[..k])
    {
      var plate := plates[k];
      var group := SortByTime(Select(events, PlateOf, plate));
      ReconcileGroupsStep(events, m, plates, k);
      if IsHazard(plate) {
        var hazards := ReportHazard(plate, group);
        assert Report([], hazards) == PlateReport(plate, m, Group(events, plate));
        assert intervals + [] == intervals;
        issues := issues + hazards;
      } else {
        var paired, flagged := WalkPlate(plate, group, m);
        assert Report(paired, flagged) == PlateReport(plate, m, Group(events, plate));
        intervals, issues := intervals + paired, issues + flagged;
      }
    }
    assert plates[..|plates|] == plates;
  }

  /** Every event of a sorted group stays one of the group's events. */
  lemma GroupMembers(events: seq<Event>, plate: string)
    ensures Sorted(Group(events, plate))
    ensures |Group(events, plate)| == |Select(events, PlateOf, plate)|
    ensures forall e :: e in Group(events, plate) ==> e in events && e.plate == plate
  {
    var g := Select(events, PlateOf, plate);
    var s := Group(events, plate);
    assert |multiset(s)| == |multiset(g)|;
    forall e | e in s ensures e in g {
      assert e in multiset(s);
    }
  }

  /**
    A plate's report carries that plate on every row; a hazard plate has no
    interval; every interval is well formed; and, the group being sorted, no
    "EXIT earlier than ENTRY" issue occurs.
   */
  lemma PlateReportFacts(plate: string, m: Markers, s: seq<Event>)
    requires Sorted(s)
    ensures var r := PlateReport(plate, m, s);
      && (IsHazard(plate) ==> r.intervals == [])
      && (forall i :: 0 <= i < |r.intervals| ==> r.intervals[i].plate == plate && WellFormed(r.intervals[i]))
      && (forall i :: 0 <= i < |r.issues| ==> r.issues[i].plate == plate && r.issues[i].kind != ExitBeforeEntry)
  {
    if !IsHazard(plate) {
      RunWellFormed(plate, m, s);
      SortedRunNeverExitsEarly(plate, m, s);
    }
  }

  /** Every row of a plate's report carries that plate. */
  lemma PlateReportPlates(plate: string, m: Markers, s: seq<Event>)
    ensures var r := PlateReport(plate, m, s);
      && (forall x :: x in r.intervals ==> IntervalPlate(x) == plate)
      && (forall x :: x in r.issues ==> IssuePlate(x) == plate)
  {
    if !IsHazard(plate) {
      RunWellFormed(plate, m, s);
    }
  }

  /** A report whose intervals are well formed and on non-hazard plates, with no "EXIT earlier than ENTRY" issue. */
  predicate Clean(r: Report) {
    && (forall i :: 0 <= i < |r.intervals| ==> WellFormed(r.intervals[i]) && !IsHazard(r.intervals[i].plate))
    && (forall i :: 0 <= i < |r.issues| ==> r.issues[i].kind != ExitBeforeEntry)
  }

  lemma {:induction false} ReconcileGroupsClean(events: seq<Event>, m: Markers, ps: seq<string>)
    ensures Clean(ReconcileGroups(events, m, ps))
    decreases |ps|
  {
    if ps != [] {
      var p := ps[|ps| - 1];
      ReconcileGroupsClean(events, m, ps[..|ps| - 1]);
      GroupMembers(events, p);
      PlateReportFacts(p, m, Group(events, p));
    }
  }

  /**
    Every interval of the result ends no earlier than it starts, has the
    difference as its duration and belongs to a plate that is not all digits;
    and because every group is sorted first, no "EXIT earlier than ENTRY"
    issue is ever reported.
   */
  lemma ReconcileClean(events: seq<Event>, m: Markers)
    ensures Clean(Reconcile(events, m))
  {
    if events != [] {
      ReconcileGroupsClean(events, m, Keys(events, PlateOf));
    }
  }

  lemma {:induction false} ReconcileGroupsSelect(events: seq<Event>, m: Markers, ps: seq<string>, p: string)
    requires Distinct(ps)
    ensures var r, g := ReconcileGroups(events, m, ps), PlateReport(p, m, Group(events, p));
      && Select(r.intervals, IntervalPlate, p) == (if p in ps then g.intervals else [])
      && Select(r.issues, IssuePlate, p) == (if p in ps then g.issues else [])
    decreases |ps|
  {
    if ps != [] {
      var front := ps[..|ps| - 1];
      var q := ps[|ps| - 1];
      DistinctFront(ps);
      ReconcileGroupsSelect(events, m, front, p);
      var r0 := ReconcileGroups(events, m, front);
      var h := PlateReport(q, m, Group(events, q));
      PlateReportPlates(q, m, Group(events, q));
      SelectAppendUniform(r0.intervals, h.intervals, IntervalPlate, q, p);
      SelectAppendUniform(r0.issues, h.issues, IssuePlate, q, p);
      assert p in ps <==> p in front || p == q;
      if p == q {
        assert [] + h.intervals == h.intervals;
        assert [] + h.issues == h.issues;
      }
    }
  }

  /** A plate with no events has an empty group and contributes nothing. */
  lemma AbsentPlate(events: seq<Event>, m: Markers, p: string)
    requires forall e :: e in events ==> e.plate != p
    ensures Group(events, p) == []
    ensures PlateReport(p, m, Group(events, p)) == Report([], [])
  {
    SelectAbsent(events, PlateOf, p);
  }

  /**
    Plates are independent: the intervals and the issues of the result that
    carry plate `p` are exactly what `p`'s own sorted group yields on its own,
    whatever the other plates' events are.
   */
  lemma ReconcileIsolation(events: seq<Event>, m: Markers, p: string)
    ensures var r, g := Reconcile(events, m), PlateReport(p, m, Group(events, p));
      && Select(r.intervals, IntervalPlate, p) == g.intervals
      && Select(r.issues, IssuePlate, p) == g.issues
  {
    if events == [] {
      AbsentPlate(events, m, p);
    } else {
      var ps := Keys(events, PlateOf);
      ReconcileGroupsSelect(events, m, ps, p);
      if p !in ps {
        AbsentPlate(events, m, p);
      }
    }
  }

  /**
    An all-digit plate gets no interval, and exactly one "Hazard plate number"
    issue per event of that plate, each stamped with its event's timestamp
    (taken in timestamp order).
   */
  lemma HazardPlateOutcome(events: seq<Event>, m: Markers, p: string)
    requires IsHazard(p)
    ensures var r := Reconcile(events, m);
      && Select(r.intervals, IntervalPlate, p) == []
      && Select(r.issues, IssuePlate, p) == HazardIssues(p, Group(events, p))
      && |Select(r.issues, IssuePlate, p)| == |Select(events, PlateOf, p)|
  {
    ReconcileIsolation(events, m, p);
    GroupMembers(events, p);
  }

  /** The number of input events a correct result must account for: an event of a hazard plate, or one carrying a marker. */
  function Accounted(m: Markers): Event -> int {
    (e: Event) => if IsHazard(e.plate) || IsMarked(e, m) then 1 else 0
  }

  lemma {:induction false} UniformAccounted(s: seq<Event>, m: Markers, p: string)
    requires forall e :: e in s ==> e.plate == p
    ensures Total(s, Accounted(m)) == if IsHazard(p) then |s| else CountMarked(s, m)
    decreases |s|
  {
    if s != [] {
      var front := s[..|s| - 1];
      assert forall e :: e in front ==> e in s;
      UniformAccounted(front, m, p);
    }
  }

  lemma PlateBalance(events: seq<Event>, m: Markers, p: string)
    ensures var r := PlateReport(p, m, Group(events, p));
      2 * |r.intervals| + |r.issues| == Total(Select(events, PlateOf, p), Accounted(m))
  {
    var g := Select(events, PlateOf, p);
    var s := Group(events, p);
    GroupMembers(events, p);
    TotalPermutation(g, s, Accounted(m));
    UniformAccounted(s, m, p);
    if !IsHazard(p) {
      WalkConservation(p, m, s);
    }
  }

  lemma {:induction false} ReconcileGroupsBalance(events: seq<Event>, m: Markers, ps: seq<string>)
    ensures var r := ReconcileGroups(events, m, ps);
      2 * |r.intervals| + |r.issues| == GroupTotals(events, PlateOf, Accounted(m), ps)
    decreases |ps|
  {
    if ps != [] {
      ReconcileGroupsBalance(events, m, ps[..|ps| - 1]);
      PlateBalance(events, m, ps[|ps| - 1]);
    }
  }

  /**
    No event vanishes and none is counted twice: each event of a hazard plate
    gives one issue, and each ENTRY or EXIT event of any other plate is either
    one end of one interval or the source of one issue. Events with other
    labels give nothing.
   */
  lemma ReconcileConservation(events: seq<Event>, m: Markers)
    ensures var r := Reconcile(events, m);
      2 * |r.intervals| + |r.issues| == Total(events, Accounted(m))
  {
    if events != [] {
      var ps := Keys(events, PlateOf);
      ReconcileGroupsBalance(events, m, ps);
      GroupTotalsCover(events, PlateOf, Accounted(m), ps);
    }
  }
}
