/**
  The open-entry walk over one plate's events (the non-hazard path of
  `build_intervals`): a two-state machine, CLOSED or OPEN(t), that pairs each
  ENTRY with the next EXIT and reports the irregular sequences as issues.

  `Step` is one transition, `Run` folds it over a sequence from the left,
  `WalkReport` adds the issue for an entry still open at the end.
  `WalkPlate` is the loop that performs the walk; the lemmas say what the
  walk promises.
 */
module PlateWalk {
  import opened Events

  /** The single open-entry register. */
  datatype Slot = Closed | Open(since: Timestamp)

  /** The state of a walk part-way through: the register and what was emitted so far. */
  datatype Walk = Walk(slot: Slot, intervals: seq<Interval>, issues: seq<Issue>)

  const Start := Walk(Closed, [], [])

  function Step(plate: string, m: Markers, w: Walk, e: Event): Walk {
    match Classify(e.tag, m)
    case Entry =>
      var flagged := if w.slot.Open? then w.issues + [Issue(plate, ConsecutiveEntry, w.slot.since)] else w.issues;
      Walk(Open(e.timestamp), w.intervals, flagged)
    case Exit =>
      if w.slot.Closed? then
        Walk(Closed, w.intervals, w.issues + [Issue(plate, ExitWithoutEntry, e.timestamp)])
      else if e.timestamp - w.slot.since < 0 then
        Walk(Closed, w.intervals, w.issues + [Issue(plate, ExitBeforeEntry, e.timestamp)])
      else
        var stay := Interval(plate, w.slot.since, e.timestamp, e.timestamp - w.slot.since);
        Walk(Closed, w.intervals + [stay], w.issues)
    case Other(_) => w
  }

  function Run(plate: string, m: Markers, s: seq<Event>): Walk
    decreases |s|
  {
    if s == [] then Start else Step(plate, m, Run(plate, m, s[..|s| - 1]), s[|s| - 1])
  }

  /** Ends a walk: an entry still open becomes an "ENTRY without matching EXIT" issue. */
  function Close(plate: string, w: Walk): Report {
    if w.slot.Open? then Report(w.intervals, w.issues + [Issue(plate, EntryWithoutExit, w.slot.since)])
    else Report(w.intervals, w.issues)
  }

  function WalkReport(plate: string, m: Markers, s: seq<Event>): Report {
    Close(plate, Run(plate, m, s))
  }

  /** The number of events of `s` whose label is one of the markers. */
  function CountMarked(s: seq<Event>, m: Markers): nat
    decreases |s|
  {
    if s == [] then 0
    else CountMarked(s[..|s| - 1], m) + (if IsMarked(s[|s| - 1], m) then 1 else 0)
  }

  /** The number of issues of kind `k`. */
  function CountKind(issues: seq<Issue>, k: IssueKind): nat
    decreases |issues|
  {
    if issues == [] then 0
    else CountKind(issues[..|issues| - 1], k) + (if issues[|issues| - 1].kind == k then 1 else 0)
  }

  /** An interval that starts no later than it ends and whose duration is the difference. */
  predicate WellFormed(i: Interval) {
    i.entryTime <= i.exitTime && i.duration == i.exitTime - i.entryTime
  }

  /**
    The walk over the rows of one plate's group, in order, with the register
    held in a local variable; the intervals and issues it appends are exactly
    those of `WalkReport`.
   */
  method WalkPlate(plate: string, group: seq<Event>, m: Markers) returns (intervals: seq<Interval>, issues: seq<Issue>)
    ensures Report(intervals, issues) == WalkReport(plate, m, group)
  {
    var slot := Closed;
    intervals, issues := [], [];
    var i := 0;
    while i < |group|
      invariant 0 <= i <= |group|
      invariant Run(plate, m, group[..i]) == Walk(slot, intervals, issues)
    {
      var e := group[i];
      match Classify(e.tag, m) {
        case Entry =>
          if slot.Open? {
            issues := issues + [Issue(plate, ConsecutiveEntry, slot.since)];
          }
          slot := Open(e.timestamp);
        case Exit =>
          if slot.Closed? {
            issues := issues + [Issue(plate, ExitWithoutEntry, e.timestamp)];
          } else if e.timestamp - slot.since < 0 {
            issues := issues + [Issue(plate, ExitBeforeEntry, e.timestamp)];
            slot := Closed;
          } else {
            intervals := intervals + [Interval(plate, slot.since, e.timestamp, e.timestamp - slot.since)];
            slot := Closed;
          }
        case Other(_) =>
      }
      assert group[..i + 1][..i] == group[..i];
      i := i + 1;
    }
    assert group[..i] == group;
    if slot.Open? {
      issues := issues + [Issue(plate, EntryWithoutExit, slot.since)];
    }
  }

  lemma {:induction false} RunSnoc(plate: string, m: Markers, s: seq<Event>, e: Event)
    ensures Run(plate, m, s + [e]) == Step(plate, m, Run(plate, m, s), e)
  {
    assert (s + [e])[..|s|] == s;
  }

  /**
    An ENTRY opens the register on its own timestamp; if an entry was already
    open, one "Consecutive ENTRY without EXIT" issue is emitted, stamped with
    the earlier entry's time, and no interval.
   */
  lemma {:induction false} EntryTransition(plate: string, m: Markers, s: seq<Event>, e: Event)
    requires Classify(e.tag, m) == Entry
    ensures var before, after := Run(plate, m, s), Run(plate, m, s + [e]);
      && after.slot == Open(e.timestamp)
      && after.intervals == before.intervals
      && after.issues == before.issues
           + (if before.slot.Open? then [Issue(plate, ConsecutiveEntry, before.slot.since)] else [])
  {
    RunSnoc(plate, m, s, e);
    var before := Run(plate, m, s);
    assert before.slot.Closed? ==> before.issues + [] == before.issues;
  }

  /**
    An EXIT always leaves the register closed. With nothing open it emits one
    "EXIT without matching ENTRY" issue at its own time; with an entry open at
    or before it, it emits the interval from that entry to it; with an entry
    open after it, one "EXIT earlier than ENTRY" issue at its own time.
   */
  lemma {:induction false} ExitTransition(plate: string, m: Markers, s: seq<Event>, e: Event)
    requires Classify(e.tag, m) == Exit
    ensures var before, after := Run(plate, m, s), Run(plate, m, s + [e]);
      && after.slot == Closed
      && (before.slot.Closed? ==>
            after.intervals == before.intervals
            && after.issues == before.issues + [Issue(plate, ExitWithoutEntry, e.timestamp)])
      && (before.slot.Open? && before.slot.since <= e.timestamp ==>
            after.intervals == before.intervals
              + [Interval(plate, before.slot.since, e.timestamp, e.timestamp - before.slot.since)]
            && after.issues == before.issues)
      && (before.slot.Open? && e.timestamp < before.slot.since ==>
            after.intervals == before.intervals
            && after.issues == before.issues + [Issue(plate, ExitBeforeEntry, e.timestamp)])
  {
    RunSnoc(plate, m, s, e);
  }

  /** An event with any other label changes nothing. */
  lemma {:induction false} OtherTransition(plate: string, m: Markers, s: seq<Event>, e: Event)
    requires Classify(e.tag, m).Other?
    ensures Run(plate, m, s + [e]) == Run(plate, m, s)
  {
    RunSnoc(plate, m, s, e);
  }

  /**
    Everything the walk emits carries the walk's plate; every interval ends no
    earlier than it starts and its duration is the difference; the walk itself
    never emits a hazard issue or an "ENTRY without matching EXIT" issue; an
    open register holds the timestamp of an ENTRY event of the group.
   */
  lemma {:induction false} RunWellFormed(plate: string, m: Markers, s: seq<Event>)
    ensures var w := Run(plate, m, s);
      && (forall i :: 0 <= i < |w.intervals| ==> w.intervals[i].plate == plate && WellFormed(w.intervals[i]))
      && (forall i :: 0 <= i < |w.issues| ==>
            w.issues[i].plate == plate && w.issues[i].kind != HazardPlate && w.issues[i].kind != EntryWithoutExit)
      && (w.slot.Open? ==> exists j :: 0 <= j < |s| && s[j].timestamp == w.slot.since && Classify(s[j].tag, m) == Entry)
    decreases |s|
  {
    if s != [] {
      var front := s[..|s| - 1];
      RunWellFormed(plate, m, front);
      var w := Run(plate, m, s);
      if w.slot.Open? {
        if Classify(s[|s| - 1].tag, m) == Entry {
          assert s[|s| - 1].timestamp == w.slot.since;
        } else {
          var j :| 0 <= j < |front| && front[j].timestamp == w.slot.since && Classify(front[j].tag, m) == Entry;
          assert s[j] == front[j];
        }
      }
    }
  }

  /**
    On a timestamp-sorted group the "EXIT earlier than ENTRY" branch is never
    taken: an open register never holds a time later than the latest event.
   */
  lemma {:induction false} SortedRunNeverExitsEarly(plate: string, m: Markers, s: seq<Event>)
    requires Sorted(s)
    ensures var w := Run(plate, m, s);
      && (forall i :: 0 <= i < |w.issues| ==> w.issues[i].kind != ExitBeforeEntry)
      && (w.slot.Open? ==> |s| > 0 && w.slot.since <= s[|s| - 1].timestamp)
    decreases |s|
  {
    if s != [] {
      var front := s[..|s| - 1];
      assert Sorted(front);
      SortedRunNeverExitsEarly(plate, m, front);
    }
  }

  /**
    The balance of the walk on any input: every marked event is either half of
    an interval, the source of one issue, the entry still open, or (together
    with the entry it closes) an "EXIT earlier than ENTRY" issue.
   */
  lemma {:induction false} RunBalance(plate: string, m: Markers, s: seq<Event>)
    ensures var w := Run(plate, m, s);
      CountMarked(s, m)
        == 2 * |w.intervals| + |w.issues| + CountKind(w.issues, ExitBeforeEntry) + (if w.slot.Open? then 1 else 0)
    decreases |s|
  {
    if s != [] {
      var front := s[..|s| - 1];
      var e := s[|s| - 1];
      RunBalance(plate, m, front);
      assert s == front + [e];
      var before := Run(plate, m, front);
      var k := Classify(e.tag, m);
      if k == Entry {
        EntryTransition(plate, m, front, e);
        if before.slot.Open? {
          CountKindSnoc(before.issues, Issue(plate, ConsecutiveEntry, before.slot.since), ExitBeforeEntry);
        } else {
          assert before.issues + [] == before.issues;
        }
      } else if k == Exit {
        ExitTransition(plate, m, front, e);
        if before.slot.Closed? {
          CountKindSnoc(before.issues, Issue(plate, ExitWithoutEntry, e.timestamp), ExitBeforeEntry);
        } else if e.timestamp < before.slot.since {
          CountKindSnoc(before.issues, Issue(plate, ExitBeforeEntry, e.timestamp), ExitBeforeEntry);
        }
      } else {
        OtherTransition(plate, m, front, e);
      }
    }
  }

  lemma {:induction false} CountKindSnoc(issues: seq<Issue>, x: Issue, k: IssueKind)
    ensures CountKind(issues + [x], k) == CountKind(issues, k) + (if x.kind == k then 1 else 0)
  {
    assert (issues + [x])[..|issues|] == issues;
  }

  /** No issue of kind `k` means a count of zero. */
  lemma {:induction false} CountKindAbsent(issues: seq<Issue>, k: IssueKind)
    requires forall i :: 0 <= i < |issues| ==> issues[i].kind != k
    ensures CountKind(issues, k) == 0
    decreases |issues|
  {
    if issues != [] {
      CountKindAbsent(issues[..|issues| - 1], k);
    }
  }

  /**
    Conservation on a sorted group: every ENTRY or EXIT event is accounted for
    exactly once, each interval using two of them and each issue one.
   */
  lemma WalkConservation(plate: string, m: Markers, s: seq<Event>)
    requires Sorted(s)
    ensures var r := WalkReport(plate, m, s);
      CountMarked(s, m) == 2 * |r.intervals| + |r.issues|
  {
    var w := Run(plate, m, s);
    RunBalance(plate, m, s);
    SortedRunNeverExitsEarly(plate, m, s);
    CountKindAbsent(w.issues, ExitBeforeEntry);
  }

  /**
    After the walk exactly one "ENTRY without matching EXIT" issue is emitted,
    the last one and stamped with the open entry's time, if the register is
    still open, and none if it is closed.
   */
  lemma ClosingIssue(plate: string, m: Markers, s: seq<Event>)
    ensures var w, r := Run(plate, m, s), WalkReport(plate, m, s);
      && CountKind(r.issues, EntryWithoutExit) == (if w.slot.Open? then 1 else 0)
      && (w.slot.Open? ==> r.issues == w.issues + [Issue(plate, EntryWithoutExit, w.slot.since)])
      && (w.slot.Closed? ==> r.issues == w.issues)
      && r.intervals == w.intervals
  {
    var w := Run(plate, m, s);
    RunWellFormed(plate, m, s);
    CountKindAbsent(w.issues, EntryWithoutExit);
    if w.slot.Open? {
      CountKindSnoc(w.issues, Issue(plate, EntryWithoutExit, w.slot.since), EntryWithoutExit);
    }
  }

  /** ENTRY, EXIT, ENTRY, EXIT, ... by label, strictly alternating and of even length. */
  predicate Alternating(s: seq<Event>, m: Markers) {
    |s| % 2 == 0 && forall i :: 0 <= i < |s| ==> Classify(s[i].tag, m) == (if i % 2 == 0 then Entry else Exit)
  }

  /** The interval made of the `k`-th ENTRY/EXIT pair of `s`. */
  function PairInterval(plate: string, s: seq<Event>, k: nat): Interval
    requires 2 * k + 1 < |s|
  {
    Interval(plate, s[2 * k].timestamp, s[2 * k + 1].timestamp, s[2 * k + 1].timestamp - s[2 * k].timestamp)
  }

  /** The intervals of the first `n` ENTRY/EXIT pairs of `s`, the `k`-th from the `k`-th pair. */
  function Pairs(plate: string, s: seq<Event>, n: nat): (r: seq<Interval>)
    requires 2 * n <= |s|
    ensures |r| == n
    ensures forall k :: 0 <= k < n ==> r[k] == PairInterval(plate, s, k)
  {
    if n == 0 then [] else Pairs(plate, s, n - 1) + [PairInterval(plate, s, n - 1)]
  }

  /** The `k`-th pair of `s` is an ENTRY followed by an EXIT no earlier than it. */
  predicate GoodPair(s: seq<Event>, m: Markers, k: nat)
    requires 2 * k + 1 < |s|
  {
    && Classify(s[2 * k].tag, m) == Entry
    && Classify(s[2 * k + 1].tag, m) == Exit
    && s[2 * k].timestamp <= s[2 * k + 1].timestamp
  }

  /** From a closed register, the `n`-th good pair of `s` adds exactly its interval to the walk. */
  lemma PairStep(plate: string, m: Markers, s: seq<Event>, n: nat)
    requires 0 < n && 2 * n <= |s|
    requires GoodPair(s, m, n - 1)
    requires Run(plate, m, s[..2 * n - 2]).slot == Closed
    ensures var w := Run(plate, m, s[..2 * n - 2]);
      Run(plate, m, s[..2 * n]) == Walk(Closed, w.intervals + [PairInterval(plate, s, n - 1)], w.issues)
  {
    assert s[..2 * n][..2 * n - 1] == s[..2 * n - 1];
    assert s[..2 * n - 1][..2 * n - 2] == s[..2 * n - 2];
    assert Run(plate, m, s[..2 * n - 1]) == Step(plate, m, Run(plate, m, s[..2 * n - 2]), s[2 * n - 2]);
  }

  /** One more good pair extends the walk over the first `n - 1` pairs by that pair's interval. */
  lemma PairsPrefixStep(plate: string, m: Markers, s: seq<Event>, n: nat)
    requires 0 < n && 2 * n <= |s|
    requires GoodPair(s, m, n - 1)
    requires Run(plate, m, s[..2 * n - 2]) == Walk(Closed, Pairs(plate, s, n - 1), [])
    ensures Run(plate, m, s[..2 * n]) == Walk(Closed, Pairs(plate, s, n), [])
  {
    PairStep(plate, m, s, n);
  }

  lemma {:induction false} PairsPrefix(plate: string, m: Markers, s: seq<Event>, n: nat)
    requires 2 * n <= |s|
    requires forall k :: 0 <= k < n ==> GoodPair(s, m, k)
    ensures Run(plate, m, s[..2 * n]) == Walk(Closed, Pairs(plate, s, n), [])
  {
    if n > 0 {
      PairsPrefix(plate, m, s, n - 1);
      PairsPrefixStep(plate, m, s, n);
    }
  }

  /**
    A sorted, strictly alternating ENTRY, EXIT, ... group of n pairs gives
    exactly n intervals, the k-th from the k-th pair, and no issue.
   */
  lemma AlternatingPairs(plate: string, m: Markers, s: seq<Event>)
    requires Alternating(s, m) && Sorted(s)
    ensures var r := WalkReport(plate, m, s);
      && r.issues == [] && |r.intervals| == |s| / 2
      && forall k :: 0 <= k < |s| / 2 ==> r.intervals[k] == PairInterval(plate, s, k)
  {
    forall k | 0 <= k < |s| / 2
      ensures GoodPair(s, m, k)
    {
      assert (2 * k) % 2 == 0 && (2 * k + 1) % 2 == 1;
    }
    PairsPrefix(plate, m, s, |s| / 2);
    assert s[..2 * (|s| / 2)] == s;
  }

  lemma {:induction false} RunPair(plate: string, m: Markers, a: Event, b: Event)
    ensures Run(plate, m, [a, b]) == Step(plate, m, Step(plate, m, Start, a), b)
  {
    assert [a] == [] + [a] && [a, b] == [a] + [b];
    RunSnoc(plate, m, [], a);
    RunSnoc(plate, m, [a], b);
  }

  /**
    ENTRY at t1, ENTRY at t2, EXIT at t3 in timestamp order: one "Consecutive
    ENTRY without EXIT" issue stamped t1 and one interval from t2 to t3.
   */
  lemma ConsecutiveEntryScenario(plate: string, t1: Timestamp, t2: Timestamp, t3: Timestamp)
    requires t1 <= t2 <= t3
    ensures var m := DefaultMarkers;
      var s := [Event(plate, m.entry, t1), Event(plate, m.entry, t2), Event(plate, m.exit, t3)];
      WalkReport(plate, m, s) == Report([Interval(plate, t2, t3, t3 - t2)], [Issue(plate, ConsecutiveEntry, t1)])
  {
    var m := DefaultMarkers;
    var a, b, c := Event(plate, m.entry, t1), Event(plate, m.entry, t2), Event(plate, m.exit, t3);
    assert [a, b, c] == [a] + [b] + [c];
    assert [a] == [] + [a];
    RunSnoc(plate, m, [], a);
    RunSnoc(plate, m, [a], b);
    RunSnoc(plate, m, [a] + [b], c);
  }

  /**
    The walk needs the sort: an EXIT stamped earlier than the ENTRY it follows
    takes the "EXIT earlier than ENTRY" branch, which spends two marked events on a
    single issue, so the conservation of `WalkConservation` fails.
   */
  lemma UnsortedExitBeforeEntry(plate: string)
    ensures var m := DefaultMarkers;
      var s := [Event(plate, m.entry, 10), Event(plate, m.exit, 5)];
      && !Sorted(s)
      && WalkReport(plate, m, s) == Report([], [Issue(plate, ExitBeforeEntry, 5)])
      && CountMarked(s, m) == 2 * |WalkReport(plate, m, s).intervals| + |WalkReport(plate, m, s).issues| + 1
  {
    var m := DefaultMarkers;
    var a, b := Event(plate, m.entry, 10), Event(plate, m.exit, 5);
    RunPair(plate, m, a, b);
    assert [a, b][..1] == [a] && [a][..0] == [];
    assert IsMarked(a, m) && IsMarked(b, m);
    assert CountMarked([a], m) == 1;
    assert CountMarked([a, b], m) == 2;
  }

  /**
    Ties between equal timestamps are not ordered by the sort, and the outcome
    depends on their order: an ENTRY and an EXIT at the same instant give one
    zero-length interval in one order and two issues in the other.
   */
  lemma TieOrderMatters(plate: string, t: Timestamp)
    ensures var m := DefaultMarkers;
      var entry, exit := Event(plate, m.entry, t), Event(plate, m.exit, t);
      && Sorted([entry, exit]) && Sorted([exit, entry])
      && multiset([entry, exit]) == multiset([exit, entry])
      && WalkReport(plate, m, [entry, exit]) == Report([Interval(plate, t, t, 0)], [])
      && WalkReport(plate, m, [exit, entry])
           == Report([], [Issue(plate, ExitWithoutEntry, t), Issue(plate, EntryWithoutExit, t)])
  {
    var m := DefaultMarkers;
    var entry, exit := Event(plate, m.entry, t), Event(plate, m.exit, t);
    assert Classify(entry.tag, m) == Entry && Classify(exit.tag, m) == Exit;
    RunPair(plate, m, entry, exit);
    RunPair(plate, m, exit, entry);
  }
}
