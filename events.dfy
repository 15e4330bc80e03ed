/**
  The records the reconciliation works on: events read from the exports,
  the intervals it pairs them into and the issues it reports.

  Timestamps are integers on one clock (their unit is left open; every
  comparison and difference in the model is exact).
 */
module Events {

  type Timestamp = int

  /** The two configured event labels, already upper-cased (default "01 ENTRY" / "02 EXIT"). */
  datatype Markers = Markers(entry: string, exit: string)

  const DefaultMarkers := Markers("01 ENTRY", "02 EXIT")

  /** What an event label means to the walk; any other label is carried but ignored. */
  datatype Kind = Entry | Exit | Other(tag: string)

  /** One row of the loaded events table: plate, event label and timestamp. */
  datatype Event = Event(plate: string, tag: string, timestamp: Timestamp)

  /** The closed set of issues the reconciliation can report. */
  datatype IssueKind =
    | HazardPlate
    | ConsecutiveEntry
    | ExitWithoutEntry
    | ExitBeforeEntry
    | EntryWithoutExit

  datatype Issue = Issue(plate: string, kind: IssueKind, timestamp: Timestamp)

  /** A paired stay; `duration` is `exitTime - entryTime` in timestamp units. */
  datatype Interval = Interval(plate: string, entryTime: Timestamp, exitTime: Timestamp, duration: int)

  /** The two tables the reconciliation returns. */
  datatype Report = Report(intervals: seq<Interval>, issues: seq<Issue>)

  function PlateOf(e: Event): string { e.plate }
  function IntervalPlate(i: Interval): string { i.plate }
  function IssuePlate(i: Issue): string { i.plate }

  /** The text written in the issue column for each kind. */
  function IssueText(k: IssueKind): string {
    match k
    case HazardPlate => "Hazard plate number"
    case ConsecutiveEntry => "Consecutive ENTRY without EXIT"
    case ExitWithoutEntry => "EXIT without matching ENTRY"
    case ExitBeforeEntry => "EXIT earlier than ENTRY"
    case EntryWithoutExit => "ENTRY without matching EXIT"
  }

  /**
    The entry marker is tested first and the exit marker second, so a label
    equal to both counts as an ENTRY; every other label is left unrecognised.
   */
  function Classify(tag: string, m: Markers): (k: Kind)
    ensures k == Entry <==> tag == m.entry
    ensures k == Exit <==> tag != m.entry && tag == m.exit
    ensures k.Other? ==> k.tag == tag
  {
    if tag == m.entry then Entry
    else if tag == m.exit then Exit
    else Other(tag)
  }

  /** An event whose label is one of the two markers. */
  predicate IsMarked(e: Event, m: Markers) {
    !Classify(e.tag, m).Other?
  }

  /** A plate made only of the digits 0-9 (and not empty), as a string digit test reports it. */
  predicate IsHazard(plate: string) {
    |plate| > 0 && forall i :: 0 <= i < |plate| ==> '0' <= plate[i] <= '9'
  }

  /** Timestamps never decrease along the sequence. */
  predicate Sorted(s: seq<Event>) {
    forall i, j :: 0 <= i < j < |s| ==> s[i].timestamp <= s[j].timestamp
  }

  lemma SortedCons(x: Event, s: seq<Event>)
    requires Sorted(s)
    requires forall y :: y in s ==> x.timestamp <= y.timestamp
    ensures Sorted([x] + s)
  {
    forall j | 0 < j < |[x] + s|
      ensures x.timestamp <= ([x] + s)[j].timestamp
    {
      assert ([x] + s)[j] in s;
    }
  }

  /** Keeping the head of `s` in front of the insertion into its tail keeps the order and the contents. */
  lemma InsertBehindHead(s: seq<Event>, e: Event, rest: seq<Event>)
    requires s != [] && Sorted(s) && s[0].timestamp <= e.timestamp
    requires Sorted(rest) && multiset(rest) == multiset(s[1..]) + multiset{e}
    requires forall x :: x in rest ==> x == e || x in s[1..]
    ensures Sorted([s[0]] + rest)
    ensures multiset([s[0]] + rest) == multiset(s) + multiset{e}
    ensures forall x :: x in [s[0]] + rest ==> x == e || x in s
  {
    assert s == [s[0]] + s[1..];
    forall x | x in rest
      ensures s[0].timestamp <= x.timestamp
    {
      if x != e {
        var j :| 0 <= j < |s[1..]| && s[1..][j] == x;
        assert s[j + 1] == x;
      }
    }
    SortedCons(s[0], rest);
  }

  /** Puts `e` into the sorted `s`, after every event with an earlier timestamp and before every other. */
  function Insert(e: Event, s: seq<Event>): (r: seq<Event>)
    requires Sorted(s)
    ensures |r| == |s| + 1
    ensures forall x :: x in r ==> x == e || x in s
    ensures Sorted(r)
    ensures multiset(r) == multiset(s) + multiset{e}
    decreases |s|
  {
    if s == [] then [e]
    else if e.timestamp <= s[0].timestamp then
      assert forall y :: y in s ==> e.timestamp <= y.timestamp by {
        forall y | y in s ensures e.timestamp <= y.timestamp {
          var j :| 0 <= j < |s| && s[j] == y;
        }
      }
      SortedCons(e, s);
      [e] + s
    else
      var rest := Insert(e, s[1..]);
      InsertBehindHead(s, e, rest);
      [s[0]] + rest
  }

  /** The events of `s` ordered by timestamp: a sorted permutation of `s`. */
  function SortByTime(s: seq<Event>): (r: seq<Event>)
    ensures Sorted(r)
    ensures multiset(r) == multiset(s)
    decreases |s|
  {
    if s == [] then []
    else
      assert s == [s[0]] + s[1..];
      Insert(s[0], SortByTime(s[1..]))
  }

  /** The sort is stable: two events with the same timestamp keep their input order. */
  lemma SortKeepsTieOrder(a: Event, b: Event)
    requires a.timestamp == b.timestamp
    ensures SortByTime([a, b]) == [a, b]
  {
    assert [a, b][1..] == [b];
    assert [b][1..] == [];
  }

  /** Each issue kind has its own text in the issue column, so the text identifies the kind. */
  lemma IssueTextDistinct(a: IssueKind, b: IssueKind)
    ensures IssueText(a) == IssueText(b) <==> a == b
  {
  }
}
