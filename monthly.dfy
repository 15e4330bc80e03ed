/**
  `summarize_monthly`: the intervals grouped by plate and by the calendar
  month of their entry time, with the number of visits and the summed
  duration of each group.

  The calendar is a parameter, `monthOf`, mapping a timestamp to its year
  and month; which month a timestamp falls in is not modelled.
 */
module Monthly {
  import opened Events
  import opened Grouping

  datatype Month = Month(year: int, month: int)

  datatype PlateMonth = PlateMonth(plate: string, month: Month)

  /** One output row; `totalDuration` is the exact sum of the group's durations. */
  datatype MonthlyRow = MonthlyRow(plate: string, month: Month, visits: nat, totalDuration: int)

  /** The grouping key of an interval: its plate and the month its stay began. */
  function MonthKey(monthOf: Timestamp -> Month): Interval -> PlateMonth {
    (i: Interval) => PlateMonth(i.plate, monthOf(i.entryTime))
  }

  function Duration(i: Interval): int { i.duration }
  function Visit(i: Interval): int { 1 }
  function RowVisits(r: MonthlyRow): int { r.visits }
  function RowDuration(r: MonthlyRow): int { r.totalDuration }

  /** The intervals of one plate whose stay began in one month. */
  function Visits(intervals: seq<Interval>, monthOf: Timestamp -> Month, plate: string, month: Month): seq<Interval> {
    Select(intervals, MonthKey(monthOf), PlateMonth(plate, month))
  }

  function Aggregate(intervals: seq<Interval>, monthOf: Timestamp -> Month, k: PlateMonth): MonthlyRow {
    var g := Visits(intervals, monthOf, k.plate, k.month);
    MonthlyRow(k.plate, k.month, |g|, Total(g, Duration))
  }

  function Rows(intervals: seq<Interval>, monthOf: Timestamp -> Month, ks: seq<PlateMonth>): (rows: seq<MonthlyRow>)
    ensures |rows| == |ks|
    ensures forall j :: 0 <= j < |ks| ==> rows[j] == Aggregate(intervals, monthOf, ks[j])
    decreases |ks|
  {
    if ks == [] then []
    else Rows(intervals, monthOf, ks[..|ks| - 1]) + [Aggregate(intervals, monthOf, ks[|ks| - 1])]
  }

  /**
    One row per (plate, entry month) pair that has at least one interval, and
    no other: the rows' keys are distinct, each row's visits is the number of
    intervals of that plate that began in that month (at least one) and its
    total is their summed duration, and every interval is counted in the row
    of its plate and entry month. No intervals give no rows.
   */
  function Summarize(intervals: seq<Interval>, monthOf: Timestamp -> Month): (rows: seq<MonthlyRow>)
    ensures forall j, k :: 0 <= j < k < |rows| ==>
              rows[j].plate != rows[k].plate || rows[j].month != rows[k].month
    ensures forall j :: 0 <= j < |rows| ==>
              && rows[j].visits >= 1
              && rows[j].visits == |Visits(intervals, monthOf, rows[j].plate, rows[j].month)|
              && rows[j].totalDuration == Total(Visits(intervals, monthOf, rows[j].plate, rows[j].month), Duration)
    ensures forall i :: i in intervals ==>
              exists j :: 0 <= j < |rows| && rows[j].plate == i.plate && rows[j].month == monthOf(i.entryTime)
    ensures intervals == [] ==> rows == []
  {
    if intervals == [] then []
    else
      var ks := Keys(intervals, MonthKey(monthOf));
      var rows := Rows(intervals, monthOf, ks);
      assert forall j :: 0 <= j < |rows| ==> rows[j].visits >= 1 by {
        forall j | 0 <= j < |rows| ensures rows[j].visits >= 1 {
          assert ks[j] in ks;
          var x :| x in intervals && MonthKey(monthOf)(x) == ks[j];
          assert x in Visits(intervals, monthOf, ks[j].plate, ks[j].month);
        }
      }
      assert forall i :: i in intervals ==>
               exists j :: 0 <= j < |rows| && rows[j].plate == i.plate && rows[j].month == monthOf(i.entryTime) by {
        forall i | i in intervals
          ensures exists j :: 0 <= j < |rows| && rows[j].plate == i.plate && rows[j].month == monthOf(i.entryTime)
        {
          var k := MonthKey(monthOf)(i);
          assert k in ks;
          var j :| 0 <= j < |ks| && ks[j] == k;
          assert rows[j].plate == i.plate && rows[j].month == monthOf(i.entryTime);
        }
      }
      rows
  }

  lemma {:induction false} TotalVisit(s: seq<Interval>)
    ensures Total(s, Visit) == |s|
    decreases |s|
  {
    if s != [] {
      TotalVisit(s[..|s| - 1]);
    }
  }

  lemma {:induction false} RowsTotals(intervals: seq<Interval>, monthOf: Timestamp -> Month, ks: seq<PlateMonth>)
    ensures Total(Rows(intervals, monthOf, ks), RowVisits) == GroupTotals(intervals, MonthKey(monthOf), Visit, ks)
    ensures Total(Rows(intervals, monthOf, ks), RowDuration) == GroupTotals(intervals, MonthKey(monthOf), Duration, ks)
    decreases |ks|
  {
    if ks != [] {
      var front := ks[..|ks| - 1];
      var k := ks[|ks| - 1];
      var rows := Rows(intervals, monthOf, ks);
      RowsTotals(intervals, monthOf, front);
      assert rows[..|rows| - 1] == Rows(intervals, monthOf, front);
      TotalVisit(Visits(intervals, monthOf, k.plate, k.month));
    }
  }

  /** The visits of all rows add up to the number of intervals: no interval is lost or counted twice. */
  lemma VisitsAddUp(intervals: seq<Interval>, monthOf: Timestamp -> Month)
    ensures Total(Summarize(intervals, monthOf), RowVisits) == |intervals|
  {
    if intervals != [] {
      var ks := Keys(intervals, MonthKey(monthOf));
      RowsTotals(intervals, monthOf, ks);
      GroupTotalsCover(intervals, MonthKey(monthOf), Visit, ks);
      TotalVisit(intervals);
    }
  }

  /** The rows' totals add up to the summed duration of all intervals. */
  lemma DurationsAddUp(intervals: seq<Interval>, monthOf: Timestamp -> Month)
    ensures Total(Summarize(intervals, monthOf), RowDuration) == Total(intervals, Duration)
  {
    if intervals != [] {
      var ks := Keys(intervals, MonthKey(monthOf));
      RowsTotals(intervals, monthOf, ks);
      GroupTotalsCover(intervals, MonthKey(monthOf), Duration, ks);
    }
  }
}
