# Parking-event reconciliation, modelled in Dafny

This project models the core of the parking event aggregator (`aggregate.py`). It covers two functions.

`build_intervals` takes the ENTRY/EXIT events read from the camera exports and does the following:

- groups them by number plate;
- sorts each plate's events by timestamp;
- reports every event of an all-digit plate as a "Hazard plate number" issue;
- walks every other plate's events with a single open-entry register. The walk pairs each ENTRY with the next EXIT into a stay (an interval) and reports the irregular sequences as issues: a consecutive ENTRY, an EXIT without an ENTRY, an EXIT earlier than its ENTRY, and an ENTRY left open at the end.

`summarize_monthly` groups the stays by plate and by the calendar month of their entry time. For each group it counts the visits and sums the durations.

Files:

- `grouping.dfy` (module `Grouping`): the group-by operations. These are the distinct keys in order of first appearance, the rows of one key, sums of a per-row weight, and the fact that grouping neither loses nor double-counts a row.
- `events.dfy` (module `Events`): the event, interval, issue and report records. It also holds the label classification by the two markers, the all-digit plate test and the per-plate sort by timestamp.
- `walk.dfy` (module `PlateWalk`): the open-entry walk over one plate.
  - `Step` and `Run` are the functional specification, a two-state machine `Closed | Open(t)`.
  - `WalkPlate` is the loop that performs the walk, proved equal to that specification.
  - The lemmas state what each transition and the whole walk promise.
- `reconcile.dfy` (module `Reconciliation`): `build_intervals` as a whole. `BuildIntervals` loops over the plates and is proved equal to `Reconcile`. The lemmas cover the cross-plate properties: plates are independent, hazard plates, well-formed intervals and conservation of events.
- `monthly.dfy` (module `Monthly`): `summarize_monthly`.

Timestamps are integers on one clock. A stay's duration is the exact difference `exitTime - entryTime` in that unit. The two marker strings are a parameter (`Markers`), already upper-cased; `Events.DefaultMarkers` holds the defaults "01 ENTRY" and "02 EXIT". The calendar is a parameter `monthOf`, which maps a timestamp to its (year, month).

The per-plate sort is `sort_values("timestamp")` with pandas' default algorithm, which is not stable. The code therefore promises no order among events with equal timestamps. The model follows the code:

- `Events.SortByTime` is one possible sort: an insertion sort that places each event before the events listed after it with the same timestamp, so ties keep their input order. `Events.SortKeepsTieOrder` states this for two events.
- Every walk lemma is stated for any timestamp-sorted sequence, not only for that one.
- `PlateWalk.TieOrderMatters` shows that the tie order can change the result.

## Model

| member | source | states |
|---|---|---|
| Events.Classify | aggregate.py:199-211 | A label is an ENTRY exactly when it equals the entry marker. It is an EXIT exactly when it equals the exit marker and not the entry marker (the entry test comes first). Any other label is kept as is and ignored. |
| Events.Insert | aggregate.py:186 | Inserting into a sorted sequence gives a sorted sequence one longer, with the same contents plus the new event. |
| Events.SortByTime | aggregate.py:186 | The per-plate sort returns a timestamp-sorted permutation of the plate's events. |
| Events.SortKeepsTieOrder | aggregate.py:186 | The model's sort keeps two events with the same timestamp in their input order. |
| Events.IssueTextDistinct | aggregate.py:192-245 | The five issue texts are pairwise different, so the text in the issue column identifies the kind. |
| Grouping.Keys | aggregate.py:185 | The plates iterated over are distinct. A plate is among them exactly when some event carries it. |
| Grouping.Select | aggregate.py:185 | A plate's group holds exactly the events that carry that plate. |
| Grouping.TotalPermutation | aggregate.py:186 | Reordering rows (as the sort does) does not change a sum over them. |
| Grouping.GroupTotalsCover | aggregate.py:185 | Summing per-group totals over all distinct keys gives the total over all rows: grouping loses and duplicates nothing. |
| PlateWalk.WalkPlate | aggregate.py:197-248 | The loop over one plate's rows, with its `open_entry` register, emits exactly the intervals and issues of the functional walk `WalkReport`, including the closing issue. |
| PlateWalk.EntryTransition | aggregate.py:201-210 | An ENTRY leaves the register open at its own timestamp and emits no interval. If an entry was already open, it emits one "Consecutive ENTRY without EXIT" issue stamped with the earlier entry's time. Otherwise it emits nothing. |
| PlateWalk.ExitTransition | aggregate.py:211-240 | An EXIT always closes the register. With nothing open: one "EXIT without matching ENTRY" issue at the EXIT's time and no interval. With an entry open at or before it: exactly one interval from that entry to it, with the difference as its duration. With an entry open after it: one "EXIT earlier than ENTRY" issue at the EXIT's time. |
| PlateWalk.OtherTransition | aggregate.py:201-211 | An event whose label matches neither marker leaves the register, the intervals and the issues unchanged. |
| PlateWalk.RunWellFormed | aggregate.py:197-240 | Every interval carries the plate, ends no earlier than it starts and has the difference as its duration. Every issue carries the plate. The walk never emits a hazard or a closing issue. An open register holds the timestamp of one of the plate's ENTRY events. |
| PlateWalk.SortedRunNeverExitsEarly | aggregate.py:221-231 | On a timestamp-sorted group the "EXIT earlier than ENTRY" branch is never taken, and an open register never holds a time later than the last event. |
| PlateWalk.RunBalance | aggregate.py:198-248 | On any input, the marked events equal twice the intervals, plus the issues, plus the "EXIT earlier than ENTRY" issues, plus one if an entry is still open. |
| PlateWalk.WalkConservation | aggregate.py:198-248 | On a sorted group, the ENTRY and EXIT events equal twice the intervals plus the issues: each is used exactly once. |
| PlateWalk.ClosingIssue | aggregate.py:241-248 | After the walk, exactly one "ENTRY without matching EXIT" issue (the last one, at the open entry's time) is added if the register is open, and none if it is closed. The intervals are untouched. |
| PlateWalk.PairStep | aggregate.py:201-240 | From a closed register, an ENTRY followed by a later-or-equal EXIT adds exactly their interval and no issue. |
| PlateWalk.PairsPrefix | aggregate.py:198-240 | The walk over the first n good ENTRY/EXIT pairs ends closed, with exactly their n intervals and no issue. |
| PlateWalk.AlternatingPairs | aggregate.py:198-248 | A sorted, strictly alternating ENTRY, EXIT, ... group of n pairs gives exactly n intervals, the k-th from the k-th pair, and no issue. |
| PlateWalk.ConsecutiveEntryScenario | aggregate.py:201-240 | ENTRY t1, ENTRY t2, EXIT t3 give one consecutive-ENTRY issue at t1 (the earlier entry, not the new one) and the interval from t2 to t3. |
| PlateWalk.UnsortedExitBeforeEntry | aggregate.py:221-231 | Without the sort, an EXIT stamped earlier than the ENTRY it follows yields only an "EXIT earlier than ENTRY" issue, and conservation fails by one. |
| PlateWalk.TieOrderMatters | aggregate.py:186 | Both orders of an ENTRY and an EXIT with the same timestamp are sorted, yet one gives a zero-length interval and the other gives two issues. |
| Reconciliation.HazardIssues | aggregate.py:187-196 | One "Hazard plate number" issue per event, the i-th carrying the i-th event's timestamp. |
| Reconciliation.ReportHazard | aggregate.py:188-195 | The loop over a hazard plate's rows emits exactly `HazardIssues`. |
| Reconciliation.BuildIntervals | aggregate.py:174-251 | The loop over the plates (sort, hazard gate, walk) builds exactly the tables of `Reconcile`. Empty input gives no intervals and no issues. |
| Reconciliation.GroupMembers | aggregate.py:185-186 | Each plate's group is sorted, as long as the plate's selection and made only of that plate's input events. |
| Reconciliation.PlateReportFacts | aggregate.py:186-248 | A sorted plate's report carries the plate on every row, has no interval if the plate is a hazard, has only well-formed intervals and has no "EXIT earlier than ENTRY" issue. |
| Reconciliation.ReconcileClean | aggregate.py:185-248 | In the whole result, every interval ends no earlier than it starts, has the difference as its duration and belongs to a non-hazard plate. No "EXIT earlier than ENTRY" issue is ever reported. |
| Reconciliation.ReconcileIsolation | aggregate.py:185-248 | The intervals and issues of plate p in the result are exactly what p's own sorted group yields, whatever the other plates' events are. |
| Reconciliation.HazardPlateOutcome | aggregate.py:187-196 | An all-digit plate gets no interval and exactly one hazard issue per event of that plate, each stamped with its event's timestamp. |
| Reconciliation.PlateBalance | aggregate.py:185-248 | One plate's report uses every event of that plate that is a hazard or carries a marker exactly once. |
| Reconciliation.ReconcileConservation | aggregate.py:185-248 | Twice the intervals plus the issues equals the number of hazard-plate events plus the marked events of other plates. No event vanishes or is counted twice. |
| Monthly.Summarize | aggregate.py:254-266 | Rows have distinct (plate, month) keys. Each row's visits is the number of intervals of that plate whose entry time falls in that month, at least one. Its total is their summed duration. Every interval is counted in the row of its plate and entry month. No intervals give no rows. |
| Monthly.VisitsAddUp | aggregate.py:261-266 | The visits over all rows add up to the number of intervals. |
| Monthly.DurationsAddUp | aggregate.py:261-266 | The rows' totals add up to the summed duration of all intervals. |

## Left out

- Command line and configuration (`parse_args`, `load_config`, `normalize_config`): the markers are a parameter, already upper-cased.
- `discover_excel_files` and `load_events`: filesystem and spreadsheet reading, and the timestamp coercion. Events are given as a sequence of records. The loader's filtering of empty and "NAN" plates is not modelled; the model handles any plate string.
- `write_output` and `_autosize_sheet`: spreadsheet output.
- Floating point: durations are exact integer differences, not `total_seconds() / 60` minutes rounded to two decimals. Consequently the monthly totals are exact sums, and `total_hours` is absent. In the source, hours come from the unrounded sum before the minutes are rounded.
- `isoformat()` rendering: issues keep the raw timestamp.
- Order of plates: `groupby` visits plates in sorted order. The model visits them in order of first appearance (`Grouping.Keys`). Only the row order of the two tables differs, and `Reconciliation.ReconcileIsolation` states each plate's rows independently of that order. The same holds for the (plate, month) row order of the monthly table.
- Tie order of the sort: pandas' default sort is not stable, so the order among equal timestamps is unspecified. `Events.SortByTime` keeps equal timestamps in their input order (an ENTRY listed before an EXIT at the same instant gives a zero-length stay), the walk lemmas hold for every sorted order, and `PlateWalk.TieOrderMatters` shows that the choice can change the output.
- Calendar: which month a timestamp falls in (`to_period("M")`) is the parameter `monthOf`.
- Unicode digits: `str.isdigit` also accepts non-ASCII digits. The model's hazard test is a non-empty plate of characters '0'..'9'.
- The column layout of an empty result (the empty frames' column names) is not modelled. Empty input gives empty sequences.
