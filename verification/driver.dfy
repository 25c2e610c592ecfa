/** The run over every department and semester: a grid per group, each
    seeded with its lunch blocks before any course is scheduled, then the
    groups scheduled one after the other against the shared faculty and
    classroom occupancy. */
module Driver {
  import opened Wrappers
  import opened Calendar
  import opened Grid
  import opened Lunch
  import opened Courses
  import opened Scheduler
  import opened Plan
  import opened Bookings

  /** One department and semester with its cleaned course records. */
  datatype Group = Group(department: string, semester: string, courses: seq<Course>)

  /** A lunch block at slots k and k + 1 of a day row. */
  predicate IsLunchAt(row: seq<Cell>, k: nat)
    requires k + 1 < |row|
  {
    && row[k].kind == Some("LUNCH") && row[k].isFirst && row[k].duration == 2
    && row[k + 1].kind == Some("LUNCH") && !row[k + 1].isFirst && row[k + 1].duration == 0
  }

  /** The day has a lunch block starting in slot 7, 8 or 9. */
  ghost predicate HasLunch(row: seq<Cell>)
    requires |row| == NumSlots
  {
    exists k: nat :: 7 <= k <= 9 && IsLunchAt(row, k)
  }

  /** Every day of the grid has a lunch block. */
  ghost predicate LunchOnEveryDay(cells: seq<seq<Cell>>)
    requires WellShaped(cells)
  {
    forall d :: 0 <= d < NumDays ==> HasLunch(cells[d])
  }

  /** The lunch placer leaves a lunch block on every day. */
  lemma LunchPlacedOnEveryDay(cells: seq<seq<Cell>>, before: seq<seq<Cell>>)
    requires WellShaped(cells) && WellShaped(before)
    requires forall d :: 0 <= d < NumDays ==> HasLunchBlock(cells[d], before[d])
    ensures LunchOnEveryDay(cells)
  {
    forall d | 0 <= d < NumDays ensures HasLunch(cells[d]) {
      var k: nat :| 7 <= k <= 9 && cells[d] == WithLunch(before[d], k);
      assert IsLunchAt(cells[d], k);
    }
  }

  /** Scheduling that overwrites no occupied cell keeps every lunch block. */
  lemma LunchSurvivesScheduling(before: seq<seq<Cell>>, after: seq<seq<Cell>>)
    requires WellShaped(before) && WellShaped(after)
    requires LunchOnEveryDay(before) && KeepsOccupied(before, after)
    ensures LunchOnEveryDay(after)
  {
    forall d | 0 <= d < NumDays ensures HasLunch(after[d]) {
      var k: nat :| 7 <= k <= 9 && IsLunchAt(before[d], k);
      assert after[d][k] == before[d][k] && after[d][k + 1] == before[d][k + 1];
      assert IsLunchAt(after[d], k);
    }
  }

  /** The rows a group leaves in the summary: its electives', then one per
      session request. */
  function GroupRequests(g: Group): seq<Request> {
    ElectiveRequests(g.department, g.semester, g.courses) + SessionRequests(g.department, g.semester, g.courses)
  }

  /** The rows of the whole run, group after group. */
  function AllRequests(groups: seq<Group>): seq<Request> {
    if groups == [] then []
    else AllRequests(groups[..|groups| - 1]) + GroupRequests(groups[|groups| - 1])
  }

  /** The session requests of the whole run, group after group. */
  function AllSessionRequests(groups: seq<Group>): seq<Request> {
    if groups == [] then []
    else AllSessionRequests(groups[..|groups| - 1]) + SessionRequests(groups[|groups| - 1].department,
                                                                      groups[|groups| - 1].semester,
                                                                      groups[|groups| - 1].courses)
  }

  function AllElectives(groups: seq<Group>): nat {
    if groups == [] then 0
    else AllElectives(groups[..|groups| - 1]) + ElectiveCount(groups[|groups| - 1].courses)
  }

  /** `rows` answer `reqs` one for one, whatever their outcomes. */
  predicate Answers(rows: seq<SummaryRow>, reqs: seq<Request>) {
    |rows| == |reqs| && forall i :: 0 <= i < |rows| ==> RequestOf(rows[i]) == reqs[i]
  }

  lemma AnswersAppend(a: seq<SummaryRow>, b: seq<SummaryRow>, ra: seq<Request>, rb: seq<Request>)
    requires Answers(a, ra) && Answers(b, rb)
    ensures Answers(a + b, ra + rb)
  {
    forall i | 0 <= i < |a + b| ensures RequestOf((a + b)[i]) == (ra + rb)[i] {
      if i >= |a| {
        assert (a + b)[i] == b[i - |a|] && (ra + rb)[i] == rb[i - |a|];
      }
    }
  }

  /** Rows logged for requests answer them. */
  lemma LoggedAnswers(rows: seq<SummaryRow>, reqs: seq<Request>, electives: bool)
    requires Logged(rows, reqs, electives)
    ensures Answers(rows, reqs)
  {
  }

  /** A summary is its earlier rows followed by the rows added since. */
  lemma ExtendsByAdded(before: seq<SummaryRow>, after: seq<SummaryRow>)
    requires Extends(before, after)
    ensures after == before + Added(before, after)
  {
  }

  /** Rows appended in two stretches are the two stretches' rows. */
  lemma SplitRows(before: seq<SummaryRow>, mid: seq<SummaryRow>, after: seq<SummaryRow>)
    requires Extends(before, mid) && Extends(mid, after)
    ensures Extends(before, after)
    ensures Added(before, after) == Added(before, mid) + Added(mid, after)
  {
    assert after == before + Added(before, mid) + Added(mid, after);
  }

  /** Rows for elective requests followed by rows for session requests
      answer the two request lists in turn, and only the session rows can
      be placed. */
  lemma ElectivesThenSessions(before: seq<SummaryRow>, mid: seq<SummaryRow>, after: seq<SummaryRow>,
                              electives: seq<Request>, sessions: seq<Request>, scheduledCount: nat, failed: nat)
    requires Extends(before, mid) && Logged(Added(before, mid), electives, true)
    requires Reported(mid, after, sessions, scheduledCount, failed)
    ensures Extends(before, after)
    ensures Answers(Added(before, after), electives + sessions)
    ensures PlacedCount(Added(before, after)) == scheduledCount
    ensures FailedCount(Added(before, after)) == failed
  {
    var electiveRows := Added(before, mid);
    var sessionRows := Added(mid, after);
    SplitRows(before, mid, after);
    ElectiveRowsNotPlaced(electiveRows, electives);
    PlacedCountAppend(electiveRows, sessionRows);
    FailedCountAppend(electiveRows, sessionRows);
    ReportedFailures(mid, after, sessions, scheduledCount, failed);
    LoggedAnswers(electiveRows, electives, true);
    LoggedAnswers(sessionRows, sessions, false);
    AnswersAppend(electiveRows, sessionRows, electives, sessions);
  }

  /** The rows one group appends answer the group's requests, and only its
      session rows can be placed. */
  lemma GroupRows(before: seq<SummaryRow>, after: seq<SummaryRow>, g: Group, scheduledCount: nat, failed: nat)
    requires GroupLogged(before, after, g.department, g.semester, g.courses, scheduledCount, failed)
    ensures Extends(before, after)
    ensures Answers(Added(before, after), GroupRequests(g))
    ensures PlacedCount(Added(before, after)) == scheduledCount
    ensures FailedCount(Added(before, after)) == failed
  {
    var electives := ElectiveRequests(g.department, g.semester, g.courses);
    var sessions := SessionRequests(g.department, g.semester, g.courses);
    var mid :| Extends(before, mid) && Logged(Added(before, mid), electives, true)
            && Reported(mid, after, sessions, scheduledCount, failed);
    ElectivesThenSessions(before, mid, after, electives, sessions, scheduledCount, failed);
  }

  /** The summary after one more group: it answers the requests so far
      followed by the group's, and only its session rows can be placed. */
  lemma GroupAppended(before: seq<SummaryRow>, after: seq<SummaryRow>, done: seq<Request>,
                      g: Group, scheduledCount: nat, failed: nat)
    requires Answers(before, done)
    requires GroupLogged(before, after, g.department, g.semester, g.courses, scheduledCount, failed)
    ensures Answers(after, done + GroupRequests(g))
    ensures PlacedCount(after) == PlacedCount(before) + scheduledCount
    ensures FailedCount(after) == FailedCount(before) + failed
  {
    GroupRows(before, after, g, scheduledCount, failed);
    var groupRows := Added(before, after);
    ExtendsByAdded(before, after);
    PlacedCountAppend(before, groupRows);
    FailedCountAppend(before, groupRows);
    AnswersAppend(before, groupRows, done, GroupRequests(g));
  }

  /** A fresh grid with its lunch blocks placed. */
  method NewTimetable() returns (tt: Timetable)
    ensures fresh(tt) && tt.Valid() && LunchOnEveryDay(tt.cells)
  {
    tt := new Timetable();
    PlaceLunchBreaks(tt);
    LunchPlacedOnEveryDay(tt.cells, EmptyGrid());
  }

  /** One group of the run, scheduled into its own grid. */
  method RunGroup(tt: Timetable, reg: Registry, g: Group, ghost done: seq<Request>)
    returns (total: nat, scheduledCount: nat, failed: nat, electives: nat)
    requires tt.Valid() && Consistent(reg) && LunchOnEveryDay(tt.cells) && Answers(reg.summary, done)
    modifies tt, reg
    ensures tt.Valid() && Consistent(reg) && LunchOnEveryDay(tt.cells)
    ensures Answers(reg.summary, done + GroupRequests(g))
    ensures PlacedCount(reg.summary) == PlacedCount(old(reg.summary)) + scheduledCount
    ensures FailedCount(reg.summary) == FailedCount(old(reg.summary)) + failed
    ensures total == scheduledCount + failed && total == |SessionRequests(g.department, g.semester, g.courses)|
    ensures electives == ElectiveCount(g.courses)
  {
    ghost var before, cellsBefore := reg.summary, tt.cells;
    total, scheduledCount, failed, electives := ScheduleGroup(tt, reg, g.department, g.semester, g.courses);
    GroupAppended(before, reg.summary, done, g, scheduledCount, failed);
    LunchSurvivesScheduling(cellsBefore, tt.cells);
  }

  /** Distinct grids, each well shaped with lunch on every day. */
  ghost predicate Ready(timetables: seq<Timetable>)
    reads timetables
  {
    && (forall i, j :: 0 <= i < j < |timetables| ==> timetables[i] != timetables[j])
    && (forall i :: 0 <= i < |timetables| ==> timetables[i].Valid() && LunchOnEveryDay(timetables[i].cells))
  }

  /** A fresh grid with lunch placed for each of `n` groups. */
  method NewTimetables(n: nat) returns (timetables: seq<Timetable>)
    ensures |timetables| == n && Ready(timetables)
    ensures forall i :: 0 <= i < n ==> fresh(timetables[i])
  {
    timetables := [];
    while |timetables| < n
      invariant |timetables| <= n && Ready(timetables)
      invariant forall i :: 0 <= i < |timetables| ==> fresh(timetables[i])
    {
      var tt := NewTimetable();
      timetables := timetables + [tt];
    }
  }

  /** Runs group `k` in its grid; the other grids are left alone. */
  method RunGroupAt(timetables: seq<Timetable>, reg: Registry, groups: seq<Group>, k: nat)
    returns (total: nat, scheduledCount: nat, failed: nat, electives: nat)
    requires k < |groups| == |timetables| && Ready(timetables)
    requires Consistent(reg) && Answers(reg.summary, AllRequests(groups[..k]))
    modifies timetables[k], reg
    ensures Ready(timetables) && Consistent(reg)
    ensures Answers(reg.summary, AllRequests(groups[..k + 1]))
    ensures PlacedCount(reg.summary) == PlacedCount(old(reg.summary)) + scheduledCount
    ensures FailedCount(reg.summary) == FailedCount(old(reg.summary)) + failed
    ensures total == scheduledCount + failed
    ensures |AllSessionRequests(groups[..k + 1])| == |AllSessionRequests(groups[..k])| + total
    ensures AllElectives(groups[..k + 1]) == AllElectives(groups[..k]) + electives
  {
    assert groups[..k + 1][..k] == groups[..k];
    total, scheduledCount, failed, electives := RunGroup(timetables[k], reg, groups[k], AllRequests(groups[..k]));
    forall i | 0 <= i < |timetables|
      ensures timetables[i].Valid() && LunchOnEveryDay(timetables[i].cells)
    {
      if i != k {
        assert timetables[i] != timetables[k];
        assert timetables[i].cells == old(timetables[i].cells);
      }
    }
  }

  /** The whole run: every group gets a fresh grid with lunch on every day,
      then the groups are scheduled in order against one shared registry.
      The summary answers the plan of every group in order, the counters
      agree with it, and every grid still has its lunch blocks. Across all
      groups, every placed row is a run inside the week, off the morning
      break, recorded in the shared occupancy maps, and no placed row
      double-books a single faculty or a real classroom of an earlier one. */
  method GenerateAllTimetables(groups: seq<Group>)
    returns (reg: Registry, timetables: seq<Timetable>,
             total: nat, scheduledCount: nat, failed: nat, electives: nat)
    ensures |timetables| == |groups| && Ready(timetables)
    ensures Consistent(reg) && PlacedInWeek(reg.summary) && NoDoubleBooking(reg.summary)
    ensures Answers(reg.summary, AllRequests(groups))
    ensures scheduledCount == PlacedCount(reg.summary) && failed == FailedCount(reg.summary)
    ensures total == scheduledCount + failed && total == |AllSessionRequests(groups)|
    ensures electives == AllElectives(groups)
  {
    reg := new Registry();
    total, scheduledCount, failed, electives := 0, 0, 0, 0;
    timetables := NewTimetables(|groups|);
    var k := 0;
    while k < |groups|
      invariant k <= |groups| && |timetables| == |groups| && Ready(timetables)
      invariant fresh(reg) && Consistent(reg)
      invariant forall i :: 0 <= i < |groups| ==> fresh(timetables[i])
      invariant Answers(reg.summary, AllRequests(groups[..k]))
      invariant scheduledCount == PlacedCount(reg.summary) && failed == FailedCount(reg.summary)
      invariant total == scheduledCount + failed && total == |AllSessionRequests(groups[..k])|
      invariant electives == AllElectives(groups[..k])
    {
      var t, s, f, e := RunGroupAt(timetables, reg, groups, k);
      total, scheduledCount, failed, electives := total + t, scheduledCount + s, failed + f, electives + e;
      k := k + 1;
    }
    assert groups[..|groups|] == groups;
  }
}
