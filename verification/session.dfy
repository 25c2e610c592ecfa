/** One session request of the driver: both placement phases for the
    session a course and an activity label describe, and the summary row
    that records the outcome. */
module Sessions {
  import opened Grid
  import opened Courses
  import opened Scheduler
  import opened Placement
  import opened Bookings

  /** Schedules one session of `course` labelled `activity` and appends its
      outcome to the summary. On success exactly one run of the session's
      duration is committed, at a placement feasible beforehand; it is
      Phase 1's choice. The request succeeds exactly when Phase 1 has a
      choice, whatever the budget. On failure nothing but the summary
      changes. The run stays consistent: the new row's run is recorded
      and double-books no run placed before it. */
  method ScheduleSession(tt: Timetable, reg: Registry, department: string, semester: string,
                         course: Course, activity: string, attemptLimit: nat)
    returns (scheduled: bool)
    requires tt.Valid() && Consistent(reg)
    modifies tt, reg
    ensures tt.Valid() && Consistent(reg)
    ensures |reg.summary| == |old(reg.summary)| + 1 && reg.summary[..|old(reg.summary)|] == old(reg.summary)
    ensures var row := reg.summary[|reg.summary| - 1];
      && row.department == department && row.semester == semester
      && row.course == course && row.activity == activity
      && PlacedAsReported(old(tt.cells), old(reg.professors), old(reg.classrooms),
                          tt.cells, reg.professors, reg.classrooms, SessionOf(course, activity),
                          DaysByLoad(old(tt.cells)), SessionDuration(activity), scheduled, row.status)
    ensures KeepsOccupied(old(tt.cells), tt.cells)
  {
    var s := SessionOf(course, activity);
    var duration := SessionDuration(activity);
    var sortedDays := DaysByLoad(tt.cells);
    var day, start;
    ghost var cells0, profs0, rooms0, rows0 := tt.cells, reg.professors, reg.classrooms, reg.summary;
    scheduled, day, start := PlaceSession(tt, reg, s, sortedDays, duration, attemptLimit);
    var status := if scheduled then Placed(day, start) else Failed;
    assert PlacedAsReported(cells0, profs0, rooms0, tt.cells, reg.professors, reg.classrooms,
                            s, sortedDays, duration, scheduled, status);
    var row := SummaryRow(department, semester, course, activity, status);
    reg.Append(row);
    SessionKeepsSound(rows0, row, cells0, profs0, rooms0, tt.cells, reg.professors, reg.classrooms);
  }
}
