/** The bookings of a whole run: every placed row of the summary names a
    run of slots (its session, day, start and length), and across all
    departments and semesters no run double-books a single faculty or a
    real classroom held by an earlier overlapping run, and no run covers
    the morning break. */
module Bookings {
  import opened Calendar
  import opened Grid
  import opened Occupancy
  import opened Courses
  import opened Scheduler
  import opened Placement

  /** A committed session: what the grid holds, from `start` for
      `duration` slots of `day`. */
  datatype Run = Run(session: Session, day: nat, start: nat, duration: nat)

  /** The run a placed summary row stands for: the session its course and
      activity describe, at the recorded day and start, for the length its
      activity gives. */
  function RunOf(row: SummaryRow): Run
    requires row.status.Placed?
  {
    Run(SessionOf(row.course, row.activity), row.status.day, row.status.slot, SessionDuration(row.activity))
  }

  /** The run lies inside one day of the week and none of its slots is the
      morning break. */
  predicate InWeek(r: Run) {
    && r.day < NumDays && r.start + r.duration <= NumSlots
    && forall t :: r.start <= t < r.start + r.duration ==> !IsMorningBreak(TimeSlots()[t])
  }

  /** The two runs share a slot of the same day: the later of the two
      starts lies inside both. */
  predicate Overlap(a: Run, b: Run) {
    var t := if a.start < b.start then b.start else a.start;
    a.day == b.day && t < a.start + a.duration && t < b.start + b.duration
  }

  /** Run `b`, placed after run `a`, shares a slot with it and either b's
      single faculty is one of the names `a` booked or b's real classroom
      is a's. These are exactly the clashes the feasibility check looks
      for; a flexible faculty and a placeholder classroom are not checked. */
  predicate DoubleBooks(a: Run, b: Run) {
    && Overlap(a, b)
    && ((!IsFlexibleFaculty(b.session.faculty) && b.session.faculty in FacultyNames(a.session.faculty))
        || (!IsExemptClassroom(b.session.classroom) && b.session.classroom == a.session.classroom))
  }

  /** Every placed row is a run inside the week, off the morning break. */
  predicate PlacedInWeek(rows: seq<SummaryRow>) {
    forall i :: 0 <= i < |rows| && rows[i].status.Placed? ==> InWeek(RunOf(rows[i]))
  }

  /** No placed row double-books what an earlier placed row holds. */
  predicate NoDoubleBooking(rows: seq<SummaryRow>) {
    forall i, j :: 0 <= i < j < |rows| && rows[i].status.Placed? && rows[j].status.Placed? ==>
      !DoubleBooks(RunOf(rows[i]), RunOf(rows[j]))
  }

  /** Every slot of the run is recorded for its classroom and for each of
      its faculty names. */
  predicate Recorded(r: Run, profs: map<string, Week>, rooms: map<string, Week>)
    requires WellFormed(profs) && WellFormed(rooms)
  {
    && r.day < NumDays
    && Holds(rooms, [r.session.classroom], r.day, r.start, r.start + r.duration)
    && Holds(profs, FacultyNames(r.session.faculty), r.day, r.start, r.start + r.duration)
  }

  /** The summary and the occupancy maps agree: every placed row is a run
      inside the week that the maps record, and no run double-books. */
  ghost predicate Sound(rows: seq<SummaryRow>, profs: map<string, Week>, rooms: map<string, Week>)
    requires WellFormed(profs) && WellFormed(rooms)
  {
    && PlacedInWeek(rows)
    && NoDoubleBooking(rows)
    && forall i :: 0 <= i < |rows| && rows[i].status.Placed? ==> Recorded(RunOf(rows[i]), profs, rooms)
  }

  /** The shared state of a run is well formed and sound. */
  ghost predicate Consistent(reg: Registry)
    reads reg
  {
    reg.Valid() && Sound(reg.summary, reg.professors, reg.classrooms)
  }

  /** A run recorded in some maps stays recorded in maps that only grew. */
  lemma RecordedGrows(r: Run, profs0: map<string, Week>, rooms0: map<string, Week>,
                      profs: map<string, Week>, rooms: map<string, Week>)
    requires WellFormed(profs0) && WellFormed(rooms0) && WellFormed(profs) && WellFormed(rooms)
    requires Grows(profs0, profs) && Grows(rooms0, rooms)
    requires Recorded(r, profs0, rooms0)
    ensures Recorded(r, profs, rooms)
  {
  }

  /** A run placed where the feasibility check passed does not double-book
      any run the maps already recorded. */
  lemma FeasibleAvoids(a: Run, b: Run, cells: seq<seq<Cell>>, profs: map<string, Week>, rooms: map<string, Week>)
    requires WellShaped(cells) && WellFormed(profs) && WellFormed(rooms) && b.day < NumDays
    requires Recorded(a, profs, rooms)
    requires Feasible(cells, profs, rooms, b.session, b.day, b.start, b.duration)
    ensures !DoubleBooks(a, b)
  {
    var t := if a.start < b.start then b.start else a.start;
    var f, c := b.session.faculty, b.session.classroom;
    var heldByF, heldInC := WeekOf(profs, f)[a.day], WeekOf(rooms, c)[a.day];
    if Overlap(a, b) {
      assert SlotFree(cells, profs, rooms, b.session, b.day, t);
      assert f in FacultyNames(a.session.faculty) ==> t in heldByF;
      assert c == a.session.classroom ==> t in heldInC;
    }
  }

  /** Booking a run's slots for its faculty names and its classroom only
      adds slots to the maps, and the maps then record the run. */
  lemma MarksRecordRun(r: Run, profs0: map<string, Week>, rooms0: map<string, Week>,
                       profs: map<string, Week>, rooms: map<string, Week>)
    requires WellFormed(profs0) && WellFormed(rooms0) && r.day < NumDays
    requires profs == MarkRange(profs0, FacultyNames(r.session.faculty), r.day, r.start, r.start + r.duration)
    requires rooms == MarkRange(rooms0, [r.session.classroom], r.day, r.start, r.start + r.duration)
    ensures WellFormed(profs) && WellFormed(rooms)
    ensures Grows(profs0, profs) && Grows(rooms0, rooms)
    ensures Recorded(r, profs, rooms)
  {
    var names, room := FacultyNames(r.session.faculty), r.session.classroom;
    var hi := r.start + r.duration;
    MarkRangeGrows(profs0, names, r.day, r.start, hi, profs);
    MarkRangeGrows(rooms0, [room], r.day, r.start, hi, rooms);
  }

  /** A run placed where the feasibility check passed, and that fits in its
      day, lies inside the week. */
  lemma FeasibleInWeek(r: Run, cells: seq<seq<Cell>>, profs: map<string, Week>, rooms: map<string, Week>)
    requires WellShaped(cells) && WellFormed(profs) && WellFormed(rooms)
    requires r.day < NumDays && r.start + r.duration <= NumSlots
    requires Feasible(cells, profs, rooms, r.session, r.day, r.start, r.duration)
    ensures InWeek(r)
  {
    forall t | r.start <= t < r.start + r.duration ensures !IsMorningBreak(TimeSlots()[t]) {
      assert SlotFree(cells, profs, rooms, r.session, r.day, t);
    }
  }

  /** A row appended to a sound summary keeps it sound when it is not
      placed, or when its run is inside the week, recorded, and double-books
      no earlier placed row. */
  lemma AppendKeepsSound(rows: seq<SummaryRow>, row: SummaryRow, profs: map<string, Week>, rooms: map<string, Week>)
    requires WellFormed(profs) && WellFormed(rooms) && Sound(rows, profs, rooms)
    requires row.status.Placed? ==> InWeek(RunOf(row)) && Recorded(RunOf(row), profs, rooms)
    requires row.status.Placed? ==>
      forall i :: 0 <= i < |rows| && rows[i].status.Placed? ==> !DoubleBooks(RunOf(rows[i]), RunOf(row))
    ensures Sound(rows + [row], profs, rooms)
  {
    var after := rows + [row];
    assert forall i :: 0 <= i < |rows| ==> after[i] == rows[i];
  }

  /** The maps grew, so every run recorded before still is. */
  lemma SoundGrows(rows: seq<SummaryRow>, profs0: map<string, Week>, rooms0: map<string, Week>,
                   profs: map<string, Week>, rooms: map<string, Week>)
    requires WellFormed(profs0) && WellFormed(rooms0) && WellFormed(profs) && WellFormed(rooms)
    requires Grows(profs0, profs) && Grows(rooms0, rooms)
    requires Sound(rows, profs0, rooms0)
    ensures Sound(rows, profs, rooms)
  {
    forall i | 0 <= i < |rows| && rows[i].status.Placed? ensures Recorded(RunOf(rows[i]), profs, rooms) {
      RecordedGrows(RunOf(rows[i]), profs0, rooms0, profs, rooms);
    }
  }

  /** A run placed where the feasibility check passed double-books no
      placed row of a summary the maps agree with. */
  lemma FeasibleAvoidsEarlier(rows: seq<SummaryRow>, r: Run,
                              cells: seq<seq<Cell>>, profs: map<string, Week>, rooms: map<string, Week>)
    requires WellShaped(cells) && WellFormed(profs) && WellFormed(rooms) && r.day < NumDays
    requires Sound(rows, profs, rooms)
    requires Feasible(cells, profs, rooms, r.session, r.day, r.start, r.duration)
    ensures forall i :: 0 <= i < |rows| && rows[i].status.Placed? ==> !DoubleBooks(RunOf(rows[i]), r)
  {
    forall i | 0 <= i < |rows| && rows[i].status.Placed? ensures !DoubleBooks(RunOf(rows[i]), r) {
      FeasibleAvoids(RunOf(rows[i]), r, cells, profs, rooms);
    }
  }

  /** One session request keeps the run sound: a placed row is a commit of
      its own run at a placement feasible beforehand, which the maps then
      record and which double-books nothing recorded earlier; a failed row
      changes no map. */
  lemma SessionKeepsSound(rows: seq<SummaryRow>, row: SummaryRow,
                          cells0: seq<seq<Cell>>, profs0: map<string, Week>, rooms0: map<string, Week>,
                          cells: seq<seq<Cell>>, profs: map<string, Week>, rooms: map<string, Week>)
    requires WellShaped(cells0) && WellFormed(profs0) && WellFormed(rooms0) && WellFormed(profs) && WellFormed(rooms)
    requires Sound(rows, profs0, rooms0)
    requires row.status.Placed? ==>
      Committed(cells0, profs0, rooms0, cells, profs, rooms,
                RunOf(row).session, RunOf(row).day, RunOf(row).start, RunOf(row).duration)
    requires !row.status.Placed? ==> profs == profs0 && rooms == rooms0
    ensures Sound(rows + [row], profs, rooms)
  {
    if row.status.Placed? {
      var r := RunOf(row);
      assert r.day < NumDays && r.start + r.duration <= NumSlots;
      FeasibleInWeek(r, cells0, profs0, rooms0);
      MarksRecordRun(r, profs0, rooms0, profs, rooms);
      SoundGrows(rows, profs0, rooms0, profs, rooms);
      FeasibleAvoidsEarlier(rows, r, cells0, profs0, rooms0);
    }
    AppendKeepsSound(rows, row, profs, rooms);
  }

  /** Rows that place nothing keep the summary sound. */
  lemma UnplacedKeepSound(before: seq<SummaryRow>, after: seq<SummaryRow>, profs: map<string, Week>, rooms: map<string, Week>)
    requires WellFormed(profs) && WellFormed(rooms) && Sound(before, profs, rooms)
    requires |before| <= |after| && after[..|before|] == before
    requires forall i :: |before| <= i < |after| ==> !after[i].status.Placed?
    ensures Sound(after, profs, rooms)
  {
    assert forall i :: 0 <= i < |before| ==> after[i] == before[i];
  }
}
