/** The session scheduler: the feasibility check of a candidate placement,
    the commit that records a session in the grid and in the shared
    occupancy maps, and the two-phase placement of one session request
    (a greedy pass over the days in ascending load order, then a bounded
    random search). */
module Scheduler {
  import opened Wrappers
  import opened Text
  import opened Calendar
  import opened Grid
  import opened Occupancy
  import opened Courses

  const LectureDuration: nat := 3
  const LabDuration: nat := 4
  const TutorialDuration: nat := 2

  /** What the summary sheet records for one session request: placed at a
      day and start slot, failed, or an elective left unscheduled. */
  datatype Status = Placed(day: nat, slot: nat) | Failed | NotScheduledElective

  datatype SummaryRow = SummaryRow(
    department: string,
    semester: string,
    course: Course,
    activity: string,
    status: Status)

  /** The state shared by every department and semester of a run: which
      slots each faculty name and each classroom occupies, day by day, and
      the rows of the summary sheet written so far. */
  class Registry {
    var professors: map<string, Week>
    var classrooms: map<string, Week>
    var summary: seq<SummaryRow>

    ghost predicate Valid()
      reads this
    {
      WellFormed(professors) && WellFormed(classrooms)
    }

    constructor ()
      ensures Valid()
      ensures professors == map[] && classrooms == map[] && summary == []
    {
      professors := map[];
      classrooms := map[];
      summary := [];
    }

    /** Appends one row to the summary sheet; the occupancy maps are left
        alone. */
    method Append(row: SummaryRow)
      requires Valid()
      modifies this
      ensures Valid() && summary == old(summary) + [row]
      ensures professors == old(professors) && classrooms == old(classrooms)
    {
      summary := summary + [row];
    }
  }

  /** The length in slots of a session, chosen by its activity alone: a lab
      takes 2 hours, a lecture 1.5 hours, anything else 1 hour. */
  function SessionDuration(activity: string): (d: nat)
    ensures 2 <= d <= 4
  {
    if activity == "LAB" then LabDuration
    else if Contains(activity, "LEC") then LectureDuration
    else TutorialDuration
  }

  /** A faculty designator listing alternatives, separated by '/' or ','. */
  predicate IsFlexibleFaculty(faculty: string) {
    '/' in faculty || ',' in faculty
  }

  /** A placeholder classroom, exempt from conflict checks. A '/' or ','
      in a classroom does not exempt it. */
  predicate IsExemptClassroom(classroom: string) {
    StartsWith(classroom, "TBD_") || Contains(classroom, "Will be scheduled")
  }

  /** A designator containing a separator splits into at least two pieces. */
  lemma {:induction false} SplitFieldsCount(s: string)
    requires '/' in s || ',' in s
    ensures |SplitFields(s)| >= 2
    decreases |s|
  {
    if !IsSeparator(s[0]) {
      assert s == [s[0]] + s[1..];
      SplitFieldsCount(s[1..]);
    }
  }

  /** Stripping a piece without separators leaves a piece without
      separators. */
  lemma StripKeepsNoSeparator(part: string)
    requires forall j :: 0 <= j < |part| ==> !IsSeparator(part[j])
    ensures !IsFlexibleFaculty(Strip(part))
  {
    var r := Strip(part);
    var a: nat :| TrimmedAt(part, r, a);
    SliceKeepsNoSeparator(part, r, a);
  }

  lemma SliceKeepsNoSeparator(part: string, r: string, a: nat)
    requires forall j :: 0 <= j < |part| ==> !IsSeparator(part[j])
    requires a + |r| <= |part| && r == part[a..a + |r|]
    ensures !IsFlexibleFaculty(r)
  {
    assert forall j :: 0 <= j < |r| ==> r[j] == part[a + j];
  }

  /** The names whose occupancy a commit records: a flexible designator is
      split on '/' and ',' and each piece stripped of whitespace; any other
      designator is recorded as it stands. Every resulting name is an
      individual, non-flexible one. */
  function FacultyNames(faculty: string): (names: seq<string>)
    ensures !IsFlexibleFaculty(faculty) ==> names == [faculty]
    ensures IsFlexibleFaculty(faculty) ==> |names| >= 2
    ensures forall k :: 0 <= k < |names| ==> !IsFlexibleFaculty(names[k])
  {
    if IsFlexibleFaculty(faculty) then
      var parts := SplitFields(faculty);
      SplitFieldsCount(faculty);
      var names := seq(|parts|, i requires 0 <= i < |parts| => Strip(parts[i]));
      assert forall k :: 0 <= k < |names| ==> !IsFlexibleFaculty(names[k]) by {
        forall k | 0 <= k < |names| ensures !IsFlexibleFaculty(names[k]) {
          StripKeepsNoSeparator(parts[k]);
        }
      }
      names
    else
      [faculty]
  }

  /** What a session request writes into the grid, taken from its course. */
  function SessionOf(course: Course, activity: string): Session {
    Session(activity, course.code, course.name, course.faculty, course.classroom)
  }

  /** Slot `slot` of `day` may take the session: it is inside the day, its
      cell is free, it is not the morning break, and neither the (single)
      faculty nor the (non-placeholder) classroom already occupies it. The
      occupancy maps are consulted only for names already recorded. */
  predicate SlotFree(cells: seq<seq<Cell>>, profs: map<string, Week>, rooms: map<string, Week>,
                     s: Session, day: nat, slot: nat)
    requires WellShaped(cells) && WellFormed(profs) && WellFormed(rooms) && day < NumDays
  {
    && slot < NumSlots
    && cells[day][slot].kind == None
    && !IsMorningBreak(TimeSlots()[slot])
    && (!IsFlexibleFaculty(s.faculty) && s.faculty in profs ==> slot !in profs[s.faculty][day])
    && (!IsExemptClassroom(s.classroom) && s.classroom in rooms ==> slot !in rooms[s.classroom][day])
  }

  /** Every slot of [start, start + duration) on `day` may take the session. */
  predicate Feasible(cells: seq<seq<Cell>>, profs: map<string, Week>, rooms: map<string, Week>,
                     s: Session, day: nat, start: nat, duration: nat)
    requires WellShaped(cells) && WellFormed(profs) && WellFormed(rooms) && day < NumDays
  {
    forall t :: start <= t < start + duration ==> SlotFree(cells, profs, rooms, s, day, t)
  }

  /** The feasibility check as five conditions over the whole range: it fits
      in the day, all its cells are free, it avoids the morning break
      (slot 3), and it meets no recorded slot of a single faculty or of a
      real classroom. */
  lemma FeasibleConditions(cells: seq<seq<Cell>>, profs: map<string, Week>, rooms: map<string, Week>,
                           s: Session, day: nat, start: nat, duration: nat)
    requires WellShaped(cells) && WellFormed(profs) && WellFormed(rooms) && day < NumDays
    requires duration > 0
    ensures Feasible(cells, profs, rooms, s, day, start, duration) <==>
      && start + duration <= NumSlots
      && (forall t :: start <= t < start + duration ==> cells[day][t].kind == None)
      && !(start <= 3 < start + duration)
      && (!IsFlexibleFaculty(s.faculty) && s.faculty in profs ==>
            forall t :: start <= t < start + duration ==> t !in profs[s.faculty][day])
      && (!IsExemptClassroom(s.classroom) && s.classroom in rooms ==>
            forall t :: start <= t < start + duration ==> t !in rooms[s.classroom][day])
  {
    MorningBreakIsSlotThree(3);
    if Feasible(cells, profs, rooms, s, day, start, duration) {
      assert SlotFree(cells, profs, rooms, s, day, start + duration - 1);
      assert start <= 3 < start + duration ==> SlotFree(cells, profs, rooms, s, day, 3);
      forall t | start <= t < start + duration
        ensures cells[day][t].kind == None
        ensures !IsFlexibleFaculty(s.faculty) && s.faculty in profs ==> t !in profs[s.faculty][day]
        ensures !IsExemptClassroom(s.classroom) && s.classroom in rooms ==> t !in rooms[s.classroom][day]
      {
        assert SlotFree(cells, profs, rooms, s, day, t);
      }
    } else {
      var t :| start <= t < start + duration && !SlotFree(cells, profs, rooms, s, day, t);
      if t < NumSlots {
        MorningBreakIsSlotThree(t);
      }
    }
  }

  /** The source's check: walk the range slot by slot and reject at the
      first slot that fails a condition. */
  method CheckSchedulingPossibility(cells: seq<seq<Cell>>, profs: map<string, Week>, rooms: map<string, Week>,
                                    s: Session, day: nat, start: nat, duration: nat)
    returns (ok: bool)
    requires WellShaped(cells) && WellFormed(profs) && WellFormed(rooms) && day < NumDays
    ensures ok == Feasible(cells, profs, rooms, s, day, start, duration)
  {
    var facultyFlexible := IsFlexibleFaculty(s.faculty);
    var classroomFlexible := IsExemptClassroom(s.classroom);
    var slots := TimeSlots();
    var i := 0;
    while i < duration
      invariant i <= duration
      invariant forall t :: start <= t < start + i ==> SlotFree(cells, profs, rooms, s, day, t)
    {
      var current := start + i;
      if current >= |slots| {
        assert !SlotFree(cells, profs, rooms, s, day, current);
        return false;
      }
      if cells[day][current].kind.Some? {
        assert !SlotFree(cells, profs, rooms, s, day, current);
        return false;
      }
      if IsMorningBreak(slots[current]) {
        assert !SlotFree(cells, profs, rooms, s, day, current);
        return false;
      }
      if !facultyFlexible && s.faculty in profs {
        if current in profs[s.faculty][day] {
          assert !SlotFree(cells, profs, rooms, s, day, current);
          return false;
        }
      }
      if !classroomFlexible && s.classroom in rooms {
        if current in rooms[s.classroom][day] {
          assert !SlotFree(cells, profs, rooms, s, day, current);
          return false;
        }
      }
      assert SlotFree(cells, profs, rooms, s, day, current);
      i := i + 1;
    }
    return true;
  }

  /** Adds `slot` to professor `name`'s set for `day`, starting an empty
      week for a professor seen for the first time. */
  method BookProfessor(reg: Registry, name: string, day: nat, slot: nat)
    requires reg.Valid() && day < NumDays
    modifies reg
    ensures reg.Valid()
    ensures reg.professors == Mark(old(reg.professors), name, day, slot)
    ensures reg.classrooms == old(reg.classrooms) && reg.summary == old(reg.summary)
  {
    if name !in reg.professors {
      reg.professors := reg.professors[name := EmptyWeek()];
    }
    reg.professors := reg.professors[name := reg.professors[name][day := reg.professors[name][day] + {slot}]];
  }

  /** Adds `slot` to classroom `room`'s set for `day`, starting an empty
      week for a classroom seen for the first time. */
  method BookClassroom(reg: Registry, room: string, day: nat, slot: nat)
    requires reg.Valid() && day < NumDays
    modifies reg
    ensures reg.Valid()
    ensures reg.classrooms == Mark(old(reg.classrooms), room, day, slot)
    ensures reg.professors == old(reg.professors) && reg.summary == old(reg.summary)
  {
    if room !in reg.classrooms {
      reg.classrooms := reg.classrooms[room := EmptyWeek()];
    }
    reg.classrooms := reg.classrooms[room := reg.classrooms[room][day := reg.classrooms[room][day] + {slot}]];
  }

  /** One step of a commit: records `slot` on `day` for each name in the
      faculty list, in order, then for the classroom. */
  method RecordSlot(reg: Registry, facultyList: seq<string>, classroom: string, day: nat, slot: nat)
    requires reg.Valid() && day < NumDays
    modifies reg
    ensures reg.Valid()
    ensures reg.professors == MarkAll(old(reg.professors), facultyList, day, slot)
    ensures reg.classrooms == Mark(old(reg.classrooms), classroom, day, slot)
    ensures reg.summary == old(reg.summary)
  {
    var j := 0;
    while j < |facultyList|
      invariant j <= |facultyList|
      invariant reg.Valid()
      invariant reg.professors == MarkAll(old(reg.professors), facultyList[..j], day, slot)
      invariant reg.classrooms == old(reg.classrooms) && reg.summary == old(reg.summary)
    {
      BookProfessor(reg, facultyList[j], day, slot);
      MarkAllStep(old(reg.professors), facultyList, j, day, slot);
      j := j + 1;
    }
    assert facultyList[..j] == facultyList;
    BookClassroom(reg, classroom, day, slot);
  }

  /** Commits a session: records every slot of the range for each faculty
      name and for the classroom (placeholders included), and writes the
      grid cells, slot by slot. */
  method UpdateSchedule(tt: Timetable, reg: Registry, s: Session, day: nat, start: nat, duration: nat)
    requires tt.Valid() && reg.Valid() && day < NumDays && start + duration <= NumSlots
    modifies tt, reg
    ensures tt.Valid() && reg.Valid()
    ensures tt.cells == WriteSession(old(tt.cells), day, start, duration, duration, s)
    ensures reg.professors == MarkRange(old(reg.professors), FacultyNames(s.faculty), day, start, start + duration)
    ensures reg.classrooms == MarkRange(old(reg.classrooms), [s.classroom], day, start, start + duration)
    ensures reg.summary == old(reg.summary)
  {
    var facultyList := FacultyNames(s.faculty);
    ghost var cells0, profs0, rooms0 := tt.cells, reg.professors, reg.classrooms;
    WriteSessionNone(cells0, day, start, duration, s);
    MarkRangeEmpty(profs0, facultyList, day, start);
    MarkRangeEmpty(rooms0, [s.classroom], day, start);
    var i := 0;
    while i < duration
      invariant i <= duration
      invariant tt.cells == WriteSession(cells0, day, start, duration, i, s)
      invariant reg.professors == MarkRange(profs0, facultyList, day, start, start + i)
      invariant reg.classrooms == MarkRange(rooms0, [s.classroom], day, start, start + i)
      invariant reg.summary == old(reg.summary)
    {
      BookSlot(tt, reg, s, facultyList, day, start, duration, i, cells0, profs0, rooms0);
      i := i + 1;
    }
  }

  /** Slot `start + i` of a commit in progress: its faculty and classroom
      bookings, then its grid cell. */
  method BookSlot(tt: Timetable, reg: Registry, s: Session, facultyList: seq<string>,
                  day: nat, start: nat, duration: nat, i: nat,
                  ghost cells0: seq<seq<Cell>>, ghost profs0: map<string, Week>, ghost rooms0: map<string, Week>)
    requires day < NumDays && i < duration && start + duration <= NumSlots
    requires WellShaped(cells0) && WellFormed(profs0) && WellFormed(rooms0)
    requires tt.cells == WriteSession(cells0, day, start, duration, i, s)
    requires reg.professors == MarkRange(profs0, facultyList, day, start, start + i)
    requires reg.classrooms == MarkRange(rooms0, [s.classroom], day, start, start + i)
    modifies tt, reg
    ensures tt.Valid() && reg.Valid()
    ensures tt.cells == WriteSession(cells0, day, start, duration, i + 1, s)
    ensures reg.professors == MarkRange(profs0, facultyList, day, start, start + (i + 1))
    ensures reg.classrooms == MarkRange(rooms0, [s.classroom], day, start, start + (i + 1))
    ensures reg.summary == old(reg.summary)
  {
    var slot := start + i;
    MarkRangeStep(profs0, facultyList, day, start, slot);
    MarkRangeOneStep(rooms0, s.classroom, day, start, slot);
    WriteSessionStep(cells0, day, start, duration, i, s);
    RecordSlot(reg, facultyList, s.classroom, day, slot);
    tt.cells := tt.cells[day := tt.cells[day][slot := SessionCell(s, duration, i)]];
  }

  /** A commit at a feasible placement overwrites no occupied cell: every
      cell that held a session (a lunch block included) still holds it. */
  lemma CommitKeepsOccupiedCells(cells: seq<seq<Cell>>, profs: map<string, Week>, rooms: map<string, Week>,
                                 s: Session, day: nat, start: nat, duration: nat)
    requires WellShaped(cells) && WellFormed(profs) && WellFormed(rooms) && day < NumDays
    requires start + duration <= NumSlots
    requires Feasible(cells, profs, rooms, s, day, start, duration)
    ensures KeepsOccupied(cells, WriteSession(cells, day, start, duration, duration, s))
  {
    forall t | start <= t < start + duration
      ensures cells[day][t].kind == None
    {
      assert SlotFree(cells, profs, rooms, s, day, t);
    }
  }

  /** No double booking of a single faculty: committing at a feasible
      placement grows that faculty's set for the day by exactly `duration`
      slots, none of which it occupied before. The same holds for a real
      (non-placeholder) classroom. */
  lemma CommitBooksFreshSlots(cells: seq<seq<Cell>>, profs: map<string, Week>, rooms: map<string, Week>,
                              s: Session, day: nat, start: nat, duration: nat)
    requires WellShaped(cells) && WellFormed(profs) && WellFormed(rooms) && day < NumDays
    requires Feasible(cells, profs, rooms, s, day, start, duration) && duration > 0
    ensures !IsFlexibleFaculty(s.faculty) ==>
      var after := MarkRange(profs, FacultyNames(s.faculty), day, start, start + duration);
      s.faculty in after && |after[s.faculty][day]| == |WeekOf(profs, s.faculty)[day]| + duration
    ensures !IsExemptClassroom(s.classroom) ==>
      var after := MarkRange(rooms, [s.classroom], day, start, start + duration);
      s.classroom in after && |after[s.classroom][day]| == |WeekOf(rooms, s.classroom)[day]| + duration
  {
    forall t | start <= t < start + duration
      ensures !IsFlexibleFaculty(s.faculty) ==> t !in WeekOf(profs, s.faculty)[day]
      ensures !IsExemptClassroom(s.classroom) ==> t !in WeekOf(rooms, s.classroom)[day]
    {
      assert SlotFree(cells, profs, rooms, s, day, t);
    }
    if !IsFlexibleFaculty(s.faculty) {
      MarkRangeGrowsListed(profs, FacultyNames(s.faculty), s.faculty, day, start, start + duration);
    }
    if !IsExemptClassroom(s.classroom) {
      MarkRangeGrowsListed(rooms, [s.classroom], s.classroom, day, start, start + duration);
    }
  }
}
