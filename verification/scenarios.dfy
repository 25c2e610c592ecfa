/** Two placements on a grid fresh from the lunch placer, worked out from
    the specification functions: the first lecture of a course goes to
    Monday 09:00, and the second lecture of the same course, requested
    right after, goes to Tuesday 09:00 because Monday is now the busiest
    day. Days are numbered from Monday = 0. */
module Scenarios {
  import opened Wrappers
  import opened Calendar
  import opened Grid
  import opened Occupancy
  import opened Lunch
  import opened Courses
  import opened Scheduler
  import opened Placement
  import opened Plan

  /** A grid as the lunch placer leaves an empty one. */
  ghost predicate LunchSeeded(cells: seq<seq<Cell>>) {
    && WellShaped(cells)
    && forall d :: 0 <= d < NumDays ==> exists k: nat :: 7 <= k <= 9 && cells[d] == WithLunch(EmptyRow(), k)
  }

  /** A seeded day holds exactly its two lunch cells. */
  lemma LunchRowLoad(k: nat)
    requires 7 <= k <= 9
    ensures DayLoad(WithLunch(EmptyRow(), k)) == 2
  {
    DayLoadFree(EmptyRow());
    LunchBlockLoad(EmptyRow(), k);
  }

  /** A lunch block written over two free cells adds two to the load. */
  lemma LunchBlockLoad(row: seq<Cell>, k: nat)
    requires k + 1 < |row| && row[k].kind == None && row[k + 1].kind == None
    ensures DayLoad(WithLunch(row, k)) == DayLoad(row) + 2
  {
    var row1 := row[k := LunchCell(row[k], true)];
    DayLoadUpdate(row, k, LunchCell(row[k], true));
    DayLoadUpdate(row1, k + 1, LunchCell(row[k + 1], false));
  }

  /** Before 12:30 a seeded day is empty. */
  lemma SeededMorningFree(cells: seq<seq<Cell>>, d: nat, t: nat)
    requires LunchSeeded(cells) && d < NumDays && t < 7
    ensures cells[d][t] == EmptyCell
  {
    var k: nat :| 7 <= k <= 9 && cells[d] == WithLunch(EmptyRow(), k);
  }

  lemma SeededLoads(cells: seq<seq<Cell>>)
    requires LunchSeeded(cells)
    ensures forall d :: 0 <= d < NumDays ==> DayLoads(cells)[d] == 2
  {
    forall d | 0 <= d < NumDays ensures DayLoads(cells)[d] == 2 {
      var k: nat :| 7 <= k <= 9 && cells[d] == WithLunch(EmptyRow(), k);
      LunchRowLoad(k);
    }
  }

  /** All seeded days weigh the same, so the days are tried in calendar order. */
  lemma SeededOrder(cells: seq<seq<Cell>>)
    requires LunchSeeded(cells)
    ensures DaysByLoad(cells) == AllDays
  {
    SeededLoads(cells);
    SortByLoadUniform(AllDays, DayLoads(cells));
  }

  /** The three morning slots 09:00-10:30 of a day without sessions before
      12:30 take a session whose faculty and classroom have no bookings
      that day. */
  lemma MorningFits(cells: seq<seq<Cell>>, profs: map<string, Week>, rooms: map<string, Week>, s: Session, day: nat)
    requires WellShaped(cells) && WellFormed(profs) && WellFormed(rooms) && day < NumDays
    requires forall t :: 0 <= t < 3 ==> cells[day][t].kind == None
    requires s.faculty in profs ==> profs[s.faculty][day] == {}
    requires s.classroom in rooms ==> rooms[s.classroom][day] == {}
    ensures FirstFeasibleStart(cells, profs, rooms, s, day, LectureDuration, 0) == Some(0)
  {
    forall t | 0 <= t < 3 ensures SlotFree(cells, profs, rooms, s, day, t) {
      MorningBreakIsSlotThree(t);
    }
  }

  /** A three-slot session whose faculty and classroom are not yet booked,
      on a freshly seeded grid, goes to Monday at 09:00: all days carry the
      same load, so Monday is tried first, and its first three slots are
      free. */
  lemma MondayMorningFirst(cells: seq<seq<Cell>>, profs: map<string, Week>, rooms: map<string, Week>, s: Session)
    requires LunchSeeded(cells) && WellFormed(profs) && WellFormed(rooms)
    requires s.faculty !in profs && s.classroom !in rooms
    ensures Phase1Choice(cells, profs, rooms, s, DaysByLoad(cells), LectureDuration, 0) == Some((0, 0))
  {
    SeededOrder(cells);
    forall t | 0 <= t < 3 ensures cells[0][t].kind == None {
      SeededMorningFree(cells, 0, t);
    }
    MorningFits(cells, profs, rooms, s, 0);
    Phase1TakesFirstDay(cells, profs, rooms, s, AllDays, LectureDuration, 0);
  }

  /** The first lecture of a course whose faculty and classroom are not yet
      booked, on a freshly seeded grid, goes to Monday at 09:00. */
  lemma FirstLectureOnMonday(cells: seq<seq<Cell>>, profs: map<string, Week>, rooms: map<string, Week>, c: Course)
    requires LunchSeeded(cells) && WellFormed(profs) && WellFormed(rooms)
    requires c.faculty !in profs && c.classroom !in rooms
    ensures Phase1Choice(cells, profs, rooms, SessionOf(c, LectureLabel(1)), DaysByLoad(cells),
                         SessionDuration(LectureLabel(1)), 0) == Some((0, 0))
  {
    LabelDurations(1);
    MondayMorningFirst(cells, profs, rooms, SessionOf(c, LectureLabel(1)));
  }

  /** Writing a three-slot session at Monday 09:00 raises Monday's load
      from two to five cells and leaves the other days at two. */
  lemma LoadsAfterMondayMorning(cells: seq<seq<Cell>>, s: Session)
    requires LunchSeeded(cells)
    ensures var load := DayLoads(WriteSession(cells, 0, 0, LectureDuration, LectureDuration, s));
      load[0] == 5 && forall d :: 1 <= d < NumDays ==> load[d] == 2
  {
    var cells1 := WriteSession(cells, 0, 0, LectureDuration, LectureDuration, s);
    SeededLoads(cells);
    var row := cells[0];
    forall t | 0 <= t < 3 ensures row[t].kind == None {
      SeededMorningFree(cells, 0, t);
    }
    assert DayLoads(cells)[0] == DayLoad(row) == 2;
    var c0, c1, c2 := SessionCell(s, 3, 0), SessionCell(s, 3, 1), SessionCell(s, 3, 2);
    assert c0.kind.Some? && c1.kind.Some? && c2.kind.Some?;
    assert cells1[0] == row[0 := c0][1 := c1][2 := c2];
    DayLoadUpdate(row, 0, c0);
    DayLoadUpdate(row[0 := c0], 1, c1);
    DayLoadUpdate(row[0 := c0][1 := c1], 2, c2);
    assert DayLoads(cells1)[0] == DayLoad(cells1[0]);
    forall d | 1 <= d < NumDays ensures DayLoads(cells1)[d] == 2 {
      assert cells1[d] == cells[d];
      assert DayLoads(cells)[d] == DayLoad(cells[d]);
    }
  }

  /** With Monday strictly busier than the four other, equally loaded,
      days, Tuesday is tried first. */
  lemma TuesdayTriedFirst(cells: seq<seq<Cell>>)
    requires WellShaped(cells)
    requires DayLoads(cells)[0] == 5 && forall d :: 1 <= d < NumDays ==> DayLoads(cells)[d] == 2
    ensures DaysByLoad(cells)[0] == 1
  {
    var load := DayLoads(cells);
    var rest := [1, 2, 3, 4];
    assert AllDays == [0] + rest;
    SortByLoadUniform(rest, load);
    assert DaysByLoad(cells) == InsertByLoad(0, rest, load);
  }

  /** Bookings made on Monday leave Tuesday free for names never seen
      before. */
  lemma TuesdayUnbooked(m: map<string, Week>, names: seq<string>, name: string)
    requires WellFormed(m) && name !in m
    ensures var r := MarkRange(m, names, 0, 0, LectureDuration);
      name in r ==> r[name][1] == {}
  {
    MarkRangeEffect(m, names, 0, 0, LectureDuration);
  }

  /** A session written at Monday 09:00 of a seeded grid leaves Tuesday
      morning free and puts Tuesday first in the order of days. */
  lemma TuesdayAfterMondayMorning(cells: seq<seq<Cell>>, s: Session)
    requires LunchSeeded(cells)
    ensures var cells1 := WriteSession(cells, 0, 0, LectureDuration, LectureDuration, s);
      && DaysByLoad(cells1)[0] == 1
      && forall t :: 0 <= t < 3 ==> cells1[1][t].kind == None
  {
    var cells1 := WriteSession(cells, 0, 0, LectureDuration, LectureDuration, s);
    LoadsAfterMondayMorning(cells, s);
    TuesdayTriedFirst(cells1);
    forall t | 0 <= t < 3 ensures cells1[1][t].kind == None {
      SeededMorningFree(cells, 1, t);
    }
  }

  /** After the first lecture is committed at Monday 09:00, the second one
      goes to Tuesday at 09:00: Monday's load has grown to five cells while
      the other days keep two, so Tuesday is tried first, and the faculty
      and classroom were booked on Monday only. */
  lemma SecondLectureOnTuesday(cells: seq<seq<Cell>>, profs: map<string, Week>, rooms: map<string, Week>, c: Course)
    requires LunchSeeded(cells) && WellFormed(profs) && WellFormed(rooms)
    requires c.faculty !in profs && c.classroom !in rooms
    ensures var cells1 := WriteSession(cells, 0, 0, LectureDuration, LectureDuration, SessionOf(c, LectureLabel(1)));
      var profs1 := MarkRange(profs, FacultyNames(c.faculty), 0, 0, LectureDuration);
      var rooms1 := MarkRange(rooms, [c.classroom], 0, 0, LectureDuration);
      Phase1Choice(cells1, profs1, rooms1, SessionOf(c, LectureLabel(2)), DaysByLoad(cells1),
                   SessionDuration(LectureLabel(2)), 0) == Some((1, 0))
  {
    LabelDurations(2);
    var cells1 := WriteSession(cells, 0, 0, LectureDuration, LectureDuration, SessionOf(c, LectureLabel(1)));
    var profs1 := MarkRange(profs, FacultyNames(c.faculty), 0, 0, LectureDuration);
    var rooms1 := MarkRange(rooms, [c.classroom], 0, 0, LectureDuration);
    TuesdayAfterMondayMorning(cells, SessionOf(c, LectureLabel(1)));
    TuesdayUnbooked(profs, FacultyNames(c.faculty), c.faculty);
    TuesdayUnbooked(rooms, [c.classroom], c.classroom);
    MorningFits(cells1, profs1, rooms1, SessionOf(c, LectureLabel(2)), 1);
    Phase1TakesFirstDay(cells1, profs1, rooms1, SessionOf(c, LectureLabel(2)), DaysByLoad(cells1), LectureDuration, 0);
  }
}
