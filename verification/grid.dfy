/** The timetable grid of one department and semester: a day x slot matrix
    of cells, each either free (no session type) or part of a session. */
module Grid {
  import opened Wrappers
  import opened Calendar

  /** One cell of the grid. `duration` is non-zero only on the first cell
      of a session; `position` is the offset of the cell in its session. */
  datatype Cell = Cell(
    kind: Option<string>,
    code: string,
    name: string,
    faculty: string,
    classroom: string,
    duration: nat,
    isFirst: bool,
    position: nat)

  const EmptyCell: Cell := Cell(None, "", "", "", "", 0, false, 0)

  /** Five days of nineteen slots each. */
  predicate WellShaped(cells: seq<seq<Cell>>) {
    |cells| == NumDays && forall d :: 0 <= d < |cells| ==> |cells[d]| == NumSlots
  }

  function EmptyRow(): seq<Cell> {
    seq(NumSlots, _ => EmptyCell)
  }

  function EmptyGrid(): (g: seq<seq<Cell>>)
    ensures WellShaped(g)
  {
    seq(NumDays, _ => EmptyRow())
  }

  /** Every cell that held a session in `before` holds the same cell in
      `after`: only free cells were written. */
  predicate KeepsOccupied(before: seq<seq<Cell>>, after: seq<seq<Cell>>)
    requires WellShaped(before) && WellShaped(after)
  {
    forall d, t :: 0 <= d < NumDays && 0 <= t < NumSlots && before[d][t].kind.Some? ==>
      after[d][t] == before[d][t]
  }

  lemma KeepsOccupiedTrans(a: seq<seq<Cell>>, b: seq<seq<Cell>>, c: seq<seq<Cell>>)
    requires WellShaped(a) && WellShaped(b) && WellShaped(c)
    requires KeepsOccupied(a, b) && KeepsOccupied(b, c)
    ensures KeepsOccupied(a, c)
  {
  }

  /** The grid owned by one department and semester. */
  class Timetable {
    var cells: seq<seq<Cell>>

    ghost predicate Valid()
      reads this
    {
      WellShaped(cells)
    }

    /** Every cell starts free, with empty metadata and position 0. */
    constructor ()
      ensures Valid() && cells == EmptyGrid()
    {
      cells := EmptyGrid();
    }
  }

  /** What a session request writes into the grid. */
  datatype Session = Session(
    kind: string,
    code: string,
    name: string,
    faculty: string,
    classroom: string)

  /** The cell at offset `i` of a session of `duration` slots: the
      metadata and the duration go on the first cell only. */
  function SessionCell(s: Session, duration: nat, i: nat): Cell {
    Cell(Some(s.kind),
         if i == 0 then s.code else "",
         if i == 0 then s.name else "",
         if i == 0 then s.faculty else "",
         if i == 0 then s.classroom else "",
         if i == 0 then duration else 0,
         i == 0,
         i)
  }

  /** The grid after the first `written` cells of a session of `duration`
      slots starting at `start` on `day` have been written. */
  function WriteSession(cells: seq<seq<Cell>>, day: nat, start: nat, duration: nat, written: nat, s: Session): (r: seq<seq<Cell>>)
    requires WellShaped(cells) && day < NumDays && start + written <= NumSlots
    ensures WellShaped(r)
  {
    cells[day := seq(NumSlots, t requires 0 <= t < NumSlots =>
      if start <= t < start + written then SessionCell(s, duration, t - start) else cells[day][t])]
  }

  /** Nothing written yet leaves the grid as it was. */
  lemma WriteSessionNone(cells: seq<seq<Cell>>, day: nat, start: nat, duration: nat, s: Session)
    requires WellShaped(cells) && day < NumDays && start <= NumSlots
    ensures WriteSession(cells, day, start, duration, 0, s) == cells
  {
    assert WriteSession(cells, day, start, duration, 0, s)[day] == cells[day];
  }

  /** Writing one more cell of a session extends the partial write. */
  lemma WriteSessionStep(cells: seq<seq<Cell>>, day: nat, start: nat, duration: nat, written: nat, s: Session)
    requires WellShaped(cells) && day < NumDays && start + written < NumSlots
    ensures var prev := WriteSession(cells, day, start, duration, written, s);
      WriteSession(cells, day, start, duration, written + 1, s)
        == prev[day := prev[day][start + written := SessionCell(s, duration, written)]]
  {
    var prev := WriteSession(cells, day, start, duration, written, s);
    assert WriteSession(cells, day, start, duration, written + 1, s)[day]
        == prev[day][start + written := SessionCell(s, duration, written)];
  }

  /** Cells [start, start + duration) of `row` hold one session of the given
      type: exactly one first cell, at `start`, with the duration and
      position 0, followed by continuation cells with duration 0 and
      positions 1 .. duration - 1. */
  predicate IsSessionRun(row: seq<Cell>, start: nat, duration: nat, kind: string)
    requires start + duration <= |row|
  {
    && duration > 0
    && (forall t :: start <= t < start + duration ==>
          row[t].kind == Some(kind) && row[t].position == t - start
          && (row[t].isFirst <==> t == start))
    && row[start].duration == duration
    && (forall t :: start < t < start + duration ==> row[t].duration == 0)
  }

  /** A committed session forms a well-formed run: its metadata sits on the
      first cell only, the continuation cells carry empty strings, and no
      other cell of the grid changes. */
  lemma WriteSessionShape(cells: seq<seq<Cell>>, day: nat, start: nat, duration: nat, s: Session)
    requires WellShaped(cells) && day < NumDays && start + duration <= NumSlots && duration > 0
    ensures var r := WriteSession(cells, day, start, duration, duration, s);
      && IsSessionRun(r[day], start, duration, s.kind)
      && r[day][start].code == s.code && r[day][start].name == s.name
      && r[day][start].faculty == s.faculty && r[day][start].classroom == s.classroom
      && (forall t :: start < t < start + duration ==>
            r[day][t].code == "" && r[day][t].name == "" && r[day][t].faculty == "" && r[day][t].classroom == "")
      && (forall d, t :: 0 <= d < NumDays && 0 <= t < NumSlots && (d != day || t < start || start + duration <= t)
            ==> r[d][t] == cells[d][t])
  {
    var r := WriteSession(cells, day, start, duration, duration, s);
    assert forall t :: start <= t < start + duration ==> r[day][t] == SessionCell(s, duration, t - start);
  }

  /** Day load: how many cells of the day hold a session of any type. */
  function DayLoad(row: seq<Cell>): (n: nat)
    ensures n <= |row|
  {
    if row == [] then 0 else (if row[0].kind.Some? then 1 else 0) + DayLoad(row[1..])
  }

  /** The load of a day is the sum of the loads of its parts. */
  lemma {:induction false} DayLoadAppend(a: seq<Cell>, b: seq<Cell>)
    ensures DayLoad(a + b) == DayLoad(a) + DayLoad(b)
    decreases |a|
  {
    if a != [] {
      DayLoadAppend(a[1..], b);
      assert (a + b)[0] == a[0];
      assert (a + b)[1..] == a[1..] + b;
    } else {
      assert a + b == b;
    }
  }

  /** Overwriting one cell changes the load by what the cell held and what
      it holds now. */
  lemma {:induction false} DayLoadUpdate(row: seq<Cell>, t: nat, c: Cell)
    requires t < |row|
    ensures DayLoad(row[t := c]) + (if row[t].kind.Some? then 1 else 0)
         == DayLoad(row) + (if c.kind.Some? then 1 else 0)
    decreases |row|
  {
    if t == 0 {
      assert row[t := c][1..] == row[1..];
    } else {
      DayLoadUpdate(row[1..], t - 1, c);
      assert row[t := c][1..] == row[1..][t - 1 := c];
    }
  }

  /** A day with no session has load 0. */
  lemma {:induction false} DayLoadFree(row: seq<Cell>)
    requires forall t :: 0 <= t < |row| ==> row[t].kind == None
    ensures DayLoad(row) == 0
    decreases |row|
  {
    if row != [] {
      DayLoadFree(row[1..]);
    }
  }
}
