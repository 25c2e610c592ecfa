/** The lunch placer: before any course is scheduled, each day of a fresh
    grid gets a two-slot LUNCH block starting between 12:30 and 14:00. */
module Lunch {
  import opened Wrappers
  import opened Calendar
  import opened Grid

  /** A lunch block may start in a slot whose start time is in [12:30, 14:00). */
  predicate InLunchStartWindow(slot: Slot) {
    750 <= slot.0 < 840
  }

  /** The lunch marking of a cell. Only the type, code, name, first flag and
      duration are written; faculty, classroom and position keep their values. */
  function LunchCell(c: Cell, first: bool): Cell {
    c.(kind := Some("LUNCH"), code := "LUNCH", name := "LUNCH BREAK",
       isFirst := first, duration := if first then 2 else 0)
  }

  /** A day row with its lunch block at slots k and k + 1. */
  function WithLunch(row: seq<Cell>, k: nat): seq<Cell>
    requires k + 1 < |row|
  {
    row[k := LunchCell(row[k], true)][k + 1 := LunchCell(row[k + 1], false)]
  }

  /** `row` is `before` with a lunch block written at a start in 7..9. */
  ghost predicate HasLunchBlock(row: seq<Cell>, before: seq<Cell>) {
    |before| == NumSlots && exists k :: 7 <= k <= 9 && row == WithLunch(before, k)
  }

  function Min(a: int, b: int): int {
    if a <= b then a else b
  }

  /** The candidate lunch starts: the indices of the calendar slots whose
      start time is in [12:30, 14:00), in calendar order. */
  method LunchStartCandidates() returns (candidates: seq<nat>)
    ensures candidates == [7, 8, 9]
    ensures forall i :: 0 <= i < NumSlots ==> (i in candidates <==> InLunchStartWindow(TimeSlots()[i]))
  {
    var slots := TimeSlots();
    candidates := [];
    var idx := 0;
    while idx < |slots|
      invariant 0 <= idx <= |slots|
      invariant candidates == seq(if idx <= 7 then 0 else Min(idx, 10) - 7, j => 7 + j)
    {
      if InLunchStartWindow(slots[idx]) {
        candidates := candidates + [idx];
      }
      idx := idx + 1;
    }
    assert candidates == [7, 8, 9];
  }

  /** Seeds every day with a lunch block. The start of each day's block is
      drawn (by the source, at random) from the candidate starts; it is
      written over whatever the two cells held, and nothing but the grid
      is touched. */
  method PlaceLunchBreaks(tt: Timetable)
    requires tt.Valid()
    modifies tt
    ensures tt.Valid()
    ensures forall day :: 0 <= day < NumDays ==> HasLunchBlock(tt.cells[day], old(tt.cells[day]))
  {
    var candidates := LunchStartCandidates();
    ghost var before := tt.cells;
    var day := 0;
    while day < NumDays
      invariant 0 <= day <= NumDays
      invariant tt.Valid() && WellShaped(before) && before == old(tt.cells)
      invariant forall d :: day <= d < NumDays ==> tt.cells[d] == before[d]
      invariant forall d :: 0 <= d < day ==> HasLunchBlock(tt.cells[d], before[d])
    {
      var maxStart := Min(|candidates| - 1, NumSlots - 2);
      assert candidates[0] in candidates[..maxStart + 1];
      var startIdx :| startIdx in candidates[..maxStart + 1];
      ghost var prev := tt.cells;
      var endIdx := startIdx + 1;
      var slotIdx := startIdx;
      while slotIdx <= endIdx
        invariant startIdx <= slotIdx <= endIdx + 1
        invariant tt.Valid()
        invariant forall d :: 0 <= d < NumDays && d != day ==> tt.cells[d] == prev[d]
        invariant tt.cells[day] ==
          if slotIdx == startIdx then before[day]
          else if slotIdx == startIdx + 1 then before[day][startIdx := LunchCell(before[day][startIdx], true)]
          else WithLunch(before[day], startIdx)
      {
        var row := tt.cells[day];
        tt.cells := tt.cells[day := row[slotIdx := LunchCell(row[slotIdx], slotIdx == startIdx)]];
        slotIdx := slotIdx + 1;
      }
      assert 7 <= startIdx <= 9 && tt.cells[day] == WithLunch(before[day], startIdx);
      day := day + 1;
    }
  }

  /** The shape of a lunch block started at k in 7..9: both slots LUNCH, the
      first one flagged first with duration 2, the second not first with
      duration 0 (its position is left as it was); the block lies in lunch
      time and no other cell of the day changes. */
  lemma LunchBlockShape(row: seq<Cell>, k: nat)
    requires |row| == NumSlots && 7 <= k <= 9
    ensures var r := WithLunch(row, k);
      && InLunchStartWindow(TimeSlots()[k])
      && IsLunchTime(TimeSlots()[k]) && IsLunchTime(TimeSlots()[k + 1])
      && r[k].kind == Some("LUNCH") && r[k].isFirst && r[k].duration == 2
      && r[k + 1].kind == Some("LUNCH") && !r[k + 1].isFirst && r[k + 1].duration == 0
      && r[k + 1].position == row[k + 1].position
      && (forall t :: 0 <= t < NumSlots && t != k && t != k + 1 ==> r[t] == row[t])
  {
  }
}
