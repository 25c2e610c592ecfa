/** The slot calendar: the working week is five days, each cut into half-hour
    slots from 09:00 to 18:30. Times of day are minutes since midnight. */
module Calendar {

  const NumDays: nat := 5
  const DayStart: int := 540       // 09:00
  const DayEnd: int := 1110        // 18:30
  const SlotMinutes: int := 30
  const NumSlots: nat := 19

  /** A slot is its (start, end) pair of times of day, in minutes. */
  type Slot = (int, int)

  /** The calendar every timetable shares: slot i runs from 09:00 + 30i
      to 09:00 + 30(i+1). */
  function TimeSlots(): (r: seq<Slot>)
    ensures |r| == NumSlots
    ensures r[0].0 == DayStart && r[NumSlots - 1].1 == DayEnd
    ensures forall i :: 0 <= i < |r| ==> r[i].1 == r[i].0 + SlotMinutes
    ensures forall i :: 0 <= i < |r| - 1 ==> r[i + 1].0 == r[i].1
    ensures forall i :: 0 <= i < |r| ==> DayStart <= r[i].0 < DayEnd
  {
    seq(NumSlots, i => (DayStart + SlotMinutes * i, DayStart + SlotMinutes * (i + 1)))
  }

  /** Builds the calendar the way the scheduler does at start-up: step a
      clock from the start of the day in 30-minute increments and emit a
      slot while the clock is before the end of the day. */
  method GenerateTimeSlots() returns (slots: seq<Slot>)
    ensures slots == TimeSlots()
  {
    slots := [];
    var current := DayStart;
    while current < DayEnd
      invariant current == DayStart + SlotMinutes * |slots|
      invariant |slots| <= NumSlots
      invariant forall i :: 0 <= i < |slots| ==> slots[i] == TimeSlots()[i]
    {
      slots := slots + [(current, current + SlotMinutes)];
      current := current + SlotMinutes;
    }
  }

  /** Morning break: the slot starts in [10:30, 11:00). */
  predicate IsMorningBreak(slot: Slot) {
    630 <= slot.0 < 660
  }

  /** Lunch time: the slot starts in [12:30, 14:30). */
  predicate IsLunchTime(slot: Slot) {
    750 <= slot.0 < 870
  }

  /** The only slot of the calendar in the morning break is slot 3 (10:30-11:00). */
  lemma MorningBreakIsSlotThree(i: nat)
    requires i < NumSlots
    ensures IsMorningBreak(TimeSlots()[i]) <==> i == 3
  {
  }

  /** The lunch-time slots of the calendar are slots 7 to 10 (12:30-14:30). */
  lemma LunchTimeSlots(i: nat)
    requires i < NumSlots
    ensures IsLunchTime(TimeSlots()[i]) <==> 7 <= i <= 10
  {
  }
}
