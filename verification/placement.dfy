/** Placement of one session request: Phase 1 visits the days from the
    lightest-loaded to the heaviest (a stable sort, so ties keep day order)
    and takes the first feasible start of the first day that has one;
    Phase 2, reached only when Phase 1 finds nothing, draws random
    (day, start) pairs up to the attempt budget. */
module Placement {
  import opened Wrappers
  import opened Calendar
  import opened Grid
  import opened Occupancy
  import opened Courses
  import opened Scheduler

  /** Every entry of `days` is below `n`. */
  predicate InRange(days: seq<nat>, n: nat) {
    forall i :: 0 <= i < |days| ==> days[i] < n
  }

  /** Day `a` is visited before day `b`: lighter load first, ties by day index. */
  predicate LoadBefore(load: seq<nat>, a: nat, b: nat)
    requires a < |load| && b < |load|
  {
    load[a] < load[b] || (load[a] == load[b] && a < b)
  }

  predicate OrderedByLoad(days: seq<nat>, load: seq<nat>)
    requires InRange(days, |load|)
  {
    forall i, j :: 0 <= i < j < |days| ==> LoadBefore(load, days[i], days[j])
  }

  predicate StrictlyIncreasing(days: seq<nat>) {
    forall i, j :: 0 <= i < j < |days| ==> days[i] < days[j]
  }

  /** Inserts day `x` in front of the first day whose load is at least
      `x`'s, that is, after the days of strictly smaller load and before
      the days of equal load. */
  function InsertByLoad(x: nat, sorted: seq<nat>, load: seq<nat>): (r: seq<nat>)
    requires x < |load| && InRange(sorted, |load|)
    ensures InRange(r, |load|)
    decreases |sorted|
  {
    if sorted == [] || load[x] <= load[sorted[0]] then
      [x] + sorted
    else
      [sorted[0]] + InsertByLoad(x, sorted[1..], load)
  }

  /** Inserting a day adds exactly that day. */
  lemma {:induction false} InsertByLoadPermutes(x: nat, sorted: seq<nat>, load: seq<nat>)
    requires x < |load| && InRange(sorted, |load|)
    ensures multiset(InsertByLoad(x, sorted, load)) == multiset(sorted) + multiset{x}
    decreases |sorted|
  {
    if !(sorted == [] || load[x] <= load[sorted[0]]) {
      InsertByLoadPermutes(x, sorted[1..], load);
      assert sorted == [sorted[0]] + sorted[1..];
    }
  }

  /** The source's `sorted(days, key=load)`: a stable insertion sort. */
  function SortByLoad(days: seq<nat>, load: seq<nat>): (r: seq<nat>)
    requires InRange(days, |load|)
    ensures InRange(r, |load|)
  {
    if days == [] then []
    else InsertByLoad(days[0], SortByLoad(days[1..], load), load)
  }

  /** The sort is a permutation of its input. */
  lemma {:induction false} SortByLoadPermutes(days: seq<nat>, load: seq<nat>)
    requires InRange(days, |load|)
    ensures multiset(SortByLoad(days, load)) == multiset(days)
  {
    if days != [] {
      SortByLoadPermutes(days[1..], load);
      InsertByLoadPermutes(days[0], SortByLoad(days[1..], load), load);
      assert days == [days[0]] + days[1..];
    }
  }

  /** Inserting a day smaller than every day of an ordered sequence keeps it
      ordered: it lands after the lighter days and before the heavier ones,
      and among equal loads it comes first, which is its place by index. */
  lemma {:induction false} InsertByLoadOrdered(x: nat, sorted: seq<nat>, load: seq<nat>)
    requires x < |load| && InRange(sorted, |load|) && OrderedByLoad(sorted, load)
    requires forall i :: 0 <= i < |sorted| ==> x < sorted[i]
    ensures OrderedByLoad(InsertByLoad(x, sorted, load), load)
    decreases |sorted|
  {
    var r := InsertByLoad(x, sorted, load);
    if sorted == [] || load[x] <= load[sorted[0]] {
      forall i, j | 0 <= i < j < |r| ensures LoadBefore(load, r[i], r[j]) {
        if i == 0 {
          if j > 1 {
            assert LoadBefore(load, sorted[0], sorted[j - 1]);
          }
        } else {
          assert LoadBefore(load, sorted[i - 1], sorted[j - 1]);
        }
      }
    } else {
      var rest := InsertByLoad(x, sorted[1..], load);
      InsertByLoadOrdered(x, sorted[1..], load);
      InsertByLoadPermutes(x, sorted[1..], load);
      assert r == [sorted[0]] + rest;
      forall i, j | 0 <= i < j < |r| ensures LoadBefore(load, r[i], r[j]) {
        if i == 0 {
          var y := rest[j - 1];
          assert y in multiset(rest);
          if y != x {
            assert y in multiset(sorted[1..]);
            var k :| 0 <= k < |sorted[1..]| && sorted[1..][k] == y;
            assert LoadBefore(load, sorted[0], sorted[k + 1]);
          }
        } else {
          assert LoadBefore(load, rest[i - 1], rest[j - 1]);
        }
      }
    }
  }

  /** Sorting days given in increasing order puts them by ascending load,
      ties by day index. */
  lemma {:induction false} SortByLoadOrdered(days: seq<nat>, load: seq<nat>)
    requires InRange(days, |load|) && StrictlyIncreasing(days)
    ensures OrderedByLoad(SortByLoad(days, load), load)
  {
    if days != [] {
      var rest := SortByLoad(days[1..], load);
      SortByLoadOrdered(days[1..], load);
      SortByLoadPermutes(days[1..], load);
      forall i | 0 <= i < |rest| ensures days[0] < rest[i] {
        assert rest[i] in multiset(rest);
        assert rest[i] in multiset(days[1..]);
        var k :| 0 <= k < |days[1..]| && days[1..][k] == rest[i];
        assert days[0] < days[k + 1];
      }
      InsertByLoadOrdered(days[0], rest, load);
    }
  }

  /** Among days of equal load the sort keeps the input order. */
  lemma {:induction false} SortByLoadUniform(days: seq<nat>, load: seq<nat>)
    requires InRange(days, |load|)
    requires forall i, j :: 0 <= i < |days| && 0 <= j < |days| ==> load[days[i]] == load[days[j]]
    ensures SortByLoad(days, load) == days
  {
    if days != [] {
      SortByLoadUniform(days[1..], load);
      assert days == [days[0]] + days[1..];
      if |days| > 1 {
        assert load[days[0]] <= load[days[1..][0]];
      }
    }
  }

  /** The number of occupied cells of each day. */
  function DayLoads(cells: seq<seq<Cell>>): (load: seq<nat>)
    requires WellShaped(cells)
    ensures |load| == NumDays
  {
    seq(NumDays, d requires 0 <= d < NumDays => DayLoad(cells[d]))
  }

  const AllDays: seq<nat> := [0, 1, 2, 3, 4]

  /** The order in which Phase 1 visits the days: the days by ascending
      load, ties by day index. Every day is visited. */
  function DaysByLoad(cells: seq<seq<Cell>>): (order: seq<nat>)
    requires WellShaped(cells)
    ensures InRange(order, NumDays)
    ensures forall d: nat :: d < NumDays ==> d in order
  {
    SortByLoadPermutes(AllDays, DayLoads(cells));
    var order := SortByLoad(AllDays, DayLoads(cells));
    EveryDayListed(order);
    order
  }

  /** Phase 1 visits each day exactly once, by ascending load, ties by day
      index. */
  lemma DaysByLoadOrder(cells: seq<seq<Cell>>)
    requires WellShaped(cells)
    ensures multiset(DaysByLoad(cells)) == multiset(AllDays)
    ensures OrderedByLoad(DaysByLoad(cells), DayLoads(cells))
  {
    SortByLoadPermutes(AllDays, DayLoads(cells));
    AllDaysIncreasing();
    SortByLoadOrdered(AllDays, DayLoads(cells));
  }

  lemma AllDaysIncreasing()
    ensures StrictlyIncreasing(AllDays)
  {
    assert forall i :: 0 <= i < |AllDays| ==> AllDays[i] == i;
  }

  /** An arrangement of the five days lists each of them. */
  lemma EveryDayListed(order: seq<nat>)
    requires multiset(order) == multiset(AllDays)
    ensures forall d: nat :: d < NumDays ==> d in order
  {
    forall d: nat | d < NumDays ensures d in order {
      assert AllDays[d] == d;
      assert d in multiset(AllDays);
      assert d in multiset(order);
    }
  }

  /** The smallest start from `from` on at which the session fits on `day`,
      if any: the slot-by-slot scan of Phase 1. */
  function FirstFeasibleStart(cells: seq<seq<Cell>>, profs: map<string, Week>, rooms: map<string, Week>,
                              s: Session, day: nat, duration: nat, from: nat): (r: Option<nat>)
    requires WellShaped(cells) && WellFormed(profs) && WellFormed(rooms) && day < NumDays
    ensures r.Some? ==> from <= r.value && r.value + duration <= NumSlots
                        && Feasible(cells, profs, rooms, s, day, r.value, duration)
    ensures forall t :: from <= t && t + duration <= NumSlots && (r.None? || t < r.value)
                        ==> !Feasible(cells, profs, rooms, s, day, t, duration)
    decreases NumSlots - from
  {
    if from + duration > NumSlots then None
    else if Feasible(cells, profs, rooms, s, day, from, duration) then Some(from)
    else FirstFeasibleStart(cells, profs, rooms, s, day, duration, from + 1)
  }

  /** No day at positions `from` .. `to` - 1 of `order` has a feasible
      start for the session. */
  predicate NoDayFits(cells: seq<seq<Cell>>, profs: map<string, Week>, rooms: map<string, Week>,
                      s: Session, order: seq<nat>, duration: nat, from: nat, to: nat)
    requires WellShaped(cells) && WellFormed(profs) && WellFormed(rooms) && InRange(order, NumDays)
    requires to <= |order|
  {
    forall q :: from <= q < to ==> FirstFeasibleStart(cells, profs, rooms, s, order[q], duration, 0).None?
  }

  /** Position `p` of `order`, at or after `from`, is the first with a
      feasible start, and `choice` is its day and smallest feasible start. */
  predicate ChosenAt(cells: seq<seq<Cell>>, profs: map<string, Week>, rooms: map<string, Week>,
                     s: Session, order: seq<nat>, duration: nat, from: nat, p: nat, choice: (nat, nat))
    requires WellShaped(cells) && WellFormed(profs) && WellFormed(rooms) && InRange(order, NumDays)
  {
    && from <= p < |order| && order[p] == choice.0
    && FirstFeasibleStart(cells, profs, rooms, s, order[p], duration, 0) == Some(choice.1)
    && NoDayFits(cells, profs, rooms, s, order, duration, from, p)
  }

  /** Phase 1's choice, visiting `order` from position `from` on: the first
      day that has a feasible start, with its smallest feasible start. */
  function Phase1Choice(cells: seq<seq<Cell>>, profs: map<string, Week>, rooms: map<string, Week>,
                        s: Session, order: seq<nat>, duration: nat, from: nat): (r: Option<(nat, nat)>)
    requires WellShaped(cells) && WellFormed(profs) && WellFormed(rooms) && InRange(order, NumDays)
    ensures r.Some? ==> exists p :: ChosenAt(cells, profs, rooms, s, order, duration, from, p, r.value)
    ensures r.None? <==> NoDayFits(cells, profs, rooms, s, order, duration, from, |order|)
    decreases |order| - from
  {
    if from >= |order| then None
    else
      match FirstFeasibleStart(cells, profs, rooms, s, order[from], duration, 0)
      case Some(t) =>
        assert ChosenAt(cells, profs, rooms, s, order, duration, from, from, (order[from], t));
        Some((order[from], t))
      case None =>
        var r := Phase1Choice(cells, profs, rooms, s, order, duration, from + 1);
        SkipUnfitDay(cells, profs, rooms, s, order, duration, from, from + 1, r);
        r
  }

  /** A day without a feasible start at position `from` leaves the choice
      to the later positions. */
  lemma SkipUnfitDay(cells: seq<seq<Cell>>, profs: map<string, Week>, rooms: map<string, Week>,
                     s: Session, order: seq<nat>, duration: nat, from: nat, next: nat, r: Option<(nat, nat)>)
    requires WellShaped(cells) && WellFormed(profs) && WellFormed(rooms) && InRange(order, NumDays)
    requires from < |order| && FirstFeasibleStart(cells, profs, rooms, s, order[from], duration, 0).None?
    requires next == from + 1
    requires r.Some? ==> exists p :: ChosenAt(cells, profs, rooms, s, order, duration, next, p, r.value)
    requires r.None? <==> NoDayFits(cells, profs, rooms, s, order, duration, next, |order|)
    ensures r.Some? ==> exists p :: ChosenAt(cells, profs, rooms, s, order, duration, from, p, r.value)
    ensures r.None? <==> NoDayFits(cells, profs, rooms, s, order, duration, from, |order|)
  {
    if r.Some? {
      var p :| ChosenAt(cells, profs, rooms, s, order, duration, next, p, r.value);
      NoDayFitsFrom(cells, profs, rooms, s, order, duration, from, p);
      assert ChosenAt(cells, profs, rooms, s, order, duration, from, p, r.value);
    }
    NoDayFitsFrom(cells, profs, rooms, s, order, duration, from, |order|);
  }

  /** A day without a feasible start can be added in front of a stretch
      of such days. */
  lemma NoDayFitsFrom(cells: seq<seq<Cell>>, profs: map<string, Week>, rooms: map<string, Week>,
                      s: Session, order: seq<nat>, duration: nat, from: nat, to: nat)
    requires WellShaped(cells) && WellFormed(profs) && WellFormed(rooms) && InRange(order, NumDays)
    requires from < to <= |order| && FirstFeasibleStart(cells, profs, rooms, s, order[from], duration, 0).None?
    ensures NoDayFits(cells, profs, rooms, s, order, duration, from + 1, to)
       <==> NoDayFits(cells, profs, rooms, s, order, duration, from, to)
  {
  }

  /** When the first day of the order has a feasible start, Phase 1 takes
      that day and its smallest feasible start, whatever the later days. */
  lemma Phase1TakesFirstDay(cells: seq<seq<Cell>>, profs: map<string, Week>, rooms: map<string, Week>,
                            s: Session, order: seq<nat>, duration: nat, t: nat)
    requires WellShaped(cells) && WellFormed(profs) && WellFormed(rooms) && InRange(order, NumDays)
    requires |order| > 0 && FirstFeasibleStart(cells, profs, rooms, s, order[0], duration, 0) == Some(t)
    ensures Phase1Choice(cells, profs, rooms, s, order, duration, 0) == Some((order[0], t))
  {
  }

  /** When every day is in `order` and Phase 1 finds nothing, no day and
      no start inside the day is feasible: Phase 1 has already tried every
      placement the random draws of Phase 2 can produce. */
  lemma Phase1Exhaustive(cells: seq<seq<Cell>>, profs: map<string, Week>, rooms: map<string, Week>,
                         s: Session, order: seq<nat>, duration: nat, day: nat, start: nat)
    requires WellShaped(cells) && WellFormed(profs) && WellFormed(rooms) && InRange(order, NumDays)
    requires forall d: nat :: d < NumDays ==> d in order
    requires Phase1Choice(cells, profs, rooms, s, order, duration, 0).None?
    requires day < NumDays && start + duration <= NumSlots
    ensures !Feasible(cells, profs, rooms, s, day, start, duration)
  {
    assert day in order;
    var q :| 0 <= q < |order| && order[q] == day;
    assert FirstFeasibleStart(cells, profs, rooms, s, order[q], duration, 0).None?;
  }

  /** The state after committing session `s` at (`day`, `start`): the
      placement was feasible in the state before, the grid holds the
      session's cells and the occupancy maps hold its slots. */
  ghost predicate Committed(cells0: seq<seq<Cell>>, profs0: map<string, Week>, rooms0: map<string, Week>,
                            cells: seq<seq<Cell>>, profs: map<string, Week>, rooms: map<string, Week>,
                            s: Session, day: nat, start: nat, duration: nat)
    requires WellShaped(cells0) && WellFormed(profs0) && WellFormed(rooms0)
  {
    && day < NumDays && start + duration <= NumSlots
    && Feasible(cells0, profs0, rooms0, s, day, start, duration)
    && cells == WriteSession(cells0, day, start, duration, duration, s)
    && profs == MarkRange(profs0, FacultyNames(s.faculty), day, start, start + duration)
    && rooms == MarkRange(rooms0, [s.classroom], day, start, start + duration)
  }

  /** One placement attempt: the possibility check at (`day`, `start`) and,
      when it passes, the commit. The summary is not touched. */
  method TryPlacement(tt: Timetable, reg: Registry, s: Session, day: nat, start: nat, duration: nat)
    returns (ok: bool)
    requires tt.Valid() && reg.Valid() && day < NumDays && start + duration <= NumSlots
    modifies tt, reg
    ensures tt.Valid() && reg.Valid() && reg.summary == old(reg.summary)
    ensures ok == Feasible(old(tt.cells), old(reg.professors), old(reg.classrooms), s, day, start, duration)
    ensures ok ==> Committed(old(tt.cells), old(reg.professors), old(reg.classrooms),
                             tt.cells, reg.professors, reg.classrooms, s, day, start, duration)
    ensures !ok ==> tt.cells == old(tt.cells) && reg.professors == old(reg.professors)
                    && reg.classrooms == old(reg.classrooms)
  {
    ok := CheckSchedulingPossibility(tt.cells, reg.professors, reg.classrooms, s, day, start, duration);
    if ok {
      UpdateSchedule(tt, reg, s, day, start, duration);
    }
  }

  /** Phase 1 on one day: tries every start from the first slot on and
      commits at the first feasible one, which is the smallest. */
  method TryDay(tt: Timetable, reg: Registry, s: Session, day: nat, duration: nat)
    returns (placed: bool, start: nat)
    requires tt.Valid() && reg.Valid() && day < NumDays
    modifies tt, reg
    ensures tt.Valid() && reg.Valid() && reg.summary == old(reg.summary)
    ensures placed <==> FirstFeasibleStart(old(tt.cells), old(reg.professors), old(reg.classrooms), s, day, duration, 0).Some?
    ensures placed ==> FirstFeasibleStart(old(tt.cells), old(reg.professors), old(reg.classrooms), s, day, duration, 0) == Some(start)
    ensures placed ==> Committed(old(tt.cells), old(reg.professors), old(reg.classrooms),
                                 tt.cells, reg.professors, reg.classrooms, s, day, start, duration)
    ensures !placed ==> tt.cells == old(tt.cells) && reg.professors == old(reg.professors)
                        && reg.classrooms == old(reg.classrooms)
  {
    ghost var cells0, profs0, rooms0 := tt.cells, reg.professors, reg.classrooms;
    ghost var first := FirstFeasibleStart(cells0, profs0, rooms0, s, day, duration, 0);
    placed, start := false, 0;
    while start < NumSlots - duration + 1
      invariant tt.cells == cells0 && reg.professors == profs0 && reg.classrooms == rooms0
      invariant tt.Valid() && reg.Valid() && reg.summary == old(reg.summary)
      invariant first == FirstFeasibleStart(cells0, profs0, rooms0, s, day, duration, start)
    {
      placed := TryPlacement(tt, reg, s, day, start, duration);
      if placed {
        return;
      }
      start := start + 1;
    }
  }

  /** Phase 1: visits the days in `order` and commits at the first
      feasible start of the first day that has one. */
  method FirstFit(tt: Timetable, reg: Registry, s: Session, order: seq<nat>, duration: nat)
    returns (placed: bool, day: nat, start: nat)
    requires tt.Valid() && reg.Valid() && InRange(order, NumDays)
    modifies tt, reg
    ensures tt.Valid() && reg.Valid() && reg.summary == old(reg.summary)
    ensures var choice := Phase1Choice(old(tt.cells), old(reg.professors), old(reg.classrooms), s, order, duration, 0);
      (placed <==> choice.Some?) && (placed ==> choice == Some((day, start)))
    ensures placed ==> Committed(old(tt.cells), old(reg.professors), old(reg.classrooms),
                                 tt.cells, reg.professors, reg.classrooms, s, day, start, duration)
    ensures !placed ==> tt.cells == old(tt.cells) && reg.professors == old(reg.professors)
                        && reg.classrooms == old(reg.classrooms)
  {
    ghost var cells0, profs0, rooms0 := tt.cells, reg.professors, reg.classrooms;
    ghost var choice := Phase1Choice(cells0, profs0, rooms0, s, order, duration, 0);
    placed, day, start := false, 0, 0;
    var k := 0;
    while k < |order| && !placed
      invariant k <= |order|
      invariant tt.Valid() && reg.Valid() && reg.summary == old(reg.summary)
      invariant !placed ==> tt.cells == cells0 && reg.professors == profs0 && reg.classrooms == rooms0
      invariant !placed ==> choice == Phase1Choice(cells0, profs0, rooms0, s, order, duration, k)
      invariant placed ==> choice == Some((day, start))
      invariant placed ==> Committed(cells0, profs0, rooms0, tt.cells, reg.professors, reg.classrooms,
                                     s, day, start, duration)
    {
      day := order[k];
      placed, start := TryDay(tt, reg, s, day, duration);
      k := k + 1;
    }
  }

  /** Phase 2: up to `attemptLimit` random draws of a day and a start; the
      draws are nondeterministic choices, and the first feasible one is
      committed. */
  method RandomAttempts(tt: Timetable, reg: Registry, s: Session, duration: nat, attemptLimit: nat)
    returns (placed: bool, day: nat, start: nat)
    requires tt.Valid() && reg.Valid() && duration <= NumSlots
    modifies tt, reg
    ensures tt.Valid() && reg.Valid() && reg.summary == old(reg.summary)
    ensures placed ==> Committed(old(tt.cells), old(reg.professors), old(reg.classrooms),
                                 tt.cells, reg.professors, reg.classrooms, s, day, start, duration)
    ensures !placed ==> tt.cells == old(tt.cells) && reg.professors == old(reg.professors)
                        && reg.classrooms == old(reg.classrooms)
    ensures attemptLimit == 0 ==> !placed
  {
    ghost var cells0, profs0, rooms0 := tt.cells, reg.professors, reg.classrooms;
    placed, day, start := false, 0, 0;
    var attempts := 0;
    while !placed && attempts < attemptLimit
      invariant attempts <= attemptLimit
      invariant tt.Valid() && reg.Valid() && reg.summary == old(reg.summary)
      invariant !placed ==> tt.cells == cells0 && reg.professors == profs0 && reg.classrooms == rooms0
      invariant placed ==> Committed(cells0, profs0, rooms0, tt.cells, reg.professors, reg.classrooms,
                                     s, day, start, duration)
      invariant attemptLimit == 0 ==> !placed
    {
      day :| day < NumDays;
      start :| start <= NumSlots - duration;
      placed := TryPlacement(tt, reg, s, day, start, duration);
      attempts := attempts + 1;
    }
  }

  /** Both phases for one session: Phase 1 over the days in `order`, then,
      when it found nothing, Phase 2 with `attemptLimit` draws. A placement
      is a commit at a start feasible beforehand and it overwrites no
      occupied cell; a failure changes nothing. Since `order` lists every
      day, Phase 2 draws only placements Phase 1 has already rejected: the
      session is placed exactly when Phase 1 has a choice, and then at
      that choice, whatever the budget. The summary is not touched. */
  method PlaceSession(tt: Timetable, reg: Registry, s: Session, order: seq<nat>, duration: nat, attemptLimit: nat)
    returns (placed: bool, day: nat, start: nat)
    requires tt.Valid() && reg.Valid() && InRange(order, NumDays) && duration <= NumSlots
    requires forall d: nat :: d < NumDays ==> d in order
    modifies tt, reg
    ensures tt.Valid() && reg.Valid() && reg.summary == old(reg.summary)
    ensures placed ==> Committed(old(tt.cells), old(reg.professors), old(reg.classrooms),
                                 tt.cells, reg.professors, reg.classrooms, s, day, start, duration)
    ensures !placed ==> tt.cells == old(tt.cells) && reg.professors == old(reg.professors)
                        && reg.classrooms == old(reg.classrooms)
    ensures var p1 := Phase1Choice(old(tt.cells), old(reg.professors), old(reg.classrooms), s, order, duration, 0);
      && (placed <==> p1.Some?)
      && (p1.Some? ==> (day, start) == p1.value)
    ensures KeepsOccupied(old(tt.cells), tt.cells)
  {
    ghost var cells0, profs0, rooms0 := tt.cells, reg.professors, reg.classrooms;
    placed, day, start := FirstFit(tt, reg, s, order, duration);
    if !placed {
      placed, day, start := RandomAttempts(tt, reg, s, duration, attemptLimit);
      if placed {
        Phase1Exhaustive(cells0, profs0, rooms0, s, order, duration, day, start);
      }
    }
    if placed {
      CommitKeepsOccupiedCells(cells0, profs0, rooms0, s, day, start, duration);
    }
  }

  /** What placing session `s` did, as `placed` and the recorded `status`
      report it: a placement is a commit at the recorded day and start,
      a failure changes nothing, and the session is placed exactly when
      Phase 1 over `order` has a choice, and then at that choice. */
  ghost predicate PlacedAsReported(cells0: seq<seq<Cell>>, profs0: map<string, Week>, rooms0: map<string, Week>,
                                   cells: seq<seq<Cell>>, profs: map<string, Week>, rooms: map<string, Week>,
                                   s: Session, order: seq<nat>, duration: nat, placed: bool, status: Status)
    requires WellShaped(cells0) && WellFormed(profs0) && WellFormed(rooms0) && InRange(order, NumDays)
  {
    && (placed <==> status.Placed?) && (!placed ==> status == Failed)
    && (placed ==> Committed(cells0, profs0, rooms0, cells, profs, rooms, s, status.day, status.slot, duration))
    && (!placed ==> cells == cells0 && profs == profs0 && rooms == rooms0)
    && var p1 := Phase1Choice(cells0, profs0, rooms0, s, order, duration, 0);
       (placed <==> p1.Some?) && (p1.Some? ==> (status.day, status.slot) == p1.value)
  }
}
