# Timetable session placement, modelled in Dafny

This project models the session-placement core of the course timetable
generator `soft/main_modified_full.py`. The generator builds one weekly grid
per department and semester: five days of nineteen half-hour slots, 09:00 to
18:30. It first seeds every day of every grid with a two-slot lunch block
starting at 12:30, 13:00 or 13:30. Then it goes through the groups. Electives
are recorded in the summary sheet as not scheduled. Each regular course is
expanded into session requests: a lab of 4 slots, lectures of 3 slots and
tutorials of 2 slots. The requests are made in three passes:

- courses with a lab and lectures or tutorials;
- courses with only a lab;
- courses without a lab.

Each request is placed in two phases.

- **Phase 1** tries the days in order of how many cells they already hold,
  least loaded first, with ties kept in calendar order. On each day it takes
  the earliest start that fits.
- **Phase 2** draws random (day, start) pairs, up to a budget of 5000
  attempts. DSAI and ECE get 7500, and twice that for the lectures and
  tutorials of a course whose lab failed.

A start fits when three conditions hold:

- none of its cells is occupied;
- none of its slots is the 10:30 morning break;
- the faculty and the classroom are not booked in those slots. A faculty
  written with `/` or `,` is exempt from this check, and so is a classroom
  named `TBD_…` or "Will be scheduled".

A placement writes the session's cells into the grid. It also books every
slot for each of the faculty's names and for the classroom, in occupancy
maps shared by all groups. Every request leaves exactly one row in the
summary sheet.

Modules, one per concern:

- `Calendar`: the half-hour slots and the break and lunch windows.
- `Text`: the string helpers the source relies on (`in`, `lower`, `strip`,
  `replace` and `split`).
- `Courses`: course records and the elective test.
- `Grid`: grid cells, the `Timetable` class and the load of a day.
- `Occupancy`: the per-name weekly booking maps.
- `Lunch`: the lunch placer.
- `Scheduler`: the shared `Registry`, the feasibility check and the commit.
- `Placement`: the Phase 1 specification and the two placement phases.
- `Sessions`: `ScheduleSession`, one request with its summary row.
- `Bookings`: the run-wide invariant that ties each placed summary row to
  the run of slots it booked.
- `Plan`: the labels, the passes, `handle_lectures` and the group loop.
- `Driver`: the whole run.
- `Scenarios`: two worked placements.

State the source updates in place is modelled by two classes. `Timetable`
holds one group's grid. `Registry` holds the faculty map, the classroom map
and the summary rows. Both are changed by methods. Each method is proved
against specification functions:

- `Feasible` for the feasibility check;
- `WriteSession` and `MarkRange` for the commit;
- `DaysByLoad`, `FirstFeasibleStart` and `Phase1Choice` for Phase 1;
- `SessionRequests` and `ElectiveRequests` for the summary rows.

The random choices of the source are nondeterministic choices here. They
are constrained only to the ranges the source draws from. So whatever a
contract promises holds for every outcome of the random number generator.

Phase 2 never changes an outcome. Phase 1 tries every start of every day
before Phase 2 runs. So a request succeeds exactly when Phase 1 has a
choice, and then it is placed at that choice. When Phase 1 finds nothing,
no draw of Phase 2 can be feasible. Its budget of 5000, the 7500 of DSAI
and ECE, and the doubled budget after a failed lab decide only how long
the search runs, never what is placed (`Placement.PlaceSession`,
`Placement.Phase1Exhaustive`).

Across a whole run, every placed row of the summary stands for a run of
slots: its session, its day, its start and its activity's duration. The
run is proved to have these properties:

- it lies inside the day and off the 10:30 break;
- it is recorded in the shared faculty and classroom maps;
- it does not share a slot with an earlier placed run whose faculty names
  include its (non-flexible) faculty, or whose classroom is its own
  (non-exempt) classroom.

This holds for every department and semester (`Bookings.Consistent`,
carried from `Sessions.ScheduleSession` up to
`Driver.GenerateAllTimetables`). It is as strong as the feasibility check
and no stronger. A later session with a flexible faculty or an exempt
classroom is not checked against earlier runs, so it may share a slot
with them.

## Model

| member | source | states |
|---|---|---|
| Calendar.TimeSlots | soft/main_modified_full.py:29-41 | 19 half-hour slots; the first starts at 09:00 and the last ends at 18:30; each slot ends where the next begins |
| Calendar.GenerateTimeSlots | soft/main_modified_full.py:29-41 | the stepping loop produces exactly the slot sequence `TimeSlots` |
| Calendar.MorningBreakIsSlotThree | soft/main_modified_full.py:58-62 | a slot is the morning break if and only if it is slot 3 (10:30-11:00) |
| Calendar.LunchTimeSlots | soft/main_modified_full.py:64-67 | a slot lies in the lunch window if and only if it is one of slots 7 to 10 (12:30-14:30) |
| Courses.ElectiveInAnyCase | soft/main_modified_full.py:43-56 | a course whose name contains "elective" in any letter case is an elective |
| Courses.RegularWhenNoMarker | soft/main_modified_full.py:43-56 | a course without "B1" or "B2" in its code and without "elective" in its lower-cased name is not an elective |
| Text.Contains | soft/main_modified_full.py:47-53 | substring test: true if and only if the pattern occurs at some position |
| Text.LowerChar | soft/main_modified_full.py:53 | maps ASCII upper-case letters to lower case and leaves every other character alone |
| Text.Lower | soft/main_modified_full.py:53 | keeps the length and leaves no upper-case letter |
| Text.LowerSlice | soft/main_modified_full.py:53 | lower-casing commutes with taking a slice |
| Text.StripLeft | soft/main_modified_full.py:155 | removes exactly the leading whitespace: a suffix whose first character is not whitespace |
| Text.StripRight | soft/main_modified_full.py:155 | removes exactly the trailing whitespace: a prefix whose last character is not whitespace |
| Text.Strip | soft/main_modified_full.py:155 | the result is a slice of the input with only whitespace around it, and it neither starts nor ends with whitespace |
| Text.TrimmedInTwoCuts | soft/main_modified_full.py:155 | cutting the leading whitespace and then the trailing whitespace leaves a slice of the input with only whitespace on either side |
| Text.SplitFields | soft/main_modified_full.py:155 | at least one field, and no field contains `/` or `,` |
| Text.SlashesToCommas | soft/main_modified_full.py:155 | replacing `/` by `,` keeps the length |
| Text.JoinSplitFields | soft/main_modified_full.py:155 | joining the fields with commas gives back the input with its slashes replaced by commas |
| Text.SplitFieldsNoSeparator | soft/main_modified_full.py:153-155 | a string without `/` or `,` splits into itself alone |
| Occupancy.EmptyWeek | soft/main_modified_full.py:160 | a new entry has one (empty) slot set per day |
| Occupancy.WeekOf | soft/main_modified_full.py:159-164 | the week of a name, empty when the name is not yet in the map, always one set per day |
| Occupancy.Mark | soft/main_modified_full.py:163-165 | booking one slot keeps the map well formed |
| Occupancy.MarkAll | soft/main_modified_full.py:158-161 | booking one slot for each name keeps the map well formed |
| Occupancy.MarkRange | soft/main_modified_full.py:157-165 | booking a run of slots keeps the map well formed |
| Occupancy.SlotsBetween | soft/main_modified_full.py:157 | exactly the slots `lo <= t < hi` |
| Occupancy.MarkAllEffect | soft/main_modified_full.py:158-161 | after booking, each listed name's set for that day gains the slot; every other day and every other name is unchanged |
| Occupancy.MarkRangeEffect | soft/main_modified_full.py:157-165 | after booking, each listed name's set for that day gains exactly the slots of the run; every other day and every other name is unchanged |
| Occupancy.SlotsBetweenSize | soft/main_modified_full.py:157 | a run from `lo` to `hi` has `hi - lo` slots |
| Occupancy.MarkRangeEmpty | soft/main_modified_full.py:157 | booking an empty run changes nothing |
| Occupancy.MarkRangeStep | soft/main_modified_full.py:157-165 | booking one more slot at the end of a run is booking the shorter run, then that slot for each name |
| Occupancy.MarkRangeOneStep | soft/main_modified_full.py:157-165 | the same step for a single name: the shorter run, then that slot |
| Occupancy.MarkAllOne | soft/main_modified_full.py:158-161 | booking a slot for a one-name list is booking it for that name |
| Occupancy.MarkAllStep | soft/main_modified_full.py:158-161 | booking for one more name of the list is booking for the shorter list, then for that name |
| Occupancy.MarkRangeGrows | soft/main_modified_full.py:157-165 | booking a run keeps the map well formed, only adds slots, and every listed name then holds every slot of the run |
| Occupancy.MarkRangeOfListed | soft/main_modified_full.py:157-165 | after a run is booked, a listed name's set for that day is its old set plus exactly the run |
| Occupancy.MarkRangeGrowsListed | soft/main_modified_full.py:157-165 | when none of the run was in a listed name's set, that set grows by the run's length |
| Occupancy.DisjointUnionSize | soft/main_modified_full.py:157-165 | the union of two disjoint slot sets has the sum of their sizes |
| Occupancy.GrowsByRun | soft/main_modified_full.py:157-165 | a set equal to the booked set plus a run of fresh slots is larger by the run's length |
| Grid.EmptyGrid | soft/main_modified_full.py:496-511 | the initial grid is 5 days by 19 slots |
| Grid.KeepsOccupiedTrans | soft/main_modified_full.py:167-174 | "no occupied cell is overwritten" composes across successive commits |
| Grid.Timetable.constructor | soft/main_modified_full.py:496-511 | a new grid is the all-empty 5 x 19 grid |
| Grid.WriteSession | soft/main_modified_full.py:167-174 | writing a session keeps the grid 5 x 19 |
| Grid.WriteSessionShape | soft/main_modified_full.py:167-174 | the written run has one first cell carrying the duration, then continuation cells at positions 1 to d-1, all with the session's type; every other cell is unchanged |
| Grid.WriteSessionNone | soft/main_modified_full.py:167-174 | writing none of a session's cells leaves the grid as it was |
| Grid.WriteSessionStep | soft/main_modified_full.py:167-174 | writing one more cell of a session overwrites exactly the cell at that position of the run, with its position and first-cell marker |
| Grid.DayLoad | soft/main_modified_full.py:243-244 | a day's load never exceeds its number of slots |
| Grid.DayLoadAppend | soft/main_modified_full.py:243-244 | the load of a concatenation is the sum of the loads |
| Grid.DayLoadUpdate | soft/main_modified_full.py:243-244 | overwriting one cell changes the load by the change in that cell's occupancy |
| Grid.DayLoadFree | soft/main_modified_full.py:243-244 | a day with no occupied cell has load 0 |
| Lunch.LunchStartCandidates | soft/main_modified_full.py:178-183 | the candidate starts are exactly the slots whose start lies in [12:30, 14:00), namely `[7, 8, 9]` |
| Lunch.PlaceLunchBreaks | soft/main_modified_full.py:176-208 | every day gets a two-slot lunch block starting at 7, 8 or 9; the rest of the grid is unchanged |
| Lunch.LunchBlockShape | soft/main_modified_full.py:196-202 | the first lunch cell has duration 2, the second has duration 0, and both have type and code "LUNCH"; every other cell is unchanged |
| Scheduler.Registry.constructor | soft/main_modified_full.py:469-474 | the run starts with empty faculty and classroom maps and an empty summary |
| Scheduler.SessionDuration | soft/main_modified_full.py:238 | every activity label gets a duration of 2, 3 or 4 slots |
| Scheduler.SplitFieldsCount | soft/main_modified_full.py:153-155 | a faculty containing a separator splits into at least two names |
| Scheduler.FacultyNames | soft/main_modified_full.py:152-155 | a plain faculty books under its own name; a flexible one books under at least two names, none of them flexible |
| Scheduler.FeasibleConditions | soft/main_modified_full.py:125-149 | a start is feasible if and only if the run fits in the day and each of its slots is unoccupied, is not the morning break, and is not booked for a non-flexible faculty or a non-exempt classroom |
| Scheduler.CheckSchedulingPossibility | soft/main_modified_full.py:125-149 | the early-return loop answers exactly `Feasible` |
| Scheduler.StripKeepsNoSeparator | soft/main_modified_full.py:155 | stripping a name without `/` or `,` leaves a name without them |
| Scheduler.SliceKeepsNoSeparator | soft/main_modified_full.py:155 | every slice of a name without `/` or `,` has none either |
| Scheduler.Registry.Append | soft/main_modified_full.py:274-276 | the summary gains exactly the given row at its end; the faculty and classroom maps are unchanged |
| Scheduler.RecordSlot | soft/main_modified_full.py:158-165 | one slot is booked for every faculty name and for the classroom; the summary is unchanged |
| Scheduler.BookProfessor | soft/main_modified_full.py:158-161 | the professor's set for the day gains the slot, a new professor starting from an empty week; the classroom map and the summary are unchanged |
| Scheduler.BookClassroom | soft/main_modified_full.py:163-165 | the classroom's set for the day gains the slot, a new classroom starting from an empty week; the faculty map and the summary are unchanged |
| Scheduler.BookSlot | soft/main_modified_full.py:157-174 | one iteration of the commit loop: the grid holds one more cell of the session, and the faculty names and the classroom are booked over one more slot; the summary is unchanged |
| Scheduler.UpdateSchedule | soft/main_modified_full.py:151-174 | the grid becomes `WriteSession` of the old grid; the faculty names and the classroom are booked over the whole run; the summary is unchanged |
| Scheduler.CommitKeepsOccupiedCells | soft/main_modified_full.py:125-174 | committing a feasible placement overwrites no occupied cell |
| Scheduler.CommitBooksFreshSlots | soft/main_modified_full.py:136-165 | after a feasible commit, a checked faculty or classroom has gained exactly `duration` new slots on that day |
| Placement.InsertByLoadPermutes | soft/main_modified_full.py:245 | inserting a day adds exactly that day to the multiset of days |
| Placement.SortByLoadPermutes | soft/main_modified_full.py:245 | the sort is a permutation of its input |
| Placement.InsertByLoadOrdered | soft/main_modified_full.py:245 | insertion into a list ordered by (load, day) keeps it ordered |
| Placement.SortByLoadOrdered | soft/main_modified_full.py:245 | sorting increasing day numbers orders them by load, ties in calendar order, as Python's stable `sorted` does |
| Placement.SortByLoadUniform | soft/main_modified_full.py:245 | when all loads are equal the order is left as it was |
| Placement.DayLoads | soft/main_modified_full.py:243-244 | one load per day |
| Placement.DaysByLoad | soft/main_modified_full.py:243-245 | the day order lists every one of the five days |
| Placement.DaysByLoadOrder | soft/main_modified_full.py:243-245 | the day order is a permutation of the five days, ordered by load with ties in calendar order |
| Placement.FirstFeasibleStart | soft/main_modified_full.py:250-259 | the result is feasible and is the earliest feasible start from `from`; `None` means no start on that day is feasible |
| Placement.Phase1Choice | soft/main_modified_full.py:247-259 | the choice is the earliest feasible start on the first day in the order that has one; `None` if and only if no day in the order has one |
| Placement.Phase1TakesFirstDay | soft/main_modified_full.py:247-259 | when the first day in the order has a feasible start, Phase 1 places the session there |
| Placement.NoDayFitsFrom | soft/main_modified_full.py:247-259 | skipping a day without a feasible start does not change whether any later day has one |
| Placement.SkipUnfitDay | soft/main_modified_full.py:247-259 | Phase 1 from a day without a feasible start makes the same choice as Phase 1 from the next day |
| Placement.TryPlacement | soft/main_modified_full.py:250-253 | commits if and only if the start is feasible; if it does not commit, nothing changes |
| Placement.TryDay | soft/main_modified_full.py:250-259 | places the session on the day if and only if `FirstFeasibleStart` finds a start, and then at that start |
| Placement.FirstFit | soft/main_modified_full.py:247-259 | the Phase 1 loop places the session exactly at `Phase1Choice`; when that is `None`, it changes nothing |
| Placement.RandomAttempts | soft/main_modified_full.py:261-272 | any placement is a feasible commit at a drawn day and start; a budget of zero places nothing; a failure changes nothing |
| Placement.EveryDayListed | soft/main_modified_full.py:243-245 | a rearrangement of the five days lists each of them |
| Placement.Phase1Exhaustive | soft/main_modified_full.py:247-272 | when Phase 1 finds no start on any day, no (day, start) pair Phase 2 can draw is feasible |
| Placement.PlaceSession | soft/main_modified_full.py:243-272 | the session is placed if and only if Phase 1 has a choice, whatever the budget, and then at that choice; the placement is a commit feasible beforehand; a failure changes nothing; no occupied cell is overwritten; the summary is unchanged |
| Sessions.ScheduleSession | soft/main_modified_full.py:231-278 | appends exactly one summary row for the request: Placed at Phase 1's choice when it returns true, which it does if and only if Phase 1 has a choice, and Failed otherwise; a failure leaves the grid and the maps unchanged; no occupied cell is overwritten; the run stays consistent (`Bookings.Consistent`) |
| Bookings.RecordedGrows | soft/main_modified_full.py:157-165 | a run recorded in the occupancy maps stays recorded once the maps have only gained slots |
| Bookings.FeasibleAvoids | soft/main_modified_full.py:125-149 | a run placed where the feasibility check passed double-books no run the maps already record |
| Bookings.FeasibleInWeek | soft/main_modified_full.py:130-139 | a feasible run that fits in its day avoids the morning break |
| Bookings.MarksRecordRun | soft/main_modified_full.py:151-165 | booking a run's slots for its faculty names and its classroom only adds slots to the maps, and the maps then record the run for each of those names |
| Bookings.FeasibleAvoidsEarlier | soft/main_modified_full.py:125-149 | a run placed where the feasibility check passed double-books no placed row of a summary the maps agree with |
| Bookings.AppendKeepsSound | soft/main_modified_full.py:274-276 | appending a row keeps the summary sound when the row is unplaced, or when its run is inside the week, recorded and double-books no earlier placed row |
| Bookings.SoundGrows | soft/main_modified_full.py:157-165 | a sound summary stays sound when the maps only gain slots |
| Bookings.SessionKeepsSound | soft/main_modified_full.py:231-278 | one session request keeps the summary sound: a placed row's run is recorded and double-books no earlier placed run, and a failed row changes no map |
| Bookings.UnplacedKeepSound | soft/main_modified_full.py:210-229 | rows that place nothing, such as the elective rows, keep the summary sound |
| Plan.DigitChar | soft/main_modified_full.py:288 | a decimal digit character |
| Plan.NatToString | soft/main_modified_full.py:288 | a non-empty string of decimal digits, with no leading zero except for 0 itself |
| Plan.NatToStringValue | soft/main_modified_full.py:288 | reading the digits back gives the number: `DecimalValue(NatToString(n)) == n` |
| Plan.NatToStringInjective | soft/main_modified_full.py:288 | distinct numbers get distinct strings, so the labels "LEC i" and "TUT i" of a course are distinct |
| Plan.FailedCount | soft/main_modified_full.py:274-276 | the number of failed rows never exceeds the number of rows |
| Plan.FailedCountAppend | soft/main_modified_full.py:274-276 | counting failed rows distributes over concatenation |
| Plan.SessionRowsOutcomes | soft/main_modified_full.py:231-278 | every row answering a session request is placed or failed: the two counts add up to the number of rows |
| Plan.ReportedFailures | soft/main_modified_full.py:280-309 | the failures a step reports are exactly the failed rows it appended |
| Plan.AbsentCharNotContained | soft/main_modified_full.py:238 | a pattern whose first character does not occur in a string is not contained in it |
| Plan.LabelDurations | soft/main_modified_full.py:238 | "LAB" takes 4 slots, every "LEC i" 3 and every "TUT i" 2 |
| Plan.LectureCount | soft/main_modified_full.py:285-305 | the number of lectures never exceeds L, and is zero if and only if L is |
| Plan.LectureLabels | soft/main_modified_full.py:287-305 | n labels, "LEC 1" to "LEC n" |
| Plan.TutorialLabels | soft/main_modified_full.py:597-602 | n labels, "TUT 1" to "TUT n" |
| Plan.Requests | soft/main_modified_full.py:231-278 | one request per label |
| Plan.ElectiveCount | soft/main_modified_full.py:535-539 | at most one elective per course |
| Plan.LoggedAppend | soft/main_modified_full.py:210-229 | logs of consecutive stretches of rows concatenate |
| Plan.PlacedCount | soft/main_modified_full.py:478-479 | the number of placed rows never exceeds the number of rows |
| Plan.PlacedCountAppend | soft/main_modified_full.py:478-479 | counting placed rows distributes over concatenation |
| Plan.ElectiveRowsNotPlaced | soft/main_modified_full.py:210-229 | rows recorded for electives never count as placed |
| Plan.RequestsAppend | soft/main_modified_full.py:231-278 | the requests for consecutive label lists concatenate |
| Plan.LoggedChain | soft/main_modified_full.py:210-229 | logs of two consecutive stretches of the summary make the log of the whole stretch, for the concatenated requests |
| Plan.LoggedNothing | soft/main_modified_full.py:533-539 | an empty stretch of the summary logs no requests |
| Plan.PassRequestsStep | soft/main_modified_full.py:553-659 | the requests of a pass over one more course are the earlier ones followed by that course's |
| Plan.ElectiveRequestsStep | soft/main_modified_full.py:533-539 | the elective rows for one more course are the earlier ones followed by that course's; the count grows by one exactly for an elective |
| Plan.ElectivesLoggedStep | soft/main_modified_full.py:533-539 | recording one more course keeps the logged rows equal to the elective requests of the courses seen so far |
| Plan.PassReportedStep | soft/main_modified_full.py:553-659 | scheduling one more course in a pass keeps the appended rows answering the pass's requests so far, with the counts summed |
| Plan.ReportedChain | soft/main_modified_full.py:280-309 | reports of consecutive stretches add up: requests concatenate, successes and failures sum |
| Plan.ReportedNothing | soft/main_modified_full.py:280-309 | no rows answer no requests |
| Plan.ReportedOne | soft/main_modified_full.py:231-278 | one appended row answers one request, as a success if and only if its status is Placed |
| Plan.RequestSession | soft/main_modified_full.py:231-278 | one row is appended answering the request; it is counted as a success or as a failure; no occupied cell is overwritten; the run stays consistent |
| Plan.ScheduleSessions | soft/main_modified_full.py:287-305 | the rows appended answer the labels in order; successes and failures are counted |
| Plan.HandleLectures | soft/main_modified_full.py:280-309 | rows for "LEC 1", "LEC 2" when L = 3, otherwise "LEC 1" to "LEC L"; successes plus failures equal 2 when L = 3 and L otherwise |
| Plan.AttemptLimit | soft/main_modified_full.py:549-551 | 5000 attempts, one and a half times that for DSAI and ECE |
| Plan.ScheduleLabCourse | soft/main_modified_full.py:612-624 | one "LAB" row; the total equals successes plus failures |
| Plan.ScheduleTheoryCourse | soft/main_modified_full.py:626-659 | rows for the lectures, then the tutorials; the total equals successes plus failures |
| Plan.ScheduleCombinedCourse | soft/main_modified_full.py:553-610 | rows for the lab, then the lectures, then the tutorials; the total equals successes plus failures |
| Plan.RecordElectiveAsNotScheduled | soft/main_modified_full.py:210-229 | appends "ELECTIVE LEC" when L > 0 and "ELECTIVE TUT" when T > 0, both not scheduled; the maps are unchanged |
| Plan.RecordElectives | soft/main_modified_full.py:533-539 | the rows of every elective of the group, in order, and their count |
| Plan.ScheduleCourse | soft/main_modified_full.py:553-659 | the rows of a course in a pass are exactly its labels for that pass |
| Plan.SchedulePass | soft/main_modified_full.py:553-659 | one pass appends the requests of the courses it takes, in course order |
| Plan.ScheduleCourseInPass | soft/main_modified_full.py:553-659 | a course the pass takes gets its rows for the pass, any other course gets none; no occupied cell is overwritten; the total is successes plus failures |
| Plan.ScheduleRegularCourses | soft/main_modified_full.py:553-659 | the combined pass, then the lab-only pass, then the theory pass, with counts that add up |
| Plan.ScheduleGroup | soft/main_modified_full.py:516-659 | the elective rows come first, then the session rows of the three passes; the counters agree with the rows, and the total is the number of session requests of the plan; no occupied cell is overwritten; the run stays consistent |
| Driver.LunchPlacedOnEveryDay | soft/main_modified_full.py:176-208 | after the lunch placer, every day holds a lunch block starting at 7, 8 or 9 |
| Driver.LunchSurvivesScheduling | soft/main_modified_full.py:135-136 | scheduling that overwrites no occupied cell keeps every lunch block |
| Driver.AnswersAppend | soft/main_modified_full.py:464-659 | summaries of consecutive stretches answer the concatenated requests |
| Driver.LoggedAnswers | soft/main_modified_full.py:210-229 | rows logged for requests answer those requests |
| Driver.ExtendsByAdded | soft/main_modified_full.py:464-659 | a summary is its earlier rows followed by the rows added since |
| Driver.SplitRows | soft/main_modified_full.py:464-659 | rows added in two stretches are the two stretches' rows in turn |
| Driver.ElectivesThenSessions | soft/main_modified_full.py:516-659 | elective rows followed by session rows answer the elective requests, then the session requests; only the session rows are placed |
| Driver.GroupRows | soft/main_modified_full.py:516-659 | the rows a group adds answer the group's requests, and the placed ones number its scheduled sessions |
| Driver.GroupAppended | soft/main_modified_full.py:516-659 | after a group, the summary answers the earlier requests followed by the group's; only its session rows can be placed |
| Driver.NewTimetable | soft/main_modified_full.py:496-514 | a fresh grid with lunch on every day |
| Driver.RunGroup | soft/main_modified_full.py:516-659 | a group keeps its lunch blocks; the summary gains exactly the group's rows; the placed and failed counts grow by the group's scheduled and failed counters; the total is the group's number of session requests; the run stays consistent |
| Driver.NewTimetables | soft/main_modified_full.py:482-515 | one fresh, distinct grid per group, each with lunch on every day |
| Driver.RunGroupAt | soft/main_modified_full.py:516-659 | scheduling one group leaves every other group's grid alone; the counters grow with the group's rows and requests; the run stays consistent |
| Driver.GenerateAllTimetables | soft/main_modified_full.py:464-659 | the summary answers every request of every group, in order; the placed and failed counts equal the placed and failed rows; total = scheduled + failed = the number of session requests of all groups; the elective count is the number of electives; every grid keeps lunch on every day; every placed row is a run inside the week, off the morning break, recorded in the shared maps, and double-booking no single faculty or real classroom of an earlier placed row |
| Scenarios.LunchRowLoad | soft/main_modified_full.py:196-202 | a day seeded with lunch has load 2 |
| Scenarios.LunchBlockLoad | soft/main_modified_full.py:196-202 | a lunch block written over two free cells adds two to the day's load |
| Scenarios.SeededMorningFree | soft/main_modified_full.py:176-208 | before 12:30 a seeded day is empty |
| Scenarios.SeededLoads | soft/main_modified_full.py:243-244 | every seeded day has load 2 |
| Scenarios.SeededOrder | soft/main_modified_full.py:243-245 | on a freshly seeded grid the days are tried Monday to Friday |
| Scenarios.MorningFits | soft/main_modified_full.py:250-259 | a day whose morning is free takes a lecture of unbooked staff at 09:00 |
| Scenarios.MondayMorningFirst | soft/main_modified_full.py:243-259 | a three-slot session of unbooked staff on a seeded grid goes to Monday 09:00 |
| Scenarios.FirstLectureOnMonday | soft/main_modified_full.py:243-259 | the first lecture of a fresh course on a seeded grid goes to Monday 09:00 |
| Scenarios.LoadsAfterMondayMorning | soft/main_modified_full.py:243-244 | after that lecture Monday's load is 5 and the other days' is 2 |
| Scenarios.TuesdayTriedFirst | soft/main_modified_full.py:243-245 | with Monday busiest and the other days tied, Tuesday is tried first |
| Scenarios.TuesdayUnbooked | soft/main_modified_full.py:157-165 | bookings made on Monday leave Tuesday free |
| Scenarios.TuesdayAfterMondayMorning | soft/main_modified_full.py:243-259 | after a session at Monday 09:00, Tuesday is tried first and its morning is free |
| Scenarios.SecondLectureOnTuesday | soft/main_modified_full.py:243-259 | the second lecture of the course then goes to Tuesday 09:00 |

## Left out

- Reading and cleaning the course spreadsheet (`load_and_clean_data`, lines 69-123): the model starts from cleaned `Course` records.
- Filtering the spreadsheet rows into department and semester groups (lines 484-531): the run takes its groups as given. This includes skipping empty names, the `str(semester)` comparison, skipping empty groups and the `department_semester` grid keys.
- The timetable, summary, classroom-usage and free-slot sheets, and the final statistics (lines 311-462 and 661-887): all of this is spreadsheet formatting and file output.
- Logging (lines 10-18 and the `logging` calls) is left out.
- The random number generator is left out. `random.choice` for the lunch start and `random.randint` in Phase 2 become nondeterministic choices within the same ranges. The model does not capture the distribution, nor any reproducibility of a seed.
- Summary rows: the model records a status instead of the sheet's text. A row carries `Placed(day, slot)`, `Failed` or `NotScheduledElective`, in place of the status text and the formatted "Day HH:MM" time. The faculty and classroom columns are not stored separately. They come from the row's `Course` record.
- Plan.AttemptLimit: 1.5 times 5000 is computed exactly (7500). The source computes it in floating point and truncates with `int(...)`, which gives the same number.
- L, T and P as natural numbers: the model takes the already truncated `int(...)` values. So a fractional L, T or P, such as P = 0.5 passing the `P > 0` filter, is not modelled.
- Plan.RecordElectiveAsNotScheduled: the source compares the raw values (`course['L'] > 0`). The model compares the truncated value with 0.
- Lowercasing and whitespace: `Text.Lower` folds ASCII letters only, and `Text.IsSpace` knows the ASCII whitespace characters only. Python's Unicode case and space tables are not modelled.
- Lunch.PlaceLunchBreaks: the branches for "no candidate start" and `max_start < 0` (lines 186-192 and 207-208) are not modelled. The candidates are proved to be exactly slots 7, 8 and 9, so those branches cannot be taken.
- Duplicated lecture loops: `handle_lectures` writes the L = 3 case and the other case as two loops with the same body. The model has one loop over `LectureLabels(LectureCount(L))`.
- Driver.GenerateAllTimetables: "every grid keeps lunch on every day" is stated as "some lunch block per day". Only the lunch placer writes "LUNCH" cells, but the model does not prove that a day holds exactly one lunch block.

## Lunch cells

Two details of the lunch placer (lines 196-202) are kept as written:

- The second cell of a lunch block keeps position 0. A session's second
  cell gets position 1.
- The faculty and classroom fields of the lunch cells are left as they
  were. On the fresh grid the lunch placer sees, they are empty.
