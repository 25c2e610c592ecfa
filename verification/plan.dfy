/** The session plan of a department and semester: which session requests
    each course gives rise to, in which order the courses are taken, the
    attempt budget of each request, and the counters the driver keeps. */
module Plan {
  import opened Wrappers
  import opened Text
  import opened Calendar
  import opened Grid
  import opened Courses
  import opened Scheduler
  import opened Placement
  import opened Sessions
  import opened Bookings

  // ---------------------------------------------------------------------
  // Activity labels

  function DigitChar(d: nat): (c: char)
    requires d < 10
    ensures '0' <= c <= '9'
  {
    ('0' as int + d) as char
  }

  /** The decimal spelling of `n`, as Python's f-string writes it: digits
      only, with no leading zero unless `n` is 0. */
  function NatToString(n: nat): (r: string)
    ensures |r| >= 1
    ensures forall i :: 0 <= i < |r| ==> '0' <= r[i] <= '9'
    ensures r[0] == '0' ==> n == 0
  {
    if n < 10 then [DigitChar(n)] else NatToString(n / 10) + [DigitChar(n % 10)]
  }

  /** The number a string of decimal digits denotes, most significant
      digit first. */
  function DecimalValue(s: string): nat
    requires forall i :: 0 <= i < |s| ==> '0' <= s[i] <= '9'
  {
    if s == [] then 0
    else DecimalValue(s[..|s| - 1]) * 10 + (s[|s| - 1] as int - '0' as int)
  }

  /** Reading the spelling of `n` back gives `n`. */
  lemma {:induction false} NatToStringValue(n: nat)
    ensures DecimalValue(NatToString(n)) == n
  {
    if n >= 10 {
      NatToStringValue(n / 10);
      var r := NatToString(n);
      assert r[..|r| - 1] == NatToString(n / 10);
    }
  }

  /** Distinct numbers are spelt differently, so distinct labels name
      distinct sessions. */
  lemma NatToStringInjective(m: nat, n: nat)
    requires NatToString(m) == NatToString(n)
    ensures m == n
  {
    NatToStringValue(m);
    NatToStringValue(n);
  }

  function LectureLabel(i: nat): string {
    "LEC " + NatToString(i)
  }

  function TutorialLabel(i: nat): string {
    "TUT " + NatToString(i)
  }

  /** A string none of whose characters is `c` contains no pattern that
      starts with `c`. */
  lemma AbsentCharNotContained(s: string, pat: string)
    requires |pat| > 0 && forall i :: 0 <= i < |s| ==> s[i] != pat[0]
    ensures !Contains(s, pat)
  {
    forall i: nat ensures !OccursAt(s, pat, i) {
      if i + |pat| <= |s| {
        assert s[i..i + |pat|][0] == s[i];
      }
    }
  }

  /** The labels the driver uses select the intended session lengths:
      "LAB" four slots, "LEC n" three slots, "TUT n" two slots. */
  lemma LabelDurations(i: nat)
    ensures SessionDuration("LAB") == LabDuration
    ensures SessionDuration(LectureLabel(i)) == LectureDuration
    ensures SessionDuration(TutorialLabel(i)) == TutorialDuration
  {
    var lec := LectureLabel(i);
    assert lec[1] == 'E';
    assert OccursAt(lec, "LEC", 0) by {
      assert lec[0..3] == "LEC";
    }
    var tut := TutorialLabel(i);
    assert tut[0] == 'T';
    AbsentCharNotContained(tut, "LEC");
  }

  // ---------------------------------------------------------------------
  // The plan

  /** L = 3 is served by two 1.5-hour lectures; any other L by L lectures. */
  function LectureCount(l: nat): (n: nat)
    ensures n <= l && (n == 0 <==> l == 0)
  {
    if l == 3 then 2 else l
  }

  function LectureLabels(n: nat): (r: seq<string>)
    ensures |r| == n
  {
    seq(n, i requires 0 <= i < n => LectureLabel(i + 1))
  }

  function TutorialLabels(n: nat): (r: seq<string>)
    ensures |r| == n
  {
    seq(n, i requires 0 <= i < n => TutorialLabel(i + 1))
  }

  /** The three passes over the regular courses of a group, in order. */
  datatype Pass = Combined | LabOnly | Theory

  /** The courses each pass takes: labs together with lectures or
      tutorials, labs alone, and courses without a lab. */
  predicate InPass(c: Course, pass: Pass) {
    match pass
    case Combined => c.practicals > 0 && (c.lectures > 0 || c.tutorials > 0)
    case LabOnly => c.practicals > 0 && !(c.lectures > 0 || c.tutorials > 0)
    case Theory => c.practicals == 0
  }

  /** The lectures of a course, then its tutorials. */
  function TheoryLabels(c: Course): seq<string> {
    LectureLabels(LectureCount(c.lectures)) + TutorialLabels(c.tutorials)
  }

  /** The session requests a course makes in a pass, in order: its lab
      first (one, whatever P is), then its lectures, then its tutorials. */
  function SessionLabels(c: Course, pass: Pass): seq<string> {
    match pass
    case Combined => ["LAB"] + TheoryLabels(c)
    case LabOnly => ["LAB"]
    case Theory => TheoryLabels(c)
  }

  /** The rows an elective leaves in the summary: one for its lecture
      component, one for its tutorial component, each only if present. */
  function ElectiveLabels(c: Course): seq<string> {
    (if c.lectures > 0 then ["ELECTIVE LEC"] else []) + (if c.tutorials > 0 then ["ELECTIVE TUT"] else [])
  }

  /** What identifies a summary row, its outcome aside. */
  datatype Request = Request(department: string, semester: string, course: Course, activity: string)

  function RequestOf(row: SummaryRow): Request {
    Request(row.department, row.semester, row.course, row.activity)
  }

  function Requests(department: string, semester: string, c: Course, labels: seq<string>): (r: seq<Request>)
    ensures |r| == |labels|
  {
    seq(|labels|, i requires 0 <= i < |labels| => Request(department, semester, c, labels[i]))
  }

  /** The requests of one pass over `courses`, in course order. */
  function PassRequests(department: string, semester: string, courses: seq<Course>, pass: Pass): seq<Request> {
    if courses == [] then []
    else
      var c := courses[|courses| - 1];
      PassRequests(department, semester, courses[..|courses| - 1], pass) + CourseRequests(department, semester, c, pass)
  }

  /** The requests one course makes in a pass: none if the pass does not
      take it (electives are never taken). */
  function CourseRequests(department: string, semester: string, c: Course, pass: Pass): seq<Request> {
    if !IsElective(c) && InPass(c, pass) then Requests(department, semester, c, SessionLabels(c, pass)) else []
  }

  /** One more course extends a pass by that course's requests, if the
      pass takes it. */
  lemma PassRequestsStep(department: string, semester: string, courses: seq<Course>, k: nat, pass: Pass)
    requires k < |courses|
    ensures PassRequests(department, semester, courses[..k + 1], pass)
         == PassRequests(department, semester, courses[..k], pass) + CourseRequests(department, semester, courses[k], pass)
  {
    assert courses[..k + 1][..k] == courses[..k];
  }

  /** The rows recorded for the electives of `courses`, in course order. */
  function ElectiveRequests(department: string, semester: string, courses: seq<Course>): seq<Request> {
    if courses == [] then []
    else
      var c := courses[|courses| - 1];
      ElectiveRequests(department, semester, courses[..|courses| - 1]) + CourseElectiveRequests(department, semester, c)
  }

  /** The rows one course leaves in the elective pass: none unless it is an
      elective. */
  function CourseElectiveRequests(department: string, semester: string, c: Course): seq<Request> {
    if IsElective(c) then Requests(department, semester, c, ElectiveLabels(c)) else []
  }

  /** One more course adds its elective rows and counts once, if it is an
      elective. */
  lemma ElectiveRequestsStep(department: string, semester: string, courses: seq<Course>, k: nat)
    requires k < |courses|
    ensures ElectiveRequests(department, semester, courses[..k + 1])
         == ElectiveRequests(department, semester, courses[..k]) + CourseElectiveRequests(department, semester, courses[k])
    ensures ElectiveCount(courses[..k + 1]) == ElectiveCount(courses[..k]) + if IsElective(courses[k]) then 1 else 0
  {
    assert courses[..k + 1][..k] == courses[..k];
  }

  function ElectiveCount(courses: seq<Course>): (n: nat)
    ensures n <= |courses|
  {
    if courses == [] then 0
    else ElectiveCount(courses[..|courses| - 1]) + (if IsElective(courses[|courses| - 1]) then 1 else 0)
  }

  /** The session requests of a group: the combined pass, then the
      lab-only pass, then the pass over courses without a lab. */
  function SessionRequests(department: string, semester: string, courses: seq<Course>): seq<Request> {
    PassRequests(department, semester, courses, Combined)
      + PassRequests(department, semester, courses, LabOnly)
      + PassRequests(department, semester, courses, Theory)
  }

  // ---------------------------------------------------------------------
  // Summary rows

  /** `after` is `before` with rows appended. */
  predicate Extends(before: seq<SummaryRow>, after: seq<SummaryRow>) {
    |before| <= |after| && after[..|before|] == before
  }

  function Added(before: seq<SummaryRow>, after: seq<SummaryRow>): seq<SummaryRow>
    requires Extends(before, after)
  {
    after[|before|..]
  }

  /** `rows` answer `reqs` one for one, with outcomes of the given kind:
      placed or failed for session requests, not scheduled for electives. */
  predicate Logged(rows: seq<SummaryRow>, reqs: seq<Request>, electives: bool) {
    && |rows| == |reqs|
    && forall i :: 0 <= i < |rows| ==>
         RequestOf(rows[i]) == reqs[i] && (rows[i].status == NotScheduledElective <==> electives)
  }

  /** Logs of consecutive stretches of rows add up. */
  lemma LoggedChain(a: seq<SummaryRow>, b: seq<SummaryRow>, c: seq<SummaryRow>,
                    r1: seq<Request>, r2: seq<Request>, electives: bool)
    requires Extends(a, b) && Logged(Added(a, b), r1, electives)
    requires Extends(b, c) && Logged(Added(b, c), r2, electives)
    ensures Extends(a, c) && Logged(Added(a, c), r1 + r2, electives)
    ensures Added(a, c) == Added(a, b) + Added(b, c)
  {
    assert c[..|a|] == b[..|a|];
    assert Added(a, c) == Added(a, b) + Added(b, c);
    LoggedAppend(Added(a, b), Added(b, c), r1, r2, electives);
  }

  /** Nothing appended answers no request. */
  lemma LoggedNothing(a: seq<SummaryRow>, electives: bool)
    ensures Extends(a, a) && Added(a, a) == [] && Logged(Added(a, a), [], electives)
  {
  }

  lemma LoggedAppend(a: seq<SummaryRow>, b: seq<SummaryRow>, ra: seq<Request>, rb: seq<Request>, electives: bool)
    requires Logged(a, ra, electives) && Logged(b, rb, electives)
    ensures Logged(a + b, ra + rb, electives)
  {
    forall i | 0 <= i < |a + b|
      ensures RequestOf((a + b)[i]) == (ra + rb)[i]
      ensures (a + b)[i].status == NotScheduledElective <==> electives
    {
      if i >= |a| {
        assert (a + b)[i] == b[i - |a|] && (ra + rb)[i] == rb[i - |a|];
      }
    }
  }

  /** The number of rows whose session was placed. */
  function PlacedCount(rows: seq<SummaryRow>): (n: nat)
    ensures n <= |rows|
  {
    if rows == [] then 0
    else PlacedCount(rows[..|rows| - 1]) + (if rows[|rows| - 1].status.Placed? then 1 else 0)
  }

  lemma {:induction false} PlacedCountAppend(a: seq<SummaryRow>, b: seq<SummaryRow>)
    ensures PlacedCount(a + b) == PlacedCount(a) + PlacedCount(b)
    decreases |b|
  {
    if b != [] {
      PlacedCountAppend(a, b[..|b| - 1]);
      assert (a + b)[..|a + b| - 1] == a + b[..|b| - 1];
    } else {
      assert a + b == a;
    }
  }

  /** The number of rows whose session failed. */
  function FailedCount(rows: seq<SummaryRow>): (n: nat)
    ensures n <= |rows|
  {
    if rows == [] then 0
    else FailedCount(rows[..|rows| - 1]) + (if rows[|rows| - 1].status == Failed then 1 else 0)
  }

  lemma {:induction false} FailedCountAppend(a: seq<SummaryRow>, b: seq<SummaryRow>)
    ensures FailedCount(a + b) == FailedCount(a) + FailedCount(b)
    decreases |b|
  {
    if b != [] {
      FailedCountAppend(a, b[..|b| - 1]);
      assert (a + b)[..|a + b| - 1] == a + b[..|b| - 1];
    } else {
      assert a + b == a;
    }
  }

  /** Every row answering a session request is placed or failed. */
  lemma {:induction false} SessionRowsOutcomes(rows: seq<SummaryRow>, reqs: seq<Request>)
    requires Logged(rows, reqs, false)
    ensures PlacedCount(rows) + FailedCount(rows) == |rows|
    decreases |rows|
  {
    if rows != [] {
      SessionRowsOutcomes(rows[..|rows| - 1], reqs[..|reqs| - 1]);
    }
  }

  /** Elective rows are never counted as placed or as failed. */
  lemma {:induction false} ElectiveRowsNotPlaced(rows: seq<SummaryRow>, reqs: seq<Request>)
    requires Logged(rows, reqs, true)
    ensures PlacedCount(rows) == 0 && FailedCount(rows) == 0
    decreases |rows|
  {
    if rows != [] {
      ElectiveRowsNotPlaced(rows[..|rows| - 1], reqs[..|reqs| - 1]);
    }
  }

  lemma RequestsAppend(department: string, semester: string, c: Course, a: seq<string>, b: seq<string>)
    ensures Requests(department, semester, c, a + b)
         == Requests(department, semester, c, a) + Requests(department, semester, c, b)
  {
  }

  /** `after` extends `before` by rows answering `reqs` as session outcomes,
      `scheduledCount` of them placed and `failed` of them failed. */
  predicate Reported(before: seq<SummaryRow>, after: seq<SummaryRow>, reqs: seq<Request>,
                     scheduledCount: nat, failed: nat)
  {
    && Extends(before, after)
    && Logged(Added(before, after), reqs, false)
    && scheduledCount == PlacedCount(Added(before, after))
    && scheduledCount + failed == |reqs|
  }

  /** The failures reported are the failed rows appended. */
  lemma ReportedFailures(before: seq<SummaryRow>, after: seq<SummaryRow>, reqs: seq<Request>,
                         scheduledCount: nat, failed: nat)
    requires Reported(before, after, reqs, scheduledCount, failed)
    ensures failed == FailedCount(Added(before, after))
  {
    SessionRowsOutcomes(Added(before, after), reqs);
  }

  /** Reports of consecutive stretches of rows add up. */
  lemma ReportedChain(a: seq<SummaryRow>, b: seq<SummaryRow>, c: seq<SummaryRow>,
                      r1: seq<Request>, r2: seq<Request>, s1: nat, f1: nat, s2: nat, f2: nat)
    requires Reported(a, b, r1, s1, f1) && Reported(b, c, r2, s2, f2)
    ensures Reported(a, c, r1 + r2, s1 + s2, f1 + f2)
  {
    LoggedChain(a, b, c, r1, r2, false);
    PlacedCountAppend(Added(a, b), Added(b, c));
  }

  /** Nothing appended, nothing requested. */
  lemma ReportedNothing(a: seq<SummaryRow>)
    ensures Reported(a, a, [], 0, 0)
  {
    LoggedNothing(a, false);
  }

  /** One appended row answering `req`. */
  lemma ReportedOne(before: seq<SummaryRow>, after: seq<SummaryRow>, req: Request, ok: bool)
    requires |after| == |before| + 1 && after[..|before|] == before
    requires RequestOf(after[|before|]) == req
    requires (ok <==> after[|before|].status.Placed?) && after[|before|].status != NotScheduledElective
    ensures Reported(before, after, [req], if ok then 1 else 0, if ok then 0 else 1)
  {
    assert Added(before, after) == [after[|before|]];
    assert Added(before, after)[..0] == [];
  }

  // ---------------------------------------------------------------------
  // The driver's steps

  /** One session request, seen from the driver: a row answering it is
      appended, and no occupied cell is overwritten. */
  method RequestSession(tt: Timetable, reg: Registry, department: string, semester: string,
                        course: Course, activity: string, attemptLimit: nat)
    returns (scheduled: bool)
    requires tt.Valid() && Consistent(reg)
    modifies tt, reg
    ensures tt.Valid() && Consistent(reg) && KeepsOccupied(old(tt.cells), tt.cells)
    ensures Reported(old(reg.summary), reg.summary, [Request(department, semester, course, activity)],
                     if scheduled then 1 else 0, if scheduled then 0 else 1)
  {
    ghost var before := reg.summary;
    scheduled := ScheduleSession(tt, reg, department, semester, course, activity, attemptLimit);
    ReportedOne(before, reg.summary, Request(department, semester, course, activity), scheduled);
  }

  /** Requests the sessions `labels` of `course` one after the other, each
      with the same budget, and counts the outcomes. */
  method ScheduleSessions(tt: Timetable, reg: Registry, department: string, semester: string,
                          course: Course, labels: seq<string>, attemptLimit: nat)
    returns (scheduledCount: nat, failed: nat)
    requires tt.Valid() && Consistent(reg)
    modifies tt, reg
    ensures tt.Valid() && Consistent(reg) && KeepsOccupied(old(tt.cells), tt.cells)
    ensures Reported(old(reg.summary), reg.summary, Requests(department, semester, course, labels), scheduledCount, failed)
  {
    ghost var base, cells0 := reg.summary, tt.cells;
    ReportedNothing(base);
    scheduledCount, failed := 0, 0;
    var i := 0;
    while i < |labels|
      invariant i <= |labels|
      invariant tt.Valid() && Consistent(reg) && KeepsOccupied(cells0, tt.cells)
      invariant Reported(base, reg.summary, Requests(department, semester, course, labels[..i]), scheduledCount, failed)
    {
      ghost var before := reg.summary;
      var ok := RequestSession(tt, reg, department, semester, course, labels[i], attemptLimit);
      ghost var req := Request(department, semester, course, labels[i]);
      ReportedChain(base, before, reg.summary, Requests(department, semester, course, labels[..i]), [req],
                    scheduledCount, failed, if ok then 1 else 0, if ok then 0 else 1);
      assert labels[..i + 1] == labels[..i] + [labels[i]];
      RequestsAppend(department, semester, course, labels[..i], [labels[i]]);
      if ok {
        scheduledCount := scheduledCount + 1;
      } else {
        failed := failed + 1;
      }
      i := i + 1;
    }
    assert labels[..|labels|] == labels;
  }

  /** The lectures of a course: two of them when L = 3 ("LEC 1", "LEC 2"),
      L of them otherwise; scheduled plus failed is the number requested. */
  method HandleLectures(tt: Timetable, reg: Registry, department: string, semester: string,
                        course: Course, attemptLimit: nat)
    returns (scheduledCount: nat, failed: nat)
    requires tt.Valid() && Consistent(reg)
    modifies tt, reg
    ensures tt.Valid() && Consistent(reg) && KeepsOccupied(old(tt.cells), tt.cells)
    ensures Reported(old(reg.summary), reg.summary,
                     Requests(department, semester, course, LectureLabels(LectureCount(course.lectures))),
                     scheduledCount, failed)
    ensures scheduledCount + failed == if course.lectures == 3 then 2 else course.lectures
  {
    var n := if course.lectures == 3 then 2 else course.lectures;
    scheduledCount, failed := ScheduleSessions(tt, reg, department, semester, course, LectureLabels(n), attemptLimit);
  }

  const MaxSchedulingAttempts: nat := 5000

  /** The departments that get a larger budget. */
  predicate IsPriorityDepartment(department: string) {
    department == "DSAI" || department == "ECE"
  }

  /** The budget of Phase 2 for a department: one and a half times the
      base budget for a priority department, the base budget otherwise. */
  function AttemptLimit(department: string): (n: nat)
    ensures IsPriorityDepartment(department) ==> 2 * n == 3 * MaxSchedulingAttempts
    ensures !IsPriorityDepartment(department) ==> n == MaxSchedulingAttempts
  {
    if IsPriorityDepartment(department) then 7500 else MaxSchedulingAttempts
  }

  /** A course with a lab and neither lectures nor tutorials: its lab. */
  method ScheduleLabCourse(tt: Timetable, reg: Registry, department: string, semester: string,
                           course: Course, attemptLimit: nat)
    returns (total: nat, scheduledCount: nat, failed: nat)
    requires tt.Valid() && Consistent(reg)
    modifies tt, reg
    ensures tt.Valid() && Consistent(reg) && KeepsOccupied(old(tt.cells), tt.cells)
    ensures Reported(old(reg.summary), reg.summary,
                     Requests(department, semester, course, SessionLabels(course, LabOnly)), scheduledCount, failed)
    ensures total == scheduledCount + failed
  {
    ghost var base := reg.summary;
    total := 1;
    var labScheduled := RequestSession(tt, reg, department, semester, course, "LAB", attemptLimit);
    if labScheduled {
      scheduledCount, failed := 1, 0;
    } else {
      scheduledCount, failed := 0, 1;
    }
  }

  /** A course without a lab: its lectures, then its tutorials, all with
      the same budget. */
  method ScheduleTheoryCourse(tt: Timetable, reg: Registry, department: string, semester: string,
                              course: Course, attemptLimit: nat)
    returns (total: nat, scheduledCount: nat, failed: nat)
    requires tt.Valid() && Consistent(reg)
    modifies tt, reg
    ensures tt.Valid() && Consistent(reg) && KeepsOccupied(old(tt.cells), tt.cells)
    ensures Reported(old(reg.summary), reg.summary,
                     Requests(department, semester, course, SessionLabels(course, Theory)), scheduledCount, failed)
    ensures total == scheduledCount + failed
  {
    ghost var base := reg.summary;
    ghost var lectures := Requests(department, semester, course, LectureLabels(LectureCount(course.lectures)));
    total, scheduledCount, failed := 0, 0, 0;
    if course.lectures > 0 {
      scheduledCount, failed := HandleLectures(tt, reg, department, semester, course, attemptLimit);
      total := LectureCount(course.lectures);
    } else {
      ReportedNothing(base);
    }
    ghost var afterLectures := reg.summary;
    ghost var tutorials := Requests(department, semester, course, TutorialLabels(course.tutorials));
    var s, f := ScheduleSessions(tt, reg, department, semester, course, TutorialLabels(course.tutorials), attemptLimit);
    total := total + course.tutorials;
    ReportedChain(base, afterLectures, reg.summary, lectures, tutorials, scheduledCount, failed, s, f);
    scheduledCount, failed := scheduledCount + s, failed + f;
    RequestsAppend(department, semester, course, LectureLabels(LectureCount(course.lectures)),
                   TutorialLabels(course.tutorials));
  }

  /** A course with a lab and lectures or tutorials: the lab first; when
      it fails in a priority department, the lectures and tutorials that
      follow get twice the budget. */
  method ScheduleCombinedCourse(tt: Timetable, reg: Registry, department: string, semester: string,
                                course: Course, attemptLimit: nat)
    returns (total: nat, scheduledCount: nat, failed: nat)
    requires tt.Valid() && Consistent(reg)
    modifies tt, reg
    ensures tt.Valid() && Consistent(reg) && KeepsOccupied(old(tt.cells), tt.cells)
    ensures Reported(old(reg.summary), reg.summary,
                     Requests(department, semester, course, SessionLabels(course, Combined)), scheduledCount, failed)
    ensures total == scheduledCount + failed
  {
    ghost var base := reg.summary;
    var courseScheduled := true;
    var labScheduled := RequestSession(tt, reg, department, semester, course, "LAB", attemptLimit);
    if labScheduled {
      scheduledCount, failed := 1, 0;
    } else {
      scheduledCount, failed := 0, 1;
      courseScheduled := false;
    }
    var followUpLimit :=
      if !courseScheduled && IsPriorityDepartment(department) then attemptLimit * 2 else attemptLimit;
    ghost var afterLab := reg.summary;
    var t, s, f := ScheduleTheoryCourse(tt, reg, department, semester, course, followUpLimit);
    ReportedChain(base, afterLab, reg.summary, [Request(department, semester, course, "LAB")],
                  Requests(department, semester, course, SessionLabels(course, Theory)), scheduledCount, failed, s, f);
    RequestsAppend(department, semester, course, ["LAB"], SessionLabels(course, Theory));
    assert Requests(department, semester, course, ["LAB"]) == [Request(department, semester, course, "LAB")];
    assert SessionLabels(course, Combined) == ["LAB"] + SessionLabels(course, Theory);
    total, scheduledCount, failed := 1 + t, scheduledCount + s, failed + f;
  }

  /** Records an elective as not scheduled: a row for its lecture component
      and one for its tutorial component, each only if present. Nothing is
      placed. */
  method RecordElectiveAsNotScheduled(reg: Registry, department: string, semester: string, course: Course)
    modifies reg
    ensures reg.professors == old(reg.professors) && reg.classrooms == old(reg.classrooms)
    ensures Extends(old(reg.summary), reg.summary)
    ensures Logged(Added(old(reg.summary), reg.summary), Requests(department, semester, course, ElectiveLabels(course)), true)
  {
    ghost var base := reg.summary;
    if course.lectures > 0 {
      reg.summary := reg.summary + [SummaryRow(department, semester, course, "ELECTIVE LEC", NotScheduledElective)];
    }
    if course.tutorials > 0 {
      reg.summary := reg.summary + [SummaryRow(department, semester, course, "ELECTIVE TUT", NotScheduledElective)];
    }
    assert reg.summary[..|base|] == base;
  }

  /** The rows of one more course extend the log of the elective pass. */
  lemma ElectivesLoggedStep(base: seq<SummaryRow>, before: seq<SummaryRow>, after: seq<SummaryRow>,
                            department: string, semester: string, courses: seq<Course>, k: nat)
    requires k < |courses|
    requires Extends(base, before) && Logged(Added(base, before), ElectiveRequests(department, semester, courses[..k]), true)
    requires Extends(before, after) && Logged(Added(before, after), CourseElectiveRequests(department, semester, courses[k]), true)
    ensures Extends(base, after) && Logged(Added(base, after), ElectiveRequests(department, semester, courses[..k + 1]), true)
    ensures ElectiveCount(courses[..k + 1]) == ElectiveCount(courses[..k]) + if IsElective(courses[k]) then 1 else 0
  {
    ElectiveRequestsStep(department, semester, courses, k);
    LoggedChain(base, before, after, ElectiveRequests(department, semester, courses[..k]),
                CourseElectiveRequests(department, semester, courses[k]), true);
  }

  /** The elective pass: every elective of the group is recorded, in
      course order, and counted. */
  method RecordElectives(reg: Registry, department: string, semester: string, courses: seq<Course>)
    returns (count: nat)
    modifies reg
    ensures reg.professors == old(reg.professors) && reg.classrooms == old(reg.classrooms)
    ensures Extends(old(reg.summary), reg.summary)
    ensures Logged(Added(old(reg.summary), reg.summary), ElectiveRequests(department, semester, courses), true)
    ensures count == ElectiveCount(courses)
  {
    ghost var base := reg.summary;
    count := 0;
    var k := 0;
    while k < |courses|
      invariant k <= |courses|
      invariant reg.professors == old(reg.professors) && reg.classrooms == old(reg.classrooms)
      invariant Extends(base, reg.summary)
      invariant Logged(Added(base, reg.summary), ElectiveRequests(department, semester, courses[..k]), true)
      invariant count == ElectiveCount(courses[..k])
    {
      ghost var before := reg.summary;
      if IsElective(courses[k]) {
        RecordElectiveAsNotScheduled(reg, department, semester, courses[k]);
        count := count + 1;
      } else {
        LoggedNothing(before, true);
      }
      ElectivesLoggedStep(base, before, reg.summary, department, semester, courses, k);
      k := k + 1;
    }
    assert courses[..|courses|] == courses;
  }

  /** The requests of one course in a pass. */
  method ScheduleCourse(tt: Timetable, reg: Registry, department: string, semester: string,
                        course: Course, pass: Pass, attemptLimit: nat)
    returns (total: nat, scheduledCount: nat, failed: nat)
    requires tt.Valid() && Consistent(reg)
    modifies tt, reg
    ensures tt.Valid() && Consistent(reg) && KeepsOccupied(old(tt.cells), tt.cells)
    ensures Reported(old(reg.summary), reg.summary,
                     Requests(department, semester, course, SessionLabels(course, pass)), scheduledCount, failed)
    ensures total == scheduledCount + failed
  {
    match pass {
      case Combined => total, scheduledCount, failed := ScheduleCombinedCourse(tt, reg, department, semester, course, attemptLimit);
      case LabOnly => total, scheduledCount, failed := ScheduleLabCourse(tt, reg, department, semester, course, attemptLimit);
      case Theory => total, scheduledCount, failed := ScheduleTheoryCourse(tt, reg, department, semester, course, attemptLimit);
    }
  }

  /** One course met by a pass: scheduled if the pass takes it, skipped
      otherwise (electives are always skipped). */
  method ScheduleCourseInPass(tt: Timetable, reg: Registry, department: string, semester: string,
                              course: Course, pass: Pass, attemptLimit: nat)
    returns (total: nat, scheduledCount: nat, failed: nat)
    requires tt.Valid() && Consistent(reg)
    modifies tt, reg
    ensures tt.Valid() && Consistent(reg) && KeepsOccupied(old(tt.cells), tt.cells)
    ensures Reported(old(reg.summary), reg.summary, CourseRequests(department, semester, course, pass), scheduledCount, failed)
    ensures total == scheduledCount + failed
  {
    if !IsElective(course) && InPass(course, pass) {
      total, scheduledCount, failed := ScheduleCourse(tt, reg, department, semester, course, pass, attemptLimit);
    } else {
      ReportedNothing(reg.summary);
      total, scheduledCount, failed := 0, 0, 0;
    }
  }

  /** One pass over the courses of a group: each regular course the pass
      takes, in order, with the group's budget. */
  method SchedulePass(tt: Timetable, reg: Registry, department: string, semester: string,
                      courses: seq<Course>, pass: Pass, attemptLimit: nat)
    returns (total: nat, scheduledCount: nat, failed: nat)
    requires tt.Valid() && Consistent(reg)
    modifies tt, reg
    ensures tt.Valid() && Consistent(reg) && KeepsOccupied(old(tt.cells), tt.cells)
    ensures Reported(old(reg.summary), reg.summary, PassRequests(department, semester, courses, pass), scheduledCount, failed)
    ensures total == scheduledCount + failed
  {
    ghost var base, cells0 := reg.summary, tt.cells;
    ReportedNothing(base);
    total, scheduledCount, failed := 0, 0, 0;
    var k := 0;
    while k < |courses|
      invariant k <= |courses|
      invariant tt.Valid() && Consistent(reg) && KeepsOccupied(cells0, tt.cells)
      invariant Reported(base, reg.summary, PassRequests(department, semester, courses[..k], pass), scheduledCount, failed)
      invariant total == scheduledCount + failed
    {
      ghost var before, cellsBefore := reg.summary, tt.cells;
      var t, s, f := ScheduleCourseInPass(tt, reg, department, semester, courses[k], pass, attemptLimit);
      KeepsOccupiedTrans(cells0, cellsBefore, tt.cells);
      PassReportedStep(base, before, reg.summary, department, semester, courses, k, pass, scheduledCount, failed, s, f);
      total, scheduledCount, failed := total + t, scheduledCount + s, failed + f;
      k := k + 1;
    }
    assert courses[..|courses|] == courses;
  }

  /** The rows of one more course extend the report of a pass. */
  lemma PassReportedStep(base: seq<SummaryRow>, before: seq<SummaryRow>, after: seq<SummaryRow>,
                         department: string, semester: string, courses: seq<Course>, k: nat, pass: Pass,
                         s1: nat, f1: nat, s2: nat, f2: nat)
    requires k < |courses|
    requires Reported(base, before, PassRequests(department, semester, courses[..k], pass), s1, f1)
    requires Reported(before, after, CourseRequests(department, semester, courses[k], pass), s2, f2)
    ensures Reported(base, after, PassRequests(department, semester, courses[..k + 1], pass), s1 + s2, f1 + f2)
  {
    PassRequestsStep(department, semester, courses, k, pass);
    ReportedChain(base, before, after, PassRequests(department, semester, courses[..k], pass),
                  CourseRequests(department, semester, courses[k], pass), s1, f1, s2, f2);
  }

  /** The three passes over the regular courses of a group, in order:
      courses with a lab and lectures or tutorials, lab-only courses, and
      courses without a lab. */
  method ScheduleRegularCourses(tt: Timetable, reg: Registry, department: string, semester: string,
                                courses: seq<Course>, attemptLimit: nat)
    returns (total: nat, scheduledCount: nat, failed: nat)
    requires tt.Valid() && Consistent(reg)
    modifies tt, reg
    ensures tt.Valid() && Consistent(reg) && KeepsOccupied(old(tt.cells), tt.cells)
    ensures Reported(old(reg.summary), reg.summary, SessionRequests(department, semester, courses), scheduledCount, failed)
    ensures total == scheduledCount + failed
  {
    ghost var cells0, base := tt.cells, reg.summary;
    var t1, s1, f1 := SchedulePass(tt, reg, department, semester, courses, Combined, attemptLimit);
    ghost var cells1, afterCombined := tt.cells, reg.summary;
    var t2, s2, f2 := SchedulePass(tt, reg, department, semester, courses, LabOnly, attemptLimit);
    KeepsOccupiedTrans(cells0, cells1, tt.cells);
    ReportedChain(base, afterCombined, reg.summary,
                  PassRequests(department, semester, courses, Combined), PassRequests(department, semester, courses, LabOnly),
                  s1, f1, s2, f2);
    ghost var cells2, afterLabOnly := tt.cells, reg.summary;
    var t3, s3, f3 := SchedulePass(tt, reg, department, semester, courses, Theory, attemptLimit);
    KeepsOccupiedTrans(cells0, cells2, tt.cells);
    ReportedChain(base, afterLabOnly, reg.summary,
                  PassRequests(department, semester, courses, Combined) + PassRequests(department, semester, courses, LabOnly),
                  PassRequests(department, semester, courses, Theory), s1 + s2, f1 + f2, s3, f3);
    total, scheduledCount, failed := t1 + t2 + t3, s1 + s2 + s3, f1 + f2 + f3;
  }

  /** `after` is `before` followed by the rows of one group: first those of
      its electives, then those of its session requests, `scheduledCount`
      of them placed and `failed` of them failed. */
  ghost predicate GroupLogged(before: seq<SummaryRow>, after: seq<SummaryRow>, department: string, semester: string,
                              courses: seq<Course>, scheduledCount: nat, failed: nat)
  {
    exists mid ::
      && Extends(before, mid)
      && Logged(Added(before, mid), ElectiveRequests(department, semester, courses), true)
      && Reported(mid, after, SessionRequests(department, semester, courses), scheduledCount, failed)
  }

  /** Schedules one department and semester into its grid: the electives
      are recorded first, then the regular courses are scheduled with the
      department's budget. The rows appended are the electives' rows, then
      one row per session request of the plan; the counters agree with the
      rows, and no occupied cell (lunch included) is overwritten. */
  method ScheduleGroup(tt: Timetable, reg: Registry, department: string, semester: string, courses: seq<Course>)
    returns (total: nat, scheduledCount: nat, failed: nat, electives: nat)
    requires tt.Valid() && Consistent(reg)
    modifies tt, reg
    ensures tt.Valid() && Consistent(reg) && KeepsOccupied(old(tt.cells), tt.cells)
    ensures GroupLogged(old(reg.summary), reg.summary, department, semester, courses, scheduledCount, failed)
    ensures total == scheduledCount + failed && total == |SessionRequests(department, semester, courses)|
    ensures electives == ElectiveCount(courses)
  {
    electives := RecordElectives(reg, department, semester, courses);
    ghost var afterElectives := reg.summary;
    forall i | |old(reg.summary)| <= i < |afterElectives| ensures !afterElectives[i].status.Placed? {
      assert Added(old(reg.summary), afterElectives)[i - |old(reg.summary)|] == afterElectives[i];
    }
    UnplacedKeepSound(old(reg.summary), afterElectives, reg.professors, reg.classrooms);
    total, scheduledCount, failed :=
      ScheduleRegularCourses(tt, reg, department, semester, courses, AttemptLimit(department));
    assert Extends(old(reg.summary), afterElectives)
      && Logged(Added(old(reg.summary), afterElectives), ElectiveRequests(department, semester, courses), true)
      && Reported(afterElectives, reg.summary, SessionRequests(department, semester, courses), scheduledCount, failed);
  }
}
