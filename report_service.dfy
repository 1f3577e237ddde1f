/**
 * ReportService.generateStudentPerformanceReport: a workbook of three sheets
 * (quiz grades, assignment grades, attendance), each a header row followed by
 * one row per enrolled student and course activity, student by student. A
 * sheet is its name and its rows of cells; the spreadsheet encoding and the
 * column sizing are not part of this model.
 */
module ReportService {
  import opened Wrappers
  import opened Tables
  import opened UserRole
  import opened Entities
  import opened Store
  import EnrollmentService
  import AssignmentService
  import LessonService
  import QuizService
  import StudentAssignmentService
  import StudentLessonService

  const NotAuthorizedToGenerate: string := "You are not authorized to generate this report"
  const QuizzesSheet: string := "Quizzes"
  const AssignmentsSheet: string := "Assignments"
  const AttendanceSheet: string := "Attendance"
  const Present: string := "Present"
  const Absent: string := "Absent"

  /** A spreadsheet cell: POI stores ids, grades and counts as numbers. */
  datatype Cell = Number(n: real) | Text(t: string)

  datatype Sheet = Sheet(name: string, rows: seq<seq<Cell>>)

  /** One course activity, as a sheet lists it. */
  datatype Activity =
    | QuizActivity(quiz: Keyed<Quiz>)
    | AssignmentActivity(assignment: Keyed<Assignment>)
    | LessonActivity(lesson: Keyed<Lesson>)

  function QuizHeader(): seq<Cell>
  {
    [Text("Student ID"), Text("Student Name"), Text("Quiz ID"), Text("Grade"), Text("Max Grade")]
  }

  function AssignmentHeader(): seq<Cell>
  {
    [Text("Student ID"), Text("Student Name"), Text("Assignment ID"), Text("Grade"), Text("Max Grade")]
  }

  function AttendanceHeader(): seq<Cell>
  {
    [Text("Student ID"), Text("Student Name"), Text("Lesson ID"), Text("Status")]
  }

  /** findByStudentAndQuiz(...).map(getGrade).orElse(0.0). */
  function QuizGrade(s: State, student: Id, quiz: Id): (g: real)
    ensures !QuizService.Submitted(s, student, quiz) ==> g == 0.0
    ensures ResultPairsUnique(s.studentQuizzes) ==>
      forall k :: k in s.studentQuizzes && s.studentQuizzes[k].student == student && s.studentQuizzes[k].quiz == quiz ==>
        g == s.studentQuizzes[k].grade
  {
    var rows := Select(s.studentQuizzes, (r: StudentQuiz) => r.student == student && r.quiz == quiz);
    if rows == [] then 0.0 else rows[0].val.grade
  }

  /** findByAssignmentAndStudent(...).map(getGrade).orElse(0L). */
  function AssignmentGrade(s: State, student: Id, assignment: Id): (g: int)
    ensures !StudentAssignmentService.HasSubmission(s, student, assignment) ==> g == 0
    ensures SubmissionPairsUnique(s.studentAssignments) ==>
      forall k :: k in s.studentAssignments && s.studentAssignments[k].student == student && s.studentAssignments[k].assignment == assignment ==>
        g == s.studentAssignments[k].grade
  {
    var rows := Select(s.studentAssignments, (a: StudentAssignment) => a.student == student && a.assignment == assignment);
    if rows == [] then 0 else rows[0].val.grade
  }

  /** The row written for one student and one activity. */
  function RowFor(s: State, student: Keyed<User>, a: Activity): seq<Cell>
  {
    var who := [Number(student.id as real), Text(student.val.name)];
    match a
    case QuizActivity(q) =>
      who + [Number(q.id as real), Number(QuizGrade(s, student.id, q.id)), Number(|q.val.questions| as real)]
    case AssignmentActivity(x) =>
      who + [Number(x.id as real), Number(AssignmentGrade(s, student.id, x.id) as real), Number(x.val.maxGrade as real)]
    case LessonActivity(l) =>
      who + [Number(l.id as real), Text(if StudentLessonService.Exists(s, student.id, l.id) then Present else Absent)]
  }

  /** One student's rows: one per activity, in activity order. */
  function RowsOf(s: State, student: Keyed<User>, acts: seq<Activity>): (r: seq<seq<Cell>>)
    ensures |r| == |acts| && forall j :: 0 <= j < |acts| ==> r[j] == RowFor(s, student, acts[j])
  {
    seq(|acts|, j requires 0 <= j < |acts| => RowFor(s, student, acts[j]))
  }

  /** The body of a sheet: every student crossed with every activity, student-major. */
  function Cross(s: State, students: seq<Keyed<User>>, acts: seq<Activity>): seq<seq<Cell>>
  {
    if |students| == 0 then []
    else Cross(s, students[..|students| - 1], acts) + RowsOf(s, students[|students| - 1], acts)
  }

  lemma RowsOfSnoc(s: State, student: Keyed<User>, acts: seq<Activity>, j: int)
    requires 0 <= j < |acts|
    ensures RowsOf(s, student, acts[..j + 1]) == RowsOf(s, student, acts[..j]) + [RowFor(s, student, acts[j])]
  {
    var a := RowsOf(s, student, acts[..j + 1]);
    var b := RowsOf(s, student, acts[..j]) + [RowFor(s, student, acts[j])];
    assert |a| == |b|;
    forall k | 0 <= k < |a|
      ensures a[k] == b[k]
    {
      assert acts[..j + 1][k] == acts[k];
      if k < j {
        assert acts[..j][k] == acts[k];
      }
    }
  }

  lemma CrossSnoc(s: State, students: seq<Keyed<User>>, acts: seq<Activity>, i: int)
    requires 0 <= i < |students|
    ensures Cross(s, students[..i + 1], acts) == Cross(s, students[..i], acts) + RowsOf(s, students[i], acts)
  {
    assert students[..i + 1][..i] == students[..i];
  }

  lemma RowIndexBound(i: int, j: int, n: int, m: int)
    requires 0 <= i < n && 0 <= j < m
    ensures 0 <= i * m + j < n * m
  {
    assert i * m <= (n - 1) * m;
  }

  /** One entry of the cross, from the same entry of the cross over all students but the last. */
  lemma CrossEntry(s: State, students: seq<Keyed<User>>, acts: seq<Activity>, i: int, j: int)
    requires 0 <= i < |students| && 0 <= j < |acts|
    requires |Cross(s, students[..|students| - 1], acts)| == (|students| - 1) * |acts|
    requires i < |students| - 1 ==>
      && i * |acts| + j < |Cross(s, students[..|students| - 1], acts)|
      && Cross(s, students[..|students| - 1], acts)[i * |acts| + j] == RowFor(s, students[i], acts[j])
    ensures i * |acts| + j < |Cross(s, students, acts)|
    ensures Cross(s, students, acts)[i * |acts| + j] == RowFor(s, students[i], acts[j])
  {
    var n := |students| - 1;
    var m := |acts|;
    var prefix := Cross(s, students[..n], acts);
    var last := RowsOf(s, students[n], acts);
    assert Cross(s, students, acts) == prefix + last;
    var idx := i * m + j;
    if i < n {
      RowIndexBound(i, j, n, m);
      assert (prefix + last)[idx] == prefix[idx];
    } else {
      assert idx == |prefix| + j;
      assert (prefix + last)[idx] == last[j];
    }
  }

  /** The cross has |students| * |acts| rows. */
  lemma {:induction false} CrossLength(s: State, students: seq<Keyed<User>>, acts: seq<Activity>)
    ensures |Cross(s, students, acts)| == |students| * |acts|
    decreases |students|
  {
    if |students| > 0 {
      var n := |students| - 1;
      CrossLength(s, students[..n], acts);
      assert |students| * |acts| == n * |acts| + |acts|;
    }
  }

  /** The cross has |students| * |acts| rows, and the row for student i and activity j is at i * |acts| + j. */
  lemma {:induction false} CrossShape(s: State, students: seq<Keyed<User>>, acts: seq<Activity>)
    ensures |Cross(s, students, acts)| == |students| * |acts|
    ensures forall i, j :: 0 <= i < |students| && 0 <= j < |acts| ==>
      Cross(s, students, acts)[i * |acts| + j] == RowFor(s, students[i], acts[j])
    decreases |students|
  {
    if |students| > 0 {
      var n := |students| - 1;
      var init := students[..n];
      CrossShape(s, init, acts);
      CrossLength(s, students, acts);
      forall i, j | 0 <= i < |students| && 0 <= j < |acts|
        ensures Cross(s, students, acts)[i * |acts| + j] == RowFor(s, students[i], acts[j])
      {
        if i < n {
          assert init[i] == students[i];
          RowIndexBound(i, j, n, |acts|);
        }
        CrossEntry(s, students, acts, i, j);
      }
    }
  }

  /** The users enrolled in the course, in enrollment order. */
  function EnrolledUsers(s: State, courseId: Id): (r: seq<Keyed<User>>)
    requires EnrollmentsLinked(s.enrollments, s.users, s.courses)
    ensures var rows := EnrollmentService.EnrollmentsIn(s, courseId);
      |r| == |rows| && forall i :: 0 <= i < |rows| ==>
        r[i].id == rows[i].val.student && r[i].id in s.users && r[i].val == s.users[r[i].id]
  {
    var rows := EnrollmentService.EnrollmentsIn(s, courseId);
    seq(|rows|, i requires 0 <= i < |rows| => Keyed(rows[i].val.student, s.users[rows[i].val.student]))
  }

  function QuizActivities(s: State, courseId: Id): (r: seq<Activity>)
    ensures var qs := QuizService.QuizzesOf(s, courseId);
      |r| == |qs| && forall j :: 0 <= j < |qs| ==> r[j] == QuizActivity(qs[j])
  {
    var qs := QuizService.QuizzesOf(s, courseId);
    seq(|qs|, j requires 0 <= j < |qs| => QuizActivity(qs[j]))
  }

  function AssignmentActivities(s: State, courseId: Id): (r: seq<Activity>)
    ensures var xs := AssignmentService.AssignmentsOf(s, courseId);
      |r| == |xs| && forall j :: 0 <= j < |xs| ==> r[j] == AssignmentActivity(xs[j])
  {
    var xs := AssignmentService.AssignmentsOf(s, courseId);
    seq(|xs|, j requires 0 <= j < |xs| => AssignmentActivity(xs[j]))
  }

  function LessonActivities(s: State, courseId: Id): (r: seq<Activity>)
    ensures var ls := LessonService.LessonsOf(s, courseId);
      |r| == |ls| && forall j :: 0 <= j < |ls| ==> r[j] == LessonActivity(ls[j])
  {
    var ls := LessonService.LessonsOf(s, courseId);
    seq(|ls|, j requires 0 <= j < |ls| => LessonActivity(ls[j]))
  }

  /** The report's students are the users enrolled in the course: every enrollment of the course contributes its student. */
  lemma EnrolledUsersAreTheEnrolled(s: State, courseId: Id)
    requires EnrollmentsLinked(s.enrollments, s.users, s.courses)
    ensures var r := EnrolledUsers(s, courseId);
      && (forall i :: 0 <= i < |r| ==> r[i].id in s.users && r[i].val == s.users[r[i].id])
      && (forall k :: k in s.enrollments && s.enrollments[k].course == courseId ==>
            Keyed(s.enrollments[k].student, s.users[s.enrollments[k].student]) in r)
  {
    var rows := EnrollmentService.EnrollmentsIn(s, courseId);
    var r := EnrolledUsers(s, courseId);
    forall k | k in s.enrollments && s.enrollments[k].course == courseId
      ensures Keyed(s.enrollments[k].student, s.users[s.enrollments[k].student]) in r
    {
      var i :| 0 <= i < |rows| && rows[i] == Keyed(k, s.enrollments[k]);
      assert r[i] == Keyed(s.enrollments[k].student, s.users[s.enrollments[k].student]);
    }
  }

  /** The quiz sheet's activities are exactly the course's quizzes, in id order. */
  lemma QuizActivitiesAreTheCourses(s: State, courseId: Id)
    ensures var r := QuizActivities(s, courseId);
      && (forall j :: 0 <= j < |r| ==>
            r[j].QuizActivity? && r[j].quiz.id in s.quizzes && s.quizzes[r[j].quiz.id] == r[j].quiz.val && r[j].quiz.val.course == courseId)
      && (forall a, b :: 0 <= a < b < |r| ==> r[a].quiz.id < r[b].quiz.id)
      && (forall k :: k in s.quizzes && s.quizzes[k].course == courseId ==> QuizActivity(Keyed(k, s.quizzes[k])) in r)
  {
    var qs := QuizService.QuizzesOf(s, courseId);
    var r := QuizActivities(s, courseId);
    forall k | k in s.quizzes && s.quizzes[k].course == courseId
      ensures QuizActivity(Keyed(k, s.quizzes[k])) in r
    {
      var j :| 0 <= j < |qs| && qs[j] == Keyed(k, s.quizzes[k]);
      assert r[j] == QuizActivity(qs[j]);
    }
  }

  /** The assignment sheet's activities are exactly the course's assignments, in id order. */
  lemma AssignmentActivitiesAreTheCourses(s: State, courseId: Id)
    ensures var r := AssignmentActivities(s, courseId);
      && (forall j :: 0 <= j < |r| ==>
            && r[j].AssignmentActivity? && r[j].assignment.id in s.assignments
            && s.assignments[r[j].assignment.id] == r[j].assignment.val && r[j].assignment.val.course == courseId)
      && (forall a, b :: 0 <= a < b < |r| ==> r[a].assignment.id < r[b].assignment.id)
      && (forall k :: k in s.assignments && s.assignments[k].course == courseId ==> AssignmentActivity(Keyed(k, s.assignments[k])) in r)
  {
    var xs := AssignmentService.AssignmentsOf(s, courseId);
    var r := AssignmentActivities(s, courseId);
    forall k | k in s.assignments && s.assignments[k].course == courseId
      ensures AssignmentActivity(Keyed(k, s.assignments[k])) in r
    {
      var j :| 0 <= j < |xs| && xs[j] == Keyed(k, s.assignments[k]);
      assert r[j] == AssignmentActivity(xs[j]);
    }
  }

  /** The attendance sheet's activities are exactly the course's lessons, in id order. */
  lemma LessonActivitiesAreTheCourses(s: State, courseId: Id)
    ensures var r := LessonActivities(s, courseId);
      && (forall j :: 0 <= j < |r| ==>
            r[j].LessonActivity? && r[j].lesson.id in s.lessons && s.lessons[r[j].lesson.id] == r[j].lesson.val && r[j].lesson.val.course == courseId)
      && (forall a, b :: 0 <= a < b < |r| ==> r[a].lesson.id < r[b].lesson.id)
      && (forall k :: k in s.lessons && s.lessons[k].course == courseId ==> LessonActivity(Keyed(k, s.lessons[k])) in r)
  {
    var ls := LessonService.LessonsOf(s, courseId);
    var r := LessonActivities(s, courseId);
    forall k | k in s.lessons && s.lessons[k].course == courseId
      ensures LessonActivity(Keyed(k, s.lessons[k])) in r
    {
      var j :| 0 <= j < |ls| && ls[j] == Keyed(k, s.lessons[k]);
      assert r[j] == LessonActivity(ls[j]);
    }
  }

  /** The workbook for an authorized caller: the three sheets, in order. */
  function Report(s: State, courseId: Id): seq<Sheet>
    requires EnrollmentsLinked(s.enrollments, s.users, s.courses)
  {
    var students := EnrolledUsers(s, courseId);
    [ Sheet(QuizzesSheet, [QuizHeader()] + Cross(s, students, QuizActivities(s, courseId))),
      Sheet(AssignmentsSheet, [AssignmentHeader()] + Cross(s, students, AssignmentActivities(s, courseId))),
      Sheet(AttendanceSheet, [AttendanceHeader()] + Cross(s, students, LessonActivities(s, courseId))) ]
  }

  /**
   * The report is the quiz, assignment and attendance sheets, in that order.
   * Each is its header followed by the cross of the enrolled students with
   * that kind of course activity (whose layout CrossShape gives), so it has
   * 1 + |students| * |activities| rows, and only the header when the course
   * has no such activity.
   */
  lemma ReportShape(s: State, courseId: Id)
    requires EnrollmentsLinked(s.enrollments, s.users, s.courses)
    ensures var report := Report(s, courseId);
      var students := EnrolledUsers(s, courseId);
      var quizzes := QuizActivities(s, courseId);
      var assignments := AssignmentActivities(s, courseId);
      var lessons := LessonActivities(s, courseId);
      && |report| == 3
      && report[0].name == QuizzesSheet && report[1].name == AssignmentsSheet && report[2].name == AttendanceSheet
      && report[0].rows[0] == QuizHeader() && report[0].rows[1..] == Cross(s, students, quizzes)
      && report[1].rows[0] == AssignmentHeader() && report[1].rows[1..] == Cross(s, students, assignments)
      && report[2].rows[0] == AttendanceHeader() && report[2].rows[1..] == Cross(s, students, lessons)
      && |report[0].rows| == 1 + |students| * |quizzes|
      && |report[1].rows| == 1 + |students| * |assignments|
      && |report[2].rows| == 1 + |students| * |lessons|
  {
    var students := EnrolledUsers(s, courseId);
    var report := Report(s, courseId);
    CrossShape(s, students, QuizActivities(s, courseId));
    CrossShape(s, students, AssignmentActivities(s, courseId));
    CrossShape(s, students, LessonActivities(s, courseId));
    assert report[0].rows[1..] == Cross(s, students, QuizActivities(s, courseId));
    assert report[1].rows[1..] == Cross(s, students, AssignmentActivities(s, courseId));
    assert report[2].rows[1..] == Cross(s, students, LessonActivities(s, courseId));
  }

  /**
   * A quiz row shows the student's grade, or 0 when the student has no result
   * for that quiz, and the quiz's question count as the maximum.
   */
  lemma QuizRowGrades(s: State, student: Keyed<User>, q: Keyed<Quiz>)
    requires ResultPairsUnique(s.studentQuizzes)
    ensures var row := RowFor(s, student, QuizActivity(q));
      && |row| == 5
      && row[4] == Number(|q.val.questions| as real)
      && (!QuizService.Submitted(s, student.id, q.id) ==> row[3] == Number(0.0))
      && forall k :: k in s.studentQuizzes && s.studentQuizzes[k].student == student.id && s.studentQuizzes[k].quiz == q.id ==>
        row[3] == Number(s.studentQuizzes[k].grade)
  {
  }

  /**
   * An assignment row shows the student's grade, or 0 without a submission,
   * and the assignment's maximum grade.
   */
  lemma AssignmentRowGrades(s: State, student: Keyed<User>, x: Keyed<Assignment>)
    requires SubmissionPairsUnique(s.studentAssignments)
    ensures var row := RowFor(s, student, AssignmentActivity(x));
      && |row| == 5
      && row[4] == Number(x.val.maxGrade as real)
      && (!StudentAssignmentService.HasSubmission(s, student.id, x.id) ==> row[3] == Number(0.0))
      && forall k :: k in s.studentAssignments && s.studentAssignments[k].student == student.id && s.studentAssignments[k].assignment == x.id ==>
        row[3] == Number(s.studentAssignments[k].grade as real)
  {
  }

  /** An attendance row says Present exactly when the student's attendance row for the lesson exists, Absent otherwise. */
  lemma AttendanceRowStatus(s: State, student: Keyed<User>, l: Keyed<Lesson>)
    ensures var row := RowFor(s, student, LessonActivity(l));
      && |row| == 4
      && (row[3] == Text(Present) <==> StudentLessonService.Attended(s, student.id, l.id))
      && (row[3] == Text(Absent) <==> !StudentLessonService.Attended(s, student.id, l.id))
  {
  }

  /** The inner loop of a sheet: one row per activity for one student, each created at rowNum, which advances. */
  method AppendStudentRows(s: State, rows: seq<seq<Cell>>, rowNum: int, student: Keyed<User>, acts: seq<Activity>)
    returns (rows': seq<seq<Cell>>, rowNum': int)
    requires rowNum == |rows|
    ensures rows' == rows + RowsOf(s, student, acts)
    ensures rowNum' == |rows'|
  {
    rows', rowNum' := rows, rowNum;
    for j := 0 to |acts|
      invariant rows' == rows + RowsOf(s, student, acts[..j])
      invariant rowNum' == |rows'|
    {
      RowsOfSnoc(s, student, acts, j);
      rows' := rows' + [RowFor(s, student, acts[j])];
      rowNum' := rowNum' + 1;
    }
    assert acts[..|acts|] == acts;
  }

  /** One pass of the outer loop: appending student i's rows extends the cross by that student. */
  lemma CrossStep(s: State, header: seq<Cell>, students: seq<Keyed<User>>, acts: seq<Activity>, i: int, rows: seq<seq<Cell>>)
    requires 0 <= i < |students|
    requires rows == [header] + Cross(s, students[..i], acts)
    ensures rows + RowsOf(s, students[i], acts) == [header] + Cross(s, students[..i + 1], acts)
  {
    CrossSnoc(s, students, acts, i);
  }

  /** createQuizSheet, createAssignmentSheet and createAttendanceSheet: the header, then the nested loops over students and activities. */
  method CreateSheet(s: State, name: string, header: seq<Cell>, students: seq<Keyed<User>>, acts: seq<Activity>) returns (sheet: Sheet)
    ensures sheet == Sheet(name, [header] + Cross(s, students, acts))
  {
    var rows := [header];
    var rowNum := 1;
    for i := 0 to |students|
      invariant rows == [header] + Cross(s, students[..i], acts)
      invariant rowNum == |rows|
    {
      CrossStep(s, header, students, acts, i, rows);
      rows, rowNum := AppendStudentRows(s, rows, rowNum, students[i], acts);
    }
    assert students[..|students|] == students;
    sheet := Sheet(name, rows);
  }

  /**
   * generateStudentPerformanceReport, for a caller with the given id and role:
   * the course must exist, and the caller must be an ADMIN or its instructor.
   */
  method GenerateStudentPerformanceReport(s: State, courseId: Id, callerId: Id, callerRole: Role) returns (r: Result<seq<Sheet>>)
    requires EnrollmentsLinked(s.enrollments, s.users, s.courses)
    ensures courseId !in s.courses ==> r.FailsWith(NotFound, CourseNotFoundPrefix + IdText(courseId))
    ensures courseId in s.courses && callerRole != ADMIN && !Teaches(s, callerId, courseId) ==>
      r.FailsWith(InvalidUser, NotAuthorizedToGenerate)
    ensures r.Ok? <==> courseId in s.courses && (callerRole == ADMIN || Teaches(s, callerId, courseId))
    ensures r.Ok? ==> r.value == Report(s, courseId)
  {
    if courseId !in s.courses {
      return Err(Failure(NotFound, CourseNotFoundPrefix + IdText(courseId)));
    }
    var course := s.courses[courseId];
    if callerRole != ADMIN && course.instructor != callerId {
      return Err(Failure(InvalidUser, NotAuthorizedToGenerate));
    }
    var students := EnrolledUsers(s, courseId);
    var quizSheet := CreateSheet(s, QuizzesSheet, QuizHeader(), students, QuizActivities(s, courseId));
    var assignmentSheet := CreateSheet(s, AssignmentsSheet, AssignmentHeader(), students, AssignmentActivities(s, courseId));
    var attendanceSheet := CreateSheet(s, AttendanceSheet, AttendanceHeader(), students, LessonActivities(s, courseId));
    r := Ok([quizSheet, assignmentSheet, attendanceSheet]);
  }
}
