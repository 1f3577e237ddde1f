/**
 * AnalyticsService.getCourseAnalytics: one performance record per enrolled
 * student of a course, with the student's quiz average, assignment average
 * and attendance percentage (each out of 100) and the enrollment's
 * completion flag. The chart and file generation built on these records is
 * not part of this model.
 */
module AnalyticsService {
  import opened Wrappers
  import opened Tables
  import opened UserRole
  import opened Entities
  import opened Store
  import opened EnrollmentService
  import opened AssignmentService
  import opened LessonService
  import QuizService

  const NotAuthorizedToView: string := "You are not authorized to view this analytics data"
  /** The IllegalStateException that Collectors.toMap throws on a repeated key. */
  const DuplicateKey: string := "Duplicate key"

  datatype StudentPerformance = StudentPerformance(
    studentId: Id, studentName: string,
    quizAverage: real, assignmentAverage: real, attendancePercentage: real,
    isCourseCompleted: bool)

  // Collectors.toMap followed by getOrDefault.

  /** The rows' keys are pairwise different, so Collectors.toMap does not throw. */
  predicate KeysDistinct<T>(rows: seq<T>, key: T -> Id)
  {
    forall i, j :: 0 <= i < j < |rows| ==> key(rows[i]) != key(rows[j])
  }

  /** The value stored under k by the first row with that key, or d when no row has it. */
  function LookupOr<T, V>(rows: seq<T>, key: T -> Id, value: T -> V, k: Id, d: V): (v: V)
    ensures (forall i :: 0 <= i < |rows| ==> key(rows[i]) != k) ==> v == d
    ensures v == d || exists i :: 0 <= i < |rows| && key(rows[i]) == k && v == value(rows[i])
  {
    if |rows| == 0 then d
    else if key(rows[0]) == k then value(rows[0])
    else LookupOr(rows[1..], key, value, k, d)
  }

  /** With distinct keys, the lookup returns the value of the one row holding the key. */
  lemma {:induction false} LookupOrFinds<T, V>(rows: seq<T>, key: T -> Id, value: T -> V, k: Id, d: V, i: int)
    requires KeysDistinct(rows, key)
    requires 0 <= i < |rows| && key(rows[i]) == k
    ensures LookupOr(rows, key, value, k, d) == value(rows[i])
    decreases |rows|
  {
    if i > 0 {
      assert key(rows[0]) != k;
      var t := rows[1..];
      assert KeysDistinct(t, key) by {
        forall a, b | 0 <= a < b < |t|
          ensures key(t[a]) != key(t[b])
        {
          assert t[a] == rows[a + 1] && t[b] == rows[b + 1];
        }
      }
      LookupOrFinds(t, key, value, k, d, i - 1);
    }
  }

  function EnrolledStudent(e: Keyed<Enrollment>): Id { e.val.student }
  function Completed(e: Keyed<Enrollment>): bool { e.val.isCompleted }
  function ResultQuiz(r: Keyed<StudentQuiz>): Id { r.val.quiz }
  function ResultGrade(r: Keyed<StudentQuiz>): real { r.val.grade }
  function SubmittedAssignment(a: Keyed<StudentAssignment>): Id { a.val.assignment }
  function SubmissionGrade(a: Keyed<StudentAssignment>): int { a.val.grade }

  // The repository queries the analytics reads.

  /** studentQuizRepository.findByStudentAndQuiz_Course: the student's results for the course's quizzes. */
  function ResultsIn(s: State, student: Id, courseId: Id): (r: seq<Keyed<StudentQuiz>>)
    ensures Increasing(r)
    ensures forall i :: 0 <= i < |r| ==>
      && r[i].id in s.studentQuizzes && s.studentQuizzes[r[i].id] == r[i].val
      && r[i].val.student == student && r[i].val.quiz in s.quizzes && s.quizzes[r[i].val.quiz].course == courseId
    ensures forall k | k in s.studentQuizzes && s.studentQuizzes[k].student == student
      && s.studentQuizzes[k].quiz in s.quizzes && s.quizzes[s.studentQuizzes[k].quiz].course == courseId ::
      Keyed(k, s.studentQuizzes[k]) in r
  {
    Select(s.studentQuizzes, (q: StudentQuiz) => q.student == student && q.quiz in s.quizzes && s.quizzes[q.quiz].course == courseId)
  }

  /** studentAssignmentRepository.findByStudentAndCourse: matched on the submission's own course column. */
  function SubmissionsIn(s: State, student: Id, courseId: Id): (r: seq<Keyed<StudentAssignment>>)
    ensures Increasing(r)
    ensures forall i :: 0 <= i < |r| ==>
      && r[i].id in s.studentAssignments && s.studentAssignments[r[i].id] == r[i].val
      && r[i].val.student == student && r[i].val.course == courseId
    ensures forall k | k in s.studentAssignments && s.studentAssignments[k].student == student
      && s.studentAssignments[k].course == courseId ::
      Keyed(k, s.studentAssignments[k]) in r
  {
    Select(s.studentAssignments, (a: StudentAssignment) => a.student == student && a.course == courseId)
  }

  /** studentsLessonRepository.findByStudentAndLesson_Course: the student's attendance rows for the course's lessons. */
  function AttendedIn(s: State, student: Id, courseId: Id): (r: seq<Keyed<StudentLesson>>)
    ensures Increasing(r)
    ensures forall i :: 0 <= i < |r| ==>
      && r[i].id in s.studentLessons && s.studentLessons[r[i].id] == r[i].val
      && r[i].val.student == student && r[i].val.lesson in s.lessons && s.lessons[r[i].val.lesson].course == courseId
    ensures forall k | k in s.studentLessons && s.studentLessons[k].student == student
      && s.studentLessons[k].lesson in s.lessons && s.lessons[s.studentLessons[k].lesson].course == courseId ::
      Keyed(k, s.studentLessons[k]) in r
  {
    Select(s.studentLessons, (a: StudentLesson) => a.student == student && a.lesson in s.lessons && s.lessons[a.lesson].course == courseId)
  }

  // The arithmetic, over the reals.

  function Sum(xs: seq<real>): real
  {
    if |xs| == 0 then 0.0 else Sum(xs[..|xs| - 1]) + xs[|xs| - 1]
  }

  /** The average of xs, and 0 for no values at all. */
  function Mean(xs: seq<real>): (m: real)
    ensures |xs| == 0 ==> m == 0.0
  {
    if |xs| == 0 then 0.0 else Sum(xs) / (|xs| as real)
  }

  /** grade out of max as a percentage; 0 when max is not positive. */
  function Percent(grade: real, max: int): (p: real)
    ensures max <= 0 || grade == 0.0 ==> p == 0.0
    ensures 0 < max && 0.0 <= grade <= max as real ==> 0.0 <= p <= 100.0
    ensures 0 < max && grade == max as real ==> p == 100.0
  {
    if max > 0 then grade / (max as real) * 100.0 else 0.0
  }

  lemma {:induction false} SumBounds(xs: seq<real>, lo: real, hi: real)
    requires forall i :: 0 <= i < |xs| ==> lo <= xs[i] <= hi
    ensures (|xs| as real) * lo <= Sum(xs) <= (|xs| as real) * hi
    decreases |xs|
  {
    if |xs| > 0 {
      var n := (|xs| - 1) as real;
      SumBounds(xs[..|xs| - 1], lo, hi);
      assert (|xs| as real) * lo == n * lo + lo;
      assert (|xs| as real) * hi == n * hi + hi;
    }
  }

  /** The mean of values within [lo, hi] is within [lo, hi] too (or 0 for no values). */
  lemma MeanBounds(xs: seq<real>, lo: real, hi: real)
    requires |xs| > 0
    requires forall i :: 0 <= i < |xs| ==> lo <= xs[i] <= hi
    ensures lo <= Mean(xs) <= hi
  {
    SumBounds(xs, lo, hi);
    var n := |xs| as real;
    assert Sum(xs) / n >= lo by {
      assert Sum(xs) >= n * lo;
    }
    assert Sum(xs) / n <= hi by {
      assert Sum(xs) <= n * hi;
    }
  }

  lemma {:induction false} SumZero(xs: seq<real>)
    requires forall i :: 0 <= i < |xs| ==> xs[i] == 0.0
    ensures Sum(xs) == 0.0
    decreases |xs|
  {
    if |xs| > 0 {
      SumZero(xs[..|xs| - 1]);
    }
  }

  // One student's figures.

  /** Per quiz of the course, the figure the quiz average is taken over; QuizPercentageOfResult states what each entry is. */
  function QuizPercentages(results: seq<Keyed<StudentQuiz>>, quizzes: seq<Keyed<Quiz>>): (r: seq<real>)
    ensures |r| == |quizzes|
    ensures forall i :: 0 <= i < |quizzes| ==>
      r[i] == Percent(LookupOr(results, ResultQuiz, ResultGrade, quizzes[i].id, 0.0), |quizzes[i].val.questions|)
  {
    seq(|quizzes|, i requires 0 <= i < |quizzes| =>
      Percent(LookupOr(results, ResultQuiz, ResultGrade, quizzes[i].id, 0.0), |quizzes[i].val.questions|))
  }

  /** Per assignment of the course, the figure the assignment average is taken over; AssignmentPercentageOfSubmission states what each entry is. */
  function AssignmentPercentages(submissions: seq<Keyed<StudentAssignment>>, assignments: seq<Keyed<Assignment>>): (r: seq<real>)
    ensures |r| == |assignments|
    ensures forall i :: 0 <= i < |assignments| ==>
      r[i] == Percent(LookupOr(submissions, SubmittedAssignment, SubmissionGrade, assignments[i].id, 0) as real, assignments[i].val.maxGrade)
  {
    seq(|assignments|, i requires 0 <= i < |assignments| =>
      Percent(LookupOr(submissions, SubmittedAssignment, SubmissionGrade, assignments[i].id, 0) as real, assignments[i].val.maxGrade))
  }

  /**
   * What a quiz contributes to the average: 0 when the student has no result
   * for it, and otherwise, with one result per quiz, that result's grade as a
   * percentage of the quiz's question count.
   */
  lemma QuizPercentageOfResult(results: seq<Keyed<StudentQuiz>>, quizzes: seq<Keyed<Quiz>>, i: int)
    requires 0 <= i < |quizzes|
    ensures (forall j :: 0 <= j < |results| ==> results[j].val.quiz != quizzes[i].id) ==> QuizPercentages(results, quizzes)[i] == 0.0
    ensures KeysDistinct(results, ResultQuiz) ==> forall j :: 0 <= j < |results| && results[j].val.quiz == quizzes[i].id ==>
      QuizPercentages(results, quizzes)[i] == Percent(results[j].val.grade, |quizzes[i].val.questions|)
  {
    if KeysDistinct(results, ResultQuiz) {
      forall j | 0 <= j < |results| && results[j].val.quiz == quizzes[i].id
        ensures QuizPercentages(results, quizzes)[i] == Percent(results[j].val.grade, |quizzes[i].val.questions|)
      {
        LookupOrFinds(results, ResultQuiz, ResultGrade, quizzes[i].id, 0.0, j);
      }
    }
  }

  /**
   * What an assignment contributes to the average: 0 when the student has not
   * submitted it, and otherwise, with one submission per assignment, that
   * submission's grade as a percentage of the assignment's maximum grade.
   */
  lemma AssignmentPercentageOfSubmission(submissions: seq<Keyed<StudentAssignment>>, assignments: seq<Keyed<Assignment>>, i: int)
    requires 0 <= i < |assignments|
    ensures (forall j :: 0 <= j < |submissions| ==> submissions[j].val.assignment != assignments[i].id) ==>
      AssignmentPercentages(submissions, assignments)[i] == 0.0
    ensures KeysDistinct(submissions, SubmittedAssignment) ==> forall j :: 0 <= j < |submissions| && submissions[j].val.assignment == assignments[i].id ==>
      AssignmentPercentages(submissions, assignments)[i] == Percent(submissions[j].val.grade as real, assignments[i].val.maxGrade)
  {
    if KeysDistinct(submissions, SubmittedAssignment) {
      forall j | 0 <= j < |submissions| && submissions[j].val.assignment == assignments[i].id
        ensures AssignmentPercentages(submissions, assignments)[i] == Percent(submissions[j].val.grade as real, assignments[i].val.maxGrade)
      {
        LookupOrFinds(submissions, SubmittedAssignment, SubmissionGrade, assignments[i].id, 0, j);
      }
    }
  }

  /** attended * 100 / total, and 0 for a course without lessons. */
  function Attendance(attended: int, total: int): (p: real)
    ensures total <= 0 ==> p == 0.0
    ensures 0 < total && 0 <= attended <= total ==> 0.0 <= p <= 100.0
  {
    if total > 0 then (attended as real) * 100.0 / (total as real) else 0.0
  }

  /**
   * The record getCourseAnalytics builds for one enrolled student: every quiz
   * and assignment of the course counts, unattempted ones as 0; attendance is
   * over all the course's lessons; the completion flag is looked up by the
   * student's id among the course's enrollments, false if absent.
   */
  function PerformanceOf(s: State, courseId: Id, student: Id): (p: StudentPerformance)
    requires student in s.users
    ensures p.studentId == student && p.studentName == s.users[student].name
    ensures QuizService.QuizzesOf(s, courseId) == [] ==> p.quizAverage == 0.0
    ensures AssignmentsOf(s, courseId) == [] ==> p.assignmentAverage == 0.0
    ensures LessonsOf(s, courseId) == [] ==> p.attendancePercentage == 0.0
  {
    StudentPerformance(
      student, s.users[student].name,
      Mean(QuizPercentages(ResultsIn(s, student, courseId), QuizService.QuizzesOf(s, courseId))),
      Mean(AssignmentPercentages(SubmissionsIn(s, student, courseId), AssignmentsOf(s, courseId))),
      Attendance(|AttendedIn(s, student, courseId)|, |LessonsOf(s, courseId)|),
      LookupOr(EnrollmentsIn(s, courseId), EnrolledStudent, Completed, student, false))
  }

  /** The student's quiz results and submissions in the course each have distinct keys, so neither toMap throws. */
  predicate StudentKeysDistinct(s: State, courseId: Id, student: Id)
  {
    && KeysDistinct(ResultsIn(s, student, courseId), ResultQuiz)
    && KeysDistinct(SubmissionsIn(s, student, courseId), SubmittedAssignment)
  }

  /**
   * Whether one of the toMap calls meets a repeated key: two enrollments of
   * the same student, or for some enrolled student two results for one quiz
   * or two submissions for one assignment.
   */
  ghost predicate HasDuplicateKeys(s: State, courseId: Id)
  {
    var rows := EnrollmentsIn(s, courseId);
    || !KeysDistinct(rows, EnrolledStudent)
    || exists i :: 0 <= i < |rows| && !StudentKeysDistinct(s, courseId, rows[i].val.student)
  }

  /** The uniqueness rules of the database rule out every repeated key. */
  lemma ConsistentHasNoDuplicateKeys(s: State, courseId: Id)
    requires Unique(s)
    ensures !HasDuplicateKeys(s, courseId)
  {
    var rows := EnrollmentsIn(s, courseId);
    assert KeysDistinct(rows, EnrolledStudent) by {
      forall a, b | 0 <= a < b < |rows|
        ensures rows[a].val.student != rows[b].val.student
      {
        assert rows[a].id != rows[b].id;
      }
    }
    forall i | 0 <= i < |rows|
      ensures StudentKeysDistinct(s, courseId, rows[i].val.student)
    {
      var results := ResultsIn(s, rows[i].val.student, courseId);
      forall a, b | 0 <= a < b < |results|
        ensures results[a].val.quiz != results[b].val.quiz
      {
        assert results[a].id != results[b].id;
      }
      var submissions := SubmissionsIn(s, rows[i].val.student, courseId);
      forall a, b | 0 <= a < b < |submissions|
        ensures submissions[a].val.assignment != submissions[b].val.assignment
      {
        assert submissions[a].id != submissions[b].id;
      }
    }
  }

  /** The completion flag of each record is that student's own enrollment flag. */
  lemma CompletionIsTheEnrollments(s: State, courseId: Id, i: int)
    requires Consistent(s)
    requires 0 <= i < |EnrollmentsIn(s, courseId)|
    ensures var e := EnrollmentsIn(s, courseId)[i];
      e.val.student in s.users && PerformanceOf(s, courseId, e.val.student).isCourseCompleted == e.val.isCompleted
  {
    var rows := EnrollmentsIn(s, courseId);
    ConsistentHasNoDuplicateKeys(s, courseId);
    LookupOrFinds(rows, EnrolledStudent, Completed, rows[i].val.student, false, i);
  }

  /** A student with no result for any quiz of the course has a quiz average of 0. */
  lemma NoAttemptsAverageZero(s: State, courseId: Id, student: Id)
    requires student in s.users
    requires ResultsIn(s, student, courseId) == []
    ensures PerformanceOf(s, courseId, student).quizAverage == 0.0
  {
    var quizzes := QuizService.QuizzesOf(s, courseId);
    var xs := QuizPercentages([], quizzes);
    forall i | 0 <= i < |xs|
      ensures xs[i] == 0.0
    {
      assert xs[i] == Percent(0.0, |quizzes[i].val.questions|);
    }
    SumZero(xs);
  }

  /**
   * When every result of the student in the course lies between 0 and its
   * quiz's question count, the quiz average lies between 0 and 100.
   */
  lemma QuizAverageWithinPercent(s: State, courseId: Id, student: Id)
    requires student in s.users
    requires forall k :: k in s.studentQuizzes && s.studentQuizzes[k].quiz in s.quizzes ==>
      0.0 <= s.studentQuizzes[k].grade <= |s.quizzes[s.studentQuizzes[k].quiz].questions| as real
    ensures 0.0 <= PerformanceOf(s, courseId, student).quizAverage <= 100.0
  {
    var results := ResultsIn(s, student, courseId);
    var quizzes := QuizService.QuizzesOf(s, courseId);
    var xs := QuizPercentages(results, quizzes);
    if |xs| > 0 {
      forall i | 0 <= i < |xs|
        ensures 0.0 <= xs[i] <= 100.0
      {
        var g := LookupOr(results, ResultQuiz, ResultGrade, quizzes[i].id, 0.0);
        if g != 0.0 {
          var j :| 0 <= j < |results| && results[j].val.quiz == quizzes[i].id && g == results[j].val.grade;
          assert results[j].id in s.studentQuizzes;
        }
      }
      MeanBounds(xs, 0.0, 100.0);
    }
  }

  /**
   * When every submission of the student in the course is graded between 0
   * and its assignment's maximum, the assignment average lies between 0 and 100.
   */
  lemma AssignmentAverageWithinPercent(s: State, courseId: Id, student: Id)
    requires student in s.users
    requires forall k :: k in s.studentAssignments && s.studentAssignments[k].assignment in s.assignments ==>
      0 <= s.studentAssignments[k].grade <= s.assignments[s.studentAssignments[k].assignment].maxGrade
    ensures 0.0 <= PerformanceOf(s, courseId, student).assignmentAverage <= 100.0
  {
    var submissions := SubmissionsIn(s, student, courseId);
    var assignments := AssignmentsOf(s, courseId);
    var xs := AssignmentPercentages(submissions, assignments);
    if |xs| > 0 {
      forall i | 0 <= i < |xs|
        ensures 0.0 <= xs[i] <= 100.0
      {
        var g := LookupOr(submissions, SubmittedAssignment, SubmissionGrade, assignments[i].id, 0);
        if g != 0 {
          var j :| 0 <= j < |submissions| && submissions[j].val.assignment == assignments[i].id && g == submissions[j].val.grade;
          assert submissions[j].id in s.studentAssignments;
          assert s.studentAssignments[submissions[j].id].assignment == assignments[i].id;
        }
      }
      MeanBounds(xs, 0.0, 100.0);
    }
  }

  /**
   * A student cannot have attended more lessons of the course than it has
   * (one attendance row per student and lesson), so attendance is at most 100%.
   */
  lemma AttendanceWithinPercent(s: State, courseId: Id, student: Id)
    requires Unique(s) && student in s.users
    ensures 0.0 <= PerformanceOf(s, courseId, student).attendancePercentage <= 100.0
  {
    var attended := AttendedIn(s, student, courseId);
    var lessons := LessonsOf(s, courseId);
    var seen := seq(|attended|, i requires 0 <= i < |attended| => attended[i].val.lesson);
    var ids := seq(|lessons|, i requires 0 <= i < |lessons| => lessons[i].id);
    assert Distinct(seen) by {
      forall a, b | 0 <= a < b < |seen|
        ensures seen[a] != seen[b]
      {
        assert attended[a].id != attended[b].id;
      }
    }
    forall i | 0 <= i < |seen|
      ensures seen[i] in ids
    {
      var l := seen[i];
      var j :| 0 <= j < |lessons| && lessons[j] == Keyed(l, s.lessons[l]);
      assert ids[j] == l;
    }
    FewerDistinct(seen, ids);
  }

  /**
   * One pass of the analytics loop: the record of one enrolled student, or the
   * failure of a toMap call that meets a repeated quiz or assignment key.
   */
  method StudentRecord(s: State, courseId: Id, student: Id, quizzes: seq<Keyed<Quiz>>, assignments: seq<Keyed<Assignment>>,
                       lessons: seq<Keyed<Lesson>>, rows: seq<Keyed<Enrollment>>) returns (r: Result<StudentPerformance>)
    requires student in s.users
    requires quizzes == QuizService.QuizzesOf(s, courseId) && assignments == AssignmentsOf(s, courseId)
    requires lessons == LessonsOf(s, courseId) && rows == EnrollmentsIn(s, courseId)
    ensures r.Ok? <==> StudentKeysDistinct(s, courseId, student)
    ensures r.Err? ==> r == Err(Failure(Internal, DuplicateKey))
    ensures r.Ok? ==> r.value == PerformanceOf(s, courseId, student)
  {
    var results := ResultsIn(s, student, courseId);
    if !KeysDistinct(results, ResultQuiz) {
      return Err(Failure(Internal, DuplicateKey));
    }
    var quizAverage := Mean(QuizPercentages(results, quizzes));
    var submissions := SubmissionsIn(s, student, courseId);
    if !KeysDistinct(submissions, SubmittedAssignment) {
      return Err(Failure(Internal, DuplicateKey));
    }
    var assignmentAverage := Mean(AssignmentPercentages(submissions, assignments));
    var attendance := Attendance(|AttendedIn(s, student, courseId)|, |lessons|);
    var completed := LookupOr(rows, EnrolledStudent, Completed, student, false);
    r := Ok(StudentPerformance(student, s.users[student].name, quizAverage, assignmentAverage, attendance, completed));
  }

  /**
   * The first |list| enrollments have been processed: each of their students
   * has distinct quiz and assignment keys, and list holds their records in order.
   */
  ghost predicate RecordsUpTo(s: State, courseId: Id, rows: seq<Keyed<Enrollment>>, list: seq<StudentPerformance>)
  {
    && |list| <= |rows|
    && (forall j :: 0 <= j < |rows| ==> rows[j].val.student in s.users)
    && (forall j :: 0 <= j < |list| ==> StudentKeysDistinct(s, courseId, rows[j].val.student))
    && (forall j :: 0 <= j < |list| ==> rows[j].val.student in s.users && list[j] == PerformanceOf(s, courseId, rows[j].val.student))
  }

  /** Appending the record of the next enrollment's student extends the records of the rows before it. */
  lemma RecordsSnoc(s: State, courseId: Id, rows: seq<Keyed<Enrollment>>, list: seq<StudentPerformance>, next: StudentPerformance)
    requires RecordsUpTo(s, courseId, rows, list) && |list| < |rows|
    requires StudentKeysDistinct(s, courseId, rows[|list|].val.student)
    requires next == PerformanceOf(s, courseId, rows[|list|].val.student)
    ensures RecordsUpTo(s, courseId, rows, list + [next])
  {
    forall j | 0 <= j < |list| + 1
      ensures (list + [next])[j] == PerformanceOf(s, courseId, rows[j].val.student)
    {
      if j < |list| {
        assert (list + [next])[j] == list[j];
      }
    }
  }

  /** The loop of getCourseAnalytics: one record per enrollment, in order, unless a toMap call meets a repeated key. */
  method StudentRecords(s: State, courseId: Id, quizzes: seq<Keyed<Quiz>>, assignments: seq<Keyed<Assignment>>,
                        lessons: seq<Keyed<Lesson>>, rows: seq<Keyed<Enrollment>>) returns (r: Result<seq<StudentPerformance>>)
    requires quizzes == QuizService.QuizzesOf(s, courseId) && assignments == AssignmentsOf(s, courseId)
    requires lessons == LessonsOf(s, courseId) && rows == EnrollmentsIn(s, courseId)
    requires forall j :: 0 <= j < |rows| ==> rows[j].val.student in s.users
    ensures r.Ok? <==> forall j :: 0 <= j < |rows| ==> StudentKeysDistinct(s, courseId, rows[j].val.student)
    ensures r.Err? ==> r == Err(Failure(Internal, DuplicateKey))
    ensures r.Ok? ==> |r.value| == |rows| && forall j :: 0 <= j < |rows| ==> r.value[j] == PerformanceOf(s, courseId, rows[j].val.student)
  {
    var list: seq<StudentPerformance> := [];
    for i := 0 to |rows|
      invariant |list| == i
      invariant RecordsUpTo(s, courseId, rows, list)
    {
      var data := StudentRecord(s, courseId, rows[i].val.student, quizzes, assignments, lessons, rows);
      if data.Err? {
        return data.PropagateFailure();
      }
      RecordsSnoc(s, courseId, rows, list, data.value);
      list := list + [data.value];
    }
    r := Ok(list);
  }

  /**
   * getCourseAnalytics, for a caller with the given id and role: the course
   * must exist, and the caller must be an ADMIN or the course's instructor.
   * Then one record per enrollment of the course, in enrollment order.
   */
  method GetCourseAnalytics(s: State, courseId: Id, callerId: Id, callerRole: Role) returns (r: Result<seq<StudentPerformance>>)
    requires EnrollmentsLinked(s.enrollments, s.users, s.courses)
    ensures courseId !in s.courses ==> r.FailsWith(NotFound, CourseNotFoundPrefix + IdText(courseId))
    ensures courseId in s.courses && callerRole != ADMIN && !Teaches(s, callerId, courseId) ==>
      r.FailsWith(InvalidUser, NotAuthorizedToView)
    ensures courseId in s.courses && (callerRole == ADMIN || Teaches(s, callerId, courseId)) && HasDuplicateKeys(s, courseId) ==>
      r.FailsWith(Internal, DuplicateKey)
    ensures r.Ok? <==> courseId in s.courses && (callerRole == ADMIN || Teaches(s, callerId, courseId)) && !HasDuplicateKeys(s, courseId)
    ensures r.Ok? ==>
      var rows := EnrollmentsIn(s, courseId);
      && |r.value| == |rows|
      && forall i :: 0 <= i < |rows| ==>
        rows[i].val.student in s.users && r.value[i] == PerformanceOf(s, courseId, rows[i].val.student)
  {
    if courseId !in s.courses {
      return Err(Failure(NotFound, CourseNotFoundPrefix + IdText(courseId)));
    }
    var course := s.courses[courseId];
    if callerRole != ADMIN && course.instructor != callerId {
      return Err(Failure(InvalidUser, NotAuthorizedToView));
    }
    var rows := EnrollmentsIn(s, courseId);
    if !KeysDistinct(rows, EnrolledStudent) {
      return Err(Failure(Internal, DuplicateKey));
    }
    var quizzes := QuizService.QuizzesOf(s, courseId);
    var assignments := AssignmentsOf(s, courseId);
    var lessons := LessonsOf(s, courseId);
    forall j | 0 <= j < |rows|
      ensures rows[j].val.student in s.users
    {
      assert rows[j].id in s.enrollments;
    }
    r := StudentRecords(s, courseId, quizzes, assignments, lessons, rows);
  }
}
