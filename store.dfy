/**
 * The database behind the repositories: one table per entity, an id counter,
 * the integrity rules the schema and the services maintain, and the foreign-key
 * cascade that deleting a user, course or assignment triggers.
 */
module Store {
  import opened Wrappers
  import opened Tables
  import opened UserRole
  import opened Entities

  /** The contents of every table, and the next id the counter hands out. */
  datatype State = State(
    nextId: Id,
    users: map<Id, User>,
    courses: map<Id, Course>,
    lessons: map<Id, Lesson>,
    assignments: map<Id, Assignment>,
    questions: map<Id, Question>,
    quizzes: map<Id, Quiz>,
    enrollments: map<Id, Enrollment>,
    studentAssignments: map<Id, StudentAssignment>,
    studentQuizzes: map<Id, StudentQuiz>,
    studentLessons: map<Id, StudentLesson>,
    notifications: map<Id, Notification>)

  /** What a service operation returns, together with the database it leaves behind. */
  datatype Step<+T> = Step(result: Result<T>, state: State)

  /** A failed operation: it raises the given failure and leaves the database as it was. */
  function Fail<T>(s: State, kind: Kind, message: string): Step<T>
  {
    Step(Err(Failure(kind, message)), s)
  }

  /** Whether user is the instructor of course c. */
  predicate Teaches(s: State, user: Id, c: Id)
  {
    c in s.courses && s.courses[c].instructor == user
  }

  const Empty: State :=
    State(1, map[], map[], map[], map[], map[], map[], map[], map[], map[], map[], map[])

  /** Every key of m was handed out by the counter before it reached next. */
  ghost predicate Below<T>(m: map<Id, T>, next: Id)
  {
    forall k :: k in m ==> 1 <= k < next
  }

  ghost predicate KeysBelow(s: State)
  {
    && 1 <= s.nextId
    && Below(s.users, s.nextId)
    && Below(s.courses, s.nextId)
    && Below(s.lessons, s.nextId)
    && Below(s.assignments, s.nextId)
    && Below(s.questions, s.nextId)
    && Below(s.quizzes, s.nextId)
    && Below(s.enrollments, s.nextId)
    && Below(s.studentAssignments, s.nextId)
    && Below(s.studentQuizzes, s.nextId)
    && Below(s.studentLessons, s.nextId)
    && Below(s.notifications, s.nextId)
  }

  // Referential integrity, one foreign-key rule per table: every reference names an existing row.

  ghost predicate CoursesLinked(courses: map<Id, Course>, users: map<Id, User>)
  {
    forall c :: c in courses ==> courses[c].instructor in users
  }

  ghost predicate LessonsLinked(lessons: map<Id, Lesson>, courses: map<Id, Course>)
  {
    forall k :: k in lessons ==> lessons[k].course in courses
  }

  ghost predicate AssignmentsLinked(assignments: map<Id, Assignment>, courses: map<Id, Course>)
  {
    forall k :: k in assignments ==> assignments[k].course in courses
  }

  ghost predicate QuestionsLinked(questions: map<Id, Question>, courses: map<Id, Course>)
  {
    forall k :: k in questions ==> questions[k].course in courses
  }

  ghost predicate QuizzesLinked(quizzes: map<Id, Quiz>, courses: map<Id, Course>, questions: map<Id, Question>)
  {
    && (forall k :: k in quizzes ==> quizzes[k].course in courses)
    && (forall k, q :: k in quizzes && q in quizzes[k].questions ==> q in questions)
  }

  ghost predicate EnrollmentsLinked(enrollments: map<Id, Enrollment>, users: map<Id, User>, courses: map<Id, Course>)
  {
    forall k :: k in enrollments ==> enrollments[k].student in users && enrollments[k].course in courses
  }

  ghost predicate SubmissionsLinked(
    submissions: map<Id, StudentAssignment>, assignments: map<Id, Assignment>, users: map<Id, User>, courses: map<Id, Course>)
  {
    forall k :: k in submissions ==>
      && submissions[k].assignment in assignments
      && submissions[k].student in users
      && submissions[k].course in courses
  }

  ghost predicate ResultsLinked(results: map<Id, StudentQuiz>, quizzes: map<Id, Quiz>, users: map<Id, User>)
  {
    forall k :: k in results ==> results[k].quiz in quizzes && results[k].student in users
  }

  ghost predicate AttendanceLinked(attendance: map<Id, StudentLesson>, users: map<Id, User>, lessons: map<Id, Lesson>)
  {
    forall k :: k in attendance ==> attendance[k].student in users && attendance[k].lesson in lessons
  }

  ghost predicate NotificationsLinked(notifications: map<Id, Notification>, users: map<Id, User>)
  {
    forall k :: k in notifications ==> notifications[k].user in users
  }

  /** Referential integrity: every foreign key names an existing row. */
  ghost predicate Linked(s: State)
  {
    && CoursesLinked(s.courses, s.users)
    && LessonsLinked(s.lessons, s.courses)
    && AssignmentsLinked(s.assignments, s.courses)
    && QuestionsLinked(s.questions, s.courses)
    && QuizzesLinked(s.quizzes, s.courses, s.questions)
    && EnrollmentsLinked(s.enrollments, s.users, s.courses)
    && SubmissionsLinked(s.studentAssignments, s.assignments, s.users, s.courses)
    && ResultsLinked(s.studentQuizzes, s.quizzes, s.users)
    && AttendanceLinked(s.studentLessons, s.users, s.lessons)
    && NotificationsLinked(s.notifications, s.users)
  }

  // The uniqueness rules, one per table that has one.

  /** One user per email: the email column is unique. */
  ghost predicate EmailsUnique(users: map<Id, User>)
  {
    forall a, b :: a in users && b in users && a != b ==> users[a].email != users[b].email
  }

  /** At most one enrollment per (student, course). */
  ghost predicate EnrollmentPairsUnique(enrollments: map<Id, Enrollment>)
  {
    forall a, b :: a in enrollments && b in enrollments && a != b ==>
      enrollments[a].student != enrollments[b].student || enrollments[a].course != enrollments[b].course
  }

  /** At most one attendance row per (student, lesson). */
  ghost predicate AttendancePairsUnique(attendance: map<Id, StudentLesson>)
  {
    forall a, b :: a in attendance && b in attendance && a != b ==>
      attendance[a].student != attendance[b].student || attendance[a].lesson != attendance[b].lesson
  }

  /** At most one submission per (assignment, student). */
  ghost predicate SubmissionPairsUnique(submissions: map<Id, StudentAssignment>)
  {
    forall a, b :: a in submissions && b in submissions && a != b ==>
      submissions[a].assignment != submissions[b].assignment || submissions[a].student != submissions[b].student
  }

  /** At most one quiz result per (student, quiz). */
  ghost predicate ResultPairsUnique(results: map<Id, StudentQuiz>)
  {
    forall a, b :: a in results && b in results && a != b ==>
      results[a].student != results[b].student || results[a].quiz != results[b].quiz
  }

  /**
   * The uniqueness rules: one user per email (a unique column), and at most one
   * enrollment per (student, course), one attendance row per (student, lesson),
   * one submission per (assignment, student) and one quiz result per (student, quiz),
   * which the services check before every insert.
   */
  ghost predicate Unique(s: State)
  {
    && EmailsUnique(s.users)
    && EnrollmentPairsUnique(s.enrollments)
    && AttendancePairsUnique(s.studentLessons)
    && SubmissionPairsUnique(s.studentAssignments)
    && ResultPairsUnique(s.studentQuizzes)
  }

  ghost predicate Consistent(s: State)
  {
    KeysBelow(s) && Linked(s) && Unique(s)
  }

  // ON DELETE CASCADE, table by table: the rows whose foreign keys still resolve.

  /** The courses whose instructor still exists. */
  function LiveCourses(m: map<Id, Course>, users: map<Id, User>): (r: map<Id, Course>)
    ensures forall k :: k in r <==> k in m && m[k].instructor in users
    ensures forall k :: k in r ==> r[k] == m[k]
  {
    map k | k in m && m[k].instructor in users :: m[k]
  }

  /** The rows of a course-owned table (lessons, assignments, questions, quizzes) whose course still exists. */
  function InLiveCourse<T>(m: map<Id, T>, course: T -> Id, courses: map<Id, Course>): (r: map<Id, T>)
    ensures forall k :: k in r <==> k in m && course(m[k]) in courses
    ensures forall k :: k in r ==> r[k] == m[k]
  {
    map k | k in m && course(m[k]) in courses :: m[k]
  }

  /** The enrollments whose student and course still exist. */
  function LiveEnrollments(m: map<Id, Enrollment>, users: map<Id, User>, courses: map<Id, Course>): (r: map<Id, Enrollment>)
    ensures forall k :: k in r <==> k in m && m[k].student in users && m[k].course in courses
    ensures forall k :: k in r ==> r[k] == m[k]
  {
    map k | k in m && m[k].student in users && m[k].course in courses :: m[k]
  }

  /** The submissions whose assignment, student and course still exist. */
  function LiveSubmissions(m: map<Id, StudentAssignment>, users: map<Id, User>, courses: map<Id, Course>, assignments: map<Id, Assignment>): (r: map<Id, StudentAssignment>)
    ensures forall k :: k in r <==> k in m && m[k].assignment in assignments && m[k].student in users && m[k].course in courses
    ensures forall k :: k in r ==> r[k] == m[k]
  {
    map k | k in m && m[k].assignment in assignments && m[k].student in users && m[k].course in courses :: m[k]
  }

  /** The quiz results whose quiz and student still exist. */
  function LiveResults(m: map<Id, StudentQuiz>, users: map<Id, User>, quizzes: map<Id, Quiz>): (r: map<Id, StudentQuiz>)
    ensures forall k :: k in r <==> k in m && m[k].quiz in quizzes && m[k].student in users
    ensures forall k :: k in r ==> r[k] == m[k]
  {
    map k | k in m && m[k].quiz in quizzes && m[k].student in users :: m[k]
  }

  /** The attendance rows whose student and lesson still exist. */
  function LiveAttendance(m: map<Id, StudentLesson>, users: map<Id, User>, lessons: map<Id, Lesson>): (r: map<Id, StudentLesson>)
    ensures forall k :: k in r <==> k in m && m[k].student in users && m[k].lesson in lessons
    ensures forall k :: k in r ==> r[k] == m[k]
  {
    map k | k in m && m[k].student in users && m[k].lesson in lessons :: m[k]
  }

  /** The notifications whose user still exists. */
  function LiveNotifications(m: map<Id, Notification>, users: map<Id, User>): (r: map<Id, Notification>)
    ensures forall k :: k in r <==> k in m && m[k].user in users
    ensures forall k :: k in r ==> r[k] == m[k]
  {
    map k | k in m && m[k].user in users :: m[k]
  }

  /**
   * ON DELETE CASCADE: after rows of users, courses or assignments have been
   * removed from s, remove every row whose foreign key no longer resolves,
   * following the references from parent tables to child tables.
   */
  function Cascade(s: State): (r: State)
    ensures r.nextId == s.nextId && r.users == s.users
  {
    var courses := LiveCourses(s.courses, s.users);
    var lessons := InLiveCourse(s.lessons, (l: Lesson) => l.course, courses);
    var assignments := InLiveCourse(s.assignments, (a: Assignment) => a.course, courses);
    var quizzes := InLiveCourse(s.quizzes, (q: Quiz) => q.course, courses);
    s.(
      courses := courses,
      lessons := lessons,
      assignments := assignments,
      questions := InLiveCourse(s.questions, (q: Question) => q.course, courses),
      quizzes := quizzes,
      enrollments := LiveEnrollments(s.enrollments, s.users, courses),
      studentAssignments := LiveSubmissions(s.studentAssignments, s.users, courses, assignments),
      studentQuizzes := LiveResults(s.studentQuizzes, s.users, quizzes),
      studentLessons := LiveAttendance(s.studentLessons, s.users, lessons),
      notifications := LiveNotifications(s.notifications, s.users))
  }

  /** Some remaining quiz lists a question that is gone. */
  predicate QuestionsLost(r: State)
  {
    exists k, q :: k in r.quizzes && q in r.quizzes[k].questions && q !in r.questions
  }

  /** Some submission with file names is removed: its student_assignment_files rows still refer to it. */
  predicate FilesLost(s: State, r: State)
  {
    exists k :: k in s.studentAssignments && k !in r.studentAssignments && |s.studentAssignments[k].fileNames| > 0
  }

  /** Some course with materials is removed: its course_materials rows still refer to it. */
  predicate MaterialsLost(s: State, r: State)
  {
    exists k :: k in s.courses && k !in r.courses && |s.courses[k].materials| > 0
  }

  /**
   * The cascade from s to r is refused by a foreign key that has no ON DELETE
   * CASCADE: the quiz_questions join table (a removed quiz that lists questions,
   * or a removed question that a quiz lists), StudentQuiz.quiz (a removed quiz
   * that has submissions), or one of the two element-collection tables
   * student_assignment_files and course_materials (a removed submission with
   * files, or a removed course with materials). Rows removed by the database
   * itself are meant here: Hibernate clears the collections of the one entity
   * a service deletes before deleting its row.
   */
  predicate Refused(s: State, r: State)
  {
    || (exists k :: k in s.quizzes && k !in r.quizzes
          && (|s.quizzes[k].questions| > 0 || exists j :: j in s.studentQuizzes && s.studentQuizzes[j].quiz == k))
    || QuestionsLost(r)
    || FilesLost(s, r)
    || MaterialsLost(s, r)
  }

  /** The message of the exception most services raise for a missing course. */
  const CourseNotFoundPrefix: string := "Course not found with ID: "

  /** The message of the exception the services raise for a missing assignment. */
  const AssignmentNotFoundPrefix: string := "Assignment not found with ID: "

  /** The message of the exception the services raise for a missing lesson. */
  const LessonNotFoundPrefix: string := "Lesson not found with ID: "

  /** The message MySQL reports for a deletion a foreign key refuses. */
  const ForeignKeyFails: string := "Cannot delete or update a parent row: a foreign key constraint fails"

  /** After the cascade, every course, lesson, assignment, question and quiz references existing rows. */
  lemma CascadeLinksContent(s: State)
    ensures var r := Cascade(s);
      && CoursesLinked(r.courses, r.users)
      && LessonsLinked(r.lessons, r.courses)
      && AssignmentsLinked(r.assignments, r.courses)
      && QuestionsLinked(r.questions, r.courses)
      && (forall k :: k in r.quizzes ==> r.quizzes[k].course in r.courses)
  {
  }

  /** After the cascade, every enrollment, submission, result, attendance row and notification references existing rows. */
  lemma CascadeLinksRecords(s: State)
    ensures var r := Cascade(s);
      && EnrollmentsLinked(r.enrollments, r.users, r.courses)
      && SubmissionsLinked(r.studentAssignments, r.assignments, r.users, r.courses)
      && ResultsLinked(r.studentQuizzes, r.quizzes, r.users)
      && AttendanceLinked(r.studentLessons, r.users, r.lessons)
      && NotificationsLinked(r.notifications, r.users)
  {
  }

  /** The cascade leaves every foreign key resolved, unless a non-cascading key refuses it. */
  lemma CascadeLinked(s: State)
    requires !QuestionsLost(Cascade(s))
    ensures Linked(Cascade(s))
  {
    CascadeLinksContent(s);
    CascadeLinksRecords(s);
  }

  /** Keeping only some of a table's rows keeps its keys below the counter. */
  lemma BelowSubset<T>(m: map<Id, T>, r: map<Id, T>, next: Id)
    requires Below(m, next) && forall k :: k in r ==> k in m
    ensures Below(r, next)
  {
  }

  /** The cascade only removes rows, so every key stays below the counter. */
  lemma CascadeKeepsKeys(s: State)
    requires KeysBelow(s)
    ensures KeysBelow(Cascade(s))
  {
    var r := Cascade(s);
    BelowSubset(s.courses, r.courses, s.nextId);
    BelowSubset(s.lessons, r.lessons, s.nextId);
    BelowSubset(s.assignments, r.assignments, s.nextId);
    BelowSubset(s.questions, r.questions, s.nextId);
    BelowSubset(s.quizzes, r.quizzes, s.nextId);
    BelowSubset(s.enrollments, r.enrollments, s.nextId);
    BelowSubset(s.studentAssignments, r.studentAssignments, s.nextId);
    BelowSubset(s.studentQuizzes, r.studentQuizzes, s.nextId);
    BelowSubset(s.studentLessons, r.studentLessons, s.nextId);
    BelowSubset(s.notifications, r.notifications, s.nextId);
  }

  /** The cascade only removes rows, so emails and pairs stay unique. */
  lemma CascadeKeepsUnique(s: State)
    requires Unique(s)
    ensures Unique(Cascade(s))
  {
  }

  /** A cascade that no foreign key refuses leaves a consistent database. */
  lemma CascadeConsistent(s: State)
    requires KeysBelow(s) && Unique(s)
    requires !QuestionsLost(Cascade(s))
    ensures Consistent(Cascade(s))
  {
    CascadeLinked(s);
    CascadeKeepsKeys(s);
    CascadeKeepsUnique(s);
  }

  /**
   * The repositories' shared persistence context: every save and delete a
   * service performs replaces the contents of one table in `tables`.
   */
  class Database {
    var tables: State

    ghost predicate Valid()
      reads this
    {
      Consistent(tables)
    }

    constructor ()
      ensures tables == Empty && Valid()
    {
      tables := Empty;
    }

    /** Hand out the next primary key. */
    method NewId() returns (id: Id)
      modifies this
      ensures id == old(tables.nextId) && tables == old(tables).(nextId := id + 1)
    {
      id := tables.nextId;
      tables := tables.(nextId := id + 1);
    }
  }
}
