/**
 * StudentAssignmentResponseDTO.mapToResponseDTO: what a client sees of a
 * submission, with its grade turned into a percentage of the assignment's
 * maximum grade.
 */
module StudentAssignmentResponse {
  import opened Wrappers
  import opened Tables
  import opened UserRole
  import opened Entities
  import opened Store

  /**
   * A Java double, without rounding: a finite value, or what dividing by zero
   * yields (NaN for 0 / 0, an infinity otherwise).
   */
  datatype Double = Finite(value: real) | NaN | PositiveInfinity | NegativeInfinity

  /** x / y in double arithmetic, for integral operands. */
  function Divide(x: int, y: int): (d: Double)
    ensures y != 0 ==> d == Finite(x as real / y as real)
    ensures y == 0 ==> !d.Finite?
  {
    if y != 0 then Finite(x as real / y as real)
    else if x == 0 then NaN
    else if x > 0 then PositiveInfinity
    else NegativeInfinity
  }

  /** d * 100: scaling keeps NaN and the infinities. */
  function Hundredfold(d: Double): Double
  {
    if d.Finite? then Finite(d.value * 100.0) else d
  }

  /** The score: grade / maxGrade * 100, computed in double arithmetic. */
  function Score(grade: int, maxGrade: int): Double
  {
    Hundredfold(Divide(grade, maxGrade))
  }

  /**
   * With a positive maximum the score is finite, lies between 0 and 100 exactly
   * when the grade lies between 0 and the maximum, is 100 at the maximum, and is
   * above 100 for a grade above the maximum: nothing clamps it. With a zero
   * maximum it is not a number.
   */
  lemma ScoreRange(grade: int, maxGrade: int)
    ensures maxGrade > 0 ==> Score(grade, maxGrade).Finite?
    ensures maxGrade > 0 ==>
      (0.0 <= Score(grade, maxGrade).value <= 100.0 <==> 0 <= grade <= maxGrade)
    ensures maxGrade > 0 && grade == maxGrade ==> Score(grade, maxGrade) == Finite(100.0)
    ensures maxGrade > 0 && grade > maxGrade ==> Score(grade, maxGrade).value > 100.0
    ensures maxGrade == 0 ==> !Score(grade, maxGrade).Finite?
  {
    if maxGrade > 0 {
      var m := maxGrade as real;
      var q := grade as real / m;
      assert q * m == grade as real;
      SignOfProduct(q, m);
      SignOfProduct(q - 1.0, m);
      assert (q - 1.0) * m == grade as real - m;
    }
  }

  /** Multiplying by a positive number keeps the sign. */
  lemma SignOfProduct(x: real, m: real)
    requires m > 0.0
    ensures x * m > 0.0 <==> x > 0.0
    ensures x * m == 0.0 <==> x == 0.0
  {
  }

  /** CourseResponseDTO. */
  datatype CourseResponse = CourseResponse(id: Id, instructorName: string, title: string, duration: string, description: string)

  /** UserResponseDTO. */
  datatype UserResponse = UserResponse(name: string, email: string, role: string)

  /** CourseResponseDTO.mapToResponseDTO: the course's fields and its instructor's name. */
  function CourseResponseOf(s: State, courseId: Id): (c: CourseResponse)
    requires courseId in s.courses && s.courses[courseId].instructor in s.users
    ensures c.id == courseId && c.instructorName == s.users[s.courses[courseId].instructor].name
    ensures var course := s.courses[courseId];
      c.title == course.title && c.duration == course.duration && c.description == course.description
  {
    var course := s.courses[courseId];
    CourseResponse(courseId, s.users[course.instructor].name, course.title, course.duration, course.description)
  }

  /** UserResponseDTO.mapToResponseDTO: name, email and the role's enum name. */
  function UserResponseOf(u: User): (r: UserResponse)
    ensures r.name == u.name && r.email == u.email && r.role == Name(u.role)
  {
    UserResponse(u.name, u.email, Name(u.role))
  }

  datatype SubmissionResponse = SubmissionResponse(
    id: Id, course: CourseResponse, student: UserResponse, grade: int, score: Double, feedback: Option<string>)

  /** The references a submission's response follows all resolve. */
  ghost predicate Resolves(s: State, row: StudentAssignment)
  {
    && row.course in s.courses && s.courses[row.course].instructor in s.users
    && row.student in s.users
    && row.assignment in s.assignments
  }

  /** In a linked database every submission's references resolve. */
  lemma LinkedResolves(s: State, id: Id)
    requires Linked(s) && id in s.studentAssignments
    ensures Resolves(s, s.studentAssignments[id])
  {
  }

  /**
   * mapToResponseDTO: id, grade and feedback copied; course and student mapped
   * by their own DTOs; score the grade as a percentage of the assignment's
   * maxGrade.
   */
  function MapToResponseDTO(s: State, row: Keyed<StudentAssignment>): (d: SubmissionResponse)
    requires Resolves(s, row.val)
    ensures d.id == row.id && d.grade == row.val.grade && d.feedback == row.val.feedback
    ensures d.course == CourseResponseOf(s, row.val.course) && d.student == UserResponseOf(s.users[row.val.student])
    ensures d.score == Score(row.val.grade, s.assignments[row.val.assignment].maxGrade)
  {
    SubmissionResponse(
      row.id,
      CourseResponseOf(s, row.val.course),
      UserResponseOf(s.users[row.val.student]),
      row.val.grade,
      Score(row.val.grade, s.assignments[row.val.assignment].maxGrade),
      row.val.feedback)
  }
}
