/**
 * StudentAssignmentService: a student's submission for an assignment, its
 * grading by the course instructor, its deletion, and who may see its files.
 */
module StudentAssignmentService {
  import opened Wrappers
  import opened Tables
  import opened UserRole
  import opened Entities
  import opened Store
  import opened StudentAssignmentResponse
  import EnrollmentService

  const StudentNotFoundPrefix: string := "Student not found with ID: "
  const AlreadySubmitted: string := "Student is already enrolled in this assignment"
  const SubmissionNotFoundPrefix: string := "Student Assignment not found with ID: "
  const NotAuthorizedToView: string := "You are not authorized to view this submission"
  const StudentAuthority: string := "ROLE_STUDENT"
  const InstructorAuthority: string := "ROLE_INSTRUCTOR"

  /** Whether student already has a submission for assignment: the exists helper. */
  predicate HasSubmission(s: State, student: Id, assignment: Id)
  {
    exists k :: k in s.studentAssignments
      && s.studentAssignments[k].assignment == assignment && s.studentAssignments[k].student == student
  }

  /** The database after saving submission row with the next id. */
  function WithSubmission(s: State, row: StudentAssignment): State
  {
    s.(studentAssignments := s.studentAssignments[s.nextId := row], nextId := s.nextId + 1)
  }

  /**
   * createStudentAssignment: the assignment, the course and the student must
   * exist, in that order; the student must be enrolled in the course
   * (getEnrollmentByStudentAndCourse throws otherwise, so its own "not enrolled"
   * branch is never reached); there must be no submission for the pair yet.
   * The saved row has no files, no feedback and grade 0.
   */
  function CreateStudentAssignmentStep(s: State, assignmentId: Id, courseId: Id, userId: Id): (o: Step<SubmissionResponse>)
    requires Linked(s)
    ensures assignmentId !in s.assignments ==> o.result.FailsWith(NotFound, AssignmentNotFoundPrefix + IdText(assignmentId))
    ensures assignmentId in s.assignments && courseId !in s.courses ==>
      o.result.FailsWith(NotFound, CourseNotFoundPrefix + IdText(courseId))
    ensures assignmentId in s.assignments && courseId in s.courses && userId !in s.users ==>
      o.result.FailsWith(NotFound, StudentNotFoundPrefix + IdText(userId))
    ensures (&& assignmentId in s.assignments && courseId in s.courses && userId in s.users
             && !EnrollmentService.Enrolled(s, userId, courseId)) ==>
      o.result.FailsWith(NotFound, EnrollmentService.EntityNotFound)
    ensures (&& assignmentId in s.assignments && courseId in s.courses && userId in s.users
             && EnrollmentService.Enrolled(s, userId, courseId) && HasSubmission(s, userId, assignmentId)) ==>
      o.result.FailsWith(Conflict, AlreadySubmitted)
    ensures o.result.Ok? <==>
      && assignmentId in s.assignments && courseId in s.courses && userId in s.users
      && EnrollmentService.Enrolled(s, userId, courseId) && !HasSubmission(s, userId, assignmentId)
    ensures o.result.Err? ==> o.state == s
    ensures o.result.Ok? ==>
      var row := StudentAssignment(assignmentId, userId, courseId, [], None, 0);
      && o.state == WithSubmission(s, row)
      && Resolves(o.state, row)
      && o.result.value == MapToResponseDTO(o.state, Keyed(s.nextId, row))
  {
    if assignmentId !in s.assignments then Fail(s, NotFound, AssignmentNotFoundPrefix + IdText(assignmentId))
    else if courseId !in s.courses then Fail(s, NotFound, CourseNotFoundPrefix + IdText(courseId))
    else if userId !in s.users then Fail(s, NotFound, StudentNotFoundPrefix + IdText(userId))
    else
      var enrollment := EnrollmentService.GetEnrollmentByStudentAndCourse(s, userId, courseId);
      if enrollment.Err? then Step(enrollment.PropagateFailure(), s)
      else if HasSubmission(s, userId, assignmentId) then Fail(s, Conflict, AlreadySubmitted)
      else
        var row := StudentAssignment(assignmentId, userId, courseId, [], None, 0);
        var r := WithSubmission(s, row);
        Step(Ok(MapToResponseDTO(r, Keyed(s.nextId, row))), r)
  }

  /**
   * Nothing ties the submission's course to the assignment's: an enrolled
   * student may submit an assignment of another course under this one.
   */
  lemma SubmissionCourseNotChecked(s: State, assignmentId: Id, courseId: Id, userId: Id)
    requires Linked(s)
    requires assignmentId in s.assignments && courseId in s.courses && userId in s.users
    requires EnrollmentService.Enrolled(s, userId, courseId) && !HasSubmission(s, userId, assignmentId)
    requires s.assignments[assignmentId].course != courseId
    ensures var o := CreateStudentAssignmentStep(s, assignmentId, courseId, userId);
      o.result.Ok? && o.state.studentAssignments[s.nextId].course != o.state.assignments[assignmentId].course
  {
  }

  /** Saving a submission for a pair with none keeps the database consistent. */
  lemma WithSubmissionConsistent(s: State, row: StudentAssignment)
    requires Consistent(s)
    requires row.assignment in s.assignments && row.student in s.users && row.course in s.courses
    requires !HasSubmission(s, row.student, row.assignment)
    ensures Consistent(WithSubmission(s, row))
  {
    var r := WithSubmission(s, row);
    assert KeysBelow(r) by {
      assert Below(r.studentAssignments, r.nextId);
    }
    assert SubmissionsLinked(r.studentAssignments, r.assignments, r.users, r.courses);
    assert SubmissionPairsUnique(r.studentAssignments) by {
      forall x, y | x in r.studentAssignments && y in r.studentAssignments && x != y
        ensures r.studentAssignments[x].assignment != r.studentAssignments[y].assignment
             || r.studentAssignments[x].student != r.studentAssignments[y].student
      {
        if x == s.nextId {
          assert y in s.studentAssignments;
        } else if y == s.nextId {
          assert x in s.studentAssignments;
        }
      }
    }
  }

  /** createStudentAssignment keeps the database consistent, in particular one submission per (assignment, student). */
  lemma CreateStudentAssignmentConsistent(s: State, assignmentId: Id, courseId: Id, userId: Id)
    requires Consistent(s)
    ensures Consistent(CreateStudentAssignmentStep(s, assignmentId, courseId, userId).state)
  {
    if CreateStudentAssignmentStep(s, assignmentId, courseId, userId).result.Ok? {
      WithSubmissionConsistent(s, StudentAssignment(assignmentId, userId, courseId, [], None, 0));
    }
  }

  /** A second submission of the same assignment by the same student is refused. */
  lemma CreateStudentAssignmentTwiceConflicts(s: State, assignmentId: Id, courseId: Id, userId: Id)
    requires Linked(s)
    requires CreateStudentAssignmentStep(s, assignmentId, courseId, userId).result.Ok?
    ensures var r := CreateStudentAssignmentStep(s, assignmentId, courseId, userId).state;
      Linked(r) && CreateStudentAssignmentStep(r, assignmentId, courseId, userId).result.FailsWith(Conflict, AlreadySubmitted)
  {
    var r := CreateStudentAssignmentStep(s, assignmentId, courseId, userId).state;
    assert r.studentAssignments[s.nextId].student == userId;
    assert HasSubmission(r, userId, assignmentId);
    var k :| k in s.enrollments && s.enrollments[k].student == userId && s.enrollments[k].course == courseId;
    assert r.enrollments[k] == s.enrollments[k];
    assert SubmissionsLinked(r.studentAssignments, r.assignments, r.users, r.courses);
  }

  /** The submission after grading: grade and feedback replaced, whatever the assignment's maxGrade. */
  function Graded(row: StudentAssignment, grade: int, feedback: Option<string>): (g: StudentAssignment)
    ensures g.grade == grade && g.feedback == feedback
    ensures g.assignment == row.assignment && g.student == row.student && g.course == row.course && g.fileNames == row.fileNames
  {
    row.(grade := grade, feedback := feedback)
  }

  /**
   * gradeStudentAssignmentAndAddFeedback: the submission must exist, and the
   * caller must be the instructor of the submission's course; then grade and
   * feedback are set to the request's values.
   */
  function GradeStep(s: State, id: Id, grade: int, feedback: Option<string>, userId: Id): (o: Step<SubmissionResponse>)
    requires Linked(s)
    ensures id !in s.studentAssignments ==> o.result.FailsWith(NotFound, SubmissionNotFoundPrefix + IdText(id))
    ensures id in s.studentAssignments && !Teaches(s, userId, s.studentAssignments[id].course) ==>
      o.result.FailsWith(InvalidUser, EnrollmentService.NotTheInstructor)
    ensures o.result.Ok? <==> id in s.studentAssignments && Teaches(s, userId, s.studentAssignments[id].course)
    ensures o.result.Err? ==> o.state == s
    ensures o.result.Ok? ==>
      var row := Graded(s.studentAssignments[id], grade, feedback);
      && o.state.studentAssignments == s.studentAssignments[id := row]
      && o.state.(studentAssignments := s.studentAssignments) == s
      && Resolves(o.state, row)
      && o.result.value == MapToResponseDTO(o.state, Keyed(id, row))
  {
    if id !in s.studentAssignments then Fail(s, NotFound, SubmissionNotFoundPrefix + IdText(id))
    else
      var row := s.studentAssignments[id];
      if s.courses[row.course].instructor != userId then Fail(s, InvalidUser, EnrollmentService.NotTheInstructor)
      else
        var g := Graded(row, grade, feedback);
        var r := s.(studentAssignments := s.studentAssignments[id := g]);
        Step(Ok(MapToResponseDTO(r, Keyed(id, g))), r)
  }

  /**
   * No bound is checked against the assignment's maxGrade: an instructor may
   * grade above it, and the reported score then exceeds 100.
   */
  lemma GradeAboveMaximum(s: State, id: Id, grade: int, feedback: Option<string>, userId: Id)
    requires Linked(s)
    requires id in s.studentAssignments && Teaches(s, userId, s.studentAssignments[id].course)
    requires var max := s.assignments[s.studentAssignments[id].assignment].maxGrade; 0 < max < grade
    ensures var o := GradeStep(s, id, grade, feedback, userId);
      o.result.Ok? && o.result.value.score.Finite? && o.result.value.score.value > 100.0
  {
    ScoreRange(grade, s.assignments[s.studentAssignments[id].assignment].maxGrade);
  }

  /** Grading keeps the database consistent: it changes no reference. */
  lemma GradeConsistent(s: State, id: Id, grade: int, feedback: Option<string>, userId: Id)
    requires Consistent(s)
    ensures Consistent(GradeStep(s, id, grade, feedback, userId).state)
  {
    var o := GradeStep(s, id, grade, feedback, userId);
    if o.result.Ok? {
      var r := o.state;
      assert SubmissionsLinked(r.studentAssignments, r.assignments, r.users, r.courses);
      assert SubmissionPairsUnique(r.studentAssignments);
      assert KeysBelow(r);
    }
  }

  /** deleteStudentAssignment: fails for a missing id; otherwise removes exactly that row. */
  function DeleteStudentAssignmentStep(s: State, id: Id): (o: Step<()>)
    ensures id !in s.studentAssignments ==>
      o.result.FailsWith(NotFound, SubmissionNotFoundPrefix + IdText(id)) && o.state == s
    ensures id in s.studentAssignments ==>
      o.result.Ok? && o.state == s.(studentAssignments := s.studentAssignments - {id})
  {
    if id !in s.studentAssignments then Fail(s, NotFound, SubmissionNotFoundPrefix + IdText(id))
    else Step(Ok(()), s.(studentAssignments := s.studentAssignments - {id}))
  }

  /** Deleting a submission keeps the database consistent: nothing refers to submissions. */
  lemma DeleteStudentAssignmentConsistent(s: State, id: Id)
    requires Consistent(s)
    ensures Consistent(DeleteStudentAssignmentStep(s, id).state)
  {
    var r := DeleteStudentAssignmentStep(s, id).state;
    if id in s.studentAssignments {
      assert KeysBelow(r) by {
        assert Below(r.studentAssignments, r.nextId);
      }
      assert SubmissionsLinked(r.studentAssignments, r.assignments, r.users, r.courses);
      assert SubmissionPairsUnique(r.studentAssignments);
    }
  }

  /**
   * The authorization part of getStudentSubmissions: findById(id).get() on the
   * submission; a caller holding ROLE_STUDENT must own it; a caller holding
   * ROLE_INSTRUCTOR must teach the course of the submission's assignment. The
   * result is the submission's file names.
   */
  function SubmissionFiles(s: State, id: Id, callerId: Id): (r: Result<seq<string>>)
    requires Linked(s) && callerId in s.users
    ensures id !in s.studentAssignments ==> r.FailsWith(Internal, NoValuePresent)
    ensures r.Ok? ==> r.value == s.studentAssignments[id].fileNames
  {
    if id !in s.studentAssignments then Err(Failure(Internal, NoValuePresent))
    else
      var row := s.studentAssignments[id];
      var role := s.users[callerId].role;
      if HasAuthority(role, StudentAuthority) && row.student != callerId then
        Err(Failure(Unauthorized, NotAuthorizedToView))
      else if HasAuthority(role, InstructorAuthority) && s.courses[s.assignments[row.assignment].course].instructor != callerId then
        Err(Failure(InvalidUser, EnrollmentService.NotTheInstructor))
      else Ok(row.fileNames)
  }

  /**
   * Who sees a submission's files, by role: an ADMIN always, a STUDENT only
   * their own, an INSTRUCTOR only one for an assignment of a course they teach.
   */
  lemma SubmissionFilesAccess(s: State, id: Id, callerId: Id)
    requires Linked(s) && callerId in s.users && id in s.studentAssignments
    ensures var row := s.studentAssignments[id];
      SubmissionFiles(s, id, callerId).Ok? <==>
        match s.users[callerId].role
        case ADMIN => true
        case STUDENT => row.student == callerId
        case INSTRUCTOR => Teaches(s, callerId, s.assignments[row.assignment].course)
    ensures var row := s.studentAssignments[id];
      s.users[callerId].role == STUDENT && row.student != callerId ==>
        SubmissionFiles(s, id, callerId).FailsWith(Unauthorized, NotAuthorizedToView)
    ensures var row := s.studentAssignments[id];
      s.users[callerId].role == INSTRUCTOR && !Teaches(s, callerId, s.assignments[row.assignment].course) ==>
        SubmissionFiles(s, id, callerId).FailsWith(InvalidUser, EnrollmentService.NotTheInstructor)
  {
    var role := s.users[callerId].role;
    assert StudentAuthority == "ROLE_" + Name(STUDENT);
    assert InstructorAuthority == "ROLE_" + Name(INSTRUCTOR);
    AuthorityIdentifiesRole(role, STUDENT);
    AuthorityIdentifiesRole(role, INSTRUCTOR);
  }

  class StudentAssignmentService {
    const db: Database

    constructor (db: Database)
      ensures this.db == db
    {
      this.db := db;
    }

    method CreateStudentAssignment(assignmentId: Id, courseId: Id, userId: Id) returns (r: Result<SubmissionResponse>)
      requires db.Valid()
      modifies db
      ensures db.Valid()
      ensures var o := CreateStudentAssignmentStep(old(db.tables), assignmentId, courseId, userId);
        r == o.result && db.tables == o.state
    {
      CreateStudentAssignmentConsistent(db.tables, assignmentId, courseId, userId);
      if assignmentId !in db.tables.assignments {
        return Err(Failure(NotFound, AssignmentNotFoundPrefix + IdText(assignmentId)));
      }
      if courseId !in db.tables.courses {
        return Err(Failure(NotFound, CourseNotFoundPrefix + IdText(courseId)));
      }
      if userId !in db.tables.users {
        return Err(Failure(NotFound, StudentNotFoundPrefix + IdText(userId)));
      }
      var enrollment := EnrollmentService.GetEnrollmentByStudentAndCourse(db.tables, userId, courseId);
      if enrollment.Err? {
        return enrollment.PropagateFailure();
      }
      if HasSubmission(db.tables, userId, assignmentId) {
        return Err(Failure(Conflict, AlreadySubmitted));
      }
      var submission := StudentAssignment(assignmentId, userId, courseId, [], None, 0);
      var id := db.NewId();
      db.tables := db.tables.(studentAssignments := db.tables.studentAssignments[id := submission]);
      r := Ok(MapToResponseDTO(db.tables, Keyed(id, submission)));
    }

    method GradeStudentAssignmentAndAddFeedback(id: Id, grade: int, feedback: Option<string>, userId: Id)
      returns (r: Result<SubmissionResponse>)
      requires db.Valid()
      modifies db
      ensures db.Valid()
      ensures var o := GradeStep(old(db.tables), id, grade, feedback, userId);
        r == o.result && db.tables == o.state
    {
      GradeConsistent(db.tables, id, grade, feedback, userId);
      if id !in db.tables.studentAssignments {
        return Err(Failure(NotFound, SubmissionNotFoundPrefix + IdText(id)));
      }
      var submission := db.tables.studentAssignments[id];
      if db.tables.courses[submission.course].instructor != userId {
        return Err(Failure(InvalidUser, EnrollmentService.NotTheInstructor));
      }
      submission := submission.(grade := grade, feedback := feedback);
      db.tables := db.tables.(studentAssignments := db.tables.studentAssignments[id := submission]);
      r := Ok(MapToResponseDTO(db.tables, Keyed(id, submission)));
    }

    method DeleteStudentAssignment(id: Id) returns (r: Result<()>)
      requires db.Valid()
      modifies db
      ensures db.Valid()
      ensures var o := DeleteStudentAssignmentStep(old(db.tables), id);
        r == o.result && db.tables == o.state
    {
      DeleteStudentAssignmentConsistent(db.tables, id);
      if id !in db.tables.studentAssignments {
        return Err(Failure(NotFound, SubmissionNotFoundPrefix + IdText(id)));
      }
      db.tables := db.tables.(studentAssignments := db.tables.studentAssignments - {id});
      r := Ok(());
    }
  }
}
