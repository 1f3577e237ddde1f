/**
 * AssignmentService: creating, updating and deleting a course's assignments,
 * with notifications to the instructor and the enrolled students, and reading
 * them back as AssignmentResponseDTOs.
 */
module AssignmentService {
  import opened Wrappers
  import opened Tables
  import opened Entities
  import opened Store
  import opened NotificationService
  import opened StudentAssignmentResponse
  import opened EnrollmentService

  const NotTheInstructorFor: string := "You are not the instructor for this course"
  const CreatedPrefix: string := "New Assignment Created Successfully for course "
  const PostedPrefix: string := "New Assignment has been posted for course "
  const UpdatedPrefix: string := "Assignment Updated Successfully for course "
  const DeletedPrefix: string := "Assignment Deleted Successfully for course "

  /** AssignmentResponseDTO. */
  datatype AssignmentResponse = AssignmentResponse(id: Id, course: CourseResponse, instructions: string, maxGrade: int)

  /** AssignmentResponseDTO.mapToResponseDTO: id, instructions and maxGrade copied, the course by its own mapper. */
  function AssignmentResponseOf(s: State, row: Keyed<Assignment>): (d: AssignmentResponse)
    requires row.val.course in s.courses && s.courses[row.val.course].instructor in s.users
    ensures d.id == row.id && d.instructions == row.val.instructions && d.maxGrade == row.val.maxGrade
    ensures d.course == CourseResponseOf(s, row.val.course)
  {
    AssignmentResponse(row.id, CourseResponseOf(s, row.val.course), row.val.instructions, row.val.maxGrade)
  }

  /**
   * The notifications about course courseId: first toInstructor to the course's
   * instructor, then toStudents to the student of each enrollment of the course.
   */
  function Announce(s: State, courseId: Id, toInstructor: string, toStudents: string): State
    requires courseId in s.courses
  {
    Broadcast(Notified(s, s.courses[courseId].instructor, toInstructor), StudentsOf(EnrollmentsIn(s, courseId)), toStudents)
  }

  /**
   * An announcement appends 1 + (number of enrollments) notifications and
   * changes nothing else: the instructor's first, then one per enrolled
   * student in enrollment order.
   */
  lemma AnnounceDelivers(s: State, courseId: Id, toInstructor: string, toStudents: string)
    requires courseId in s.courses
    ensures var r := Announce(s, courseId, toInstructor, toStudents);
      var rows := EnrollmentsIn(s, courseId);
      && r.nextId == s.nextId + 1 + |rows|
      && r == s.(notifications := r.notifications, nextId := r.nextId)
      && (forall k :: k in r.notifications <==> k in s.notifications || s.nextId <= k <= s.nextId + |rows|)
      && (forall k :: k in s.notifications && !(s.nextId <= k <= s.nextId + |rows|) ==> r.notifications[k] == s.notifications[k])
      && r.notifications[s.nextId] == Notification(s.courses[courseId].instructor, false, toInstructor)
      && (forall i :: 0 <= i < |rows| ==> r.notifications[s.nextId + 1 + i] == Notification(rows[i].val.student, false, toStudents))
  {
    NotifyThenBroadcast(s, s.courses[courseId].instructor, toInstructor, StudentsOf(EnrollmentsIn(s, courseId)), toStudents);
  }

  /** Every student enrolled in the course receives the announcement. */
  lemma AnnounceReachesEnrolled(s: State, courseId: Id, toInstructor: string, toStudents: string)
    requires courseId in s.courses
    ensures var r := Announce(s, courseId, toInstructor, toStudents);
      forall k :: k in s.enrollments && s.enrollments[k].course == courseId ==>
        exists n :: n in r.notifications && r.notifications[n] == Notification(s.enrollments[k].student, false, toStudents)
  {
    var rows := EnrollmentsIn(s, courseId);
    var r := Announce(s, courseId, toInstructor, toStudents);
    AnnounceDelivers(s, courseId, toInstructor, toStudents);
    forall k | k in s.enrollments && s.enrollments[k].course == courseId
      ensures exists n :: n in r.notifications && r.notifications[n] == Notification(s.enrollments[k].student, false, toStudents)
    {
      var i :| 0 <= i < |rows| && rows[i] == Keyed(k, s.enrollments[k]);
      assert r.notifications[s.nextId + 1 + i] == Notification(rows[i].val.student, false, toStudents);
    }
  }

  /** Announcing to an existing course keeps the database consistent. */
  lemma AnnounceConsistent(s: State, courseId: Id, toInstructor: string, toStudents: string)
    requires Consistent(s) && courseId in s.courses
    ensures Consistent(Announce(s, courseId, toInstructor, toStudents))
  {
    NotifiedConsistent(s, s.courses[courseId].instructor, toInstructor);
    var s1 := Notified(s, s.courses[courseId].instructor, toInstructor);
    var students := StudentsOf(EnrollmentsIn(s, courseId));
    BroadcastConsistent(s1, students, toStudents);
  }

  function CreatedMessage(title: string): string
  {
    CreatedPrefix + title
  }

  function PostedMessage(title: string): string
  {
    PostedPrefix + title
  }

  function UpdatedMessage(title: string): string
  {
    UpdatedPrefix + title
  }

  function DeletedMessage(title: string): string
  {
    DeletedPrefix + title
  }

  /**
   * createAssignment: the course must exist and the caller must be its
   * instructor. Then the instructor and every enrolled student are notified,
   * and the assignment is saved with the next id, holding the request's
   * instructions and maxGrade.
   */
  function CreateAssignmentStep(s: State, courseId: Id, instructions: string, maxGrade: int, invoker: Id): (o: Step<AssignmentResponse>)
    requires Linked(s)
    ensures courseId !in s.courses ==> o.result.FailsWith(NotFound, CourseNotFoundPrefix + IdText(courseId))
    ensures courseId in s.courses && s.courses[courseId].instructor != invoker ==>
      o.result.FailsWith(InvalidUser, NotTheInstructorFor)
    ensures o.result.Ok? <==> Teaches(s, invoker, courseId)
    ensures o.result.Err? ==> o.state == s
    ensures o.result.Ok? ==>
      var a := Assignment(courseId, instructions, maxGrade);
      var id := s.nextId + 1 + |EnrollmentsIn(s, courseId)|;
      && o.state.nextId == id + 1
      && o.state.assignments == s.assignments[id := a]
      && o.state.(assignments := s.assignments, notifications := s.notifications, nextId := s.nextId) == s
      && o.result.value == AssignmentResponseOf(o.state, Keyed(id, a))
  {
    if courseId !in s.courses then Fail(s, NotFound, CourseNotFoundPrefix + IdText(courseId))
    else if s.courses[courseId].instructor != invoker then Fail(s, InvalidUser, NotTheInstructorFor)
    else
      var title := s.courses[courseId].title;
      AnnounceDelivers(s, courseId, CreatedMessage(title), PostedMessage(title));
      var s1 := Announce(s, courseId, CreatedMessage(title), PostedMessage(title));
      var a := Assignment(courseId, instructions, maxGrade);
      var r := s1.(assignments := s1.assignments[s1.nextId := a], nextId := s1.nextId + 1);
      Step(Ok(AssignmentResponseOf(r, Keyed(s1.nextId, a))), r)
  }

  /**
   * A created assignment is announced to its course: the instructor with
   * "New Assignment Created Successfully ...", then each enrolled student with
   * "New Assignment has been posted ...", and no one else.
   */
  lemma CreateAssignmentNotifies(s: State, courseId: Id, instructions: string, maxGrade: int, invoker: Id)
    requires Linked(s) && Teaches(s, invoker, courseId)
    ensures var r := CreateAssignmentStep(s, courseId, instructions, maxGrade, invoker).state;
      var title := s.courses[courseId].title;
      var rows := EnrollmentsIn(s, courseId);
      && (forall k :: k in r.notifications <==> k in s.notifications || s.nextId <= k <= s.nextId + |rows|)
      && r.notifications[s.nextId] == Notification(invoker, false, CreatedMessage(title))
      && (forall i :: 0 <= i < |rows| ==>
            r.notifications[s.nextId + 1 + i] == Notification(rows[i].val.student, false, PostedMessage(title)))
      && (forall k :: k in s.enrollments && s.enrollments[k].course == courseId ==>
            exists n :: n in r.notifications && r.notifications[n] == Notification(s.enrollments[k].student, false, PostedMessage(title)))
  {
    var title := s.courses[courseId].title;
    AnnounceDelivers(s, courseId, CreatedMessage(title), PostedMessage(title));
    AnnounceReachesEnrolled(s, courseId, CreatedMessage(title), PostedMessage(title));
  }

  /** createAssignment keeps the database consistent. */
  lemma CreateAssignmentConsistent(s: State, courseId: Id, instructions: string, maxGrade: int, invoker: Id)
    requires Consistent(s)
    ensures Consistent(CreateAssignmentStep(s, courseId, instructions, maxGrade, invoker).state)
  {
    if Teaches(s, invoker, courseId) {
      var title := s.courses[courseId].title;
      AnnounceConsistent(s, courseId, CreatedMessage(title), PostedMessage(title));
      var s1 := Announce(s, courseId, CreatedMessage(title), PostedMessage(title));
      var r := CreateAssignmentStep(s, courseId, instructions, maxGrade, invoker).state;
      assert r == s1.(assignments := s1.assignments[s1.nextId := Assignment(courseId, instructions, maxGrade)], nextId := s1.nextId + 1);
      assert KeysBelow(r) by {
        assert Below(r.assignments, r.nextId);
      }
      assert AssignmentsLinked(r.assignments, r.courses);
      assert SubmissionsLinked(r.studentAssignments, r.assignments, r.users, r.courses);
    }
  }

  /**
   * The assignment after an update: instructions and maxGrade replaced. The
   * course stays: the courseId the update sets is a read-only copy of the
   * course column.
   */
  function Revised(a: Assignment, instructions: string, maxGrade: int): (r: Assignment)
    ensures r.instructions == instructions && r.maxGrade == maxGrade && r.course == a.course
  {
    a.(instructions := instructions, maxGrade := maxGrade)
  }

  /**
   * updateAssignment: the assignment must exist, then the course named in the
   * request, whose instructor the caller must be. Then instructions and
   * maxGrade are replaced, and the request course's instructor and enrolled
   * students are notified.
   */
  function UpdateAssignmentStep(s: State, id: Id, courseId: Id, instructions: string, maxGrade: int, invoker: Id): (o: Step<()>)
    requires Linked(s)
    ensures id !in s.assignments ==> o.result.FailsWith(NotFound, AssignmentNotFoundPrefix + IdText(id))
    ensures id in s.assignments && courseId !in s.courses ==> o.result.FailsWith(NotFound, CourseNotFoundPrefix + IdText(courseId))
    ensures id in s.assignments && courseId in s.courses && s.courses[courseId].instructor != invoker ==>
      o.result.FailsWith(InvalidUser, NotTheInstructorFor)
    ensures o.result.Ok? <==> id in s.assignments && Teaches(s, invoker, courseId)
    ensures o.result.Err? ==> o.state == s
    ensures o.result.Ok? ==>
      && o.state.assignments == s.assignments[id := Revised(s.assignments[id], instructions, maxGrade)]
      && o.state.(assignments := s.assignments, notifications := s.notifications, nextId := s.nextId) == s
      && o.state.nextId == s.nextId + 1 + |EnrollmentsIn(s, courseId)|
  {
    if id !in s.assignments then Fail(s, NotFound, AssignmentNotFoundPrefix + IdText(id))
    else if courseId !in s.courses then Fail(s, NotFound, CourseNotFoundPrefix + IdText(courseId))
    else if s.courses[courseId].instructor != invoker then Fail(s, InvalidUser, NotTheInstructorFor)
    else
      var title := s.courses[courseId].title;
      AnnounceDelivers(s, courseId, UpdatedMessage(title), UpdatedMessage(title));
      var s1 := Announce(s, courseId, UpdatedMessage(title), UpdatedMessage(title));
      Step(Ok(()), s1.(assignments := s1.assignments[id := Revised(s1.assignments[id], instructions, maxGrade)]))
  }

  /**
   * The update is authorized against the course in the request, not the
   * assignment's own course: the instructor of any course may revise another
   * course's assignment by naming their own course, and the assignment stays
   * in its course.
   */
  lemma UpdateAuthorizedByRequestCourse(s: State, id: Id, courseId: Id, instructions: string, maxGrade: int, invoker: Id)
    requires Linked(s) && id in s.assignments && Teaches(s, invoker, courseId)
    ensures var o := UpdateAssignmentStep(s, id, courseId, instructions, maxGrade, invoker);
      && o.result.Ok?
      && o.state.assignments[id].course == s.assignments[id].course
      && o.state.assignments[id].instructions == instructions
  {
  }

  /** updateAssignment keeps the database consistent. */
  lemma UpdateAssignmentConsistent(s: State, id: Id, courseId: Id, instructions: string, maxGrade: int, invoker: Id)
    requires Consistent(s)
    ensures Consistent(UpdateAssignmentStep(s, id, courseId, instructions, maxGrade, invoker).state)
  {
    if id in s.assignments && Teaches(s, invoker, courseId) {
      var title := s.courses[courseId].title;
      AnnounceConsistent(s, courseId, UpdatedMessage(title), UpdatedMessage(title));
      var r := UpdateAssignmentStep(s, id, courseId, instructions, maxGrade, invoker).state;
      assert KeysBelow(r) by {
        assert Below(r.assignments, r.nextId);
      }
      assert AssignmentsLinked(r.assignments, r.courses);
      assert SubmissionsLinked(r.studentAssignments, r.assignments, r.users, r.courses);
    }
  }

  /** The database after assignment id is deleted, with its submissions removed by ON DELETE CASCADE. */
  function WithoutAssignment(s: State, id: Id): State
  {
    Cascade(s.(assignments := s.assignments - {id}))
  }

  /** In a linked database, deleting an assignment leaves the courses, lessons, questions and quizzes as they were. */
  lemma WithoutAssignmentKeepsContent(s: State, id: Id)
    requires Linked(s)
    ensures var r := WithoutAssignment(s, id);
      && r.courses == s.courses && r.lessons == s.lessons && r.questions == s.questions && r.quizzes == s.quizzes
      && r.assignments == s.assignments - {id}
  {
    SameRows(s.courses, LiveCourses(s.courses, s.users));
    SameRows(s.lessons, InLiveCourse(s.lessons, (l: Lesson) => l.course, s.courses));
    SameRows(s.questions, InLiveCourse(s.questions, (q: Question) => q.course, s.courses));
    SameRows(s.quizzes, InLiveCourse(s.quizzes, (q: Quiz) => q.course, s.courses));
    SameRows(s.assignments - {id}, InLiveCourse(s.assignments - {id}, (a: Assignment) => a.course, s.courses));
  }

  /** In a linked database, deleting an assignment leaves the enrollments, quiz results, attendance and notifications as they were. */
  lemma WithoutAssignmentKeepsRecords(s: State, id: Id)
    requires Linked(s)
    ensures var r := WithoutAssignment(s, id);
      && r.enrollments == s.enrollments && r.studentQuizzes == s.studentQuizzes
      && r.studentLessons == s.studentLessons && r.notifications == s.notifications
  {
    WithoutAssignmentKeepsContent(s, id);
    SameRows(s.enrollments, LiveEnrollments(s.enrollments, s.users, s.courses));
    SameRows(s.studentQuizzes, LiveResults(s.studentQuizzes, s.users, s.quizzes));
    SameRows(s.studentLessons, LiveAttendance(s.studentLessons, s.users, s.lessons));
    SameRows(s.notifications, LiveNotifications(s.notifications, s.users));
  }

  /**
   * In a linked database, deleting an assignment removes exactly that row and
   * the submissions for it; every other table is unchanged.
   */
  lemma WithoutAssignmentRemoves(s: State, id: Id)
    requires Linked(s)
    ensures var r := WithoutAssignment(s, id);
      && r.assignments == s.assignments - {id}
      && (forall k :: k in r.studentAssignments <==> k in s.studentAssignments && s.studentAssignments[k].assignment != id)
      && (forall k :: k in r.studentAssignments ==> r.studentAssignments[k] == s.studentAssignments[k])
      && r.(assignments := s.assignments, studentAssignments := s.studentAssignments) == s
  {
    WithoutAssignmentKeepsContent(s, id);
    WithoutAssignmentKeepsRecords(s, id);
  }

  /** Deleting an assignment keeps the database consistent. */
  lemma WithoutAssignmentConsistent(s: State, id: Id)
    requires Consistent(s)
    ensures Consistent(WithoutAssignment(s, id))
  {
    var t := s.(assignments := s.assignments - {id});
    WithoutAssignmentRemoves(s, id);
    assert KeysBelow(t) by {
      BelowSubset(s.assignments, t.assignments, s.nextId);
    }
    CascadeConsistent(t);
  }

  /**
   * deleteAssignment: the assignment must exist and the caller must be the
   * instructor of the assignment's own course. Then it is deleted, with its
   * submissions, and only that instructor is notified; the delete is refused,
   * before any notification, when a foreign key without a cascade blocks it.
   * (The source looks the course up again by id; in a linked database that
   * lookup cannot fail.)
   */
  function DeleteAssignmentStep(s: State, id: Id, invoker: Id): (o: Step<()>)
    requires Linked(s)
    ensures id !in s.assignments ==> o.result.FailsWith(NotFound, AssignmentNotFoundPrefix + IdText(id))
    ensures id in s.assignments && !Teaches(s, invoker, s.assignments[id].course) ==>
      o.result.FailsWith(InvalidUser, NotTheInstructorFor)
    ensures id in s.assignments && Teaches(s, invoker, s.assignments[id].course) && Refused(s, WithoutAssignment(s, id)) ==>
      o.result.FailsWith(Conflict, ForeignKeyFails)
    ensures o.result.Ok? <==> id in s.assignments && Teaches(s, invoker, s.assignments[id].course) && !Refused(s, WithoutAssignment(s, id))
    ensures o.result.Err? ==> o.state == s
    ensures o.result.Ok? ==>
      var title := s.courses[s.assignments[id].course].title;
      && o.state.assignments == s.assignments - {id}
      && (forall k :: k in o.state.studentAssignments <==> k in s.studentAssignments && s.studentAssignments[k].assignment != id)
      && o.state.notifications == s.notifications[s.nextId := Notification(invoker, false, DeletedMessage(title))]
      && o.state.nextId == s.nextId + 1
      && o.state.(assignments := s.assignments, studentAssignments := s.studentAssignments,
                  notifications := s.notifications, nextId := s.nextId) == s
  {
    if id !in s.assignments then Fail(s, NotFound, AssignmentNotFoundPrefix + IdText(id))
    else
      var course := s.courses[s.assignments[id].course];
      if course.instructor != invoker then Fail(s, InvalidUser, NotTheInstructorFor)
      else if Refused(s, WithoutAssignment(s, id)) then Fail(s, Conflict, ForeignKeyFails)
      else
        WithoutAssignmentRemoves(s, id);
        Step(Ok(()), Notified(WithoutAssignment(s, id), course.instructor, DeletedMessage(course.title)))
  }

  /**
   * In a linked database the only foreign key that can refuse deleting an
   * assignment is student_assignment_files: the delete is refused exactly when
   * some submission for the assignment has files.
   */
  lemma DeleteAssignmentRefusedByFiles(s: State, id: Id)
    requires Linked(s) && id in s.assignments
    ensures Refused(s, WithoutAssignment(s, id)) <==>
      exists k :: k in s.studentAssignments && s.studentAssignments[k].assignment == id && |s.studentAssignments[k].fileNames| > 0
  {
    var r := WithoutAssignment(s, id);
    WithoutAssignmentRemoves(s, id);
    assert !QuestionsLost(r) by {
      assert QuizzesLinked(s.quizzes, s.courses, s.questions);
    }
    assert !MaterialsLost(s, r);
    assert Refused(s, r) <==> FilesLost(s, r);
    if FilesLost(s, r) {
      var k :| k in s.studentAssignments && k !in r.studentAssignments && |s.studentAssignments[k].fileNames| > 0;
      assert s.studentAssignments[k].assignment == id;
    }
    if exists k :: k in s.studentAssignments && s.studentAssignments[k].assignment == id && |s.studentAssignments[k].fileNames| > 0 {
      var k :| k in s.studentAssignments && s.studentAssignments[k].assignment == id && |s.studentAssignments[k].fileNames| > 0;
      assert k !in r.studentAssignments;
    }
  }

  /** deleteAssignment keeps the database consistent. */
  lemma DeleteAssignmentConsistent(s: State, id: Id, invoker: Id)
    requires Consistent(s)
    ensures Consistent(DeleteAssignmentStep(s, id, invoker).state)
  {
    if id in s.assignments && Teaches(s, invoker, s.assignments[id].course) {
      WithoutAssignmentConsistent(s, id);
      WithoutAssignmentRemoves(s, id);
      NotifiedConsistent(WithoutAssignment(s, id), invoker, DeletedMessage(s.courses[s.assignments[id].course].title));
    }
  }

  /** getAssignmentById. */
  function GetAssignmentById(s: State, id: Id): (r: Result<AssignmentResponse>)
    requires Linked(s)
    ensures id !in s.assignments ==> r.FailsWith(NotFound, AssignmentNotFoundPrefix + IdText(id))
    ensures id in s.assignments ==> r == Ok(AssignmentResponseOf(s, Keyed(id, s.assignments[id])))
  {
    if id !in s.assignments then Err(Failure(NotFound, AssignmentNotFoundPrefix + IdText(id)))
    else Ok(AssignmentResponseOf(s, Keyed(id, s.assignments[id])))
  }

  /** findByCourse on the assignments: the assignments of course courseId, in id order. */
  function AssignmentsOf(s: State, courseId: Id): (r: seq<Keyed<Assignment>>)
    ensures Increasing(r)
    ensures forall i :: 0 <= i < |r| ==>
      r[i].id in s.assignments && s.assignments[r[i].id] == r[i].val && r[i].val.course == courseId
    ensures forall k :: k in s.assignments && s.assignments[k].course == courseId ==> Keyed(k, s.assignments[k]) in r
  {
    Select(s.assignments, (a: Assignment) => a.course == courseId)
  }

  class AssignmentService {
    const db: Database
    const notifier: NotificationService

    constructor (db: Database, notifier: NotificationService)
      ensures this.db == db && this.notifier == notifier
    {
      this.db := db;
      this.notifier := notifier;
    }

    /** Notify the student of each row, in order, with message. */
    method NotifyStudents(rows: seq<Keyed<Enrollment>>, message: string)
      requires notifier.db == db && db.Valid()
      requires forall i :: 0 <= i < |rows| ==> rows[i].val.student in db.tables.users
      modifies db
      ensures db.Valid()
      ensures db.tables == Broadcast(old(db.tables), StudentsOf(rows), message)
    {
      ghost var s0 := db.tables;
      ghost var students := StudentsOf(rows);
      for i := 0 to |rows|
        invariant db.Valid() && db.tables == Broadcast(s0, students[..i], message)
      {
        var _ := notifier.NotifyUser(rows[i].val.student, message);
        assert students[..i + 1][..i] == students[..i];
      }
      assert students[..|rows|] == students;
    }

    /** Notify the instructor of courseId, then the course's enrolled students. */
    method AnnounceToCourse(courseId: Id, toInstructor: string, toStudents: string)
      requires notifier.db == db && db.Valid() && courseId in db.tables.courses
      modifies db
      ensures db.Valid()
      ensures db.tables == Announce(old(db.tables), courseId, toInstructor, toStudents)
    {
      ghost var s0 := db.tables;
      var enrolled := EnrollmentsIn(db.tables, courseId);
      var _ := notifier.NotifyUser(db.tables.courses[courseId].instructor, toInstructor);
      NotifyStudents(enrolled, toStudents);
    }

    method CreateAssignment(courseId: Id, instructions: string, maxGrade: int, invoker: Id) returns (r: Result<AssignmentResponse>)
      requires notifier.db == db && db.Valid()
      modifies db
      ensures db.Valid()
      ensures var o := CreateAssignmentStep(old(db.tables), courseId, instructions, maxGrade, invoker);
        r == o.result && db.tables == o.state
    {
      CreateAssignmentConsistent(db.tables, courseId, instructions, maxGrade, invoker);
      if courseId !in db.tables.courses {
        return Err(Failure(NotFound, CourseNotFoundPrefix + IdText(courseId)));
      }
      var course := db.tables.courses[courseId];
      if course.instructor != invoker {
        return Err(Failure(InvalidUser, NotTheInstructorFor));
      }
      var assignment := Assignment(courseId, instructions, maxGrade);
      AnnounceToCourse(courseId, CreatedMessage(course.title), PostedMessage(course.title));
      var id := db.NewId();
      db.tables := db.tables.(assignments := db.tables.assignments[id := assignment]);
      r := Ok(AssignmentResponseOf(db.tables, Keyed(id, assignment)));
    }

    method UpdateAssignment(id: Id, courseId: Id, instructions: string, maxGrade: int, invoker: Id) returns (r: Result<()>)
      requires notifier.db == db && db.Valid()
      modifies db
      ensures db.Valid()
      ensures var o := UpdateAssignmentStep(old(db.tables), id, courseId, instructions, maxGrade, invoker);
        r == o.result && db.tables == o.state
    {
      UpdateAssignmentConsistent(db.tables, id, courseId, instructions, maxGrade, invoker);
      if id !in db.tables.assignments {
        return Err(Failure(NotFound, AssignmentNotFoundPrefix + IdText(id)));
      }
      if courseId !in db.tables.courses {
        return Err(Failure(NotFound, CourseNotFoundPrefix + IdText(courseId)));
      }
      var course := db.tables.courses[courseId];
      if course.instructor != invoker {
        return Err(Failure(InvalidUser, NotTheInstructorFor));
      }
      var assignment := Revised(db.tables.assignments[id], instructions, maxGrade);
      AnnounceToCourse(courseId, UpdatedMessage(course.title), UpdatedMessage(course.title));
      db.tables := db.tables.(assignments := db.tables.assignments[id := assignment]);
      r := Ok(());
    }

    method DeleteAssignment(id: Id, invoker: Id) returns (r: Result<()>)
      requires notifier.db == db && db.Valid()
      modifies db
      ensures db.Valid()
      ensures var o := DeleteAssignmentStep(old(db.tables), id, invoker);
        r == o.result && db.tables == o.state
    {
      DeleteAssignmentConsistent(db.tables, id, invoker);
      if id !in db.tables.assignments {
        return Err(Failure(NotFound, AssignmentNotFoundPrefix + IdText(id)));
      }
      var course := db.tables.courses[db.tables.assignments[id].course];
      if course.instructor != invoker {
        return Err(Failure(InvalidUser, NotTheInstructorFor));
      }
      if Refused(db.tables, WithoutAssignment(db.tables, id)) {
        return Err(Failure(Conflict, ForeignKeyFails));
      }
      WithoutAssignmentConsistent(db.tables, id);
      WithoutAssignmentRemoves(db.tables, id);
      db.tables := WithoutAssignment(db.tables, id);
      var _ := notifier.NotifyUser(course.instructor, DeletedMessage(course.title));
      r := Ok(());
    }

    /**
     * getAssignmentbyCourseId: fails for a missing course; otherwise the
     * course's assignments, each mapped to its response, in id order.
     */
    method GetAssignmentbyCourseId(courseId: Id) returns (r: Result<seq<AssignmentResponse>>)
      requires db.Valid()
      ensures courseId !in db.tables.courses ==> r.FailsWith(NotFound, CourseNotFoundPrefix + IdText(courseId))
      ensures courseId in db.tables.courses ==>
        var rows := AssignmentsOf(db.tables, courseId);
        && r.Ok? && |r.value| == |rows|
        && forall i :: 0 <= i < |rows| ==> r.value[i] == AssignmentResponseOf(db.tables, rows[i])
    {
      if courseId !in db.tables.courses {
        return Err(Failure(NotFound, CourseNotFoundPrefix + IdText(courseId)));
      }
      var cur := AssignmentsOf(db.tables, courseId);
      var ret: seq<AssignmentResponse> := [];
      for i := 0 to |cur|
        invariant |ret| == i
        invariant forall j :: 0 <= j < i ==> ret[j] == AssignmentResponseOf(db.tables, cur[j])
      {
        ret := ret + [AssignmentResponseOf(db.tables, cur[i])];
      }
      r := Ok(ret);
    }
  }
}
