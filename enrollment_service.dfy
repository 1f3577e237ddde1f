/**
 * EnrollmentService: enrolling a student in a course, completing and deleting
 * an enrollment, and looking enrollments up.
 *
 * Each operation is specified by a function from the database before the call
 * to a Step (the result and the database after); the methods of the service
 * class run the same checks against the shared Database and are proved to
 * end in exactly that Step.
 */
module EnrollmentService {
  import opened Wrappers
  import opened Tables
  import opened UserRole
  import opened Entities
  import opened Store
  import opened NotificationService

  // The messages of the exceptions and notifications, as the source spells them.

  const EntityNotFound: string := "Entity Not Found"
  const EnrollmentNotFound: string := "Enrollment not found"
  const NotTheStudent: string := "You are not the student of this enrollment"
  const NotTheInstructor: string := "You are not the instructor of this course"
  const OnlyStudents: string := "Only Students Can Be Enrolled in Courses"
  const AlreadyEnrolled: string := "Student is already enrolled in this course"
  const EnrolledPrefix: string := "You have been enrolled in a the following course: "
  const NewStudentPrefix: string := "A new student has been enrolled in your course: "
  const UnenrolledPrefix: string := "You have been unenrolled from the following course: "
  const StudentLeftPrefix: string := "A student has been unenrolled from your course: "

  /** The query findByStudentAndCourse: the enrollments of student in course, in id order. */
  function EnrollmentsOf(s: State, student: Id, course: Id): (r: seq<Keyed<Enrollment>>)
    ensures r == [] <==> forall k :: k in s.enrollments ==> s.enrollments[k].student != student || s.enrollments[k].course != course
    ensures forall i :: 0 <= i < |r| ==>
      r[i].id in s.enrollments && s.enrollments[r[i].id] == r[i].val && r[i].val.student == student && r[i].val.course == course
  {
    SelectEmpty(s.enrollments, (e: Enrollment) => e.student == student && e.course == course);
    Select(s.enrollments, (e: Enrollment) => e.student == student && e.course == course)
  }

  /** Whether student already holds an enrollment in course. */
  predicate Enrolled(s: State, student: Id, course: Id)
  {
    exists k :: k in s.enrollments && s.enrollments[k].student == student && s.enrollments[k].course == course
  }

  /** getEnrollmentById: the enrollment with that id, or "Entity Not Found". */
  function GetEnrollmentById(s: State, id: Id): (r: Result<Keyed<Enrollment>>)
    ensures id in s.enrollments ==> r == Ok(Keyed(id, s.enrollments[id]))
    ensures id !in s.enrollments ==> r.FailsWith(NotFound, EntityNotFound)
  {
    if id !in s.enrollments then Err(Failure(NotFound, EntityNotFound))
    else Ok(Keyed(id, s.enrollments[id]))
  }

  /**
   * getEnrollmentByStudentAndCourse: Optional.get() on the student and the course
   * (NoSuchElementException when either is missing), then the first enrollment of
   * that pair, or "Entity Not Found" when there is none. It never yields an empty
   * Optional.
   */
  function GetEnrollmentByStudentAndCourse(s: State, userId: Id, courseId: Id): (r: Result<Keyed<Enrollment>>)
    ensures userId !in s.users || courseId !in s.courses ==> r.FailsWith(Internal, NoValuePresent)
    ensures userId in s.users && courseId in s.courses && !Enrolled(s, userId, courseId) ==>
      r.FailsWith(NotFound, EntityNotFound)
    ensures r.Ok? <==> userId in s.users && courseId in s.courses && Enrolled(s, userId, courseId)
    ensures r.Ok? ==>
      && r.value.id in s.enrollments && s.enrollments[r.value.id] == r.value.val
      && r.value.val.student == userId && r.value.val.course == courseId
  {
    if userId !in s.users || courseId !in s.courses then Err(Failure(Internal, NoValuePresent))
    else
      var rows := EnrollmentsOf(s, userId, courseId);
      if rows == [] then Err(Failure(NotFound, EntityNotFound)) else Ok(rows[0])
  }

  /** With at most one enrollment per pair, the lookup by pair finds that one enrollment. */
  lemma EnrollmentByPairIsTheOnlyOne(s: State, userId: Id, courseId: Id, k: Id)
    requires Unique(s)
    requires userId in s.users && courseId in s.courses
    requires k in s.enrollments && s.enrollments[k].student == userId && s.enrollments[k].course == courseId
    ensures GetEnrollmentByStudentAndCourse(s, userId, courseId) == Ok(Keyed(k, s.enrollments[k]))
  {
    var r := GetEnrollmentByStudentAndCourse(s, userId, courseId);
    assert Enrolled(s, userId, courseId);
    assert r.value.id == k;
  }

  /**
   * Who may change or delete an enrollment: an ADMIN always, a STUDENT only their
   * own, an INSTRUCTOR only one in a course they teach.
   */
  predicate MayManage(s: State, user: Id, e: Enrollment)
    requires user in s.users
  {
    match s.users[user].role
    case ADMIN => true
    case STUDENT => e.student == user
    case INSTRUCTOR => Teaches(s, user, e.course)
  }

  /** The ownership failure for a caller who may not manage e. */
  function OwnershipFailure(s: State, user: Id, e: Enrollment): (f: Failure)
    requires user in s.users && !MayManage(s, user, e)
    ensures f.kind == InvalidUser
  {
    if s.users[user].role == STUDENT then Failure(InvalidUser, NotTheStudent)
    else Failure(InvalidUser, NotTheInstructor)
  }

  /** The enrollment after a request with isCompleted: set when given, kept when null. */
  function Completed(e: Enrollment, isCompleted: Option<bool>): (r: Enrollment)
    ensures r.student == e.student && r.course == e.course && r.isConfirmed == e.isConfirmed
    ensures r.isCompleted == if isCompleted.Some? then isCompleted.value else e.isCompleted
  {
    if isCompleted.Some? then e.(isCompleted := isCompleted.value) else e
  }

  /** updateEnrollmentById. */
  function UpdateEnrollmentStep(s: State, id: Id, userId: Id, isCompleted: Option<bool>): (o: Step<Keyed<Enrollment>>)
    ensures id !in s.enrollments ==> o.result.FailsWith(NotFound, EnrollmentNotFound)
    ensures id in s.enrollments && userId !in s.users ==> o.result.FailsWith(NotFound, UserNotFound)
    ensures o.result.Ok? <==> id in s.enrollments && userId in s.users && MayManage(s, userId, s.enrollments[id])
    ensures o.result.Err? ==> o.state == s
    ensures o.result.Ok? ==>
      && o.result.value == Keyed(id, Completed(s.enrollments[id], isCompleted))
      && o.state.enrollments == s.enrollments[id := Completed(s.enrollments[id], isCompleted)]
      && o.state.(enrollments := s.enrollments) == s
  {
    if id !in s.enrollments then Fail(s, NotFound, EnrollmentNotFound)
    else if userId !in s.users then Fail(s, NotFound, UserNotFound)
    else
      var e := s.enrollments[id];
      if !MayManage(s, userId, e) then Step(Err(OwnershipFailure(s, userId, e)), s)
      else
        var e' := Completed(e, isCompleted);
        Step(Ok(Keyed(id, e')), s.(enrollments := s.enrollments[id := e']))
  }

  /** Updating an enrollment keeps the database consistent: its student and course do not change. */
  lemma UpdateEnrollmentConsistent(s: State, id: Id, userId: Id, isCompleted: Option<bool>)
    requires Consistent(s)
    ensures Consistent(UpdateEnrollmentStep(s, id, userId, isCompleted).state)
  {
    var o := UpdateEnrollmentStep(s, id, userId, isCompleted);
    if o.result.Ok? {
      var r := o.state;
      assert forall k :: k in r.enrollments ==>
        r.enrollments[k].student == s.enrollments[k].student && r.enrollments[k].course == s.enrollments[k].course;
      assert Linked(r);
      assert Unique(r);
    }
  }

  function EnrolledMessage(title: string): string
  {
    EnrolledPrefix + title
  }

  function NewStudentMessage(title: string): string
  {
    NewStudentPrefix + title
  }

  /** The database after a new enrollment row e, with the next id. */
  function WithEnrollment(s: State, e: Enrollment): State
  {
    s.(enrollments := s.enrollments[s.nextId := e], nextId := s.nextId + 1)
  }

  /**
   * addEnrollment: "Entity Not Found" for a missing course or student, then
   * OnlyStudents, then "Student is already enrolled
   * in this course"; on success the student and then the instructor are
   * notified, and a confirmed, uncompleted enrollment is saved.
   */
  function AddEnrollmentStep(s: State, courseId: Id, studentId: Id): (o: Step<Keyed<Enrollment>>)
    ensures courseId !in s.courses || studentId !in s.users ==> o.result.FailsWith(NotFound, EntityNotFound)
    ensures courseId in s.courses && studentId in s.users && s.users[studentId].role != STUDENT ==>
      o.result.FailsWith(InvalidUser, OnlyStudents)
    ensures courseId in s.courses && studentId in s.users && s.users[studentId].role == STUDENT && Enrolled(s, studentId, courseId) ==>
      o.result.FailsWith(Conflict, AlreadyEnrolled)
    ensures o.result.Ok? <==>
      courseId in s.courses && studentId in s.users && s.users[studentId].role == STUDENT && !Enrolled(s, studentId, courseId)
    ensures o.result.Err? ==> o.state == s
    ensures o.result.Ok? ==>
      var title := s.courses[courseId].title;
      var e := Enrollment(studentId, courseId, true, false);
      && o.result.value == Keyed(s.nextId + 2, e)
      && o.state.enrollments == s.enrollments[s.nextId + 2 := e]
      && o.state.notifications == s.notifications
           [s.nextId := Notification(studentId, false, EnrolledMessage(title))]
           [s.nextId + 1 := Notification(s.courses[courseId].instructor, false, NewStudentMessage(title))]
      && o.state.(enrollments := s.enrollments, notifications := s.notifications, nextId := s.nextId) == s
      && o.state.nextId == s.nextId + 3
  {
    if courseId !in s.courses || studentId !in s.users then Fail(s, NotFound, EntityNotFound)
    else if s.users[studentId].role != STUDENT then Fail(s, InvalidUser, OnlyStudents)
    else if EnrollmentsOf(s, studentId, courseId) != [] then Fail(s, Conflict, AlreadyEnrolled)
    else
      var course := s.courses[courseId];
      var s1 := Notified(s, studentId, EnrolledMessage(course.title));
      var s2 := Notified(s1, course.instructor, NewStudentMessage(course.title));
      var e := Enrollment(studentId, courseId, true, false);
      Step(Ok(Keyed(s2.nextId, e)), WithEnrollment(s2, e))
  }

  /** The successful branch of addEnrollment, unfolded. */
  lemma AddEnrollmentSucceeds(s: State, courseId: Id, studentId: Id)
    requires courseId in s.courses && studentId in s.users && s.users[studentId].role == STUDENT
    requires EnrollmentsOf(s, studentId, courseId) == []
    ensures var course := s.courses[courseId];
      var s2 := Notified(Notified(s, studentId, EnrolledMessage(course.title)), course.instructor, NewStudentMessage(course.title));
      var e := Enrollment(studentId, courseId, true, false);
      AddEnrollmentStep(s, courseId, studentId) == Step(Ok(Keyed(s2.nextId, e)), WithEnrollment(s2, e))
  {
  }

  /** Saving an enrollment for a pair that has none keeps the database consistent. */
  lemma WithEnrollmentConsistent(s: State, e: Enrollment)
    requires Consistent(s)
    requires e.student in s.users && e.course in s.courses && !Enrolled(s, e.student, e.course)
    ensures Consistent(WithEnrollment(s, e))
  {
    var r := WithEnrollment(s, e);
    assert KeysBelow(r) by {
      assert Below(r.enrollments, r.nextId);
    }
    assert Linked(r);
    assert Unique(r) by {
      forall a, b | a in r.enrollments && b in r.enrollments && a != b
        ensures r.enrollments[a].student != r.enrollments[b].student || r.enrollments[a].course != r.enrollments[b].course
      {
        if a == s.nextId {
          assert b in s.enrollments;
        } else if b == s.nextId {
          assert a in s.enrollments;
        }
      }
    }
  }

  /** A successful addEnrollment keeps the database consistent, in particular one enrollment per pair. */
  lemma AddEnrollmentConsistent(s: State, courseId: Id, studentId: Id)
    requires Consistent(s)
    ensures Consistent(AddEnrollmentStep(s, courseId, studentId).state)
  {
    var o := AddEnrollmentStep(s, courseId, studentId);
    if o.result.Ok? {
      var course := s.courses[courseId];
      NotifiedConsistent(s, studentId, EnrolledMessage(course.title));
      var s1 := Notified(s, studentId, EnrolledMessage(course.title));
      NotifiedConsistent(s1, course.instructor, NewStudentMessage(course.title));
      var s2 := Notified(s1, course.instructor, NewStudentMessage(course.title));
      assert !Enrolled(s2, studentId, courseId);
      WithEnrollmentConsistent(s2, Enrollment(studentId, courseId, true, false));
    }
  }

  /** Enrolling the same student in the same course a second time is refused. */
  lemma {:induction false} AddEnrollmentTwiceConflicts(s: State, courseId: Id, studentId: Id)
    requires AddEnrollmentStep(s, courseId, studentId).result.Ok?
    ensures AddEnrollmentStep(AddEnrollmentStep(s, courseId, studentId).state, courseId, studentId)
              .result.FailsWith(Conflict, AlreadyEnrolled)
  {
    var o := AddEnrollmentStep(s, courseId, studentId);
    assert o.state.enrollments[s.nextId + 2].student == studentId;
    assert Enrolled(o.state, studentId, courseId);
  }

  function UnenrolledMessage(title: string): string
  {
    UnenrolledPrefix + title
  }

  function StudentLeftMessage(title: string): string
  {
    StudentLeftPrefix + title
  }

  /**
   * deleteEnrollmentById: the caller is fetched with Optional.get() before the
   * enrollment is looked up; then the ownership rule of updateEnrollmentById;
   * on success the student and the instructor are notified and the row is deleted.
   */
  function DeleteEnrollmentStep(s: State, id: Id, userId: Id): (o: Step<()>)
    requires Linked(s)
    ensures userId !in s.users ==> o.result.FailsWith(Internal, NoValuePresent)
    ensures userId in s.users && id !in s.enrollments ==> o.result.FailsWith(NotFound, EntityNotFound)
    ensures o.result.Ok? <==> userId in s.users && id in s.enrollments && MayManage(s, userId, s.enrollments[id])
    ensures o.result.Err? ==> o.state == s
    ensures o.result.Ok? ==>
      var e := s.enrollments[id];
      var course := s.courses[e.course];
      && o.state.enrollments == s.enrollments - {id}
      && o.state.notifications == s.notifications
           [s.nextId := Notification(e.student, false, UnenrolledMessage(course.title))]
           [s.nextId + 1 := Notification(course.instructor, false, StudentLeftMessage(course.title))]
      && o.state.(enrollments := s.enrollments, notifications := s.notifications, nextId := s.nextId) == s
  {
    if userId !in s.users then Fail(s, Internal, NoValuePresent)
    else if id !in s.enrollments then Fail(s, NotFound, EntityNotFound)
    else
      var e := s.enrollments[id];
      if !MayManage(s, userId, e) then Step(Err(OwnershipFailure(s, userId, e)), s)
      else
        var course := s.courses[e.course];
        var s1 := Notified(s, e.student, UnenrolledMessage(course.title));
        var s2 := Notified(s1, course.instructor, StudentLeftMessage(course.title));
        Step(Ok(()), s2.(enrollments := s2.enrollments - {id}))
  }

  /** The successful branch of deleteEnrollmentById, unfolded. */
  lemma DeleteEnrollmentSucceeds(s: State, id: Id, userId: Id)
    requires Linked(s)
    requires userId in s.users && id in s.enrollments && MayManage(s, userId, s.enrollments[id])
    ensures var e := s.enrollments[id];
      var course := s.courses[e.course];
      var s2 := Notified(Notified(s, e.student, UnenrolledMessage(course.title)), course.instructor, StudentLeftMessage(course.title));
      DeleteEnrollmentStep(s, id, userId) == Step(Ok(()), s2.(enrollments := s2.enrollments - {id}))
  {
  }

  /** Deleting an enrollment keeps the database consistent: no other row refers to an enrollment. */
  lemma DeleteEnrollmentConsistent(s: State, id: Id, userId: Id)
    requires Consistent(s)
    ensures Consistent(DeleteEnrollmentStep(s, id, userId).state)
  {
    var o := DeleteEnrollmentStep(s, id, userId);
    if o.result.Ok? {
      var e := s.enrollments[id];
      var course := s.courses[e.course];
      NotifiedConsistent(s, e.student, UnenrolledMessage(course.title));
      var s1 := Notified(s, e.student, UnenrolledMessage(course.title));
      NotifiedConsistent(s1, course.instructor, StudentLeftMessage(course.title));
      var s2 := Notified(s1, course.instructor, StudentLeftMessage(course.title));
      var r := o.state;
      assert r == s2.(enrollments := s2.enrollments - {id});
      assert KeysBelow(r) by {
        assert Below(r.enrollments, r.nextId);
      }
      assert Linked(r);
      assert Unique(r);
    }
  }

  /** After a successful delete the pair may be enrolled again. */
  lemma DeleteThenAddEnrollment(s: State, id: Id, userId: Id)
    requires Consistent(s)
    requires DeleteEnrollmentStep(s, id, userId).result.Ok?
    requires s.users[s.enrollments[id].student].role == STUDENT
    ensures AddEnrollmentStep(DeleteEnrollmentStep(s, id, userId).state, s.enrollments[id].course, s.enrollments[id].student).result.Ok?
  {
  }

  /** findByCourse on the enrollments: the rows of course courseId, in id order. */
  function EnrollmentsIn(s: State, courseId: Id): (r: seq<Keyed<Enrollment>>)
    ensures Increasing(r)
    ensures forall i :: 0 <= i < |r| ==>
      r[i].id in s.enrollments && s.enrollments[r[i].id] == r[i].val && r[i].val.course == courseId
    ensures forall k :: k in s.enrollments && s.enrollments[k].course == courseId ==> Keyed(k, s.enrollments[k]) in r
  {
    Select(s.enrollments, (e: Enrollment) => e.course == courseId)
  }

  /** The student of each enrollment row, in the rows' order. */
  function StudentsOf(rows: seq<Keyed<Enrollment>>): (r: seq<Id>)
    ensures |r| == |rows| && forall i :: 0 <= i < |rows| ==> r[i] == rows[i].val.student
  {
    seq(|rows|, i requires 0 <= i < |rows| => rows[i].val.student)
  }

  class EnrollmentService {
    const db: Database
    const notifier: NotificationService

    constructor (db: Database, notifier: NotificationService)
      requires notifier.db == db
      ensures this.db == db && this.notifier == notifier
    {
      this.db := db;
      this.notifier := notifier;
    }

    method UpdateEnrollmentById(id: Id, userId: Id, isCompleted: Option<bool>) returns (r: Result<Keyed<Enrollment>>)
      requires db.Valid()
      modifies db
      ensures db.Valid()
      ensures var o := UpdateEnrollmentStep(old(db.tables), id, userId, isCompleted);
        r == o.result && db.tables == o.state
    {
      UpdateEnrollmentConsistent(db.tables, id, userId, isCompleted);
      if id !in db.tables.enrollments {
        return Err(Failure(NotFound, EnrollmentNotFound));
      }
      var crs := db.tables.enrollments[id];
      if userId !in db.tables.users {
        return Err(Failure(NotFound, UserNotFound));
      }
      var user := db.tables.users[userId];
      if user.role == STUDENT && crs.student != userId {
        return Err(Failure(InvalidUser, NotTheStudent));
      }
      if user.role == INSTRUCTOR && !(crs.course in db.tables.courses && db.tables.courses[crs.course].instructor == userId) {
        return Err(Failure(InvalidUser, NotTheInstructor));
      }
      if isCompleted.Some? {
        crs := crs.(isCompleted := isCompleted.value);
      }
      db.tables := db.tables.(enrollments := db.tables.enrollments[id := crs]);
      r := Ok(Keyed(id, crs));
    }

    method AddEnrollment(courseId: Id, studentId: Id) returns (r: Result<Keyed<Enrollment>>)
      requires notifier.db == db && db.Valid()
      modifies db
      ensures db.Valid()
      ensures var o := AddEnrollmentStep(old(db.tables), courseId, studentId);
        r == o.result && db.tables == o.state
    {
      AddEnrollmentConsistent(db.tables, courseId, studentId);
      if courseId !in db.tables.courses || studentId !in db.tables.users {
        return Err(Failure(NotFound, EntityNotFound));
      }
      var course := db.tables.courses[courseId];
      var student := db.tables.users[studentId];
      if student.role != STUDENT {
        return Err(Failure(InvalidUser, OnlyStudents));
      }
      var existing := EnrollmentsOf(db.tables, studentId, courseId);
      if existing != [] {
        return Err(Failure(Conflict, AlreadyEnrolled));
      }
      var crs := Enrollment(studentId, courseId, true, false);
      AddEnrollmentSucceeds(db.tables, courseId, studentId);
      assert course.instructor in db.tables.users;
      ghost var s0 := db.tables;
      var _ := notifier.NotifyUser(studentId, EnrolledMessage(course.title));
      assert db.tables == Notified(s0, studentId, EnrolledMessage(course.title));
      var _ := notifier.NotifyUser(course.instructor, NewStudentMessage(course.title));
      ghost var s2 := db.tables;
      var id := db.NewId();
      db.tables := db.tables.(enrollments := db.tables.enrollments[id := crs]);
      r := Ok(Keyed(id, crs));
      assert db.tables == WithEnrollment(s2, crs);
    }

    method DeleteEnrollmentById(id: Id, userId: Id) returns (r: Result<()>)
      requires notifier.db == db && db.Valid()
      modifies db
      ensures db.Valid()
      ensures var o := DeleteEnrollmentStep(old(db.tables), id, userId);
        r == o.result && db.tables == o.state
    {
      DeleteEnrollmentConsistent(db.tables, id, userId);
      if userId !in db.tables.users {
        return Err(Failure(Internal, NoValuePresent));
      }
      var user := db.tables.users[userId];
      if id !in db.tables.enrollments {
        return Err(Failure(NotFound, EntityNotFound));
      }
      var crs := db.tables.enrollments[id];
      if user.role == STUDENT && crs.student != userId {
        return Err(Failure(InvalidUser, NotTheStudent));
      }
      var course := db.tables.courses[crs.course];
      if user.role == INSTRUCTOR && course.instructor != userId {
        return Err(Failure(InvalidUser, NotTheInstructor));
      }
      assert crs.student in db.tables.users && course.instructor in db.tables.users;
      assert MayManage(db.tables, userId, crs);
      DeleteEnrollmentSucceeds(db.tables, id, userId);
      ghost var s0 := db.tables;
      var _ := notifier.NotifyUser(crs.student, UnenrolledMessage(course.title));
      assert db.tables == Notified(s0, crs.student, UnenrolledMessage(course.title));
      var _ := notifier.NotifyUser(course.instructor, StudentLeftMessage(course.title));
      ghost var s2 := db.tables;
      db.tables := db.tables.(enrollments := db.tables.enrollments - {id});
      assert db.tables == s2.(enrollments := s2.enrollments - {id});
      r := Ok(());
    }
  }
}
