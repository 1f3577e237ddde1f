/**
 * StudentLessonService: recording a student's attendance of a lesson with the
 * lesson's one-time password, listing and deleting attendance rows.
 */
module StudentLessonService {
  import opened Wrappers
  import opened Tables
  import opened Entities
  import opened Store
  import EnrollmentService

  const OtpInvalid: string := "OTP is invalid"
  const AlreadyAttended: string := "Student is already enrolled in this lesson"
  const AttendanceNotFoundPrefix: string := "StudentLesson not found with ID: "

  /** The query findByStudentAndLesson. */
  function AttendanceOf(s: State, student: Id, lesson: Id): (r: seq<Keyed<StudentLesson>>)
    ensures r == [] <==> forall k :: k in s.studentLessons ==> s.studentLessons[k] != StudentLesson(student, lesson)
  {
    SelectEmpty(s.studentLessons, (a: StudentLesson) => a == StudentLesson(student, lesson));
    Select(s.studentLessons, (a: StudentLesson) => a == StudentLesson(student, lesson))
  }

  /** Whether an attendance row for student and lesson exists. */
  predicate Attended(s: State, student: Id, lesson: Id)
  {
    exists k :: k in s.studentLessons && s.studentLessons[k] == StudentLesson(student, lesson)
  }

  /** exists: whether findByStudentAndLesson finds a row. */
  function Exists(s: State, student: Id, lesson: Id): (b: bool)
    ensures b <==> Attended(s, student, lesson)
  {
    AttendanceOf(s, student, lesson) != []
  }

  /** The database after saving the attendance row a with the next id. */
  function WithAttendance(s: State, a: StudentLesson): State
  {
    s.(studentLessons := s.studentLessons[s.nextId := a], nextId := s.nextId + 1)
  }

  /**
   * createStudentLesson: the lesson must exist; the student must be enrolled in
   * its course (getEnrollmentByStudentAndCourse fails otherwise, so the
   * "not enrolled" branch after it is never reached); the OTP must equal the
   * lesson's; no attendance row may exist yet. Then one row is saved.
   */
  function CreateStudentLessonStep(s: State, lessonId: Id, otp: string, student: Id): (o: Step<Keyed<StudentLesson>>)
    ensures lessonId !in s.lessons ==> o.result.FailsWith(NotFound, LessonNotFoundPrefix + IdText(lessonId))
    ensures lessonId in s.lessons && EnrollmentService.GetEnrollmentByStudentAndCourse(s, student, s.lessons[lessonId].course).Err? ==>
      o.result == EnrollmentService.GetEnrollmentByStudentAndCourse(s, student, s.lessons[lessonId].course).PropagateFailure()
    ensures (&& lessonId in s.lessons
             && EnrollmentService.GetEnrollmentByStudentAndCourse(s, student, s.lessons[lessonId].course).Ok?
             && otp != s.lessons[lessonId].otp) ==>
      o.result.FailsWith(BadRequest, OtpInvalid)
    ensures o.result.Ok? <==>
      && lessonId in s.lessons
      && student in s.users && s.lessons[lessonId].course in s.courses
      && EnrollmentService.Enrolled(s, student, s.lessons[lessonId].course)
      && otp == s.lessons[lessonId].otp
      && !Attended(s, student, lessonId)
    ensures o.result.Err? ==> o.state == s
    ensures o.result.Ok? ==>
      && o.result.value == Keyed(s.nextId, StudentLesson(student, lessonId))
      && o.state == WithAttendance(s, StudentLesson(student, lessonId))
  {
    if lessonId !in s.lessons then Fail(s, NotFound, LessonNotFoundPrefix + IdText(lessonId))
    else
      var lesson := s.lessons[lessonId];
      var enrollment := EnrollmentService.GetEnrollmentByStudentAndCourse(s, student, lesson.course);
      if enrollment.Err? then Step(enrollment.PropagateFailure(), s)
      else if otp != lesson.otp then Fail(s, BadRequest, OtpInvalid)
      else if Exists(s, student, lessonId) then Fail(s, Conflict, AlreadyAttended)
      else
        var a := StudentLesson(student, lessonId);
        Step(Ok(Keyed(s.nextId, a)), WithAttendance(s, a))
  }

  /** A second attendance of the same lesson is refused. */
  lemma CreateStudentLessonTwiceConflicts(s: State, lessonId: Id, otp: string, student: Id)
    requires CreateStudentLessonStep(s, lessonId, otp, student).result.Ok?
    ensures CreateStudentLessonStep(CreateStudentLessonStep(s, lessonId, otp, student).state, lessonId, otp, student)
              .result.FailsWith(Conflict, AlreadyAttended)
  {
    var r := CreateStudentLessonStep(s, lessonId, otp, student).state;
    assert r.studentLessons[s.nextId] == StudentLesson(student, lessonId);
    assert Attended(r, student, lessonId);
    var k :| k in s.enrollments && s.enrollments[k].student == student && s.enrollments[k].course == s.lessons[lessonId].course;
    assert r.enrollments[k] == s.enrollments[k];
  }

  /** Saving a row for a pair with none keeps the database consistent. */
  lemma WithAttendanceConsistent(s: State, a: StudentLesson)
    requires Consistent(s)
    requires a.student in s.users && a.lesson in s.lessons && !Attended(s, a.student, a.lesson)
    ensures Consistent(WithAttendance(s, a))
  {
    var r := WithAttendance(s, a);
    assert KeysBelow(r) by {
      assert Below(r.studentLessons, r.nextId);
    }
    assert AttendanceLinked(r.studentLessons, r.users, r.lessons);
    assert AttendancePairsUnique(r.studentLessons) by {
      forall x, y | x in r.studentLessons && y in r.studentLessons && x != y
        ensures r.studentLessons[x].student != r.studentLessons[y].student || r.studentLessons[x].lesson != r.studentLessons[y].lesson
      {
        if x == s.nextId {
          assert y in s.studentLessons;
        } else if y == s.nextId {
          assert x in s.studentLessons;
        }
      }
    }
  }

  /** createStudentLesson keeps the database consistent: at most one attendance row per (student, lesson). */
  lemma CreateStudentLessonConsistent(s: State, lessonId: Id, otp: string, student: Id)
    requires Consistent(s)
    ensures Consistent(CreateStudentLessonStep(s, lessonId, otp, student).state)
  {
    if CreateStudentLessonStep(s, lessonId, otp, student).result.Ok? {
      WithAttendanceConsistent(s, StudentLesson(student, lessonId));
    }
  }

  /** getStudentLessonById. */
  function GetStudentLessonById(s: State, id: Id): (r: Result<Keyed<StudentLesson>>)
    ensures id in s.studentLessons ==> r == Ok(Keyed(id, s.studentLessons[id]))
    ensures id !in s.studentLessons ==> r.FailsWith(NotFound, AttendanceNotFoundPrefix + IdText(id))
  {
    if id in s.studentLessons then Ok(Keyed(id, s.studentLessons[id]))
    else Err(Failure(NotFound, AttendanceNotFoundPrefix + IdText(id)))
  }

  /** Whether attendance row a is of a lesson of course courseId, taught by instructorId. */
  predicate InCourseOf(s: State, a: StudentLesson, courseId: Id, instructorId: Id)
  {
    && a.lesson in s.lessons
    && s.lessons[a.lesson].course == courseId
    && Teaches(s, instructorId, courseId)
  }

  /**
   * getLessonsByStudentInCourse: the student's attendance rows (findByStudentId,
   * in id order) whose lesson belongs to courseId and whose course is taught by
   * instructorId.
   */
  function GetLessonsByStudentInCourse(s: State, studentId: Id, courseId: Id, instructorId: Id): (r: seq<Keyed<StudentLesson>>)
    ensures Increasing(r)
    ensures forall i :: 0 <= i < |r| ==>
      && r[i].id in s.studentLessons && s.studentLessons[r[i].id] == r[i].val
      && r[i].val.student == studentId && InCourseOf(s, r[i].val, courseId, instructorId)
    ensures forall k :: (k in s.studentLessons && s.studentLessons[k].student == studentId
                         && InCourseOf(s, s.studentLessons[k], courseId, instructorId)) ==>
      Keyed(k, s.studentLessons[k]) in r
  {
    Select(s.studentLessons, (a: StudentLesson) => a.student == studentId && InCourseOf(s, a, courseId, instructorId))
  }

  /** deleteStudentLessonById: fails for a missing id; otherwise removes exactly that row. */
  function DeleteStudentLessonStep(s: State, id: Id): (o: Step<()>)
    ensures id !in s.studentLessons ==> o.result.FailsWith(NotFound, AttendanceNotFoundPrefix + IdText(id)) && o.state == s
    ensures id in s.studentLessons ==> o.result.Ok? && o.state == s.(studentLessons := s.studentLessons - {id})
  {
    var found := GetStudentLessonById(s, id);
    if found.Err? then Step(found.PropagateFailure(), s)
    else Step(Ok(()), s.(studentLessons := s.studentLessons - {found.value.id}))
  }

  /** Deleting an attendance row keeps the database consistent: nothing refers to attendance rows. */
  lemma DeleteStudentLessonConsistent(s: State, id: Id)
    requires Consistent(s)
    ensures Consistent(DeleteStudentLessonStep(s, id).state)
  {
    var r := DeleteStudentLessonStep(s, id).state;
    if id in s.studentLessons {
      assert KeysBelow(r) by {
        assert Below(r.studentLessons, r.nextId);
      }
      assert AttendanceLinked(r.studentLessons, r.users, r.lessons);
      assert AttendancePairsUnique(r.studentLessons);
    }
  }

  class StudentLessonService {
    const db: Database

    constructor (db: Database)
      ensures this.db == db
    {
      this.db := db;
    }

    method CreateStudentLesson(lessonId: Id, otp: string, student: Id) returns (r: Result<Keyed<StudentLesson>>)
      requires db.Valid()
      modifies db
      ensures db.Valid()
      ensures var o := CreateStudentLessonStep(old(db.tables), lessonId, otp, student);
        r == o.result && db.tables == o.state
    {
      CreateStudentLessonConsistent(db.tables, lessonId, otp, student);
      if lessonId !in db.tables.lessons {
        return Err(Failure(NotFound, LessonNotFoundPrefix + IdText(lessonId)));
      }
      var lesson := db.tables.lessons[lessonId];
      var enrollment := EnrollmentService.GetEnrollmentByStudentAndCourse(db.tables, student, lesson.course);
      if enrollment.Err? {
        return enrollment.PropagateFailure();
      }
      if otp != lesson.otp {
        return Err(Failure(BadRequest, OtpInvalid));
      }
      if Exists(db.tables, student, lessonId) {
        return Err(Failure(Conflict, AlreadyAttended));
      }
      var studentLesson := StudentLesson(student, lessonId);
      var id := db.NewId();
      db.tables := db.tables.(studentLessons := db.tables.studentLessons[id := studentLesson]);
      r := Ok(Keyed(id, studentLesson));
    }

    method DeleteStudentLessonById(id: Id) returns (r: Result<()>)
      requires db.Valid()
      modifies db
      ensures db.Valid()
      ensures var o := DeleteStudentLessonStep(old(db.tables), id);
        r == o.result && db.tables == o.state
    {
      DeleteStudentLessonConsistent(db.tables, id);
      var sl := GetStudentLessonById(db.tables, id);
      if sl.Err? {
        return sl.PropagateFailure();
      }
      db.tables := db.tables.(studentLessons := db.tables.studentLessons - {sl.value.id});
      r := Ok(());
    }
  }
}
