/**
 * LessonService: creating a lesson with its attendance one-time password,
 * moving it to another course or changing its password, and reading lessons
 * back by id or by course.
 */
module LessonService {
  import opened Wrappers
  import opened Tables
  import opened Entities
  import opened Store
  import opened NotificationService

  const NotAuthorizedToCreate: string := "You are not authorized to create a lesson for this course"
  const NotAuthorizedToUpdate: string := "You are not authorized to update a lesson for this course"
  const CreatedPrefix: string := "New Lesson Created Successfully for course "
  const UpdatedPrefix: string := "Lesson Updated Successfully for course "

  function CreatedMessage(title: string): string
  {
    CreatedPrefix + title
  }

  function UpdatedMessage(title: string): string
  {
    UpdatedPrefix + title
  }

  /**
   * createLesson: the course must exist and the caller must be its instructor.
   * Then the instructor is notified, and the lesson is saved with the next id,
   * holding exactly the requested OTP and course.
   */
  function CreateLessonStep(s: State, otp: string, courseId: Id, userId: Id): (o: Step<Keyed<Lesson>>)
    ensures courseId !in s.courses ==> o.result.FailsWith(NotFound, CourseNotFoundPrefix + IdText(courseId))
    ensures courseId in s.courses && s.courses[courseId].instructor != userId ==>
      o.result.FailsWith(InvalidUser, NotAuthorizedToCreate)
    ensures o.result.Ok? <==> Teaches(s, userId, courseId)
    ensures o.result.Err? ==> o.state == s
    ensures o.result.Ok? ==>
      var lesson := Lesson(otp, courseId);
      && o.result.value == Keyed(s.nextId + 1, lesson)
      && o.state.lessons == s.lessons[s.nextId + 1 := lesson]
      && o.state.notifications == s.notifications[s.nextId := Notification(userId, false, CreatedMessage(s.courses[courseId].title))]
      && o.state.nextId == s.nextId + 2
      && o.state.(lessons := s.lessons, notifications := s.notifications, nextId := s.nextId) == s
  {
    if courseId !in s.courses then Fail(s, NotFound, CourseNotFoundPrefix + IdText(courseId))
    else
      var course := s.courses[courseId];
      if course.instructor != userId then Fail(s, InvalidUser, NotAuthorizedToCreate)
      else
        var s1 := Notified(s, course.instructor, CreatedMessage(course.title));
        var lesson := Lesson(otp, courseId);
        Step(Ok(Keyed(s1.nextId, lesson)), s1.(lessons := s1.lessons[s1.nextId := lesson], nextId := s1.nextId + 1))
  }

  /** createLesson keeps the database consistent. */
  lemma CreateLessonConsistent(s: State, otp: string, courseId: Id, userId: Id)
    requires Consistent(s)
    ensures Consistent(CreateLessonStep(s, otp, courseId, userId).state)
  {
    if Teaches(s, userId, courseId) {
      NotifiedConsistent(s, userId, CreatedMessage(s.courses[courseId].title));
      var r := CreateLessonStep(s, otp, courseId, userId).state;
      assert KeysBelow(r) by {
        assert Below(r.lessons, r.nextId);
        assert Below(r.notifications, r.nextId);
      }
      assert LessonsLinked(r.lessons, r.courses);
      assert AttendanceLinked(r.studentLessons, r.users, r.lessons);
      assert NotificationsLinked(r.notifications, r.users);
    }
  }

  /** getLessonById. */
  function GetLessonById(s: State, id: Id): (r: Result<Keyed<Lesson>>)
    ensures id in s.lessons ==> r == Ok(Keyed(id, s.lessons[id]))
    ensures id !in s.lessons ==> r.FailsWith(NotFound, LessonNotFoundPrefix + IdText(id))
  {
    if id in s.lessons then Ok(Keyed(id, s.lessons[id]))
    else Err(Failure(NotFound, LessonNotFoundPrefix + IdText(id)))
  }

  /**
   * updateLesson: the lesson must exist and the caller must be the instructor
   * of its current course; only then is the new course looked up, and it must
   * exist. The lesson takes the requested OTP and course, and the new course's
   * instructor is notified.
   */
  function UpdateLessonStep(s: State, id: Id, otp: string, courseId: Id, userId: Id): (o: Step<Keyed<Lesson>>)
    requires Linked(s)
    ensures id !in s.lessons ==> o.result.FailsWith(NotFound, LessonNotFoundPrefix + IdText(id))
    ensures id in s.lessons && !Teaches(s, userId, s.lessons[id].course) ==>
      o.result.FailsWith(InvalidUser, NotAuthorizedToUpdate)
    ensures id in s.lessons && Teaches(s, userId, s.lessons[id].course) && courseId !in s.courses ==>
      o.result.FailsWith(NotFound, CourseNotFoundPrefix + IdText(courseId))
    ensures o.result.Ok? <==> id in s.lessons && Teaches(s, userId, s.lessons[id].course) && courseId in s.courses
    ensures o.result.Err? ==> o.state == s
    ensures o.result.Ok? ==>
      var course := s.courses[courseId];
      && o.result.value == Keyed(id, Lesson(otp, courseId))
      && o.state.lessons == s.lessons[id := Lesson(otp, courseId)]
      && o.state.notifications == s.notifications[s.nextId := Notification(course.instructor, false, UpdatedMessage(course.title))]
      && o.state.nextId == s.nextId + 1
      && o.state.(lessons := s.lessons, notifications := s.notifications, nextId := s.nextId) == s
  {
    var existing := GetLessonById(s, id);
    if existing.Err? then Step(existing.PropagateFailure(), s)
    else if s.courses[existing.value.val.course].instructor != userId then Fail(s, InvalidUser, NotAuthorizedToUpdate)
    else if courseId !in s.courses then Fail(s, NotFound, CourseNotFoundPrefix + IdText(courseId))
    else
      var course := s.courses[courseId];
      var s1 := Notified(s, course.instructor, UpdatedMessage(course.title));
      var lesson := Lesson(otp, courseId);
      Step(Ok(Keyed(id, lesson)), s1.(lessons := s1.lessons[id := lesson]))
  }

  /**
   * Only the current course is authorized: its instructor may move the lesson
   * into a course taught by someone else, whose instructor is the one notified.
   */
  lemma UpdateLessonIntoForeignCourse(s: State, id: Id, otp: string, courseId: Id, userId: Id)
    requires Linked(s) && id in s.lessons && Teaches(s, userId, s.lessons[id].course)
    requires courseId in s.courses && !Teaches(s, userId, courseId)
    ensures var o := UpdateLessonStep(s, id, otp, courseId, userId);
      && o.result.Ok?
      && o.state.lessons[id].course == courseId
      && o.state.notifications[s.nextId].user != userId
  {
  }

  /** updateLesson keeps the database consistent; the lesson's attendance rows follow it to the new course. */
  lemma UpdateLessonConsistent(s: State, id: Id, otp: string, courseId: Id, userId: Id)
    requires Consistent(s)
    ensures Consistent(UpdateLessonStep(s, id, otp, courseId, userId).state)
  {
    var o := UpdateLessonStep(s, id, otp, courseId, userId);
    if o.result.Ok? {
      var course := s.courses[courseId];
      NotifiedConsistent(s, course.instructor, UpdatedMessage(course.title));
      var r := o.state;
      assert KeysBelow(r) by {
        assert Below(r.lessons, r.nextId);
        assert Below(r.notifications, r.nextId);
      }
      assert LessonsLinked(r.lessons, r.courses);
      assert AttendanceLinked(r.studentLessons, r.users, r.lessons);
      assert NotificationsLinked(r.notifications, r.users);
    }
  }

  /** findByCourse on the lessons: the lessons of course courseId, in id order. */
  function LessonsOf(s: State, courseId: Id): (r: seq<Keyed<Lesson>>)
    ensures Increasing(r)
    ensures forall i :: 0 <= i < |r| ==>
      r[i].id in s.lessons && s.lessons[r[i].id] == r[i].val && r[i].val.course == courseId
    ensures forall k :: k in s.lessons && s.lessons[k].course == courseId ==> Keyed(k, s.lessons[k]) in r
  {
    Select(s.lessons, (l: Lesson) => l.course == courseId)
  }

  /**
   * getLessonsByCourseId: fails for a missing course; otherwise exactly the
   * course's lessons, in id order.
   */
  function GetLessonsByCourseId(s: State, courseId: Id): (r: Result<seq<Keyed<Lesson>>>)
    ensures courseId !in s.courses <==> r.Err?
    ensures courseId !in s.courses ==> r.FailsWith(NotFound, CourseNotFoundPrefix + IdText(courseId))
    ensures r.Ok? ==> r.value == LessonsOf(s, courseId)
  {
    if courseId !in s.courses then Err(Failure(NotFound, CourseNotFoundPrefix + IdText(courseId)))
    else Ok(LessonsOf(s, courseId))
  }

  /** A created lesson is listed among its course's lessons. */
  lemma CreatedLessonIsListed(s: State, otp: string, courseId: Id, userId: Id)
    requires Teaches(s, userId, courseId)
    ensures var o := CreateLessonStep(s, otp, courseId, userId);
      o.result.Ok? && GetLessonsByCourseId(o.state, courseId).Ok? && o.result.value in GetLessonsByCourseId(o.state, courseId).value
  {
    var o := CreateLessonStep(s, otp, courseId, userId);
    assert o.state.lessons[s.nextId + 1] == Lesson(otp, courseId);
  }

  class LessonService {
    const db: Database
    const notifier: NotificationService

    constructor (db: Database, notifier: NotificationService)
      ensures this.db == db && this.notifier == notifier
    {
      this.db := db;
      this.notifier := notifier;
    }

    method CreateLesson(otp: string, courseId: Id, userId: Id) returns (r: Result<Keyed<Lesson>>)
      requires notifier.db == db && db.Valid()
      modifies db
      ensures db.Valid()
      ensures var o := CreateLessonStep(old(db.tables), otp, courseId, userId);
        r == o.result && db.tables == o.state
    {
      CreateLessonConsistent(db.tables, otp, courseId, userId);
      if courseId !in db.tables.courses {
        return Err(Failure(NotFound, CourseNotFoundPrefix + IdText(courseId)));
      }
      var course := db.tables.courses[courseId];
      if course.instructor != userId {
        return Err(Failure(InvalidUser, NotAuthorizedToCreate));
      }
      var lesson := Lesson(otp, courseId);
      var _ := notifier.NotifyUser(course.instructor, CreatedMessage(course.title));
      var id := db.NewId();
      db.tables := db.tables.(lessons := db.tables.lessons[id := lesson]);
      r := Ok(Keyed(id, lesson));
    }

    method UpdateLesson(id: Id, otp: string, courseId: Id, userId: Id) returns (r: Result<Keyed<Lesson>>)
      requires notifier.db == db && db.Valid()
      modifies db
      ensures db.Valid()
      ensures var o := UpdateLessonStep(old(db.tables), id, otp, courseId, userId);
        r == o.result && db.tables == o.state
    {
      UpdateLessonConsistent(db.tables, id, otp, courseId, userId);
      var existing := GetLessonById(db.tables, id);
      if existing.Err? {
        return existing.PropagateFailure();
      }
      if db.tables.courses[existing.value.val.course].instructor != userId {
        return Err(Failure(InvalidUser, NotAuthorizedToUpdate));
      }
      if courseId !in db.tables.courses {
        return Err(Failure(NotFound, CourseNotFoundPrefix + IdText(courseId)));
      }
      var course := db.tables.courses[courseId];
      var lesson := Lesson(otp, courseId);
      var _ := notifier.NotifyUser(course.instructor, UpdatedMessage(course.title));
      db.tables := db.tables.(lessons := db.tables.lessons[id := lesson]);
      r := Ok(Keyed(id, lesson));
    }
  }
}
