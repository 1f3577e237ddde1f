/**
 * CourseService: creating a course for an instructor, editing its
 * descriptive fields, reading it back, deleting it with everything that hangs
 * off it, and asking whether a user teaches it.
 */
module CourseService {
  import opened Wrappers
  import opened Tables
  import opened UserRole
  import opened Entities
  import opened Store
  import opened StudentAssignmentResponse
  import EnrollmentService

  const InstructorNotFound: string := "Instructor Not Found"
  const OnlyInstructors: string := "Only Instructors Can Be Added to Course Entity"

  /**
   * addCourse: the instructor must exist and have role INSTRUCTOR (an ADMIN is
   * refused too). The course is saved with the next id, exactly the given
   * fields and no materials.
   */
  function AddCourseStep(s: State, title: string, duration: string, description: string, instructorId: Id): (o: Step<CourseResponse>)
    ensures instructorId !in s.users ==> o.result.FailsWith(NotFound, InstructorNotFound)
    ensures instructorId in s.users && s.users[instructorId].role != INSTRUCTOR ==> o.result.FailsWith(InvalidUser, OnlyInstructors)
    ensures o.result.Ok? <==> instructorId in s.users && s.users[instructorId].role == INSTRUCTOR
    ensures o.result.Err? ==> o.state == s
    ensures o.result.Ok? ==>
      && o.state == s.(courses := s.courses[s.nextId := Course(instructorId, title, duration, description, [])], nextId := s.nextId + 1)
      && o.result.value == CourseResponseOf(o.state, s.nextId)
  {
    if instructorId !in s.users then Fail(s, NotFound, InstructorNotFound)
    else if s.users[instructorId].role != INSTRUCTOR then Fail(s, InvalidUser, OnlyInstructors)
    else
      var r := s.(courses := s.courses[s.nextId := Course(instructorId, title, duration, description, [])], nextId := s.nextId + 1);
      Step(Ok(CourseResponseOf(r, s.nextId)), r)
  }

  /** The new course is taught by the given instructor and reports the given fields and the instructor's name. */
  lemma AddCourseResponse(s: State, title: string, duration: string, description: string, instructorId: Id)
    requires instructorId in s.users && s.users[instructorId].role == INSTRUCTOR
    ensures var o := AddCourseStep(s, title, duration, description, instructorId);
      && Teaches(o.state, instructorId, o.result.value.id)
      && o.result.value == CourseResponse(s.nextId, s.users[instructorId].name, title, duration, description)
  {
  }

  /** addCourse keeps the database consistent. */
  lemma AddCourseConsistent(s: State, title: string, duration: string, description: string, instructorId: Id)
    requires Consistent(s)
    ensures Consistent(AddCourseStep(s, title, duration, description, instructorId).state)
  {
    var o := AddCourseStep(s, title, duration, description, instructorId);
    if o.result.Ok? {
      var r := o.state;
      assert KeysBelow(r) by {
        assert Below(r.courses, r.nextId);
      }
      assert CoursesLinked(r.courses, r.users);
      assert Linked(r);
    }
  }

  /** The request value when present, the current value otherwise. */
  function Either(request: Option<string>, current: string): (v: string)
    ensures request.Some? ==> v == request.value
    ensures request.None? ==> v == current
  {
    if request.Some? then request.value else current
  }

  /** The course after an update request: each field given in the request replaced, the others kept. */
  function Edited(c: Course, title: Option<string>, description: Option<string>, duration: Option<string>): (r: Course)
    ensures r.instructor == c.instructor
    ensures r.title == Either(title, c.title) && r.description == Either(description, c.description)
    ensures r.duration == Either(duration, c.duration) && r.materials == c.materials
  {
    Course(c.instructor, Either(title, c.title), Either(duration, c.duration), Either(description, c.description), c.materials)
  }

  /** An empty request changes nothing, and applying the same request twice is the same as once. */
  lemma EditedIdempotent(c: Course, title: Option<string>, description: Option<string>, duration: Option<string>)
    ensures Edited(c, None, None, None) == c
    ensures Edited(Edited(c, title, description, duration), title, description, duration) == Edited(c, title, description, duration)
  {
  }

  /**
   * updateCourse: findById(id).get() fails for a missing course (the null
   * check after it is dead); then only the course's instructor may edit it.
   */
  function UpdateCourseStep(s: State, id: Id, title: Option<string>, description: Option<string>, duration: Option<string>,
                            instructorId: Id): (o: Step<CourseResponse>)
    requires Linked(s)
    ensures id !in s.courses ==> o.result.FailsWith(Internal, NoValuePresent)
    ensures id in s.courses && s.courses[id].instructor != instructorId ==>
      o.result.FailsWith(InvalidUser, EnrollmentService.NotTheInstructor)
    ensures o.result.Ok? <==> Teaches(s, instructorId, id)
    ensures o.result.Err? ==> o.state == s
    ensures o.result.Ok? ==>
      && o.state == s.(courses := s.courses[id := Edited(s.courses[id], title, description, duration)])
      && o.result.value == CourseResponseOf(o.state, id)
  {
    if id !in s.courses then Fail(s, Internal, NoValuePresent)
    else if s.courses[id].instructor != instructorId then Fail(s, InvalidUser, EnrollmentService.NotTheInstructor)
    else
      var r := s.(courses := s.courses[id := Edited(s.courses[id], title, description, duration)]);
      Step(Ok(CourseResponseOf(r, id)), r)
  }

  /** updateCourse keeps the database consistent: it changes no reference. */
  lemma UpdateCourseConsistent(s: State, id: Id, title: Option<string>, description: Option<string>, duration: Option<string>,
                               instructorId: Id)
    requires Consistent(s)
    ensures Consistent(UpdateCourseStep(s, id, title, description, duration, instructorId).state)
  {
    var o := UpdateCourseStep(s, id, title, description, duration, instructorId);
    if o.result.Ok? {
      var r := o.state;
      assert KeysBelow(r) by {
        assert Below(r.courses, r.nextId);
      }
      assert Linked(r);
    }
  }

  /** getCourseById: CourseNotFoundException("Entity Not Found") for a missing id. */
  function GetCourseById(s: State, id: Id): (r: Result<CourseResponse>)
    requires Linked(s)
    ensures id !in s.courses ==> r.FailsWith(NotFound, EnrollmentService.EntityNotFound)
    ensures id in s.courses ==> r.Ok? && r.value == CourseResponseOf(s, id)
  {
    if id !in s.courses then Err(Failure(NotFound, EnrollmentService.EntityNotFound))
    else Ok(CourseResponseOf(s, id))
  }

  /** An added course can be read back with exactly the response addCourse returned. */
  lemma AddedCourseReadsBack(s: State, title: string, duration: string, description: string, instructorId: Id)
    requires Linked(s)
    ensures var o := AddCourseStep(s, title, duration, description, instructorId);
      o.result.Ok? ==> Linked(o.state) && GetCourseById(o.state, o.result.value.id) == o.result
  {
    var o := AddCourseStep(s, title, duration, description, instructorId);
    if o.result.Ok? {
      assert CoursesLinked(o.state.courses, o.state.users);
      assert Linked(o.state);
    }
  }

  /** The database after course id is deleted, with ON DELETE CASCADE applied. */
  function WithoutCourse(s: State, id: Id): State
  {
    Cascade(s.(courses := s.courses - {id}))
  }

  /**
   * The database as the delete statement for course id finds it: Hibernate has
   * already removed the course's own course_materials rows.
   */
  function MaterialsCleared(s: State, id: Id): State
    requires id in s.courses
  {
    s.(courses := s.courses[id := s.courses[id].(materials := [])])
  }

  /**
   * deleteCourseById: findById(id).get() fails for a missing course; only its
   * instructor may delete it. The deletion cascades to the course's lessons,
   * assignments, questions, quizzes and enrollments and to the rows that hang
   * off those, unless a foreign key without a cascade refuses it: a quiz of the
   * course that lists questions or has results, a question of the course that
   * another course's quiz lists, or a submission in the course that has files.
   * The course's own materials never refuse it.
   */
  function DeleteCourseStep(s: State, id: Id, instructorId: Id): (o: Step<()>)
    ensures id !in s.courses ==> o.result.FailsWith(Internal, NoValuePresent)
    ensures id in s.courses && s.courses[id].instructor != instructorId ==>
      o.result.FailsWith(InvalidUser, EnrollmentService.NotTheInstructor)
    ensures Teaches(s, instructorId, id) && Refused(MaterialsCleared(s, id), WithoutCourse(s, id)) ==>
      o.result.FailsWith(Conflict, ForeignKeyFails)
    ensures o.result.Ok? <==> Teaches(s, instructorId, id) && !Refused(MaterialsCleared(s, id), WithoutCourse(s, id))
    ensures o.result.Err? ==> o.state == s
    ensures o.result.Ok? ==> o.state == WithoutCourse(s, id)
  {
    if id !in s.courses then Fail(s, Internal, NoValuePresent)
    else if s.courses[id].instructor != instructorId then Fail(s, InvalidUser, EnrollmentService.NotTheInstructor)
    else
      var r := WithoutCourse(s, id);
      if Refused(MaterialsCleared(s, id), r) then Fail(s, Conflict, ForeignKeyFails)
      else Step(Ok(()), r)
  }

  /**
   * After a successful deletion the course is gone and no lesson, assignment,
   * question, quiz, enrollment or submission refers to it; the users are
   * untouched.
   */
  lemma DeleteCourseLeavesNoTrace(s: State, id: Id, instructorId: Id)
    requires DeleteCourseStep(s, id, instructorId).result.Ok?
    ensures var r := DeleteCourseStep(s, id, instructorId).state;
      && id !in r.courses
      && r.users == s.users
      && (forall k :: k in r.lessons ==> r.lessons[k].course != id)
      && (forall k :: k in r.assignments ==> r.assignments[k].course != id)
      && (forall k :: k in r.questions ==> r.questions[k].course != id)
      && (forall k :: k in r.quizzes ==> r.quizzes[k].course != id)
      && (forall k :: k in r.enrollments ==> r.enrollments[k].course != id)
      && (forall k :: k in r.studentAssignments ==> r.studentAssignments[k].course != id)
  {
  }

  /** A course one of whose quizzes lists a question cannot be deleted. */
  lemma DeleteCourseWithQuizRefused(s: State, id: Id, instructorId: Id, q: Id)
    requires Teaches(s, instructorId, id)
    requires q in s.quizzes && s.quizzes[q].course == id && |s.quizzes[q].questions| > 0
    ensures DeleteCourseStep(s, id, instructorId).result.FailsWith(Conflict, ForeignKeyFails)
  {
    assert q !in WithoutCourse(s, id).quizzes;
  }

  /** A course in which some submission has files cannot be deleted. */
  lemma DeleteCourseWithFilesRefused(s: State, id: Id, instructorId: Id, k: Id)
    requires Teaches(s, instructorId, id)
    requires k in s.studentAssignments && s.studentAssignments[k].course == id && |s.studentAssignments[k].fileNames| > 0
    ensures DeleteCourseStep(s, id, instructorId).result.FailsWith(Conflict, ForeignKeyFails)
  {
    assert k !in WithoutCourse(s, id).studentAssignments;
    assert FilesLost(MaterialsCleared(s, id), WithoutCourse(s, id));
  }

  /** The course's own materials do not matter: deleting it decides as if it had none. */
  lemma DeleteCourseIgnoresOwnMaterials(s: State, id: Id, instructorId: Id)
    requires id in s.courses
    ensures DeleteCourseStep(s, id, instructorId).result == DeleteCourseStep(MaterialsCleared(s, id), id, instructorId).result
  {
    var c := MaterialsCleared(s, id);
    assert MaterialsCleared(c, id) == c;
    assert c.courses - {id} == s.courses - {id};
    assert c.(courses := c.courses - {id}) == s.(courses := s.courses - {id});
  }

  /** deleteCourseById keeps the database consistent. */
  lemma DeleteCourseConsistent(s: State, id: Id, instructorId: Id)
    requires Consistent(s)
    ensures Consistent(DeleteCourseStep(s, id, instructorId).state)
  {
    if DeleteCourseStep(s, id, instructorId).result.Ok? {
      var t := s.(courses := s.courses - {id});
      assert KeysBelow(t) by {
        BelowSubset(s.courses, t.courses, s.nextId);
      }
      CascadeConsistent(t);
    }
  }

  /** isCourseInstructor: fails for a missing course; otherwise whether instructorId teaches it. */
  function IsCourseInstructor(s: State, courseId: Id, instructorId: Id): (r: Result<bool>)
    ensures courseId !in s.courses ==> r.FailsWith(NotFound, CourseNotFoundPrefix + IdText(courseId))
    ensures courseId in s.courses ==> r.Ok? && (r.value <==> Teaches(s, instructorId, courseId))
  {
    if courseId !in s.courses then Err(Failure(NotFound, CourseNotFoundPrefix + IdText(courseId)))
    else Ok(s.courses[courseId].instructor == instructorId)
  }

  /** Exactly one user is the instructor of an existing course. */
  lemma OneInstructorPerCourse(s: State, courseId: Id, a: Id, b: Id)
    requires IsCourseInstructor(s, courseId, a) == Ok(true) && IsCourseInstructor(s, courseId, b) == Ok(true)
    ensures a == b
  {
  }

  class CourseService {
    const db: Database

    constructor (db: Database)
      ensures this.db == db
    {
      this.db := db;
    }

    method AddCourse(title: string, duration: string, description: string, instructorId: Id) returns (r: Result<CourseResponse>)
      requires db.Valid()
      modifies db
      ensures db.Valid()
      ensures var o := AddCourseStep(old(db.tables), title, duration, description, instructorId);
        r == o.result && db.tables == o.state
    {
      AddCourseConsistent(db.tables, title, duration, description, instructorId);
      var crs := Course(instructorId, title, duration, description, []);
      if instructorId !in db.tables.users {
        return Err(Failure(NotFound, InstructorNotFound));
      }
      if db.tables.users[instructorId].role != INSTRUCTOR {
        return Err(Failure(InvalidUser, OnlyInstructors));
      }
      var id := db.NewId();
      db.tables := db.tables.(courses := db.tables.courses[id := crs]);
      r := Ok(CourseResponseOf(db.tables, id));
    }

    method UpdateCourse(id: Id, title: Option<string>, description: Option<string>, duration: Option<string>, instructorId: Id)
      returns (r: Result<CourseResponse>)
      requires db.Valid()
      modifies db
      ensures db.Valid()
      ensures var o := UpdateCourseStep(old(db.tables), id, title, description, duration, instructorId);
        r == o.result && db.tables == o.state
    {
      UpdateCourseConsistent(db.tables, id, title, description, duration, instructorId);
      if id !in db.tables.courses {
        return Err(Failure(Internal, NoValuePresent));
      }
      var crs := db.tables.courses[id];
      if crs.instructor != instructorId {
        return Err(Failure(InvalidUser, EnrollmentService.NotTheInstructor));
      }
      crs := crs.(title := if title.None? then crs.title else title.value);
      crs := crs.(description := if description.None? then crs.description else description.value);
      crs := crs.(duration := if duration.None? then crs.duration else duration.value);
      db.tables := db.tables.(courses := db.tables.courses[id := crs]);
      r := Ok(CourseResponseOf(db.tables, id));
    }

    method DeleteCourseById(id: Id, instructorId: Id) returns (r: Result<()>)
      requires db.Valid()
      modifies db
      ensures db.Valid()
      ensures var o := DeleteCourseStep(old(db.tables), id, instructorId);
        r == o.result && db.tables == o.state
    {
      DeleteCourseConsistent(db.tables, id, instructorId);
      if id !in db.tables.courses {
        return Err(Failure(Internal, NoValuePresent));
      }
      if db.tables.courses[id].instructor != instructorId {
        return Err(Failure(InvalidUser, EnrollmentService.NotTheInstructor));
      }
      var remaining := WithoutCourse(db.tables, id);
      if Refused(MaterialsCleared(db.tables, id), remaining) {
        return Err(Failure(Conflict, ForeignKeyFails));
      }
      db.tables := remaining;
      r := Ok(());
    }
  }
}
