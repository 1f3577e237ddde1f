/**
 * QuestionService: the question bank of a course. Instructors add and delete
 * questions and list them by type; quiz generation draws a random sample.
 */
module QuestionService {
  import opened Wrappers
  import opened Tables
  import opened Entities
  import opened Store
  import opened NotificationService
  import EnrollmentService

  const QuestionNotFoundPrefix: string := "Question not found with ID: "
  const NewQuestionPrefix: string := "New Question has been posted for course "
  const QuestionDeletedPrefix: string := "Question Deleted Successfully for course "

  function NewQuestionMessage(title: string): string
  {
    NewQuestionPrefix + title
  }

  function QuestionDeletedMessage(title: string): string
  {
    QuestionDeletedPrefix + title
  }

  /** The database after saving question q with the next id. */
  function WithQuestion(s: State, q: Question): State
  {
    s.(questions := s.questions[s.nextId := q], nextId := s.nextId + 1)
  }

  /**
   * createQuestion: the course must exist and the caller must be its instructor;
   * then the question is saved and the instructor is notified.
   */
  function CreateQuestionStep(s: State, courseId: Id, content: string, qtype: QuestionType, answer: string, userId: Id)
    : (o: Step<Keyed<Question>>)
    ensures courseId !in s.courses ==> o.result.FailsWith(NotFound, CourseNotFoundPrefix + IdText(courseId))
    ensures courseId in s.courses && s.courses[courseId].instructor != userId ==>
      o.result.FailsWith(InvalidUser, EnrollmentService.NotTheInstructor)
    ensures o.result.Ok? <==> Teaches(s, userId, courseId)
    ensures o.result.Err? ==> o.state == s
    ensures o.result.Ok? ==>
      var q := Question(courseId, content, answer, qtype);
      && o.result.value == Keyed(s.nextId, q)
      && o.state.questions == s.questions[s.nextId := q]
      && o.state.notifications ==
           s.notifications[s.nextId + 1 := Notification(userId, false, NewQuestionMessage(s.courses[courseId].title))]
      && o.state.(questions := s.questions, notifications := s.notifications, nextId := s.nextId) == s
      && o.state.nextId == s.nextId + 2
  {
    if courseId !in s.courses then Fail(s, NotFound, CourseNotFoundPrefix + IdText(courseId))
    else
      var course := s.courses[courseId];
      if course.instructor != userId then Fail(s, InvalidUser, EnrollmentService.NotTheInstructor)
      else
        var q := Question(courseId, content, answer, qtype);
        Step(Ok(Keyed(s.nextId, q)), Notified(WithQuestion(s, q), course.instructor, NewQuestionMessage(course.title)))
  }

  /** createQuestion keeps the database consistent. */
  lemma CreateQuestionConsistent(s: State, courseId: Id, content: string, qtype: QuestionType, answer: string, userId: Id)
    requires Consistent(s)
    ensures Consistent(CreateQuestionStep(s, courseId, content, qtype, answer, userId).state)
  {
    if Teaches(s, userId, courseId) {
      var q := Question(courseId, content, answer, qtype);
      var r := WithQuestion(s, q);
      assert KeysBelow(r) by {
        assert Below(r.questions, r.nextId);
      }
      assert Linked(r);
      NotifiedConsistent(r, userId, NewQuestionMessage(s.courses[courseId].title));
    }
  }

  /**
   * getQuestionById: the question must exist, and the caller must be the
   * instructor of its course.
   */
  function GetQuestionById(s: State, questionId: Id, userId: Id): (r: Result<Keyed<Question>>)
    requires QuestionsLinked(s.questions, s.courses)
    ensures questionId !in s.questions ==> r.FailsWith(NotFound, QuestionNotFoundPrefix + IdText(questionId))
    ensures questionId in s.questions && !Teaches(s, userId, s.questions[questionId].course) ==>
      r.FailsWith(InvalidUser, EnrollmentService.NotTheInstructor)
    ensures r.Ok? <==> questionId in s.questions && Teaches(s, userId, s.questions[questionId].course)
    ensures r.Ok? ==> r.value == Keyed(questionId, s.questions[questionId])
  {
    if questionId !in s.questions then Err(Failure(NotFound, QuestionNotFoundPrefix + IdText(questionId)))
    else
      var q := s.questions[questionId];
      if s.courses[q.course].instructor != userId then Err(Failure(InvalidUser, EnrollmentService.NotTheInstructor))
      else Ok(Keyed(questionId, q))
  }

  /** Whether question q passes the optional type filter. */
  predicate OfType(q: Question, qtype: Option<QuestionType>)
  {
    qtype.None? || q.qtype == qtype.value
  }

  /**
   * findByCourseId, filtered by the optional type: exactly the course's
   * questions of that type (all of them when no type is given), in id order.
   */
  function QuestionPool(s: State, courseId: Id, qtype: Option<QuestionType>): (r: seq<Keyed<Question>>)
    ensures Increasing(r)
    ensures forall i :: 0 <= i < |r| ==>
      && r[i].id in s.questions && s.questions[r[i].id] == r[i].val
      && r[i].val.course == courseId && OfType(r[i].val, qtype)
    ensures forall k :: k in s.questions && s.questions[k].course == courseId && OfType(s.questions[k], qtype) ==>
      Keyed(k, s.questions[k]) in r
  {
    Select(s.questions, (q: Question) => q.course == courseId && OfType(q, qtype))
  }

  /**
   * getFilteredQuestions: the course must exist (checked before the instructor
   * check); the caller must be its instructor; then the pool of that type.
   */
  function GetFilteredQuestions(s: State, courseId: Id, qtype: Option<QuestionType>, userId: Id)
    : (r: Result<seq<Keyed<Question>>>)
    ensures courseId !in s.courses ==> r.FailsWith(NotFound, CourseNotFoundPrefix + IdText(courseId))
    ensures courseId in s.courses && s.courses[courseId].instructor != userId ==>
      r.FailsWith(InvalidUser, EnrollmentService.NotTheInstructor)
    ensures r.Ok? <==> Teaches(s, userId, courseId)
    ensures r.Ok? ==> r.value == QuestionPool(s, courseId, qtype)
  {
    if courseId !in s.courses then Err(Failure(NotFound, CourseNotFoundPrefix + IdText(courseId)))
    else if s.courses[courseId].instructor != userId then Err(Failure(InvalidUser, EnrollmentService.NotTheInstructor))
    else Ok(QuestionPool(s, courseId, qtype))
  }

  /** A question just created is listed, last, by its instructor's unfiltered listing of the course. */
  lemma CreatedQuestionIsListed(s: State, courseId: Id, content: string, qtype: QuestionType, answer: string, userId: Id)
    requires KeysBelow(s)
    requires CreateQuestionStep(s, courseId, content, qtype, answer, userId).result.Ok?
    ensures var o := CreateQuestionStep(s, courseId, content, qtype, answer, userId);
      var listed := GetFilteredQuestions(o.state, courseId, None, userId);
      listed.Ok? && |listed.value| > 0 && listed.value[|listed.value| - 1] == o.result.value
  {
    var o := CreateQuestionStep(s, courseId, content, qtype, answer, userId);
    var pool := QuestionPool(o.state, courseId, None);
    var k := s.nextId;
    assert o.state.questions[k].course == courseId;
    assert Keyed(k, o.state.questions[k]) in pool;
    var j :| 0 <= j < |pool| && pool[j] == Keyed(k, o.state.questions[k]);
  }

  /**
   * Collections.shuffle with a Random: for i from the size down to 2, swap the
   * element at i - 1 with the one at the index nextInt(i) draws. The k-th draw
   * is nextInt(k) reduced below its bound.
   */
  method Shuffle<T>(a: array<T>, nextInt: nat -> nat)
    modifies a
    ensures multiset(a[..]) == multiset(old(a[..]))
  {
    var i := a.Length;
    var draw := 0;
    while i > 1
      invariant 0 <= i <= a.Length
      invariant multiset(a[..]) == multiset(old(a[..]))
    {
      var j := nextInt(draw) % i;
      a[i - 1], a[j] := a[j], a[i - 1];
      i := i - 1;
      draw := draw + 1;
    }
  }

  /** The first n elements of a permutation of a sequence without repetitions are n of its elements, none twice. */
  lemma ShuffledPrefix<T>(pool: seq<T>, shuffled: seq<T>, n: nat)
    requires Distinct(pool) && multiset(shuffled) == multiset(pool) && n <= |shuffled|
    ensures multiset(shuffled[..n]) <= multiset(pool)
    ensures Distinct(shuffled[..n])
    ensures forall i :: 0 <= i < n ==> shuffled[i] in pool
  {
    var selected := shuffled[..n];
    assert shuffled == selected + shuffled[n..];
    SubMultisetDistinct(pool, selected);
    forall i | 0 <= i < n
      ensures shuffled[i] in pool
    {
      assert shuffled[i] in multiset(shuffled);
    }
  }

  /**
   * getRandomQuestions: the course must exist; the type-filtered pool is
   * shuffled and limited to count questions (Stream.limit rejects a negative
   * count). Whatever the draws, the result holds min(count, pool size)
   * questions of the pool, none twice.
   */
  method GetRandomQuestions(s: State, courseId: Id, qtype: Option<QuestionType>, count: int, nextInt: nat -> nat)
    returns (r: Result<seq<Keyed<Question>>>)
    ensures courseId !in s.courses ==> r.FailsWith(NotFound, CourseNotFoundPrefix + IdText(courseId))
    ensures courseId in s.courses && count < 0 ==> r.FailsWith(Internal, IdText(count))
    ensures r.Ok? <==> courseId in s.courses && count >= 0
    ensures r.Ok? ==>
      var pool := QuestionPool(s, courseId, qtype);
      && |r.value| == (if count < |pool| then count else |pool|)
      && multiset(r.value) <= multiset(pool)
      && Distinct(r.value)
      && forall i :: 0 <= i < |r.value| ==> r.value[i] in pool
  {
    if courseId !in s.courses {
      return Err(Failure(NotFound, CourseNotFoundPrefix + IdText(courseId)));
    }
    var pool := QuestionPool(s, courseId, qtype);
    var a := new Keyed<Question>[|pool|](i requires 0 <= i < |pool| => pool[i]);
    assert a[..] == pool;
    Shuffle(a, nextInt);
    if count < 0 {
      return Err(Failure(Internal, IdText(count)));
    }
    var n := if count < a.Length then count else a.Length;
    IncreasingDistinct(pool);
    ShuffledPrefix(pool, a[..], n);
    r := Ok(a[..n]);
  }

  /** Whether some quiz lists question questionId. */
  predicate ListedInQuiz(s: State, questionId: Id)
  {
    exists k :: k in s.quizzes && questionId in s.quizzes[k].questions
  }

  /**
   * deleteQuestion: the question must exist (checked before authorization), the
   * caller must be the instructor of its course, and no quiz may list it (the
   * quiz_questions join table has no ON DELETE CASCADE, so the transaction
   * fails and rolls back). Then the question is removed and the instructor
   * notified.
   */
  function DeleteQuestionStep(s: State, questionId: Id, userId: Id): (o: Step<()>)
    requires QuestionsLinked(s.questions, s.courses)
    ensures questionId !in s.questions ==> o.result.FailsWith(NotFound, QuestionNotFoundPrefix + IdText(questionId))
    ensures questionId in s.questions && !Teaches(s, userId, s.questions[questionId].course) ==>
      o.result.FailsWith(InvalidUser, EnrollmentService.NotTheInstructor)
    ensures questionId in s.questions && Teaches(s, userId, s.questions[questionId].course) && ListedInQuiz(s, questionId) ==>
      o.result.FailsWith(Conflict, ForeignKeyFails)
    ensures o.result.Ok? <==>
      questionId in s.questions && Teaches(s, userId, s.questions[questionId].course) && !ListedInQuiz(s, questionId)
    ensures o.result.Err? ==> o.state == s
    ensures o.result.Ok? ==>
      var title := s.courses[s.questions[questionId].course].title;
      && o.state.questions == s.questions - {questionId}
      && o.state.notifications == s.notifications[s.nextId := Notification(userId, false, QuestionDeletedMessage(title))]
      && o.state.(questions := s.questions, notifications := s.notifications, nextId := s.nextId) == s
      && o.state.nextId == s.nextId + 1
  {
    var found := GetQuestionById(s, questionId, userId);
    if found.Err? then Step(found.PropagateFailure(), s)
    else if ListedInQuiz(s, questionId) then Fail(s, Conflict, ForeignKeyFails)
    else
      var course := s.courses[found.value.val.course];
      Step(Ok(()), Notified(s.(questions := s.questions - {questionId}), course.instructor, QuestionDeletedMessage(course.title)))
  }

  /** deleteQuestion keeps the database consistent: only an unlisted question is removed. */
  lemma DeleteQuestionConsistent(s: State, questionId: Id, userId: Id)
    requires Consistent(s)
    ensures Consistent(DeleteQuestionStep(s, questionId, userId).state)
  {
    if DeleteQuestionStep(s, questionId, userId).result.Ok? {
      var r := s.(questions := s.questions - {questionId});
      assert KeysBelow(r) by {
        assert Below(r.questions, r.nextId);
      }
      assert QuizzesLinked(r.quizzes, r.courses, r.questions) by {
        forall k, q | k in r.quizzes && q in r.quizzes[k].questions
          ensures q in r.questions
        {
          assert q in s.questions;
          assert q != questionId;
        }
      }
      assert Linked(r);
      NotifiedConsistent(r, userId, QuestionDeletedMessage(s.courses[s.questions[questionId].course].title));
    }
  }

  class QuestionService {
    const db: Database
    const notifier: NotificationService

    constructor (db: Database, notifier: NotificationService)
      requires notifier.db == db
      ensures this.db == db && this.notifier == notifier
    {
      this.db := db;
      this.notifier := notifier;
    }

    method CreateQuestion(courseId: Id, content: string, qtype: QuestionType, answer: string, userId: Id)
      returns (r: Result<Keyed<Question>>)
      requires notifier.db == db && db.Valid()
      modifies db
      ensures db.Valid()
      ensures var o := CreateQuestionStep(old(db.tables), courseId, content, qtype, answer, userId);
        r == o.result && db.tables == o.state
    {
      CreateQuestionConsistent(db.tables, courseId, content, qtype, answer, userId);
      if courseId !in db.tables.courses {
        return Err(Failure(NotFound, CourseNotFoundPrefix + IdText(courseId)));
      }
      var course := db.tables.courses[courseId];
      if course.instructor != userId {
        return Err(Failure(InvalidUser, EnrollmentService.NotTheInstructor));
      }
      var question := Question(courseId, content, answer, qtype);
      var id := db.NewId();
      db.tables := db.tables.(questions := db.tables.questions[id := question]);
      ghost var s1 := db.tables;
      var _ := notifier.NotifyUser(course.instructor, NewQuestionMessage(course.title));
      assert db.tables == Notified(s1, course.instructor, NewQuestionMessage(course.title));
      r := Ok(Keyed(id, question));
    }

    method DeleteQuestion(questionId: Id, userId: Id) returns (r: Result<()>)
      requires notifier.db == db && db.Valid()
      modifies db
      ensures db.Valid()
      ensures var o := DeleteQuestionStep(old(db.tables), questionId, userId);
        r == o.result && db.tables == o.state
    {
      DeleteQuestionConsistent(db.tables, questionId, userId);
      if questionId !in db.tables.questions {
        return Err(Failure(NotFound, QuestionNotFoundPrefix + IdText(questionId)));
      }
      var q := db.tables.questions[questionId];
      var course := db.tables.courses[q.course];
      if course.instructor != userId {
        return Err(Failure(InvalidUser, EnrollmentService.NotTheInstructor));
      }
      if ListedInQuiz(db.tables, questionId) {
        return Err(Failure(Conflict, ForeignKeyFails));
      }
      db.tables := db.tables.(questions := db.tables.questions - {questionId});
      ghost var s1 := db.tables;
      var _ := notifier.NotifyUser(course.instructor, QuestionDeletedMessage(course.title));
      assert db.tables == Notified(s1, course.instructor, QuestionDeletedMessage(course.title));
      r := Ok(());
    }
  }
}
