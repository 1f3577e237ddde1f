/**
 * QuizService: generating a quiz from a course's question bank, opening a
 * quiz, submitting answers for a grade, and listing quizzes and grades.
 */
module QuizService {
  import opened Wrappers
  import opened Tables
  import opened UserRole
  import opened Entities
  import opened Store
  import EnrollmentService
  import QuestionService

  const QuizNotFoundPrefix: string := "Quiz not found with ID: "
  const NotAuthorized: string := "You are not authorized"
  const NotAuthorizedToView: string := "You are not authorized to view quizzes for this course"
  const NotEnoughQuestions: string := "Not enough questions in the question bank."
  const AlreadySubmitted: string := "Quiz already submitted by this student."
  const NoQuizzesPrefix: string := "No quizzes found for student with ID: "
  /** The message of the IndexOutOfBoundsException that get(0) raises on an empty list. */
  const IndexOutOfBounds: string := "Index 0 out of bounds for length 0"

  /** One submitted answer. */
  datatype QuestionAnswer = QuestionAnswer(questionId: Id, answer: string)

  /** A student's grade on a quiz, out of the quiz's number of questions. */
  datatype GradeDTO = GradeDTO(studentId: Id, quizId: Id, grade: real, maxGrade: int)

  /** Who may open a quiz of a course: its instructor, or a user enrolled in it. Being an ADMIN does not help. */
  predicate MayTake(s: State, userId: Id, courseId: Id)
  {
    Teaches(s, userId, courseId) || EnrollmentService.Enrolled(s, userId, courseId)
  }

  predicate IsAdmin(s: State, userId: Id)
  {
    userId in s.users && s.users[userId].role == ADMIN
  }

  /** getQuizById: the quiz must exist, and the caller must teach or be enrolled in its course. */
  function GetQuizById(s: State, quizId: Id, userId: Id): (r: Result<Keyed<Quiz>>)
    ensures quizId !in s.quizzes ==> r.FailsWith(NotFound, QuizNotFoundPrefix + IdText(quizId))
    ensures quizId in s.quizzes && !MayTake(s, userId, s.quizzes[quizId].course) ==> r.FailsWith(InvalidUser, NotAuthorized)
    ensures r.Ok? <==> quizId in s.quizzes && MayTake(s, userId, s.quizzes[quizId].course)
    ensures r.Ok? ==> r.value == Keyed(quizId, s.quizzes[quizId])
  {
    if quizId !in s.quizzes then Err(Failure(NotFound, QuizNotFoundPrefix + IdText(quizId)))
    else
      var q := s.quizzes[quizId];
      if !MayTake(s, userId, q.course) then Err(Failure(InvalidUser, NotAuthorized))
      else Ok(Keyed(quizId, q))
  }

  /** Access to a quiz does not depend on the caller's role: an ADMIN is treated like anyone else. */
  lemma QuizAccessIgnoresRole(s: State, quizId: Id, userId: Id, role: Role)
    requires userId in s.users
    ensures GetQuizById(s.(users := s.users[userId := s.users[userId].(role := role)]), quizId, userId)
         == GetQuizById(s, quizId, userId)
  {
  }

  /**
   * The checks generateQuizForCourse makes before and after sampling: the course
   * must exist; the caller must teach or be enrolled in it; the bank must hold
   * at least count questions; then Stream.limit refuses a negative count and
   * get(0) an empty selection.
   */
  function GenerateQuizGuard(s: State, courseId: Id, count: int, userId: Id): (r: Result<()>)
    ensures courseId !in s.courses ==> r.FailsWith(NotFound, CourseNotFoundPrefix + IdText(courseId))
    ensures courseId in s.courses && !MayTake(s, userId, courseId) ==> r.FailsWith(InvalidUser, NotAuthorized)
    ensures courseId in s.courses && MayTake(s, userId, courseId) && |QuestionService.QuestionPool(s, courseId, None)| < count ==>
      r.FailsWith(BadRequest, NotEnoughQuestions)
    ensures courseId in s.courses && MayTake(s, userId, courseId) && count < 0 ==> r.FailsWith(Internal, IdText(count))
    ensures courseId in s.courses && MayTake(s, userId, courseId) && count == 0 ==> r.FailsWith(Internal, IndexOutOfBounds)
    ensures r.Ok? <==>
      courseId in s.courses && MayTake(s, userId, courseId) && 0 < count <= |QuestionService.QuestionPool(s, courseId, None)|
  {
    if courseId !in s.courses then Err(Failure(NotFound, CourseNotFoundPrefix + IdText(courseId)))
    else if !MayTake(s, userId, courseId) then Err(Failure(InvalidUser, NotAuthorized))
    else if |QuestionService.QuestionPool(s, courseId, None)| < count then Err(Failure(BadRequest, NotEnoughQuestions))
    else if count < 0 then Err(Failure(Internal, IdText(count)))
    else if count == 0 then Err(Failure(Internal, IndexOutOfBounds))
    else Ok(())
  }

  /** quiz is a quiz of course courseId made of count distinct questions of that course. */
  ghost predicate Sampled(s: State, courseId: Id, count: int, quiz: Quiz)
  {
    && quiz.course == courseId
    && |quiz.questions| == count
    && Distinct(quiz.questions)
    && forall i :: 0 <= i < |quiz.questions| ==>
         quiz.questions[i] in s.questions && s.questions[quiz.questions[i]].course == courseId
  }

  /** The database after saving quiz with the next id. */
  function WithQuiz(s: State, quiz: Quiz): State
  {
    s.(quizzes := s.quizzes[s.nextId := quiz], nextId := s.nextId + 1)
  }

  /** Saving a quiz of an existing course listing existing questions keeps the database consistent. */
  lemma WithQuizConsistent(s: State, quiz: Quiz)
    requires Consistent(s)
    requires quiz.course in s.courses && forall q :: q in quiz.questions ==> q in s.questions
    ensures Consistent(WithQuiz(s, quiz))
  {
    var r := WithQuiz(s, quiz);
    assert KeysBelow(r) by {
      assert Below(r.quizzes, r.nextId);
    }
    assert QuizzesLinked(r.quizzes, r.courses, r.questions);
    assert ResultsLinked(r.studentQuizzes, r.quizzes, r.users);
  }

  /** A generated quiz can be opened by the user who generated it. */
  lemma GeneratedQuizIsOpen(s: State, courseId: Id, count: int, userId: Id, quiz: Quiz)
    requires GenerateQuizGuard(s, courseId, count, userId).Ok? && Sampled(s, courseId, count, quiz)
    ensures GetQuizById(WithQuiz(s, quiz), s.nextId, userId) == Ok(Keyed(s.nextId, quiz))
  {
    var r := WithQuiz(s, quiz);
    if EnrollmentService.Enrolled(s, userId, courseId) {
      var k :| k in s.enrollments && s.enrollments[k].student == userId && s.enrollments[k].course == courseId;
      assert r.enrollments[k] == s.enrollments[k];
    }
  }

  /** The identifiers of the given questions. */
  function Ids(rows: seq<Keyed<Question>>): (ids: seq<Id>)
    ensures |ids| == |rows| && forall i :: 0 <= i < |rows| ==> ids[i] == rows[i].id
  {
    seq(|rows|, i requires 0 <= i < |rows| => rows[i].id)
  }

  /** Distinct questions of the pool have distinct ids. */
  lemma SampleIds(s: State, courseId: Id, count: int, rows: seq<Keyed<Question>>)
    requires |rows| == count && Distinct(rows)
    requires forall i :: 0 <= i < |rows| ==> rows[i] in QuestionService.QuestionPool(s, courseId, None)
    ensures Sampled(s, courseId, count, Quiz(courseId, Ids(rows)))
  {
    var pool := QuestionService.QuestionPool(s, courseId, None);
    var ids := Ids(rows);
    forall i | 0 <= i < |rows|
      ensures rows[i].id in s.questions && s.questions[rows[i].id] == rows[i].val && rows[i].val.course == courseId
    {
      var j :| 0 <= j < |pool| && pool[j] == rows[i];
    }
    forall i, j | 0 <= i < j < |ids|
      ensures ids[i] != ids[j]
    {
      assert rows[i] != rows[j];
    }
  }

  /**
   * One submitted answer counts when it names an existing question and equals
   * its stored answer exactly.
   */
  predicate Correct(s: State, a: QuestionAnswer)
  {
    a.questionId in s.questions && s.questions[a.questionId].answer == a.answer
  }

  /**
   * submitQuiz's scoring of answers against a quiz listing the given questions:
   * one point per correct answer, in order, stopping at the first answer whose
   * question is not in the quiz.
   */
  function Grade(s: State, questions: seq<Id>, answers: seq<QuestionAnswer>): (r: Result<int>)
    ensures r.Ok? <==> forall i :: 0 <= i < |answers| ==> answers[i].questionId in questions
    ensures r.Ok? ==> 0 <= r.value <= |answers|
    decreases |answers|
  {
    if answers == [] then Ok(0)
    else
      var last := answers[|answers| - 1];
      var prior := Grade(s, questions, answers[..|answers| - 1]);
      if prior.Err? then prior
      else if last.questionId !in questions then
        Err(Failure(NotFound, QuestionService.QuestionNotFoundPrefix + IdText(last.questionId)))
      else Ok(prior.value + if Correct(s, last) then 1 else 0)
  }

  /** Answer i is the first one naming a question the quiz does not list. */
  predicate FirstUnknown(questions: seq<Id>, answers: seq<QuestionAnswer>, i: int)
  {
    && 0 <= i < |answers|
    && answers[i].questionId !in questions
    && forall j :: 0 <= j < i ==> answers[j].questionId in questions
  }

  /** Once scoring a prefix of the answers fails, scoring all of them fails the same way. */
  lemma {:induction false} GradeFailureSticks(s: State, questions: seq<Id>, answers: seq<QuestionAnswer>, n: nat)
    requires n <= |answers| && Grade(s, questions, answers[..n]).Err?
    ensures Grade(s, questions, answers) == Grade(s, questions, answers[..n])
    decreases |answers|
  {
    if n < |answers| {
      var prefix := answers[..|answers| - 1];
      assert prefix[..n] == answers[..n];
      GradeFailureSticks(s, questions, prefix, n);
    } else {
      assert answers[..n] == answers;
    }
  }

  /** Scoring fails at the first answer naming a question the quiz does not list, with that answer's question id. */
  lemma GradeFailsAtFirstUnknown(s: State, questions: seq<Id>, answers: seq<QuestionAnswer>, i: int)
    requires FirstUnknown(questions, answers, i)
    ensures Grade(s, questions, answers) ==
      Err(Failure(NotFound, QuestionService.QuestionNotFoundPrefix + IdText(answers[i].questionId)))
  {
    var prefix := answers[..i + 1];
    assert prefix[..i] == answers[..i];
    assert Grade(s, questions, answers[..i]).Ok?;
    GradeFailureSticks(s, questions, answers, i + 1);
  }

  /**
   * submitQuiz's scoring loop: each answer's question must be one of the
   * quiz's, and scores a point when the stored answer equals the given one.
   */
  method ScoreAnswers(s: State, questions: seq<Id>, answers: seq<QuestionAnswer>) returns (r: Result<int>)
    requires forall q :: q in questions ==> q in s.questions
    ensures r == Grade(s, questions, answers)
  {
    var score := 0;
    for i := 0 to |answers|
      invariant Grade(s, questions, answers[..i]) == Ok(score)
    {
      var answer := answers[i];
      assert answers[..i + 1][..i] == answers[..i];
      if answer.questionId !in questions {
        GradeFailsAtFirstUnknown(s, questions, answers, i);
        return Err(Failure(NotFound, QuestionService.QuestionNotFoundPrefix + IdText(answer.questionId)));
      }
      var question := s.questions[answer.questionId];
      if question.answer == answer.answer {
        score := score + 1;
      }
    }
    assert answers[..|answers|] == answers;
    r := Ok(score);
  }

  /** The answers that name every question of a quiz in order with its stored answer. */
  function AnswerKey(s: State, questions: seq<Id>): (key: seq<QuestionAnswer>)
    requires forall i :: 0 <= i < |questions| ==> questions[i] in s.questions
    ensures |key| == |questions|
    ensures forall i :: 0 <= i < |key| ==> key[i].questionId == questions[i] && Correct(s, key[i])
  {
    seq(|questions|, i requires 0 <= i < |questions| => QuestionAnswer(questions[i], s.questions[questions[i]].answer))
  }

  /** Answering every question of the quiz correctly, once each, scores the quiz's question count. */
  lemma {:induction false} FullMarks(s: State, questions: seq<Id>, n: nat)
    requires forall i :: 0 <= i < |questions| ==> questions[i] in s.questions
    requires n <= |questions|
    ensures Grade(s, questions, AnswerKey(s, questions)[..n]) == Ok(n)
  {
    if n > 0 {
      var key := AnswerKey(s, questions);
      assert key[..n][..n - 1] == key[..n - 1];
      assert key[..n][n - 1] == key[n - 1];
      assert key[n - 1].questionId in questions;
      FullMarks(s, questions, n - 1);
    }
  }

  /**
   * Nothing stops an answer from being submitted repeatedly: a correct answer
   * sent n times scores n, whatever the quiz's number of questions, so the grade
   * can exceed the maxGrade it is reported against.
   */
  lemma {:induction false} RepeatedAnswerCountsEachTime(s: State, questions: seq<Id>, a: QuestionAnswer, n: nat)
    requires a.questionId in questions && Correct(s, a)
    ensures Grade(s, questions, seq(n, _ => a)) == Ok(n)
  {
    if n > 0 {
      var answers := seq(n, _ => a);
      assert answers[..n - 1] == seq(n - 1, _ => a);
      RepeatedAnswerCountsEachTime(s, questions, a, n - 1);
    }
  }

  /** Whether student has a result for quiz: existsStudentQuizByStudentIdAndQuiz. */
  predicate Submitted(s: State, student: Id, quiz: Id)
  {
    exists k :: k in s.studentQuizzes && s.studentQuizzes[k].student == student && s.studentQuizzes[k].quiz == quiz
  }

  /** mapToResponseDTO(StudentQuiz): the grade of a result, out of its quiz's question count. */
  function ToGradeDTO(s: State, row: StudentQuiz): (g: GradeDTO)
    requires row.quiz in s.quizzes
    ensures g.studentId == row.student && g.quizId == row.quiz && g.grade == row.grade
    ensures g.maxGrade == |s.quizzes[row.quiz].questions|
  {
    GradeDTO(row.student, row.quiz, row.grade, |s.quizzes[row.quiz].questions|)
  }

  /** The database after saving result row with the next id. */
  function WithResult(s: State, row: StudentQuiz): State
  {
    s.(studentQuizzes := s.studentQuizzes[s.nextId := row], nextId := s.nextId + 1)
  }

  /**
   * submitQuiz: the quiz must open for the student (getQuizById), the student
   * must not have submitted it yet, and every answer must name a question of the
   * quiz; then the score is saved as the student's grade and returned out of the
   * quiz's question count.
   */
  function SubmitQuizStep(s: State, quizId: Id, studentId: Id, answers: seq<QuestionAnswer>): (o: Step<GradeDTO>)
    ensures GetQuizById(s, quizId, studentId).Err? ==> o.result == GetQuizById(s, quizId, studentId).PropagateFailure()
    ensures GetQuizById(s, quizId, studentId).Ok? && Submitted(s, studentId, quizId) ==>
      o.result.FailsWith(Conflict, AlreadySubmitted)
    ensures (&& GetQuizById(s, quizId, studentId).Ok? && !Submitted(s, studentId, quizId)
             && Grade(s, s.quizzes[quizId].questions, answers).Err?) ==>
      o.result == Grade(s, s.quizzes[quizId].questions, answers).PropagateFailure()
    ensures o.result.Ok? <==>
      && GetQuizById(s, quizId, studentId).Ok? && !Submitted(s, studentId, quizId)
      && Grade(s, s.quizzes[quizId].questions, answers).Ok?
    ensures o.result.Err? ==> o.state == s
    ensures o.result.Ok? ==>
      var quiz := s.quizzes[quizId];
      var score := Grade(s, quiz.questions, answers).value;
      && o.result.value == GradeDTO(studentId, quizId, score as real, |quiz.questions|)
      && o.state == WithResult(s, StudentQuiz(quizId, studentId, score as real))
  {
    var quiz := GetQuizById(s, quizId, studentId);
    if quiz.Err? then Step(quiz.PropagateFailure(), s)
    else if Submitted(s, studentId, quizId) then Fail(s, Conflict, AlreadySubmitted)
    else
      var score := Grade(s, quiz.value.val.questions, answers);
      if score.Err? then Step(score.PropagateFailure(), s)
      else
        var row := StudentQuiz(quizId, studentId, score.value as real);
        var r := WithResult(s, row);
        Step(Ok(ToGradeDTO(r, row)), r)
  }

  /** submitQuiz keeps the database consistent, in particular one result per (student, quiz). */
  lemma SubmitQuizConsistent(s: State, quizId: Id, studentId: Id, answers: seq<QuestionAnswer>)
    requires Consistent(s)
    ensures Consistent(SubmitQuizStep(s, quizId, studentId, answers).state)
  {
    if SubmitQuizStep(s, quizId, studentId, answers).result.Ok? {
      var row := StudentQuiz(quizId, studentId, 0.0);
      var r := WithResult(s, StudentQuiz(quizId, studentId, Grade(s, s.quizzes[quizId].questions, answers).value as real));
      assert studentId in s.users by {
        if !Teaches(s, studentId, s.quizzes[quizId].course) {
          var k :| k in s.enrollments && s.enrollments[k].student == studentId && s.enrollments[k].course == s.quizzes[quizId].course;
        }
      }
      assert KeysBelow(r) by {
        assert Below(r.studentQuizzes, r.nextId);
      }
      assert ResultsLinked(r.studentQuizzes, r.quizzes, r.users);
      assert ResultPairsUnique(r.studentQuizzes) by {
        forall x, y | x in r.studentQuizzes && y in r.studentQuizzes && x != y
          ensures r.studentQuizzes[x].student != r.studentQuizzes[y].student || r.studentQuizzes[x].quiz != r.studentQuizzes[y].quiz
        {
          if x == s.nextId {
            assert y in s.studentQuizzes;
          } else if y == s.nextId {
            assert x in s.studentQuizzes;
          }
        }
      }
    }
  }

  /** A student who has submitted a quiz cannot submit it again. */
  lemma SubmitQuizTwiceConflicts(s: State, quizId: Id, studentId: Id, answers: seq<QuestionAnswer>, again: seq<QuestionAnswer>)
    requires SubmitQuizStep(s, quizId, studentId, answers).result.Ok?
    ensures SubmitQuizStep(SubmitQuizStep(s, quizId, studentId, answers).state, quizId, studentId, again)
              .result.FailsWith(Conflict, AlreadySubmitted)
  {
    var r := SubmitQuizStep(s, quizId, studentId, answers).state;
    assert r.studentQuizzes[s.nextId].student == studentId;
    assert Submitted(r, studentId, quizId);
    if EnrollmentService.Enrolled(s, studentId, s.quizzes[quizId].course) {
      var k :| k in s.enrollments && s.enrollments[k].student == studentId && s.enrollments[k].course == s.quizzes[quizId].course;
      assert r.enrollments[k] == s.enrollments[k];
    }
  }

  /** findByCourseId: the quizzes of course courseId, in id order. */
  function QuizzesOf(s: State, courseId: Id): (r: seq<Keyed<Quiz>>)
    ensures Increasing(r)
    ensures forall i :: 0 <= i < |r| ==> r[i].id in s.quizzes && s.quizzes[r[i].id] == r[i].val && r[i].val.course == courseId
    ensures forall k :: k in s.quizzes && s.quizzes[k].course == courseId ==> Keyed(k, s.quizzes[k]) in r
  {
    Select(s.quizzes, (q: Quiz) => q.course == courseId)
  }

  /**
   * getQuizzesForCourse: the course must exist; the caller must be an ADMIN, its
   * instructor or enrolled in it; then the course's quizzes in id order.
   */
  function GetQuizzesForCourse(s: State, courseId: Id, userId: Id): (r: Result<seq<Keyed<Quiz>>>)
    ensures courseId !in s.courses ==> r.FailsWith(NotFound, CourseNotFoundPrefix + IdText(courseId))
    ensures courseId in s.courses && !IsAdmin(s, userId) && !MayTake(s, userId, courseId) ==>
      r.FailsWith(InvalidUser, NotAuthorizedToView)
    ensures r.Ok? <==> courseId in s.courses && (IsAdmin(s, userId) || MayTake(s, userId, courseId))
    ensures r.Ok? ==> r.value == QuizzesOf(s, courseId)
  {
    if courseId !in s.courses then Err(Failure(NotFound, CourseNotFoundPrefix + IdText(courseId)))
    else if !IsAdmin(s, userId) && !MayTake(s, userId, courseId) then Err(Failure(InvalidUser, NotAuthorizedToView))
    else Ok(QuizzesOf(s, courseId))
  }

  /**
   * Whoever may open a quiz finds it in its course's listing; an ADMIN may list
   * every course's quizzes yet open none of a course they neither teach nor attend.
   */
  lemma QuizListingAdmitsMore(s: State, quizId: Id, userId: Id)
    requires Linked(s) && quizId in s.quizzes
    ensures GetQuizById(s, quizId, userId).Ok? ==>
      var listed := GetQuizzesForCourse(s, s.quizzes[quizId].course, userId);
      listed.Ok? && Keyed(quizId, s.quizzes[quizId]) in listed.value
    ensures IsAdmin(s, userId) && !MayTake(s, userId, s.quizzes[quizId].course) ==>
      GetQuizzesForCourse(s, s.quizzes[quizId].course, userId).Ok? && GetQuizById(s, quizId, userId).FailsWith(InvalidUser, NotAuthorized)
  {
  }

  /** findByStudentId: the student's quiz results in id order. */
  function ResultsOf(s: State, studentId: Id): (r: seq<Keyed<StudentQuiz>>)
    ensures forall i :: 0 <= i < |r| ==>
      r[i].id in s.studentQuizzes && s.studentQuizzes[r[i].id] == r[i].val && r[i].val.student == studentId
    ensures forall k :: k in s.studentQuizzes && s.studentQuizzes[k].student == studentId ==> Keyed(k, s.studentQuizzes[k]) in r
    ensures r == [] <==> forall k :: k in s.studentQuizzes ==> s.studentQuizzes[k].student != studentId
  {
    SelectEmpty(s.studentQuizzes, (q: StudentQuiz) => q.student == studentId);
    Select(s.studentQuizzes, (q: StudentQuiz) => q.student == studentId)
  }

  /**
   * getStudentQuizGrades: the grade of every result of the student, one per
   * result, or NotFound when the student has none.
   */
  function GetStudentQuizGrades(s: State, studentId: Id): (r: Result<seq<GradeDTO>>)
    requires ResultsLinked(s.studentQuizzes, s.quizzes, s.users)
    ensures r.Err? <==> forall k :: k in s.studentQuizzes ==> s.studentQuizzes[k].student != studentId
    ensures r.Err? ==> r.FailsWith(NotFound, NoQuizzesPrefix + IdText(studentId))
    ensures r.Ok? ==> |r.value| == |ResultsOf(s, studentId)|
    ensures r.Ok? ==> forall i :: 0 <= i < |r.value| ==>
      exists k :: k in s.studentQuizzes && s.studentQuizzes[k].student == studentId && r.value[i] == ToGradeDTO(s, s.studentQuizzes[k])
    ensures r.Ok? ==> forall k :: k in s.studentQuizzes && s.studentQuizzes[k].student == studentId ==>
      ToGradeDTO(s, s.studentQuizzes[k]) in r.value
  {
    var rows := ResultsOf(s, studentId);
    if rows == [] then Err(Failure(NotFound, NoQuizzesPrefix + IdText(studentId)))
    else
      var grades := seq(|rows|, i requires 0 <= i < |rows| => ToGradeDTO(s, rows[i].val));
      assert forall i :: 0 <= i < |rows| ==> grades[i] == ToGradeDTO(s, s.studentQuizzes[rows[i].id]);
      assert forall k :: k in s.studentQuizzes && s.studentQuizzes[k].student == studentId ==>
        exists i :: 0 <= i < |rows| && rows[i] == Keyed(k, s.studentQuizzes[k]);
      Ok(grades)
  }

  /** The grade submitQuiz returns is afterwards listed among the student's grades. */
  lemma SubmittedGradeIsListed(s: State, quizId: Id, studentId: Id, answers: seq<QuestionAnswer>)
    requires Consistent(s)
    requires SubmitQuizStep(s, quizId, studentId, answers).result.Ok?
    ensures var o := SubmitQuizStep(s, quizId, studentId, answers);
      ResultsLinked(o.state.studentQuizzes, o.state.quizzes, o.state.users)
      && GetStudentQuizGrades(o.state, studentId).Ok?
      && o.result.value in GetStudentQuizGrades(o.state, studentId).value
  {
    var o := SubmitQuizStep(s, quizId, studentId, answers);
    SubmitQuizConsistent(s, quizId, studentId, answers);
    var row := o.state.studentQuizzes[s.nextId];
    assert row.student == studentId;
    assert ToGradeDTO(o.state, row) == o.result.value;
  }

  class QuizService {
    const db: Database

    constructor (db: Database)
      ensures this.db == db
    {
      this.db := db;
    }

    /**
     * generateQuizForCourse; nextInt stands for the Random the question sample
     * is shuffled with.
     */
    method GenerateQuizForCourse(courseId: Id, count: int, userId: Id, nextInt: nat -> nat) returns (r: Result<Keyed<Quiz>>)
      requires db.Valid()
      modifies db
      ensures db.Valid()
      ensures var g := GenerateQuizGuard(old(db.tables), courseId, count, userId);
        && (g.Err? ==> r == g.PropagateFailure() && db.tables == old(db.tables))
        && (g.Ok? ==>
              && r.Ok? && r.value.id == old(db.tables.nextId)
              && Sampled(old(db.tables), courseId, count, r.value.val)
              && db.tables == WithQuiz(old(db.tables), r.value.val))
    {
      var s := db.tables;
      if courseId !in s.courses {
        return Err(Failure(NotFound, CourseNotFoundPrefix + IdText(courseId)));
      }
      if !Teaches(s, userId, courseId) && !EnrollmentService.Enrolled(s, userId, courseId) {
        return Err(Failure(InvalidUser, NotAuthorized));
      }
      var questions := QuestionService.QuestionPool(s, courseId, None);
      if |questions| < count {
        return Err(Failure(BadRequest, NotEnoughQuestions));
      }
      var selected := QuestionService.GetRandomQuestions(s, courseId, None, count, nextInt);
      if selected.Err? {
        return selected.PropagateFailure();
      }
      if |selected.value| == 0 {
        return Err(Failure(Internal, IndexOutOfBounds));
      }
      var rows := selected.value;
      assert rows[0] in questions;
      var quiz := Quiz(rows[0].val.course, Ids(rows));
      SampleIds(s, courseId, count, rows);
      WithQuizConsistent(s, quiz);
      var id := db.NewId();
      db.tables := db.tables.(quizzes := db.tables.quizzes[id := quiz]);
      r := Ok(Keyed(id, quiz));
    }

    method SubmitQuiz(quizId: Id, studentId: Id, answers: seq<QuestionAnswer>) returns (r: Result<GradeDTO>)
      requires db.Valid()
      modifies db
      ensures db.Valid()
      ensures var o := SubmitQuizStep(old(db.tables), quizId, studentId, answers);
        r == o.result && db.tables == o.state
    {
      SubmitQuizConsistent(db.tables, quizId, studentId, answers);
      var quiz := GetQuizById(db.tables, quizId, studentId);
      if quiz.Err? {
        return quiz.PropagateFailure();
      }
      if Submitted(db.tables, studentId, quizId) {
        return Err(Failure(Conflict, AlreadySubmitted));
      }
      assert QuizzesLinked(db.tables.quizzes, db.tables.courses, db.tables.questions);
      assert quiz.value.val == db.tables.quizzes[quizId];
      var score := ScoreAnswers(db.tables, quiz.value.val.questions, answers);
      if score.Err? {
        return score.PropagateFailure();
      }
      var studentQuiz := StudentQuiz(quizId, studentId, score.value as real);
      var id := db.NewId();
      db.tables := db.tables.(studentQuizzes := db.tables.studentQuizzes[id := studentQuiz]);
      r := Ok(ToGradeDTO(db.tables, studentQuiz));
    }
  }
}
