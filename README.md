# LMS service layer in Dafny

This project models the service layer of a Spring Boot learning-management
backend. Users are students, instructors or administrators. Instructors own
courses. Courses hold lessons, assignments, a question bank and quizzes.
Students enroll in courses, record attendance with a lesson's one-time password,
submit assignments and take quizzes. Every state-changing service also
notifies the users it concerns.

The model has three layers.

- **Data.**
  - `Entities` holds one datatype per JPA entity.
  - `Store.State` holds one table (`map<Id, Row>`) per entity and the single id
    counter that hands out primary keys.
  - `Store.Consistent` is the database invariant:
    - every key is below the counter;
    - every foreign key resolves;
    - the uniqueness rules hold: one user per email, and at most one
      enrollment, attendance row, submission and quiz result per pair.
  - `Store.Cascade` is the schema's `ON DELETE CASCADE`.
  - `Store.Refused` names the deletions that a foreign key without a cascade
    rejects: the quiz–question join table, `StudentQuiz.quiz`, and the two
    element-collection tables that hold a submission's file names and a
    course's material names. Hibernate clears the collections of the one
    entity a service deletes, so only rows the database cascade removes count.
- **Services.** Each service that changes the database is a class over a shared
  `Store.Database` object. Each operation has two parts:
  - a pure specification function `XStep(s, …)` that returns the result
    together with the new database;
  - a class method with a `modifies db` clause that performs the repository
    calls one by one. It is proved to return exactly `XStep(old(db.tables), …)`
    and to keep `Database.Valid()`.

  Around each `XStep` there are lemmas:
  - the error cases in the order the Java code tests them;
  - an exact "succeeds iff";
  - "a failure changes nothing";
  - a frame for the tables the operation does not touch;
  - preservation of `Consistent`;
  - and, where the source promises one, a round trip or idempotence law, such
    as "created, then listed", "a second submission conflicts" or "register,
    then log in".

  The analytics and report services only read, so they are methods over a
  `State` value. Each carries the loop the Java code runs, proved equal to a
  specification function.
- **Security.** `SecurityConfig` models the HTTP authorization table of the
  filter chain. It has 43 rules, and the first rule that matches decides.
  Lemmas state, endpoint by endpoint, which callers the table lets through.
  The analytics endpoints are mounted under `/questions`
  (`AnalyticsController.java:23`), so the `/questions/**` rule gates
  them, and the table's own `/analytics/**` rule matches nothing the
  application serves. The model reads the notifications rule's last segment
  as the literal `**}` (an assumption; see "Left out"). Under that reading
  every other path under `/notifications` falls through to the final `/**`
  rule, which admits only administrators (`NotificationsAdminOnly`).

Behaviour is modelled as written wherever it is observable. Some examples:

- `GetNotifications` with the `Unread` flag lists the read notifications
  (`UnreadListsReadNotifications`).
- `updateAssignment` authorizes against the course named in the request, not the
  assignment's own course, and never moves the assignment
  (`UpdateAuthorizedByRequestCourse`).
- `createStudentAssignment` does not check that the assignment belongs to the
  requested course (`SubmissionCourseNotChecked`).
- A grade above the maximum yields a score above 100 (`GradeAboveMaximum`).
- `updateLesson` checks only the lesson's current course
  (`UpdateLessonIntoForeignCourse`).
- An administrator who does not teach a course can list its quizzes but
  cannot open one (`QuizListingAdmitsMore`).
- Deleting an assignment, a course or a user fails with a foreign-key error
  when the cascade reaches a submission that has files
  (`DeleteAssignmentRefusedByFiles`); deleting a user also fails when the
  cascade reaches a course that has materials (`DeleteUserWithMaterialsRefused`).

All source paths below are relative to the repository root.

## Model

| member | source | states |
|---|---|---|
| UserRole.Authorities | lms/src/main/java/com/main/lms/enums/UserRole.java:14-24 | each role grants exactly one authority, "ROLE_" followed by the role's name |
| UserRole.AuthorityIdentifiesRole | lms/src/main/java/com/main/lms/enums/UserRole.java:14-24 | a role holds the authority "ROLE_"+name(q) if and only if it is role q |
| Store.Cascade | lms/src/main/java/com/main/lms/entities/StudentAssignment.java:23-44 | the cascade never touches users or the id counter |
| Store.CascadeLinksContent | lms/src/main/java/com/main/lms/entities/Lesson.java:24 | after the cascade, every course, lesson, assignment, question and quiz references existing rows |
| Store.CascadeLinksRecords | lms/src/main/java/com/main/lms/entities/EnrolledCourse.java:24-29 | after the cascade, every enrollment, submission, result, attendance row and notification references existing rows |
| Store.CascadeLinked | lms/src/main/java/com/main/lms/entities/Quiz.java:23 | unless a quiz still lists a removed question, the cascade restores full referential integrity |
| Store.CascadeKeepsKeys | lms/src/main/java/com/main/lms/entities/Course.java:24 | the cascade only removes rows, so all keys stay below the counter |
| Store.CascadeKeepsUnique | lms/src/main/java/com/main/lms/entities/User.java:17 | the cascade keeps the unique email and the unique-pair rules |
| Store.CascadeConsistent | lms/src/main/java/com/main/lms/entities/StudentLesson.java:21-29 | a cascade that no foreign key refuses leaves a consistent database |
| Store.Database.NewId | lms/src/main/java/com/main/lms/entities/Course.java:15 | hands out the counter's value as the new key and advances the counter, changing nothing else |
| NotificationService.NotifiedConsistent | lms/src/main/java/com/main/lms/services/NotificationService.java:29-42 | notifying an existing user keeps the database consistent |
| NotificationService.Broadcast | lms/src/main/java/com/main/lms/services/AssignmentService.java:52-55 | notifying a list of users uses one new id per user and changes only the notifications and the counter |
| NotificationService.BroadcastDelivers | lms/src/main/java/com/main/lms/services/AssignmentService.java:52-55 | the i-th user gets an unread notification with the message under id next+i; exactly those ids are added; older notifications are untouched |
| NotificationService.NotifyThenBroadcast | lms/src/main/java/com/main/lms/services/AssignmentService.java:50-55 | one notification followed by a broadcast takes the ids next, next+1, …, in order, and touches nothing else |
| NotificationService.BroadcastConsistent | lms/src/main/java/com/main/lms/services/AssignmentService.java:52-55 | a broadcast to existing users keeps the database consistent |
| NotificationService.MarkedReadIdempotent | lms/src/main/java/com/main/lms/services/NotificationService.java:63-74 | reading a notification twice is the same as reading it once; reading an already read one changes nothing |
| NotificationService.GetNotifications | lms/src/main/java/com/main/lms/services/NotificationService.java:44-61 | lists only the user's own notifications in id order; with All, every one of them; otherwise exactly the read ones |
| NotificationService.UnreadListsReadNotifications | lms/src/main/java/com/main/lms/services/NotificationService.java:53-55 | the Unread flag gives the same list as Read, so every listed notification is read |
| NotificationService.NotificationService.NotifyUser | lms/src/main/java/com/main/lms/services/NotificationService.java:29-42 | a missing user raises "User not found" and changes nothing; otherwise one unread notification is saved |
| NotificationService.NotificationService.ReadNotification | lms/src/main/java/com/main/lms/services/NotificationService.java:63-74 | missing id: NotFound "null"; another user's notification: Unauthorized; otherwise it returns the notification marked read and stores it so |
| EnrollmentService.EnrollmentsOf | lms/src/main/java/com/main/lms/repositories/EnrolledCourseRepository.java:11 | the rows for the (student, course) pair; empty if and only if the student is not enrolled |
| EnrollmentService.GetEnrollmentById | lms/src/main/java/com/main/lms/services/EnrollmentService.java:43-49 | returns the stored row, or NotFound for a missing id |
| EnrollmentService.GetEnrollmentByStudentAndCourse | lms/src/main/java/com/main/lms/services/EnrollmentService.java:51-59 | a missing user or course fails on the empty Optional; succeeds if and only if both exist and the student is enrolled, returning such a row |
| EnrollmentService.EnrollmentByPairIsTheOnlyOne | lms/src/main/java/com/main/lms/services/EnrollmentService.java:51-59 | under the uniqueness rule, the lookup by pair returns the one enrollment of that pair |
| EnrollmentService.OwnershipFailure | lms/src/main/java/com/main/lms/services/EnrollmentService.java:88-93 | a caller who may not manage the enrollment gets an InvalidUser failure |
| EnrollmentService.Completed | lms/src/main/java/com/main/lms/services/EnrollmentService.java:95-99 | only isCompleted changes, and only when the request carries a value |
| EnrollmentService.UpdateEnrollmentStep | lms/src/main/java/com/main/lms/services/EnrollmentService.java:79-102 | error order: missing enrollment, missing user, not the owner; succeeds if and only if all three pass; the only change is the completion flag |
| EnrollmentService.UpdateEnrollmentConsistent | lms/src/main/java/com/main/lms/services/EnrollmentService.java:79-102 | updating an enrollment keeps the database consistent |
| EnrollmentService.AddEnrollmentStep | lms/src/main/java/com/main/lms/services/EnrollmentService.java:104-128 | error order: missing course or student, not a student, already enrolled; on success the student and then the instructor are notified and a confirmed, uncompleted enrollment is saved |
| EnrollmentService.AddEnrollmentSucceeds | lms/src/main/java/com/main/lms/services/EnrollmentService.java:119-127 | a student who is not enrolled gets the two notifications followed by the new enrollment, in that id order |
| EnrollmentService.WithEnrollmentConsistent | lms/src/main/java/com/main/lms/services/EnrollmentService.java:113-127 | saving a new pair of existing student and course keeps the database consistent |
| EnrollmentService.AddEnrollmentConsistent | lms/src/main/java/com/main/lms/services/EnrollmentService.java:104-128 | enrolling keeps the database consistent |
| EnrollmentService.AddEnrollmentTwiceConflicts | lms/src/main/java/com/main/lms/services/EnrollmentService.java:113-117 | enrolling the same student in the same course a second time fails with the duplicate error |
| EnrollmentService.DeleteEnrollmentStep | lms/src/main/java/com/main/lms/services/EnrollmentService.java:131-148 | error order: missing user, missing enrollment, not the owner; on success the row is removed and the student and the instructor are notified |
| EnrollmentService.DeleteEnrollmentSucceeds | lms/src/main/java/com/main/lms/services/EnrollmentService.java:144-147 | an authorized delete notifies twice and removes exactly that enrollment |
| EnrollmentService.DeleteEnrollmentConsistent | lms/src/main/java/com/main/lms/services/EnrollmentService.java:131-148 | unenrolling keeps the database consistent |
| EnrollmentService.DeleteThenAddEnrollment | lms/src/main/java/com/main/lms/services/EnrollmentService.java:104-148 | after unenrolling, the same student can enroll in the same course again |
| EnrollmentService.EnrollmentsIn | lms/src/main/java/com/main/lms/repositories/EnrolledCourseRepository.java:10 | exactly the course's enrollments, in id order |
| EnrollmentService.EnrollmentService.UpdateEnrollmentById | lms/src/main/java/com/main/lms/services/EnrollmentService.java:79-102 | performs UpdateEnrollmentStep on the database and keeps it consistent |
| EnrollmentService.EnrollmentService.AddEnrollment | lms/src/main/java/com/main/lms/services/EnrollmentService.java:104-128 | performs AddEnrollmentStep on the database and keeps it consistent |
| EnrollmentService.EnrollmentService.DeleteEnrollmentById | lms/src/main/java/com/main/lms/services/EnrollmentService.java:131-148 | performs DeleteEnrollmentStep on the database and keeps it consistent |
| StudentLessonService.AttendanceOf | lms/src/main/java/com/main/lms/repositories/StudentsLessonRepository.java:14 | empty if and only if there is no attendance row for the (student, lesson) pair |
| StudentLessonService.Exists | lms/src/main/java/com/main/lms/services/StudentLessonService.java:27-34 | true if and only if the student already attended the lesson |
| StudentLessonService.CreateStudentLessonStep | lms/src/main/java/com/main/lms/services/StudentLessonService.java:37-61 | error order: missing lesson, not enrolled (the enrollment lookup's own error), wrong OTP, already attended; on success exactly one attendance row is added |
| StudentLessonService.CreateStudentLessonTwiceConflicts | lms/src/main/java/com/main/lms/services/StudentLessonService.java:51-53 | recording the same attendance twice fails the second time |
| StudentLessonService.WithAttendanceConsistent | lms/src/main/java/com/main/lms/services/StudentLessonService.java:56-60 | saving a new attendance pair keeps the database consistent |
| StudentLessonService.CreateStudentLessonConsistent | lms/src/main/java/com/main/lms/services/StudentLessonService.java:37-61 | recording attendance keeps the database consistent |
| StudentLessonService.GetStudentLessonById | lms/src/main/java/com/main/lms/services/StudentLessonService.java:64-68 | returns the stored row, or NotFound |
| StudentLessonService.GetLessonsByStudentInCourse | lms/src/main/java/com/main/lms/services/StudentLessonService.java:75-81 | exactly the student's attendance rows for lessons of the instructor's course, in id order |
| StudentLessonService.DeleteStudentLessonStep | lms/src/main/java/com/main/lms/services/StudentLessonService.java:84-87 | a missing id fails and changes nothing; otherwise exactly that row is removed |
| StudentLessonService.DeleteStudentLessonConsistent | lms/src/main/java/com/main/lms/services/StudentLessonService.java:84-87 | deleting attendance keeps the database consistent |
| StudentLessonService.StudentLessonService.CreateStudentLesson | lms/src/main/java/com/main/lms/services/StudentLessonService.java:37-61 | performs CreateStudentLessonStep on the database |
| StudentLessonService.StudentLessonService.DeleteStudentLessonById | lms/src/main/java/com/main/lms/services/StudentLessonService.java:84-87 | performs DeleteStudentLessonStep on the database |
| QuestionService.CreateQuestionStep | lms/src/main/java/com/main/lms/services/QuestionService.java:36-56 | missing course, then not the instructor; succeeds if and only if the caller teaches the course; saves the question, then notifies the caller |
| QuestionService.CreateQuestionConsistent | lms/src/main/java/com/main/lms/services/QuestionService.java:36-56 | creating a question keeps the database consistent |
| QuestionService.GetQuestionById | lms/src/main/java/com/main/lms/services/QuestionService.java:58-70 | missing question, then not the instructor of its course; otherwise the stored question |
| QuestionService.QuestionPool | lms/src/main/java/com/main/lms/services/QuestionService.java:79-90 | exactly the course's questions of the requested type (all types when none is given), in id order |
| QuestionService.GetFilteredQuestions | lms/src/main/java/com/main/lms/services/QuestionService.java:72-92 | missing course, then not the instructor; otherwise the pool |
| QuestionService.CreatedQuestionIsListed | lms/src/main/java/com/main/lms/services/QuestionService.java:36-92 | a newly created question is the last one the course's question list shows |
| QuestionService.Shuffle | lms/src/main/java/com/main/lms/services/QuestionService.java:104 | the shuffle is a permutation of the list, whatever random numbers it is given |
| QuestionService.ShuffledPrefix | lms/src/main/java/com/main/lms/services/QuestionService.java:104-109 | any prefix of a permutation of distinct questions is distinct and drawn from the pool |
| QuestionService.GetRandomQuestions | lms/src/main/java/com/main/lms/services/QuestionService.java:94-110 | missing course or negative count fails; otherwise min(count, pool size) distinct questions of the pool |
| QuestionService.DeleteQuestionStep | lms/src/main/java/com/main/lms/services/QuestionService.java:113-133 | missing question, not the instructor, then refused while a quiz lists it; on success the question is removed and the caller notified |
| QuestionService.DeleteQuestionConsistent | lms/src/main/java/com/main/lms/services/QuestionService.java:113-133 | deleting a question keeps the database consistent |
| QuestionService.QuestionService.CreateQuestion | lms/src/main/java/com/main/lms/services/QuestionService.java:36-56 | performs CreateQuestionStep on the database |
| QuestionService.QuestionService.DeleteQuestion | lms/src/main/java/com/main/lms/services/QuestionService.java:113-133 | performs DeleteQuestionStep on the database |
| QuizService.GetQuizById | lms/src/main/java/com/main/lms/services/QuizService.java:30-42 | missing quiz, then a caller who neither teaches nor is enrolled in its course; otherwise the quiz |
| QuizService.QuizAccessIgnoresRole | lms/src/main/java/com/main/lms/services/QuizService.java:30-42 | opening a quiz does not depend on the caller's role, not even for admins |
| QuizService.GenerateQuizGuard | lms/src/main/java/com/main/lms/services/QuizService.java:44-59 | error order: missing course, not authorized, too few questions in the bank, then the sampling's own errors for a negative or zero count |
| QuizService.WithQuizConsistent | lms/src/main/java/com/main/lms/services/QuizService.java:60-65 | saving a quiz over existing questions of an existing course keeps the database consistent |
| QuizService.GeneratedQuizIsOpen | lms/src/main/java/com/main/lms/services/QuizService.java:44-68 | whoever generated a quiz can open it under its new id |
| QuizService.SampleIds | lms/src/main/java/com/main/lms/services/QuizService.java:55-65 | count distinct questions drawn from the course's bank form a valid sample |
| QuizService.Grade | lms/src/main/java/com/main/lms/services/QuizService.java:93-100 | succeeds if and only if every answer names a question of the quiz; the score lies between 0 and the number of answers |
| QuizService.GradeFailureSticks | lms/src/main/java/com/main/lms/services/QuizService.java:93-100 | once a prefix of the answers fails, grading all the answers fails the same way |
| QuizService.GradeFailsAtFirstUnknown | lms/src/main/java/com/main/lms/services/QuizService.java:95-96 | grading fails with the first unknown question's id |
| QuizService.ScoreAnswers | lms/src/main/java/com/main/lms/services/QuizService.java:93-100 | the scoring loop computes Grade |
| QuizService.FullMarks | lms/src/main/java/com/main/lms/services/QuizService.java:93-100 | answering with the key scores one point per answer |
| QuizService.RepeatedAnswerCountsEachTime | lms/src/main/java/com/main/lms/services/QuizService.java:93-100 | a correct answer repeated n times scores n, since duplicates are not rejected |
| QuizService.ToGradeDTO | lms/src/main/java/com/main/lms/services/QuizService.java:147-154 | carries the student, quiz and grade, with the quiz's question count as the maximum |
| QuizService.SubmitQuizStep | lms/src/main/java/com/main/lms/services/QuizService.java:86-107 | the quiz lookup's errors, then already submitted, then an unknown answer; on success exactly one result with the score is saved |
| QuizService.SubmitQuizConsistent | lms/src/main/java/com/main/lms/services/QuizService.java:86-107 | submitting keeps the database consistent |
| QuizService.SubmitQuizTwiceConflicts | lms/src/main/java/com/main/lms/services/QuizService.java:88-90 | a second submission of the same quiz fails, whatever the answers |
| QuizService.QuizzesOf | lms/src/main/java/com/main/lms/services/QuizService.java:118-123 | exactly the course's quizzes, in id order |
| QuizService.GetQuizzesForCourse | lms/src/main/java/com/main/lms/services/QuizService.java:109-124 | missing course, then neither admin nor teacher nor enrolled; otherwise the course's quizzes |
| QuizService.QuizListingAdmitsMore | lms/src/main/java/com/main/lms/services/QuizService.java:30-124 | whoever can open a quiz sees it listed; an admin outside the course can list the quiz but not open it |
| QuizService.ResultsOf | lms/src/main/java/com/main/lms/repositories/StudentQuizRepository.java:14 | exactly the student's results; empty if and only if they have none |
| QuizService.GetStudentQuizGrades | lms/src/main/java/com/main/lms/services/QuizService.java:70-84 | NotFound if and only if the student has no results; otherwise one grade per result, each result's grade present |
| QuizService.SubmittedGradeIsListed | lms/src/main/java/com/main/lms/services/QuizService.java:70-107 | after a submission, the student's grade list contains the returned grade |
| QuizService.QuizService.GenerateQuizForCourse | lms/src/main/java/com/main/lms/services/QuizService.java:44-68 | a failed guard changes nothing; otherwise a quiz of count distinct bank questions is saved under the next id |
| QuizService.QuizService.SubmitQuiz | lms/src/main/java/com/main/lms/services/QuizService.java:86-107 | performs SubmitQuizStep on the database |
| StudentAssignmentResponse.Divide | lms/src/main/java/com/main/lms/dtos/StudentAssignmentResponseDTO.java:27 | a double division: the real quotient for a non-zero divisor, not a finite number for a zero one |
| StudentAssignmentResponse.ScoreRange | lms/src/main/java/com/main/lms/dtos/StudentAssignmentResponseDTO.java:27 | with a positive maximum, the score is within 0..100 if and only if the grade is within 0..max; full grade scores 100; above max scores over 100; a zero maximum gives no finite score |
| StudentAssignmentResponse.CourseResponseOf | lms/src/main/java/com/main/lms/dtos/CourseResponseDTO.java:19-27 | the course's id, title, duration, description and instructor name |
| StudentAssignmentResponse.UserResponseOf | lms/src/main/java/com/main/lms/dtos/UserResponseDTO.java:15-21 | the user's name, email and role name |
| StudentAssignmentResponse.LinkedResolves | lms/src/main/java/com/main/lms/dtos/StudentAssignmentResponseDTO.java:19-30 | in a linked database, every submission's references resolve, so it can be mapped |
| StudentAssignmentResponse.MapToResponseDTO | lms/src/main/java/com/main/lms/dtos/StudentAssignmentResponseDTO.java:19-30 | id, grade, feedback, course and student of the submission, and the score grade/max*100 |
| StudentAssignmentService.CreateStudentAssignmentStep | lms/src/main/java/com/main/lms/services/StudentAssignmentService.java:49-75 | error order: assignment, course, student, enrollment, duplicate; on success one empty, ungraded submission is saved and returned |
| StudentAssignmentService.SubmissionCourseNotChecked | lms/src/main/java/com/main/lms/services/StudentAssignmentService.java:49-75 | a submission may name a course other than its assignment's |
| StudentAssignmentService.WithSubmissionConsistent | lms/src/main/java/com/main/lms/services/StudentAssignmentService.java:70-74 | saving a new submission of existing rows keeps the database consistent |
| StudentAssignmentService.CreateStudentAssignmentConsistent | lms/src/main/java/com/main/lms/services/StudentAssignmentService.java:49-75 | submitting keeps the database consistent |
| StudentAssignmentService.CreateStudentAssignmentTwiceConflicts | lms/src/main/java/com/main/lms/services/StudentAssignmentService.java:40-47 | a second submission of the same assignment fails |
| StudentAssignmentService.Graded | lms/src/main/java/com/main/lms/services/StudentAssignmentService.java:196-211 | grade and feedback are replaced; everything else is kept |
| StudentAssignmentService.GradeStep | lms/src/main/java/com/main/lms/services/StudentAssignmentService.java:196-211 | missing submission, then not the instructor of its course; on success only that row changes and its response is returned |
| StudentAssignmentService.GradeAboveMaximum | lms/src/main/java/com/main/lms/services/StudentAssignmentService.java:196-211 | a grade above the assignment's maximum is accepted and reported as a score above 100 |
| StudentAssignmentService.GradeConsistent | lms/src/main/java/com/main/lms/services/StudentAssignmentService.java:196-211 | grading keeps the database consistent |
| StudentAssignmentService.DeleteStudentAssignmentStep | lms/src/main/java/com/main/lms/services/StudentAssignmentService.java:179-185 | a missing id fails and changes nothing; otherwise exactly that submission is removed |
| StudentAssignmentService.DeleteStudentAssignmentConsistent | lms/src/main/java/com/main/lms/services/StudentAssignmentService.java:179-185 | deleting a submission keeps the database consistent |
| StudentAssignmentService.SubmissionFiles | lms/src/main/java/com/main/lms/services/StudentAssignmentService.java:102-120 | a missing submission fails; on success the submission's stored file names |
| StudentAssignmentService.SubmissionFilesAccess | lms/src/main/java/com/main/lms/services/StudentAssignmentService.java:104-111 | admins always see the files, students only their own, instructors only for assignments of their course, with the matching error otherwise |
| StudentAssignmentService.StudentAssignmentService.CreateStudentAssignment | lms/src/main/java/com/main/lms/services/StudentAssignmentService.java:49-75 | performs CreateStudentAssignmentStep on the database |
| StudentAssignmentService.StudentAssignmentService.GradeStudentAssignmentAndAddFeedback | lms/src/main/java/com/main/lms/services/StudentAssignmentService.java:196-211 | performs GradeStep on the database |
| StudentAssignmentService.StudentAssignmentService.DeleteStudentAssignment | lms/src/main/java/com/main/lms/services/StudentAssignmentService.java:179-185 | performs DeleteStudentAssignmentStep on the database |
| AssignmentService.AssignmentResponseOf | lms/src/main/java/com/main/lms/dtos/AssignmentResponseDTO.java:16-26 | the assignment's id, instructions, maximum grade and course |
| AssignmentService.AnnounceDelivers | lms/src/main/java/com/main/lms/services/AssignmentService.java:50-55 | the instructor gets id next, the course's enrolled students get next+1… in enrollment order, and nothing else changes |
| AssignmentService.AnnounceReachesEnrolled | lms/src/main/java/com/main/lms/services/AssignmentService.java:52-55 | every student enrolled in the course receives the announcement |
| AssignmentService.AnnounceConsistent | lms/src/main/java/com/main/lms/services/AssignmentService.java:50-55 | announcing keeps the database consistent |
| AssignmentService.CreateAssignmentStep | lms/src/main/java/com/main/lms/services/AssignmentService.java:33-58 | missing course, then not the instructor; on success the announcement and then the assignment are saved |
| AssignmentService.CreateAssignmentNotifies | lms/src/main/java/com/main/lms/services/AssignmentService.java:50-55 | creating notifies the instructor and every enrolled student with the course's title |
| AssignmentService.CreateAssignmentConsistent | lms/src/main/java/com/main/lms/services/AssignmentService.java:33-58 | creating an assignment keeps the database consistent |
| AssignmentService.Revised | lms/src/main/java/com/main/lms/services/AssignmentService.java:78-81 | instructions and maximum grade are replaced; the course is kept |
| AssignmentService.UpdateAssignmentStep | lms/src/main/java/com/main/lms/services/AssignmentService.java:67-92 | missing assignment, missing request course, then not that course's instructor; on success the revised assignment and the announcement |
| AssignmentService.UpdateAuthorizedByRequestCourse | lms/src/main/java/com/main/lms/services/AssignmentService.java:67-92 | the instructor of any course named in the request may revise any assignment, which stays in its own course |
| AssignmentService.UpdateAssignmentConsistent | lms/src/main/java/com/main/lms/services/AssignmentService.java:67-92 | updating keeps the database consistent |
| AssignmentService.WithoutAssignmentKeepsContent | lms/src/main/java/com/main/lms/entities/StudentAssignment.java:31 | deleting an assignment keeps courses, lessons, questions and quizzes |
| AssignmentService.WithoutAssignmentKeepsRecords | lms/src/main/java/com/main/lms/entities/StudentAssignment.java:31 | deleting an assignment keeps enrollments, results, attendance and notifications |
| AssignmentService.WithoutAssignmentRemoves | lms/src/main/java/com/main/lms/entities/StudentAssignment.java:31 | deleting an assignment removes it and exactly its submissions |
| AssignmentService.WithoutAssignmentConsistent | lms/src/main/java/com/main/lms/entities/StudentAssignment.java:31 | the cascade of an assignment deletion keeps the database consistent |
| AssignmentService.DeleteAssignmentStep | lms/src/main/java/com/main/lms/services/AssignmentService.java:95-110 | missing assignment, then not its course's instructor, then refused by a foreign key without a cascade (before any notification); on success it and its submissions go, and the caller is notified |
| AssignmentService.DeleteAssignmentRefusedByFiles | lms/src/main/java/com/main/lms/entities/StudentAssignment.java:34-35 | in a linked database, deleting an assignment is refused if and only if one of its submissions has files |
| AssignmentService.DeleteAssignmentConsistent | lms/src/main/java/com/main/lms/services/AssignmentService.java:95-110 | deleting an assignment keeps the database consistent |
| AssignmentService.GetAssignmentById | lms/src/main/java/com/main/lms/services/AssignmentService.java:61-64 | the assignment's response, or NotFound |
| AssignmentService.AssignmentsOf | lms/src/main/java/com/main/lms/repositories/AssignmentRepository.java:11 | exactly the course's assignments, in id order |
| AssignmentService.AssignmentService.NotifyStudents | lms/src/main/java/com/main/lms/services/AssignmentService.java:52-55 | the loop notifies each enrolled student in turn, which equals the broadcast |
| AssignmentService.AssignmentService.AnnounceToCourse | lms/src/main/java/com/main/lms/services/AssignmentService.java:47-55 | notifies the instructor and then the enrolled students |
| AssignmentService.AssignmentService.CreateAssignment | lms/src/main/java/com/main/lms/services/AssignmentService.java:33-58 | performs CreateAssignmentStep on the database |
| AssignmentService.AssignmentService.UpdateAssignment | lms/src/main/java/com/main/lms/services/AssignmentService.java:67-92 | performs UpdateAssignmentStep on the database |
| AssignmentService.AssignmentService.DeleteAssignment | lms/src/main/java/com/main/lms/services/AssignmentService.java:95-110 | performs DeleteAssignmentStep on the database, including its refusal by the files table |
| AssignmentService.AssignmentService.GetAssignmentbyCourseId | lms/src/main/java/com/main/lms/services/AssignmentService.java:112-122 | a missing course fails; otherwise the responses of the course's assignments, one per assignment, in order |
| LessonService.CreateLessonStep | lms/src/main/java/com/main/lms/services/LessonService.java:25-40 | missing course, then not its instructor; on success the instructor is notified and the lesson with the requested OTP is saved |
| LessonService.CreateLessonConsistent | lms/src/main/java/com/main/lms/services/LessonService.java:25-40 | creating a lesson keeps the database consistent |
| LessonService.GetLessonById | lms/src/main/java/com/main/lms/services/LessonService.java:48-51 | the lesson, or NotFound |
| LessonService.UpdateLessonStep | lms/src/main/java/com/main/lms/services/LessonService.java:54-78 | missing lesson, not the instructor of its current course, then missing new course; on success the lesson takes the new OTP and course and the new course's instructor is notified |
| LessonService.UpdateLessonIntoForeignCourse | lms/src/main/java/com/main/lms/services/LessonService.java:54-78 | a lesson can be moved into a course its mover does not teach |
| LessonService.UpdateLessonConsistent | lms/src/main/java/com/main/lms/services/LessonService.java:54-78 | updating a lesson keeps the database consistent |
| LessonService.LessonsOf | lms/src/main/java/com/main/lms/services/LessonService.java:80-84 | exactly the course's lessons, in id order |
| LessonService.GetLessonsByCourseId | lms/src/main/java/com/main/lms/services/LessonService.java:80-84 | fails if and only if the course is missing; otherwise the course's lessons |
| LessonService.CreatedLessonIsListed | lms/src/main/java/com/main/lms/services/LessonService.java:25-84 | a created lesson appears among its course's lessons |
| LessonService.LessonService.CreateLesson | lms/src/main/java/com/main/lms/services/LessonService.java:25-40 | performs CreateLessonStep on the database |
| LessonService.LessonService.UpdateLesson | lms/src/main/java/com/main/lms/services/LessonService.java:54-78 | performs UpdateLessonStep on the database |
| CourseService.AddCourseStep | lms/src/main/java/com/main/lms/services/CourseService.java:73-88 | missing instructor, then not an instructor; on success exactly one course, without materials, is saved and its response returned |
| CourseService.AddCourseResponse | lms/src/main/java/com/main/lms/services/CourseService.java:73-88 | the new course is taught by the caller and its response shows the instructor's name |
| CourseService.AddCourseConsistent | lms/src/main/java/com/main/lms/services/CourseService.java:73-88 | adding a course keeps the database consistent |
| CourseService.Edited | lms/src/main/java/com/main/lms/services/CourseService.java:56-61 | each given field replaces the stored one; the instructor and the materials never change |
| CourseService.EditedIdempotent | lms/src/main/java/com/main/lms/services/CourseService.java:49-63 | an empty edit changes nothing, and applying an edit twice is applying it once |
| CourseService.UpdateCourseStep | lms/src/main/java/com/main/lms/services/CourseService.java:49-63 | missing course, then not its instructor; on success only that course changes |
| CourseService.UpdateCourseConsistent | lms/src/main/java/com/main/lms/services/CourseService.java:49-63 | updating a course keeps the database consistent |
| CourseService.GetCourseById | lms/src/main/java/com/main/lms/services/CourseService.java:66-71 | the course's response, or NotFound |
| CourseService.AddedCourseReadsBack | lms/src/main/java/com/main/lms/services/CourseService.java:66-88 | reading an added course back gives the response addCourse returned |
| CourseService.DeleteCourseStep | lms/src/main/java/com/main/lms/services/CourseService.java:91-97 | missing course, not its instructor, then refused by a foreign key on a row the cascade removes (the course's own materials excepted); on success the course and all that cascades from it are removed |
| CourseService.DeleteCourseLeavesNoTrace | lms/src/main/java/com/main/lms/services/CourseService.java:91-97 | after a delete, no lesson, assignment, question, quiz, enrollment or submission refers to the course, and the users are kept |
| CourseService.DeleteCourseWithQuizRefused | lms/src/main/java/com/main/lms/entities/Quiz.java:23 | a course whose quiz lists questions cannot be deleted |
| CourseService.DeleteCourseWithFilesRefused | lms/src/main/java/com/main/lms/entities/StudentAssignment.java:34-35 | a course in which some submission has files cannot be deleted |
| CourseService.DeleteCourseIgnoresOwnMaterials | lms/src/main/java/com/main/lms/entities/Course.java:35-38 | the course's own materials never decide its deletion: the outcome is that of the same course without materials |
| CourseService.DeleteCourseConsistent | lms/src/main/java/com/main/lms/services/CourseService.java:91-97 | deleting a course keeps the database consistent |
| CourseService.IsCourseInstructor | lms/src/main/java/com/main/lms/services/CourseService.java:175-179 | a missing course fails; otherwise true if and only if the caller teaches it |
| CourseService.OneInstructorPerCourse | lms/src/main/java/com/main/lms/services/CourseService.java:175-179 | two callers who both pass the check are the same user |
| CourseService.CourseService.AddCourse | lms/src/main/java/com/main/lms/services/CourseService.java:73-88 | performs AddCourseStep on the database |
| CourseService.CourseService.UpdateCourse | lms/src/main/java/com/main/lms/services/CourseService.java:49-63 | performs UpdateCourseStep on the database |
| CourseService.CourseService.DeleteCourseById | lms/src/main/java/com/main/lms/services/CourseService.java:91-97 | performs DeleteCourseStep on the database, including its refusals |
| UserService.CreateUserStep | lms/src/main/java/com/main/lms/services/UserService.java:56-66 | a taken email conflicts and changes nothing; otherwise a user with the encoded password is saved |
| UserService.RegisterUserStep | lms/src/main/java/com/main/lms/services/UserService.java:44-55 | succeeds if and only if the email is free; the new user is always a student |
| UserService.RegisterIgnoresRole | lms/src/main/java/com/main/lms/services/UserService.java:44-55 | registering with any requested role is creating a student |
| UserService.WithUserConsistent | lms/src/main/java/com/main/lms/entities/User.java:17 | adding a user with a free email keeps the database consistent |
| UserService.CreateUserConsistent | lms/src/main/java/com/main/lms/services/UserService.java:56-66 | creating a user keeps the database consistent |
| UserService.RegisterTwiceConflicts | lms/src/main/java/com/main/lms/services/UserService.java:44-55 | registering the same email twice fails the second time |
| UserService.Updated | lms/src/main/java/com/main/lms/services/UserService.java:76-92 | name and email are replaced; the password only when a non-empty one is given (encoded); the role is kept |
| UserService.UpdateUserStep | lms/src/main/java/com/main/lms/services/UserService.java:76-92 | missing user, then an email taken by another user; on success only that user changes |
| UserService.UpdateUserConsistent | lms/src/main/java/com/main/lms/services/UserService.java:76-92 | updating a user keeps the database consistent |
| UserService.DeleteUserStep | lms/src/main/java/com/main/lms/services/UserService.java:94-100 | missing user, then refused by a foreign key without a cascade (quiz questions, quiz results, submission files, course materials); on success the user and everything that cascades from them are removed |
| UserService.DeleteUserWithFilesRefused | lms/src/main/java/com/main/lms/entities/StudentAssignment.java:34-35 | a student one of whose submissions has files cannot be deleted |
| UserService.DeleteUserWithMaterialsRefused | lms/src/main/java/com/main/lms/entities/Course.java:35-38 | an instructor one of whose courses has materials cannot be deleted |
| UserService.DeleteUserLeavesNoTrace | lms/src/main/java/com/main/lms/services/UserService.java:94-100 | after the delete, no course, enrollment, submission, result, attendance row or notification refers to the user |
| UserService.DeleteUserConsistent | lms/src/main/java/com/main/lms/services/UserService.java:94-100 | deleting a user keeps the database consistent |
| UserService.UsersNamed | lms/src/main/java/com/main/lms/repositories/UserRepository.java:15 | exactly the users with that name |
| UserService.LoginUser | lms/src/main/java/com/main/lms/services/UserService.java:32-42 | two users with the name make the lookup throw; a user is returned if and only if the name is unique and the password matches, and it is that user; an unknown name or a wrong password gives an empty result, not an error |
| UserService.RegisterThenLogin | lms/src/main/java/com/main/lms/services/UserService.java:32-55 | a user registered under a new name and email can log in with the same password |
| UserService.UserService.RegisterUser | lms/src/main/java/com/main/lms/services/UserService.java:44-55 | performs RegisterUserStep on the database |
| UserService.UserService.CreateUser | lms/src/main/java/com/main/lms/services/UserService.java:56-66 | performs CreateUserStep on the database |
| UserService.UserService.UpdateUser | lms/src/main/java/com/main/lms/services/UserService.java:76-92 | performs UpdateUserStep on the database |
| UserService.UserService.DeleteUser | lms/src/main/java/com/main/lms/services/UserService.java:94-100 | performs DeleteUserStep on the database, including its refusals |
| AnalyticsService.LookupOr | lms/src/main/java/com/main/lms/services/AnalyticsService.java:80 | getOrDefault over a collected map: the default when no row has the key, otherwise the value of a row with that key |
| AnalyticsService.LookupOrFinds | lms/src/main/java/com/main/lms/services/AnalyticsService.java:71-80 | with distinct keys, the lookup finds the value of the row that has the key |
| AnalyticsService.ResultsIn | lms/src/main/java/com/main/lms/repositories/StudentQuizRepository.java:18 | the student's results for quizzes of the course: every such row and nothing else, in id order |
| AnalyticsService.SubmissionsIn | lms/src/main/java/com/main/lms/repositories/StudentAssignmentRepository.java:20 | the student's submissions in the course: every such row and nothing else, in id order |
| AnalyticsService.AttendedIn | lms/src/main/java/com/main/lms/repositories/StudentsLessonRepository.java:16 | the student's attendance in lessons of the course: every such row and nothing else, in id order |
| AnalyticsService.Mean | lms/src/main/java/com/main/lms/services/AnalyticsService.java:85 | the average of no values is 0 |
| AnalyticsService.Percent | lms/src/main/java/com/main/lms/services/AnalyticsService.java:82 | 0 for a non-positive maximum or a zero grade; within 0..100 for a grade within 0..max; 100 for full marks |
| AnalyticsService.MeanBounds | lms/src/main/java/com/main/lms/services/AnalyticsService.java:78-85 | the mean of values within lo..hi lies within lo..hi |
| AnalyticsService.QuizPercentageOfResult | lms/src/main/java/com/main/lms/services/AnalyticsService.java:78-84 | an unattempted quiz counts 0; with one result per quiz, an attempted quiz counts that grade as a percentage of its question count |
| AnalyticsService.AssignmentPercentageOfSubmission | lms/src/main/java/com/main/lms/services/AnalyticsService.java:95-102 | an unsubmitted assignment counts 0; with one submission per assignment, a submitted one counts that grade as a percentage of its maximum |
| AnalyticsService.Attendance | lms/src/main/java/com/main/lms/services/AnalyticsService.java:108-111 | 0 for a course without lessons; within 0..100 when attended does not exceed the total |
| AnalyticsService.PerformanceOf | lms/src/main/java/com/main/lms/services/AnalyticsService.java:64-118 | the student's id and name; each average is 0 when the course has no quizzes, assignments or lessons |
| AnalyticsService.ConsistentHasNoDuplicateKeys | lms/src/main/java/com/main/lms/services/AnalyticsService.java:51-55 | under the uniqueness rules, the three toMap collections never meet a duplicate key |
| AnalyticsService.CompletionIsTheEnrollments | lms/src/main/java/com/main/lms/services/AnalyticsService.java:115-116 | each row's completion flag is the student's enrollment flag |
| AnalyticsService.NoAttemptsAverageZero | lms/src/main/java/com/main/lms/services/AnalyticsService.java:78-86 | a student who attempted no quiz of the course averages 0 |
| AnalyticsService.QuizAverageWithinPercent | lms/src/main/java/com/main/lms/services/AnalyticsService.java:78-86 | when every stored grade is within 0..question count, the quiz average is within 0..100 |
| AnalyticsService.AssignmentAverageWithinPercent | lms/src/main/java/com/main/lms/services/AnalyticsService.java:95-104 | when every grade is within 0..max, the assignment average is within 0..100 |
| AnalyticsService.AttendanceWithinPercent | lms/src/main/java/com/main/lms/services/AnalyticsService.java:107-112 | with unique attendance pairs, the attendance percentage is within 0..100 |
| AnalyticsService.StudentRecord | lms/src/main/java/com/main/lms/services/AnalyticsService.java:65-118 | one student's row is that student's performance; it fails with the duplicate-key error if and only if the student's quiz results or submissions repeat an activity |
| AnalyticsService.StudentRecords | lms/src/main/java/com/main/lms/services/AnalyticsService.java:62-119 | one row per enrollment, in order, each the student's performance; fails with the duplicate-key error if and only if some enrolled student's collections repeat a key |
| AnalyticsService.GetCourseAnalytics | lms/src/main/java/com/main/lms/services/AnalyticsService.java:37-122 | missing course, not admin nor instructor, then a duplicate key; succeeds if and only if none apply; one performance row per enrolled student, in enrollment order |
| ReportService.QuizGrade | lms/src/main/java/com/main/lms/services/ReportService.java:79-80 | 0 when the student has no result for the quiz; otherwise the stored grade |
| ReportService.AssignmentGrade | lms/src/main/java/com/main/lms/services/ReportService.java:112-113 | 0 when the student has not submitted; otherwise the stored grade |
| ReportService.CrossShape | lms/src/main/java/com/main/lms/services/ReportService.java:76-92 | the body has one row per (student, activity), student-major: row i*m+j is student i's row for activity j |
| ReportService.EnrolledUsersAreTheEnrolled | lms/src/main/java/com/main/lms/services/ReportService.java:40-45 | the report's students are existing users, and every enrollment of the course contributes its student |
| ReportService.QuizActivitiesAreTheCourses | lms/src/main/java/com/main/lms/services/ReportService.java:74 | the quiz sheet covers exactly the course's quizzes, in id order |
| ReportService.AssignmentActivitiesAreTheCourses | lms/src/main/java/com/main/lms/services/ReportService.java:107 | the assignment sheet covers exactly the course's assignments, in id order |
| ReportService.LessonActivitiesAreTheCourses | lms/src/main/java/com/main/lms/services/ReportService.java:139 | the attendance sheet covers exactly the course's lessons, in id order |
| ReportService.ReportShape | lms/src/main/java/com/main/lms/services/ReportService.java:32-61 | three sheets (quizzes, assignments, attendance), each a header and then students times activities rows |
| ReportService.QuizRowGrades | lms/src/main/java/com/main/lms/services/ReportService.java:79-90 | a quiz row has five cells: the grade (0 if unattempted) and the question count as maximum |
| ReportService.AssignmentRowGrades | lms/src/main/java/com/main/lms/services/ReportService.java:112-123 | an assignment row has five cells: the grade (0 if unsubmitted) and the maximum grade |
| ReportService.AttendanceRowStatus | lms/src/main/java/com/main/lms/services/ReportService.java:144-153 | an attendance row says Present if and only if the student attended, Absent otherwise |
| ReportService.AppendStudentRows | lms/src/main/java/com/main/lms/services/ReportService.java:76-92 | the inner loop appends the student's rows and keeps the row counter equal to the rows written |
| ReportService.CreateSheet | lms/src/main/java/com/main/lms/services/ReportService.java:63-94 | the nested loops produce the header followed by the student-by-activity rows |
| ReportService.GenerateStudentPerformanceReport | lms/src/main/java/com/main/lms/services/ReportService.java:32-61 | missing course, then neither admin nor instructor; succeeds if and only if authorized; the result is the three-sheet report |
| SecurityConfig.MatchesFixed | lms/src/main/java/com/main/lms/config/SecurityConfig.java:48 | a pattern without "**" matches exactly the paths of its length whose segments match one by one |
| SecurityConfig.MatchesPrefix | lms/src/main/java/com/main/lms/config/SecurityConfig.java:44 | a pattern ending in "**" matches exactly the paths that extend its fixed prefix |
| SecurityConfig.FirstFrom | lms/src/main/java/com/main/lms/config/SecurityConfig.java:35-173 | the first matching rule at or after the start, or none |
| SecurityConfig.FirstMatch | lms/src/main/java/com/main/lms/config/SecurityConfig.java:35-173 | the first matching rule of the table; none if and only if no rule matches |
| SecurityConfig.Permits | lms/src/main/java/com/main/lms/config/SecurityConfig.java:38-45 | permitAll admits everyone, authenticated any signed-in caller, an authority list never an anonymous one |
| SecurityConfig.AnyOfAdmitsListedRoles | lms/src/main/java/com/main/lms/config/SecurityConfig.java:49-50 | an authority list admits a role if and only if the role is listed |
| SecurityConfig.PermitsByRole | lms/src/main/java/com/main/lms/enums/UserRole.java:14-24 | checking the "ROLE_" authority is checking role membership |
| SecurityConfig.DecidedBy | lms/src/main/java/com/main/lms/config/SecurityConfig.java:35-173 | when rule k is the first to match, it alone decides the request |
| SecurityConfig.EveryRequestDecided | lms/src/main/java/com/main/lms/config/SecurityConfig.java:173 | every request matches some rule |
| SecurityConfig.UnlistedAdminOnly | lms/src/main/java/com/main/lms/config/SecurityConfig.java:173 | a request that no earlier rule matches is admitted if and only if the caller is an admin |
| SecurityConfig.AuthIsOpen | lms/src/main/java/com/main/lms/config/SecurityConfig.java:38-40 | login and register are open to everyone, with any of the eight HTTP methods |
| SecurityConfig.OnlyAuthRulesOpen | lms/src/main/java/com/main/lms/config/SecurityConfig.java:35-173 | only the two auth rules are permitAll |
| SecurityConfig.AnonymousReachesOnlyAuth | lms/src/main/java/com/main/lms/config/SecurityConfig.java:35-173 | an anonymous request that is admitted is login or register |
| SecurityConfig.AnonymousOnlyAuth | lms/src/main/java/com/main/lms/config/SecurityConfig.java:35-173 | anonymous callers are admitted if and only if the path is login or register |
| SecurityConfig.UsersMeNeedsSignIn | lms/src/main/java/com/main/lms/config/SecurityConfig.java:42 | /users/me admits exactly the signed-in callers |
| SecurityConfig.UsersAdminOnly | lms/src/main/java/com/main/lms/config/SecurityConfig.java:44-45 | every other /users path admits only admins |
| SecurityConfig.QuizSubmitStudentOrAdmin | lms/src/main/java/com/main/lms/config/SecurityConfig.java:52-53 | submitting a quiz admits exactly students and admins |
| SecurityConfig.QuizCreateStaff | lms/src/main/java/com/main/lms/config/SecurityConfig.java:55-56 | /quizzes admits exactly instructors and admins |
| SecurityConfig.QuestionsStaff | lms/src/main/java/com/main/lms/config/SecurityConfig.java:64-65 | every /questions path, the analytics endpoints included, admits exactly instructors and admins |
| SecurityConfig.AssignmentReadSignedIn | lms/src/main/java/com/main/lms/config/SecurityConfig.java:68-69 | reading one assignment admits exactly the signed-in callers |
| SecurityConfig.AssignmentWritesStaff | lms/src/main/java/com/main/lms/config/SecurityConfig.java:74-75 | every non-GET /assignments request, HEAD and OPTIONS included, admits exactly instructors and admins |
| SecurityConfig.SubmissionCreateStudentOnly | lms/src/main/java/com/main/lms/config/SecurityConfig.java:92-93 | creating a submission admits only students |
| SecurityConfig.SubmissionUploadStudentOnly | lms/src/main/java/com/main/lms/config/SecurityConfig.java:89-90 | uploading submission files admits only students |
| SecurityConfig.GradeSubmissionStaff | lms/src/main/java/com/main/lms/config/SecurityConfig.java:107-108 | grading admits exactly instructors and admins |
| SecurityConfig.LessonCreateStaff | lms/src/main/java/com/main/lms/config/SecurityConfig.java:81-82 | /lessons admits exactly instructors and admins |
| SecurityConfig.LessonPathsSignedIn | lms/src/main/java/com/main/lms/config/SecurityConfig.java:78-85 | every longer /lessons path admits exactly the signed-in callers |
| SecurityConfig.CourseDeleteStaff | lms/src/main/java/com/main/lms/config/SecurityConfig.java:131-132 | deleting a course admits exactly admins and instructors |
| SecurityConfig.CourseListSignedIn | lms/src/main/java/com/main/lms/config/SecurityConfig.java:143-144 | listing courses admits exactly the signed-in callers |
| SecurityConfig.CourseReadSignedIn | lms/src/main/java/com/main/lms/config/SecurityConfig.java:143-144 | reading a course admits exactly the signed-in callers |
| SecurityConfig.AllEnrollmentsAdminOnly | lms/src/main/java/com/main/lms/config/SecurityConfig.java:150-151 | listing all enrollments admits only admins |
| SecurityConfig.CourseEnrollmentsInstructorOnly | lms/src/main/java/com/main/lms/config/SecurityConfig.java:156-157 | a course's enrollments admit only instructors, not admins |
| SecurityConfig.NotificationsAdminOnly | lms/src/main/java/com/main/lms/config/SecurityConfig.java:166-173 | every /notifications path except the literal "**}" falls to the last rule and admits only admins |

## Left out

- File storage is not modelled: submission uploads (`saveStudentSubmissionFile`), material uploads (`addMaterials`), the zip downloads and the files on disk. Submissions and courses keep their lists of file names only, which the delete refusals read.
- Analytics charts (`generateCharts`, `ChartUtility`) are not modelled. They are drawing, not logic.
- E-mail is not modelled; `notifyUser` has the call commented out.
- The spreadsheet encoding is not modelled: Apache POI workbook bytes and column auto-sizing. A report is a list of sheets of typed cells.
- Randomness is a parameter. `Collections.shuffle` is a Fisher–Yates loop driven by a given `nextInt` function.
- The password encoder is two function parameters, `encode` and `matches`.
- Every table shares one id counter. The model does not capture the per-table sequences of the real database, only that ids are fresh and increasing.
- Controllers, request DTO validation, HTTP status mapping and exception handlers are left out. The caller arrives as an id and a role.
- Spring's path matching is reduced to whole segments: a literal word, one `{variable}`, or a trailing `**`.
- `SecurityConfig.NotificationsAdminOnly` assumes a reading of the pattern `/notifications/**}` (`SecurityConfig.java:166`): its last segment is taken as the literal `**}`. Spring's own matchers may treat `*` inside a segment as a wildcard, or reject the unmatched `}` when the filter chain is built. The model does not settle which.
- Plain getters with no logic are left out: `getAll*` listings, `getQuizGrades`, the quiz-to-`QuizDTO` mapping, `saveUser`, `findUserById`, `findUserByUsername`, `loadUserByUsername`, `getAllLessons`, `getLessonsByStudent`, `getEnrollmentsByStudent` and the course-material listing.
- Java `Long` identities are compared as values. lines 54, 93 and 136 of `CourseService.java` and line 67 of `NotificationService.java` compare boxed `Long`s with `!=`, which compares references for values outside the small-integer cache; the model reads these as value comparisons.
- Null request fields (a null OTP, answer or role) are not modelled. Optional fields are `Option` values.
- Doubles are reals. Rounding and NaN are not modelled, except that `StudentAssignmentResponse.Divide` marks a division by zero as not finite.
- The wording of database error messages is paraphrased: duplicate-entry texts and the analytics "Duplicate key" message.
- `UpdateAssignmentStep`: the course id the source sets is dropped. The entity maps that column with `updatable = false` (`Assignment.java:15`), and its `course` reference is not reassigned, so the stored course never changes.
- `ReportService.GenerateStudentPerformanceReport`: a repository finder that would throw on a duplicate (student, quiz) or (assignment, student) pair is not modelled. The report reads the first matching row, and `QuizGrade` and `AssignmentGrade` state the stored grade only under the uniqueness rule.
- `AnalyticsService.GetCourseAnalytics` reports a duplicate key as a single internal failure. It does not model which of the three collectors throws first.
