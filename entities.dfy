/**
 * The persisted entities, one datatype per table. A record does not hold its
 * own primary key (the table's map key is the id); a reference to another
 * entity is that entity's id.
 */
module Entities {
  import opened Wrappers
  import opened Tables
  import opened UserRole

  datatype User = User(email: string, role: Role, name: string, password: string)

  /**
   * Course; materials are the file names of its uploaded materials, stored in
   * the course_materials collection table (the files themselves are on disk).
   */
  datatype Course = Course(instructor: Id, title: string, duration: string, description: string, materials: seq<string>)

  datatype Lesson = Lesson(otp: string, course: Id)

  /**
   * Assignment. The entity also maps a read-only copy of the course column
   * (courseId, insertable = false, updatable = false); only `course` is persisted.
   */
  datatype Assignment = Assignment(course: Id, instructions: string, maxGrade: int)

  /** The question type is an enum whose source is not part of this model; its constants are names. */
  type QuestionType = string

  datatype Question = Question(course: Id, content: string, answer: string, qtype: QuestionType)

  /** A quiz lists its questions by id, through the quiz_questions join table. */
  datatype Quiz = Quiz(course: Id, questions: seq<Id>)

  datatype Enrollment = Enrollment(student: Id, course: Id, isConfirmed: bool, isCompleted: bool)

  /**
   * A submission; fileNames are stored in the student_assignment_files
   * collection table, grade is a primitive long (0 until graded), feedback is
   * null until graded.
   */
  datatype StudentAssignment = StudentAssignment(
    assignment: Id, student: Id, course: Id, fileNames: seq<string>, feedback: Option<string>, grade: int)

  datatype StudentQuiz = StudentQuiz(quiz: Id, student: Id, grade: real)

  /** An attendance row. */
  datatype StudentLesson = StudentLesson(student: Id, lesson: Id)

  datatype Notification = Notification(user: Id, isRead: bool, message: string)
}
