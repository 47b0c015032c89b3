/** The application's records (students, subjects, exams, scores, grade
    scales). Dates and identifiers are opaque strings; `class` is a Dafny
    keyword, so the class field is called `className`. */
module Types {
  import opened Common

  datatype Student = Student(
    id: string,
    name: string,
    rollNumber: string,
    className: string,
    section: string,
    registrationDate: string,
    guardian: string,
    guardianContact: string,
    createdAt: string,
    updatedAt: string)

  /** A subject. The declared record calls the two numeric fields
      `max_marks` and `passing_marks`; the grade engine reads them as
      `maxMarks` and `passingMarks`. This model gives them one name and
      takes both spellings to carry the same value. */
  datatype Subject = Subject(
    id: string,
    name: string,
    code: string,
    maxMarks: real,
    passingMarks: real,
    description: string,
    createdAt: string)

  /** An exam. `examType`, `term` and `status` range over a few fixed words
      ('test' | 'practical' | 'full-examination', 'first' | 'second',
      'upcoming' | 'ongoing' | 'completed' | 'cancelled'); the filters
      compare them as text, so they stay text here. */
  datatype Exam = Exam(
    id: string,
    name: string,
    examType: string,
    className: string,
    section: string,
    subjects: seq<string>,
    startDate: string,
    endDate: string,
    academicYear: string,
    term: string,
    status: string,
    createdAt: string)

  datatype Score = Score(
    id: string,
    studentId: string,
    examId: string,
    subjectId: string,
    marksObtained: real,
    maxMarks: real,
    grade: string,
    gpa: real,
    remarks: Option<string>,
    teacherId: string,
    enteredAt: string,
    updatedAt: string)

  /** One band of a grade scale: percentages in [minPercentage, maxPercentage]. */
  datatype GradeRange = GradeRange(
    grade: string,
    minPercentage: real,
    maxPercentage: real,
    gpa: real,
    description: string)

  datatype GradeScale = GradeScale(
    id: string,
    name: string,
    grades: seq<GradeRange>,
    isDefault: bool)
}
