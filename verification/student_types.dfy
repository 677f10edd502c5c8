/**
 * The client-side shapes of Frontend/src/types/student.ts: a student with its
 * enrolled courses, each course with its test scores and projects.
 * JavaScript numbers are modelled as `real`.
 */
module StudentTypes {
  import opened Wrappers

  datatype StudentStatus = Active | Inactive

  datatype ProjectStatus = Pending | InProgress | Completed

  datatype TestScore = TestScore(id: string, name: string, score: real, date: string)

  datatype Project = Project(id: string, name: string, status: ProjectStatus, grade: Option<real>, dueDate: string)

  datatype Course = Course(
    id: string,
    name: string,
    progress: real,
    grade: real,
    testScores: seq<TestScore>,
    projects: seq<Project>)

  datatype Student = Student(
    id: string,
    name: string,
    email: string,
    enrollmentDate: string,
    courses: seq<Course>,
    overallGrade: real,
    status: StudentStatus)

  /** The literal a status is spelled as in the data. */
  function StatusText(s: StudentStatus): string {
    match s
    case Active => "active"
    case Inactive => "inactive"
  }
}
