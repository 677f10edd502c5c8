/**
 * The values Frontend/src/components/students/StudentProfile.tsx derives from a
 * student: the chart points of all test scores, the course count, the
 * completed and pending project counters, and the status label.
 */
module StudentProfile {
  import Text
  import Lists
  import opened StudentTypes
  import StudentHook

  /** One point of the performance chart. */
  datatype ChartPoint = ChartPoint(date: string, score: real, course: string)

  /** The points of one course: its scores in order, each tagged with the course's name. */
  function CoursePoints(c: Course): (r: seq<ChartPoint>)
    ensures |r| == |c.testScores|
    ensures forall i :: 0 <= i < |r| ==>
              r[i] == ChartPoint(c.testScores[i].date, c.testScores[i].score, c.name)
  {
    seq(|c.testScores|, i requires 0 <= i < |c.testScores| =>
      ChartPoint(c.testScores[i].date, c.testScores[i].score, c.name))
  }

  /** `testScoreData`: the courses' points one course after another (`flatMap`). */
  function TestScoreData(cs: seq<Course>): seq<ChartPoint>
    decreases |cs|
  {
    if |cs| == 0 then [] else CoursePoints(cs[0]) + TestScoreData(cs[1..])
  }

  /** The number of test scores over all courses. */
  function TotalScores(cs: seq<Course>): nat
    decreases |cs|
  {
    if |cs| == 0 then 0 else |cs[0].testScores| + TotalScores(cs[1..])
  }

  /** One chart point per test score. */
  lemma {:induction false} TestScoreDataSize(cs: seq<Course>)
    ensures |TestScoreData(cs)| == TotalScores(cs)
    decreases |cs|
  {
    if |cs| > 0 {
      TestScoreDataSize(cs[1..]);
    }
  }

  /** Flattening keeps course order: the points of a concatenation are the points of each part. */
  lemma {:induction false} TestScoreDataAppend(a: seq<Course>, b: seq<Course>)
    ensures TestScoreData(a + b) == TestScoreData(a) + TestScoreData(b)
    decreases |a|
  {
    if |a| == 0 {
      assert a + b == b;
    } else {
      assert (a + b)[1..] == a[1..] + b;
      TestScoreDataAppend(a[1..], b);
    }
  }

  /** Every point comes from a course of the student and carries that course's name and one of its scores. */
  lemma {:induction false} TestScoreDataOrigin(cs: seq<Course>, i: int)
    requires 0 <= i < |TestScoreData(cs)|
    ensures exists c, j :: c in cs && 0 <= j < |c.testScores| &&
              TestScoreData(cs)[i] == ChartPoint(c.testScores[j].date, c.testScores[j].score, c.name)
    decreases |cs|
  {
    var first := CoursePoints(cs[0]);
    if i < |first| {
      assert TestScoreData(cs)[i] == first[i];
    } else {
      assert TestScoreData(cs)[i] == TestScoreData(cs[1..])[i - |first|];
      TestScoreDataOrigin(cs[1..], i - |first|);
      var c, j :| c in cs[1..] && 0 <= j < |c.testScores| &&
                  TestScoreData(cs[1..])[i - |first|] == ChartPoint(c.testScores[j].date, c.testScores[j].score, c.name);
      assert c in cs;
    }
  }

  /** "Active Courses": the number of enrolled courses. */
  function ActiveCourses(s: Student): nat {
    |s.courses|
  }

  /** The projects of a list that have the given status. */
  function CountStatus(ps: seq<Project>, status: ProjectStatus): nat {
    Lists.Count(ps, (p: Project) => p.status == status)
  }

  /** `courses.reduce((acc, c) => acc + c.projects.filter(p => p.status === status).length, 0)`. */
  function ProjectsWithStatus(cs: seq<Course>, status: ProjectStatus): nat
    decreases |cs|
  {
    if |cs| == 0 then 0 else CountStatus(cs[0].projects, status) + ProjectsWithStatus(cs[1..], status)
  }

  function CompletedProjects(s: Student): nat {
    ProjectsWithStatus(s.courses, Completed)
  }

  function PendingTasks(s: Student): nat {
    ProjectsWithStatus(s.courses, Pending)
  }

  function TotalProjects(cs: seq<Course>): nat
    decreases |cs|
  {
    if |cs| == 0 then 0 else |cs[0].projects| + TotalProjects(cs[1..])
  }

  lemma {:induction false} StatusCountsPartition(ps: seq<Project>)
    ensures CountStatus(ps, Completed) + CountStatus(ps, Pending) + CountStatus(ps, InProgress) == |ps|
    decreases |ps|
  {
    if |ps| > 0 {
      StatusCountsPartition(ps[1..]);
    }
  }

  /** Every project is counted by exactly one status, so the two counters plus the in-progress
      projects (shown by neither) make up all projects. */
  lemma {:induction false} CountersPartitionProjects(cs: seq<Course>)
    ensures ProjectsWithStatus(cs, Completed) + ProjectsWithStatus(cs, Pending)
            + ProjectsWithStatus(cs, InProgress) == TotalProjects(cs)
    decreases |cs|
  {
    if |cs| > 0 {
      StatusCountsPartition(cs[0].projects);
      CountersPartitionProjects(cs[1..]);
    }
  }

  /** The status badge text: the status with its first letter upper-cased. */
  function StatusLabel(s: Student): (r: string)
    ensures s.status == Active ==> r == "Active"
    ensures s.status == Inactive ==> r == "Inactive"
  {
    Text.Capitalize(StatusText(s.status))
  }

  /** The mock student's profile: one course, two chart points, one completed project, no pending one. */
  lemma MockProfile()
    ensures var s := StudentHook.MockStudent();
            && ActiveCourses(s) == 1
            && |TestScoreData(s.courses)| == 2
            && CompletedProjects(s) == 1 && PendingTasks(s) == 0
  {
    var s := StudentHook.MockStudent();
    TestScoreDataSize(s.courses);
    var ps := s.courses[0].projects;
    assert ps[1..][1..] == [];
    assert s.courses[1..] == [];
  }
}
