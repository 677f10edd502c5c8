/**
 * The `useStudents` hook of Frontend/src/hooks/useStudent.ts: the in-memory
 * student list that starts from one mock student, the selected student, and
 * `addStudent`. The current date (`new Date()`) is a parameter.
 */
module StudentHook {
  import opened Wrappers
  import Text
  import opened StudentTypes
  import StudentModal

  datatype HookState = HookState(students: seq<Student>, selected: Option<Student>)

  /** The one mock student the list starts with. */
  function MockStudent(): Student {
    Student(
      "1", "John Doe", "john.doe@example.com", "2024-01-15",
      [Course(
         "1", "Web Development", 75.0, 88.0,
         [TestScore("1", "Midterm", 85.0, "2024-02-15"), TestScore("2", "Final", 92.0, "2024-03-15")],
         [Project("1", "Portfolio Website", Completed, Some(90.0), "2024-02-28"),
          Project("2", "E-commerce Site", InProgress, None, "2024-04-15")])],
      92.0, Active)
  }

  /** The hook's state on first render: the mock list, nobody selected. */
  function InitialState(): (h: HookState)
    ensures |h.students| == 1 && h.students[0].id == "1" && h.selected.None?
  {
    HookState([MockStudent()], None)
  }

  /** `setSelectedStudent`. */
  function Select(h: HookState, s: Option<Student>): (r: HookState)
    ensures r.students == h.students && r.selected == s
  {
    h.(selected := s)
  }

  /** `addStudent`: appends one student whose id is the new list length in decimal, copying name
      and email from the form; the form's courses are not used. */
  function AddStudent(h: HookState, data: StudentModal.FormData, today: string): (r: HookState)
    ensures |r.students| == |h.students| + 1
    ensures r.students[..|h.students|] == h.students
    ensures r.selected == h.selected
    ensures var s := r.students[|h.students|];
            && s.id == Text.NatToString(|h.students| + 1)
            && s.name == data.name && s.email == data.email
            && s.enrollmentDate == today
            && s.overallGrade == 0.0 && s.status == Active && s.courses == []
  {
    var s := Student(Text.NatToString(|h.students| + 1), data.name, data.email, today, [], 0.0, Active);
    h.(students := h.students + [s])
  }

  /** The form's courses make no difference to the student added. */
  lemma AddStudentIgnoresCourses(h: HookState, data: StudentModal.FormData, courses: seq<string>, today: string)
    ensures AddStudent(h, data, today) == AddStudent(h, data.(courses := courses), today)
  {
  }

  /** The ids of a list built from the mock student by appends: "1", "2", ... in order. */
  ghost predicate CountingIds(students: seq<Student>) {
    forall i :: 0 <= i < |students| ==> students[i].id == Text.NatToString(i + 1)
  }

  lemma InitialIdsCount()
    ensures CountingIds(InitialState().students)
  {
    assert Text.NatToString(1) == "1";
  }

  lemma AddStudentKeepsCounting(h: HookState, data: StudentModal.FormData, today: string)
    requires CountingIds(h.students)
    ensures CountingIds(AddStudent(h, data, today).students)
  {
    var r := AddStudent(h, data, today);
    forall i | 0 <= i < |r.students|
      ensures r.students[i].id == Text.NatToString(i + 1)
    {
      if i < |h.students| {
        assert r.students[i] == r.students[..|h.students|][i];
      }
    }
  }

  /** Ids that count up from "1" are pairwise distinct, so every student the hook can hold has its own id. */
  lemma CountingIdsDistinct(students: seq<Student>)
    requires CountingIds(students)
    ensures forall i, j :: 0 <= i < j < |students| ==> students[i].id != students[j].id
  {
    forall i, j | 0 <= i < j < |students|
      ensures students[i].id != students[j].id
    {
      Text.NatToStringInjective(i + 1, j + 1);
    }
  }
}
