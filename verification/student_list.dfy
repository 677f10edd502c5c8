/**
 * The filtered list of Frontend/src/components/students/StudentList.tsx: a
 * case-insensitive search over name and email, then one of three modes.
 */
module StudentList {
  import Text
  import Lists
  import opened StudentTypes
  import StudentProfile

  /** The filter select's three values. */
  datatype Mode = All | TopPerformers | PendingTasks

  /** The search matches the name or the email, both lower-cased. */
  predicate MatchesSearch(s: Student, term: string) {
    Text.MatchesTerm(s.name, term) || Text.MatchesTerm(s.email, term)
  }

  /** Some project of some course is still pending. */
  predicate HasPendingTask(s: Student) {
    exists c, p :: c in s.courses && p in c.projects && p.status == Pending
  }

  /** What a mode asks of a student that already matches the search. */
  predicate ModeAccepts(s: Student, mode: Mode) {
    match mode
    case TopPerformers => s.overallGrade >= 90.0
    case PendingTasks => HasPendingTask(s)
    case All => true
  }

  predicate Keep(term: string, mode: Mode, s: Student) {
    MatchesSearch(s, term) && ModeAccepts(s, mode)
  }

  /** `filteredStudents`. */
  function FilteredStudents(students: seq<Student>, term: string, mode: Mode): (r: seq<Student>)
    ensures |r| <= |students|
    ensures forall k :: 0 <= k < |r| ==> r[k] in students && MatchesSearch(r[k], term) && ModeAccepts(r[k], mode)
    ensures forall k :: 0 <= k < |students| && MatchesSearch(students[k], term) && ModeAccepts(students[k], mode) ==>
              students[k] in r
  {
    Lists.Filter(students, s => Keep(term, mode, s))
  }

  /** The shown list keeps the input's order: filtering a concatenation concatenates the filtered
      halves, and a single student is shown alone or not at all. */
  lemma FilteredStudentsInOrder(a: seq<Student>, b: seq<Student>, s: Student, term: string, mode: Mode)
    ensures FilteredStudents(a + b, term, mode) == FilteredStudents(a, term, mode) + FilteredStudents(b, term, mode)
    ensures FilteredStudents([s], term, mode) == if Keep(term, mode, s) then [s] else []
  {
    Lists.FilterAppend(a, b, s => Keep(term, mode, s));
  }

  /** With an empty search and "All Students" every student is shown, in order. */
  lemma EmptySearchShowsAll(students: seq<Student>)
    ensures FilteredStudents(students, "", All) == students
  {
    forall k | 0 <= k < |students|
      ensures Keep("", All, students[k])
    {
      Text.EmptyTermMatches(students[k].name);
    }
    Lists.FilterKeepsAll(students, s => Keep("", All, s));
  }

  /** Every mode shows a sub-list of what "All Students" shows for the same search: filtering the
      all-list again by the mode gives the mode's list. */
  lemma ModeNarrowsAll(students: seq<Student>, term: string, mode: Mode)
    ensures Lists.Filter(FilteredStudents(students, term, All), s => Keep(term, mode, s))
            == FilteredStudents(students, term, mode)
  {
    Lists.FilterNarrowing(students, s => Keep(term, mode, s), s => Keep(term, All, s));
  }

  /** A student's own name finds that student, as written and lower-cased. */
  lemma NameFindsStudent(students: seq<Student>, k: int)
    requires 0 <= k < |students|
    ensures students[k] in FilteredStudents(students, students[k].name, All)
    ensures students[k] in FilteredStudents(students, Text.Lower(students[k].name), All)
  {
    Text.FieldMatchesItself(students[k].name);
  }

  /** Any spelling of a student's name that differs from it only in ASCII case, all capitals
      included, finds that student. */
  lemma NameFindsStudentAnyCase(students: seq<Student>, k: int, t: string)
    requires 0 <= k < |students| && Text.Lower(t) == Text.Lower(students[k].name)
    ensures students[k] in FilteredStudents(students, t, All)
  {
    Text.FieldMatchesItself(students[k].name);
  }

  /** Projects pending in one course's list, by position. */
  lemma {:induction false} CountPendingPositive(ps: seq<Project>)
    ensures StudentProfile.CountStatus(ps, Pending) > 0 <==> exists p :: p in ps && p.status == Pending
    decreases |ps|
  {
    if |ps| > 0 {
      CountPendingPositive(ps[1..]);
      if ps[0].status != Pending {
        assert forall p :: p in ps && p != ps[0] ==> p in ps[1..];
      }
    }
  }

  lemma {:induction false} PendingCounterPositive(cs: seq<Course>)
    ensures StudentProfile.ProjectsWithStatus(cs, Pending) > 0 <==>
            exists c, p :: c in cs && p in c.projects && p.status == Pending
    decreases |cs|
  {
    if |cs| > 0 {
      CountPendingPositive(cs[0].projects);
      PendingCounterPositive(cs[1..]);
      if StudentProfile.ProjectsWithStatus(cs, Pending) == 0 {
        forall c, p | c in cs && p in c.projects
          ensures p.status != Pending
        {
          if c != cs[0] {
            assert c in cs[1..];
          }
        }
      }
    }
  }

  /** The "Pending Tasks" mode shows exactly the students whose profile shows a positive
      "Pending Tasks" counter. */
  lemma PendingModeMatchesProfile(s: Student)
    ensures ModeAccepts(s, PendingTasks) <==> StudentProfile.PendingTasks(s) > 0
  {
    PendingCounterPositive(s.courses);
  }
}
