/**
 * The assignment management page of
 * Frontend/src/pages/assignment/AssignmentMangement.tsx: assignments with
 * create, edit, update and delete, and the grading of submissions. Fresh
 * assignment ids are parameters.
 */
module AssignmentManagement {
  import opened Wrappers
  import Lists
  import opened AssignmentForm

  datatype SubmissionStatus = OnTime | Late | Extended

  datatype Submission = Submission(
    id: string,
    assignmentId: string,
    studentId: string,
    submittedAt: int,
    files: seq<AttachedFile>,
    status: SubmissionStatus,
    grade: Option<real>,
    feedback: Option<string>,
    feedbackFiles: Option<seq<AttachedFile>>)

  datatype PageState = PageState(
    assignments: seq<Assignment>,
    submissions: seq<Submission>,
    showForm: bool,
    selected: Option<Submission>,
    editing: Option<Assignment>)

  const InitialPage: PageState := PageState([], [], false, None, None)

  datatype View = FormView | GradingView | ListView

  /** The form wins over the grading panel, which wins over the card list. */
  function ShownView(s: PageState): (v: View)
    ensures v == FormView <==> s.showForm
    ensures v == GradingView <==> !s.showForm && s.selected.Some?
    ensures v == ListView <==> !s.showForm && s.selected.None?
  {
    if s.showForm then FormView else if s.selected.Some? then GradingView else ListView
  }

  /** `handleCreateAssignment`: appends under a fresh id and hides the form. */
  function Create(s: PageState, data: AssignmentData, freshId: string): (r: PageState)
    ensures r.assignments == s.assignments + [Assignment(freshId, data)]
    ensures !r.showForm && r.editing == s.editing && r.submissions == s.submissions && r.selected == s.selected
  {
    s.(assignments := s.assignments + [Assignment(freshId, data)], showForm := false)
  }

  /** `handleEditAssignment`: the form opens on the assignment. */
  function Edit(s: PageState, a: Assignment): (r: PageState)
    ensures r.editing == Some(a) && r.showForm
    ensures r.assignments == s.assignments && r.submissions == s.submissions && r.selected == s.selected
  {
    s.(editing := Some(a), showForm := true)
  }

  /** `handleUpdateAssignment`: with an assignment under edit, every assignment with its id takes the
      submitted fields under the same id, and the edit closes; with none, nothing happens. */
  function Update(s: PageState, data: AssignmentData): (r: PageState)
    ensures s.editing.None? ==> r == s
    ensures s.editing.Some? ==>
              && |r.assignments| == |s.assignments|
              && (forall k :: 0 <= k < |s.assignments| && s.assignments[k].id != s.editing.value.id ==>
                                r.assignments[k] == s.assignments[k])
              && (forall k :: 0 <= k < |s.assignments| && s.assignments[k].id == s.editing.value.id ==>
                                r.assignments[k] == Assignment(s.assignments[k].id, data))
              && r.editing.None? && !r.showForm
              && r.submissions == s.submissions && r.selected == s.selected
  {
    match s.editing
    case None => s
    case Some(e) =>
      s.(assignments := Lists.MapWhere(s.assignments, (a: Assignment) => a.id == e.id,
                                       (a: Assignment) => Assignment(a.id, data)),
         editing := None, showForm := false)
  }

  /** `handleDeleteAssignment`: drops every assignment with that id, keeping the order of the rest. */
  function Delete(s: PageState, id: string): (r: PageState)
    ensures forall k :: 0 <= k < |r.assignments| ==> r.assignments[k] in s.assignments && r.assignments[k].id != id
    ensures forall k :: 0 <= k < |s.assignments| && s.assignments[k].id != id ==> s.assignments[k] in r.assignments
    ensures r.assignments == Lists.Filter(s.assignments, (a: Assignment) => a.id != id)
    ensures r == s.(assignments := r.assignments)
  {
    s.(assignments := Lists.Filter(s.assignments, (a: Assignment) => a.id != id))
  }

  /** `handleGradeSubmission`: grade, feedback and feedback files go onto the submissions with that
      id; the grading panel closes. */
  function Grade(s: PageState, submissionId: string, grade: real, feedback: string,
                 feedbackFiles: seq<AttachedFile>): (r: PageState)
    ensures |r.submissions| == |s.submissions|
    ensures forall k :: 0 <= k < |s.submissions| && s.submissions[k].id != submissionId ==>
              r.submissions[k] == s.submissions[k]
    ensures forall k :: 0 <= k < |s.submissions| && s.submissions[k].id == submissionId ==>
              && r.submissions[k].grade == Some(grade)
              && r.submissions[k].feedback == Some(feedback)
              && r.submissions[k].feedbackFiles == Some(feedbackFiles)
              && r.submissions[k] == s.submissions[k].(grade := r.submissions[k].grade,
                                                       feedback := r.submissions[k].feedback,
                                                       feedbackFiles := r.submissions[k].feedbackFiles)
    ensures r.selected.None?
    ensures r.assignments == s.assignments && r.showForm == s.showForm && r.editing == s.editing
  {
    s.(submissions := Lists.MapWhere(s.submissions, (x: Submission) => x.id == submissionId,
                                     (x: Submission) => x.(grade := Some(grade), feedback := Some(feedback),
                                                           feedbackFiles := Some(feedbackFiles))),
       selected := None)
  }

  /** Grading the same submission twice: the second grade is the one kept. */
  lemma RegradeOverwrites(s: PageState, id: string, g1: real, f1: string, fs1: seq<AttachedFile>,
                          g2: real, f2: string, fs2: seq<AttachedFile>)
    ensures Grade(Grade(s, id, g1, f1, fs1), id, g2, f2, fs2) == Grade(s, id, g2, f2, fs2)
  {
  }

  /** The header's "Create Assignment" button: opens a blank form. */
  function OpenForm(s: PageState): (r: PageState)
    ensures r.showForm && r.editing.None?
    ensures r.assignments == s.assignments && r.submissions == s.submissions && r.selected == s.selected
  {
    s.(showForm := true, editing := None)
  }

  /** "Cancel" under the form. */
  function Cancel(s: PageState): (r: PageState)
    ensures !r.showForm && r.editing.None?
    ensures r.assignments == s.assignments && r.submissions == s.submissions && r.selected == s.selected
  {
    s.(showForm := false, editing := None)
  }

  /** The form's `onSubmit`: update while an assignment is under edit, create otherwise. */
  function SubmitForm(s: PageState, data: AssignmentData, freshId: string): (r: PageState)
    ensures s.editing.Some? ==> r == Update(s, data)
    ensures s.editing.None? ==> r == Create(s, data, freshId)
  {
    if s.editing.Some? then Update(s, data) else Create(s, data, freshId)
  }

  /** The form's initial data is the assignment under edit. */
  function FormInitialData(s: PageState): Option<AssignmentData> {
    match s.editing
    case Some(a) => Some(a.data)
    case None => None
  }

  /** Editing then submitting the reopened form unchanged keeps the assignment, unless its score was
      0, which comes back as 100. */
  lemma EditRoundTrip(s: PageState, k: int, now: int)
    requires 0 <= k < |s.assignments|
    ensures var a := s.assignments[k];
            var r := SubmitForm(Edit(s, a), Submit(Initial(FormInitialData(Edit(s, a)), now)), "");
            && (a.data.maxScore != 0 ==> r.assignments[k] == a)
            && (a.data.maxScore == 0 ==> r.assignments[k] == Assignment(a.id, a.data.(maxScore := 100)))
  {
  }

  /** Nothing on the page ever selects a submission, so the grading panel never shows. */
  lemma GradingNeverShown(s: PageState, a: Assignment, data: AssignmentData, id: string,
                          g: real, fb: string, fs: seq<AttachedFile>)
    requires s.selected.None?
    ensures Create(s, data, id).selected.None? && Edit(s, a).selected.None?
    ensures Update(s, data).selected.None? && Delete(s, id).selected.None?
    ensures Grade(s, id, g, fb, fs).selected.None? && OpenForm(s).selected.None? && Cancel(s).selected.None?
    ensures ShownView(s) != GradingView
  {
  }
}
