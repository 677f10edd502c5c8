/**
 * The course management page of Frontend/src/pages/courses/Courses.tsx: the
 * course list with create, edit, update, delete and cancel. Fresh ids
 * (`Math.random`) and the answer to `window.confirm` are parameters.
 */
module CoursesPage {
  import opened Wrappers
  import Lists
  import opened CourseForm
  import opened CourseLibrary

  datatype PageState = PageState(courses: seq<Course>, isEditing: bool, editing: Option<Course>, showForm: bool)

  const InitialPage: PageState := PageState([], false, None, false)

  /** The edit flags agree: a course is under edit exactly when `isEditing` is set. */
  ghost predicate EditFlagsAgree(s: PageState) {
    s.isEditing <==> s.editing.Some?
  }

  /** The ids of a list, position by position. */
  function Ids(cs: seq<Course>): seq<string> {
    Lists.Map(cs, (x: Course) => x.id)
  }

  /** `handleCreateCourse`: appends the submitted course under a fresh id and hides the form. */
  function Create(s: PageState, data: CourseData, freshId: string): (r: PageState)
    ensures r.courses == s.courses + [Course(freshId, data)]
    ensures !r.showForm
    ensures r.isEditing == s.isEditing && r.editing == s.editing
  {
    s.(courses := s.courses + [Course(freshId, data)], showForm := false)
  }

  /** `handleEditCourse`: selects the course and opens the form in edit mode. */
  function Edit(s: PageState, c: Course): (r: PageState)
    ensures r.courses == s.courses && r.editing == Some(c) && r.isEditing && r.showForm
  {
    s.(editing := Some(c), isEditing := true, showForm := true)
  }

  /** `handleUpdateCourse`: with a course under edit, every course with its id takes the submitted
      fields under the same id, and the edit is closed; with none, nothing happens. */
  function Update(s: PageState, data: CourseData): (r: PageState)
    ensures s.editing.None? ==> r == s
    ensures s.editing.Some? ==>
              && |r.courses| == |s.courses|
              && (forall k :: 0 <= k < |s.courses| && s.courses[k].id != s.editing.value.id ==> r.courses[k] == s.courses[k])
              && (forall k :: 0 <= k < |s.courses| && s.courses[k].id == s.editing.value.id ==>
                              r.courses[k] == Course(s.courses[k].id, data))
              && !r.isEditing && r.editing.None? && !r.showForm
  {
    match s.editing
    case None => s
    case Some(e) =>
      PageState(Lists.MapWhere(s.courses, (c: Course) => c.id == e.id, (c: Course) => Course(c.id, data)),
                false, None, false)
  }

  /** `handleDeleteCourse`: once confirmed, drops every course with that id. */
  function Delete(s: PageState, id: string, confirmed: bool): (r: PageState)
    ensures !confirmed ==> r == s
    ensures confirmed ==> forall k :: 0 <= k < |r.courses| ==> r.courses[k] in s.courses && r.courses[k].id != id
    ensures confirmed ==> forall k :: 0 <= k < |s.courses| && s.courses[k].id != id ==> s.courses[k] in r.courses
    ensures confirmed ==> r.courses == Lists.Filter(s.courses, (c: Course) => c.id != id)
    ensures r.isEditing == s.isEditing && r.editing == s.editing && r.showForm == s.showForm
  {
    if confirmed then s.(courses := Lists.Filter(s.courses, (c: Course) => c.id != id)) else s
  }

  /** The "Cancel" button under the form. */
  function Cancel(s: PageState): (r: PageState)
    ensures r.courses == s.courses && !r.showForm && !r.isEditing && r.editing.None?
  {
    s.(showForm := false, isEditing := false, editing := None)
  }

  /** "Create New Course": only opens the form. */
  function OpenForm(s: PageState): (r: PageState)
    ensures r.showForm && r.courses == s.courses && r.isEditing == s.isEditing && r.editing == s.editing
  {
    s.(showForm := true)
  }

  /** The form's `onSubmit`: the update handler in edit mode, the create handler otherwise. */
  function SubmitForm(s: PageState, data: CourseData, freshId: string): (r: PageState)
    ensures s.isEditing ==> r == Update(s, data)
    ensures !s.isEditing ==> r == Create(s, data, freshId)
  {
    if s.isEditing then Update(s, data) else Create(s, data, freshId)
  }

  /** Every transition keeps the two edit flags in agreement. */
  lemma TransitionsKeepFlagsAgree(s: PageState, c: Course, data: CourseData, id: string, confirmed: bool)
    requires EditFlagsAgree(s)
    ensures EditFlagsAgree(Create(s, data, id)) && EditFlagsAgree(Edit(s, c))
    ensures EditFlagsAgree(Update(s, data)) && EditFlagsAgree(Delete(s, id, confirmed))
    ensures EditFlagsAgree(Cancel(s)) && EditFlagsAgree(OpenForm(s)) && EditFlagsAgree(SubmitForm(s, data, id))
  {
  }

  /** Deleting a course just created under a fresh id gives back the list before the create. */
  lemma {:induction false} DeleteUndoesCreate(s: PageState, data: CourseData, freshId: string)
    requires freshId !in Ids(s.courses)
    ensures Delete(Create(s, data, freshId), freshId, true).courses == s.courses
  {
    var keep := (c: Course) => c.id != freshId;
    Lists.FilterAppend(s.courses, [Course(freshId, data)], keep);
    assert Lists.Filter([Course(freshId, data)], keep) == [];
    forall k | 0 <= k < |s.courses|
      ensures keep(s.courses[k])
    {
      assert Ids(s.courses)[k] == s.courses[k].id;
    }
    Lists.FilterKeepsAll(s.courses, keep);
  }

  /** An update keeps the list of ids as it was. */
  lemma UpdateKeepsIds(s: PageState, data: CourseData)
    ensures Ids(Update(s, data).courses) == Ids(s.courses)
  {
  }

  /** After an update nothing is under edit, so a second submit through the update handler changes
      nothing. */
  lemma UpdateOnce(s: PageState, d1: CourseData, d2: CourseData)
    ensures Update(Update(s, d1), d2) == Update(s, d1)
  {
  }

  /** The form opened by "Edit" receives no course, so a freshly mounted one shows the blank initial
      state: the updated course keeps none of its old fields, only its id, and submitting the form
      untouched blanks every text field of the course. */
  lemma EditOverwritesEverything(s: PageState, c: Course, data: CourseData, k: int, currentYear: int)
    requires 0 <= k < |s.courses| && s.courses[k].id == c.id
    ensures Update(Edit(s, c), data).courses[k] == Course(c.id, data)
    ensures Update(Edit(s, c), CourseForm.Submit(CourseForm.Initial(currentYear))).courses[k]
            == Course(c.id, CourseData("", "", "", "", "", YearNum(currentYear), []))
  {
  }

  /** Edit then cancel leaves the list alone and closes the edit. */
  lemma EditThenCancel(s: PageState, c: Course)
    ensures Cancel(Edit(s, c)).courses == s.courses
    ensures EditFlagsAgree(Cancel(Edit(s, c))) && !Cancel(Edit(s, c)).showForm
  {
  }
}
