/**
 * The create-or-update student dialog of
 * Frontend/src/components/students/AddStudentModal.tsx, the client side of the
 * student API.
 *
 * The HTTP exchange is abstracted: each request the dialog issues is returned
 * as a value, and its outcome comes back as a parameter, success with the
 * response body or failure. `onSubmit` and `onClose` are the parent's
 * callbacks; the model reports whether and with what they are called.
 */
module StudentModal {
  import opened Wrappers
  import Text
  import StudentSchema
  import StudentRoutes

  /** The dialog's form state (`StudentFormData`). */
  datatype FormData = FormData(id: Option<string>, name: string, email: string, courses: seq<string>)

  const EmptyForm: FormData := FormData(None, "", "", [])

  /** The dialog's state: the form and whether it edits an existing student. */
  datatype Modal = Modal(form: FormData, isUpdate: bool)

  const InitialModal: Modal := Modal(EmptyForm, false)

  const ApiRoot: string := "http://localhost:5000/api/students"

  datatype Method = GET | POST | PUT

  /** A request the dialog sends; `payload` is the JSON body, when there is one. */
  datatype Request = Request(verb: Method, url: string, payload: Option<FormData>)

  /** A student record as the client reads the server's JSON: `_id`, `name`, `email`, `courses`. */
  datatype ServerStudent = ServerStudent(mongoId: string, name: string, email: string, courses: Option<seq<string>>)

  /** The outcome of an HTTP request: a 2xx response with its body, or a rejected promise. */
  datatype HttpResult<T> = Ok(body: T) | Failed

  /** `${x}` of an optional string: an absent value prints as "undefined". */
  function Interpolate(s: Option<string>): string {
    match s
    case Some(v) => v
    case None => "undefined"
  }

  // ---------------------------------------------------------------------------
  // The mount effect
  // ---------------------------------------------------------------------------

  /** The effect run when `studentId` changes: a non-empty id selects update mode and fetches the
      record; no id (or the empty string) selects create mode and empties the form. */
  function Mount(m: Modal, studentId: Option<string>): (r: (Modal, Option<Request>))
    ensures r.0.isUpdate <==> studentId.Some? && studentId.value != ""
    ensures r.0.isUpdate ==>
              && r.0.form == m.form
              && r.1 == Some(Request(GET, ApiRoot + "/" + studentId.value, None))
    ensures !r.0.isUpdate ==> r.0.form == EmptyForm && r.1.None?
  {
    match studentId
    case Some(s) =>
      if s != "" then (m.(isUpdate := true), Some(Request(GET, ApiRoot + "/" + s, None)))
      else (Modal(EmptyForm, false), None)
    case None => (Modal(EmptyForm, false), None)
  }

  /** Completion of the fetch: a record fills the form, a failure is only logged. */
  function ApplyFetch(m: Modal, result: HttpResult<ServerStudent>): (r: Modal)
    ensures r.isUpdate == m.isUpdate
    ensures result.Failed? ==> r == m
    ensures result.Ok? ==>
              && r.form.id == Some(result.body.mongoId)
              && r.form.name == result.body.name
              && r.form.email == result.body.email
              && (result.body.courses.None? ==> r.form.courses == [])
              && (result.body.courses.Some? ==> r.form.courses == result.body.courses.value)
  {
    match result
    case Failed => m
    case Ok(s) => m.(form := FormData(Some(s.mongoId), s.name, s.email, s.courses.GetOr([])))
  }

  // ---------------------------------------------------------------------------
  // Editing
  // ---------------------------------------------------------------------------

  /** The text the courses input shows: the list joined with ", ". */
  function CoursesText(f: FormData): string {
    Text.Join(f.courses)
  }

  /** Typing into the courses input: the text split on ", ", every other field kept. */
  function EditCourses(f: FormData, text: string): (r: FormData)
    ensures r.id == f.id && r.name == f.name && r.email == f.email
    ensures CoursesText(r) == text
  {
    Text.JoinSplit(text);
    f.(courses := Text.Split(text))
  }

  /** Re-typing the shown text gives back a non-empty list whose items hold no ", "; an empty list
      comes back as one empty item. */
  lemma CoursesRoundTrip(f: FormData)
    ensures |f.courses| >= 1 && (forall k :: 0 <= k < |f.courses| ==> !Text.HasSeparator(f.courses[k])) ==>
              EditCourses(f, CoursesText(f)) == f
    ensures f.courses == [] ==> EditCourses(f, CoursesText(f)).courses == [""]
  {
    if |f.courses| >= 1 && (forall k :: 0 <= k < |f.courses| ==> !Text.HasSeparator(f.courses[k])) {
      Text.SplitJoin(f.courses);
    }
  }

  function EditName(f: FormData, name: string): (r: FormData)
    ensures r.name == name && r.id == f.id && r.email == f.email && r.courses == f.courses
  {
    f.(name := name)
  }

  function EditEmail(f: FormData, email: string): (r: FormData)
    ensures r.email == email && r.id == f.id && r.name == f.name && r.courses == f.courses
  {
    f.(email := email)
  }

  // ---------------------------------------------------------------------------
  // Submission
  // ---------------------------------------------------------------------------

  /** What a submit does: the request sent, the body passed to `onSubmit` (if it is called), the
      dialog state afterwards, and whether `onClose` is called. */
  datatype Submission = Submission(request: Request, notified: Option<ServerStudent>, after: Modal, closed: bool)

  /** The request `handleSubmit` sends for the current state. */
  function SubmitRequest(m: Modal): (r: Request)
    ensures r.payload == Some(m.form)
    ensures m.isUpdate ==> r.verb == PUT && r.url == ApiRoot + "/" + Interpolate(m.form.id)
    ensures !m.isUpdate ==> r.verb == POST && r.url == ApiRoot
  {
    if m.isUpdate then Request(PUT, ApiRoot + "/" + Interpolate(m.form.id), Some(m.form))
    else Request(POST, ApiRoot, Some(m.form))
  }

  /** `handleSubmit`: send, notify the parent on success only, then always empty the form and close. */
  function Submit(m: Modal, result: HttpResult<ServerStudent>): (r: Submission)
    ensures r.request == SubmitRequest(m)
    ensures r.notified.Some? <==> result.Ok?
    ensures result.Ok? ==> r.notified == Some(result.body)
    ensures r.after == Modal(EmptyForm, m.isUpdate)
    ensures r.closed
  {
    var notified := if result.Ok? then Some(result.body) else None;
    Submission(SubmitRequest(m), notified, m.(form := EmptyForm), true)
  }

  /** Success and failure leave the dialog in the same state: the form is emptied and closed
      either way, so a failed save loses what was typed. */
  lemma SubmitResetsOnFailureToo(m: Modal, body: ServerStudent)
    ensures Submit(m, Failed).after == Submit(m, Ok(body)).after
    ensures Submit(m, Failed).closed && Submit(m, Failed).notified.None?
  {
  }

  // ---------------------------------------------------------------------------
  // What the server makes of the dialog's requests
  // ---------------------------------------------------------------------------

  /** How the schema sees the dialog's JSON: `name`, `email` and `courses` are present, `id` is not
      a schema path and is dropped, `dob`, `phone` and `year` are absent. A course entry that is
      not an ObjectId makes the `courses` field uncastable. */
  function ToBody(f: FormData): (b: StudentSchema.Body)
    ensures b.name == StudentSchema.Given(f.name) && b.email == StudentSchema.Given(f.email)
    ensures b.dob.Absent? && b.phone.Absent? && b.year.Absent?
    ensures b.courses.Invalid? <==> exists k :: 0 <= k < |f.courses| && !StudentSchema.IsObjectIdText(f.courses[k])
  {
    var courses :=
      if forall k :: 0 <= k < |f.courses| ==> StudentSchema.IsObjectIdText(f.courses[k]) then
        StudentSchema.Given(seq(|f.courses|, k requires 0 <= k < |f.courses| => Text.Lower(f.courses[k])))
      else StudentSchema.Invalid;
    StudentSchema.Body(StudentSchema.Given(f.name), StudentSchema.Given(f.email),
                       StudentSchema.Absent, StudentSchema.Absent, StudentSchema.Absent, courses)
  }

  /** The dialog never sends `dob`, `phone` or `year`, so every create it requests is refused with
      500 and leaves the collection unchanged. */
  lemma CreateFromDialogAlwaysFails(m: Modal, st: StudentSchema.Store, newId: StudentSchema.Key,
                                    now: StudentSchema.Time, available: bool)
    requires !m.isUpdate
    ensures var req := SubmitRequest(m);
            var r := StudentRoutes.Create(st, ToBody(req.payload.value), newId, now, available);
            && req.verb == POST
            && r.response.status == 500
            && r.store == st
  {
    assert StudentSchema.DobPath in StudentSchema.ValidationErrors(ToBody(m.form));
  }

  /** When the fetch in update mode failed, the form has no id and the update goes to
      `/api/students/undefined`, which the server answers with 500. */
  lemma UpdateWithoutFetchedId(m: Modal, st: StudentSchema.Store, now: StudentSchema.Time, available: bool)
    requires m.isUpdate && m.form.id.None?
    ensures var req := SubmitRequest(m);
            && req.url == ApiRoot + "/undefined"
            && StudentRoutes.Update(st, "undefined", ToBody(m.form), now, available).response.status == 500
  {
  }
}
