/**
 * The course editor of Frontend/src/components/courses/CourseForm.tsx: six
 * text-backed fields, a list of uploaded resources, and the payload it hands
 * to its parent on submit.
 *
 * The file picker and `URL.createObjectURL` are parameters: the file picked
 * (or none) and the object URL made for it. The current year is a parameter too.
 */
module CourseForm {
  import opened Wrappers
  import Lists

  /** The three resource buttons: "Add PDF", "Add Video", "Add Slides". */
  datatype ResourceKind = Pdf | Video | Slide

  datatype Resource = Resource(name: string, kind: ResourceKind, url: string)

  /** The year of a course: the form starts it as a number, and the year input sets it to the
      string the browser reports, so both shapes reach the course list. */
  datatype YearValue = YearNum(n: int) | YearText(text: string)

  /** The submitted course (`{ ...courseData, resources }`), every field but the id. */
  datatype CourseData = CourseData(
    title: string,
    description: string,
    duration: string,
    instructor: string,
    semester: string,
    year: YearValue,
    resources: seq<Resource>)

  /** The inputs of the form, by their `name` attribute. */
  datatype FieldName = Title | Description | Duration | Instructor | Semester | Year

  /** The form's state: the six fields and the resources (kept together with them). */
  datatype FormState = FormState(data: CourseData)

  /** The state on mount: empty fields, no resources, the current year as a number. */
  function Initial(currentYear: int): (f: FormState)
    ensures f.data.title == "" && f.data.description == "" && f.data.duration == ""
    ensures f.data.instructor == "" && f.data.semester == ""
    ensures f.data.year == YearNum(currentYear) && f.data.resources == []
  {
    FormState(CourseData("", "", "", "", "", YearNum(currentYear), []))
  }

  /** The value a field shows, as the input reads it. */
  function FieldText(d: CourseData, name: FieldName): Option<string> {
    match name
    case Title => Some(d.title)
    case Description => Some(d.description)
    case Duration => Some(d.duration)
    case Instructor => Some(d.instructor)
    case Semester => Some(d.semester)
    case Year => if d.year.YearText? then Some(d.year.text) else None
  }

  /** `handleInputChange`: the named field takes the input's string value. */
  function InputChange(f: FormState, name: FieldName, value: string): (r: FormState)
    ensures FieldText(r.data, name) == Some(value)
    ensures forall other :: other != name ==> FieldText(r.data, other) == FieldText(f.data, other)
    ensures r.data.resources == f.data.resources
    ensures name != Year ==> r.data.year == f.data.year
  {
    var d := f.data;
    var d' := match name
      case Title => d.(title := value)
      case Description => d.(description := value)
      case Duration => d.(duration := value)
      case Instructor => d.(instructor := value)
      case Semester => d.(semester := value)
      case Year => d.(year := YearText(value));
    FormState(d')
  }

  /** Two changes of the same field: the second wins. */
  lemma InputChangeLastWins(f: FormState, name: FieldName, a: string, b: string)
    ensures InputChange(InputChange(f, name, a), name, b) == InputChange(f, name, b)
  {
  }

  /** Changes to two different fields commute. */
  lemma InputChangesCommute(f: FormState, n1: FieldName, n2: FieldName, a: string, b: string)
    requires n1 != n2
    ensures InputChange(InputChange(f, n1, a), n2, b) == InputChange(InputChange(f, n2, b), n1, a)
  {
  }

  /** The picker's `accept` filter for each kind. */
  function Accept(kind: ResourceKind): (r: string)
    ensures kind == Pdf ==> r == ".pdf"
    ensures kind == Video ==> r == "video/*"
    ensures kind == Slide ==> r == ".ppt,.pptx"
  {
    match kind
    case Pdf => ".pdf"
    case Video => "video/*"
    case Slide => ".ppt,.pptx"
  }

  /** The filters are pairwise different: each button opens a picker for its own kind. */
  lemma AcceptDistinguishesKinds(a: ResourceKind, b: ResourceKind)
    ensures Accept(a) == Accept(b) <==> a == b
  {
  }

  /** The picker's change event: a picked file is appended as a resource of the chosen kind; no file
      adds nothing. */
  function PickFile(f: FormState, kind: ResourceKind, file: Option<string>, objectUrl: string): (r: FormState)
    ensures file.None? ==> r == f
    ensures file.Some? ==>
              && r.data.resources == f.data.resources + [Resource(file.value, kind, objectUrl)]
              && r.data == f.data.(resources := r.data.resources)
  {
    match file
    case None => f
    case Some(name) => FormState(f.data.(resources := f.data.resources + [Resource(name, kind, objectUrl)]))
  }

  /** "Remove" on the resource at `index`. */
  function RemoveResource(f: FormState, index: int): (r: FormState)
    ensures 0 <= index < |f.data.resources| ==>
              && |r.data.resources| == |f.data.resources| - 1
              && r.data.resources == f.data.resources[..index] + f.data.resources[index + 1..]
    ensures !(0 <= index < |f.data.resources|) ==> r == f
    ensures r.data == f.data.(resources := r.data.resources)
  {
    FormState(f.data.(resources := Lists.RemoveAt(f.data.resources, index)))
  }

  /** Removing right after picking takes the picked file off again. */
  lemma PickThenRemove(f: FormState, kind: ResourceKind, name: string, objectUrl: string)
    ensures RemoveResource(PickFile(f, kind, Some(name), objectUrl), |f.data.resources|) == f
  {
    var r := PickFile(f, kind, Some(name), objectUrl).data.resources;
    assert Lists.RemoveAt(r, |f.data.resources|) == f.data.resources;
  }

  /** Removing a resource and putting it back where it was restores the list. */
  lemma RemoveResourceInverse(f: FormState, index: int)
    requires 0 <= index < |f.data.resources|
    ensures Lists.InsertAt(RemoveResource(f, index).data.resources, index, f.data.resources[index])
            == f.data.resources
  {
    Lists.RemoveAtInverse(f.data.resources, index);
  }

  /** `handleSubmit`: the parent gets the fields and the current resources, unchanged. */
  function Submit(f: FormState): (d: CourseData)
    ensures d == f.data
  {
    f.data
  }
}
