/**
 * The interview editor of Frontend/src/components/interviews/InterviewForm.tsx,
 * with the shapes of Frontend/src/types/interview.ts.
 *
 * The resource list is the form's state. The five other fields are uncontrolled
 * inputs read when the form is submitted; what they hold then is a parameter.
 */
module InterviewForm {
  import opened Wrappers
  import Lists

  datatype InterviewMode = Online | Offline

  datatype ResourceKind = Pdf | Video | Url

  /** A resource row. Rows added in the form have no id; rows of an edited interview keep theirs. */
  datatype Resource = Resource(id: Option<string>, kind: ResourceKind, title: string, url: string)

  /** What the form submits: an interview without id and timestamps. */
  datatype InterviewData = InterviewData(
    companyName: string,
    jobRole: string,
    date: string,
    time: string,
    mode: InterviewMode,
    resources: seq<Resource>)

  datatype Interview = Interview(
    id: string,
    companyName: string,
    jobRole: string,
    date: string,
    time: string,
    mode: InterviewMode,
    resources: seq<Resource>,
    createdAt: string,
    updatedAt: string)

  /** The values of the five inputs at submit time. */
  datatype Inputs = Inputs(companyName: string, jobRole: string, date: string, time: string, mode: InterviewMode)

  /** The initial resource rows: the edited interview's, else none. */
  function InitialResources(initial: Option<Interview>): (r: seq<Resource>)
    ensures initial.Some? ==> r == initial.value.resources
    ensures initial.None? ==> r == []
  {
    match initial
    case Some(i) => i.resources
    case None => []
  }

  /** What the inputs show before anything is typed: the edited interview's values (an absent
      `defaultValue` shows an empty box), and the mode select on "Online" unless the interview says
      otherwise. */
  function DefaultInputs(initial: Option<Interview>): (r: Inputs)
    ensures initial.None? ==> r == Inputs("", "", "", "", Online)
    ensures initial.Some? ==>
              r == Inputs(initial.value.companyName, initial.value.jobRole, initial.value.date,
                          initial.value.time, initial.value.mode)
  {
    match initial
    case Some(i) => Inputs(i.companyName, i.jobRole, i.date, i.time, i.mode)
    case None => Inputs("", "", "", "", Online)
  }

  /** "Add Resource": an empty URL row at the end. */
  function AddResource(rs: seq<Resource>): (r: seq<Resource>)
    ensures |r| == |rs| + 1 && r[..|rs|] == rs
    ensures r[|rs|] == Resource(None, Url, "", "")
  {
    rs + [Resource(None, Url, "", "")]
  }

  /** The row's remove button. */
  function RemoveResource(rs: seq<Resource>, index: int): (r: seq<Resource>)
    ensures 0 <= index < |rs| ==> |r| == |rs| - 1 && r == rs[..index] + rs[index + 1..]
    ensures !(0 <= index < |rs|) ==> r == rs
  {
    Lists.RemoveAt(rs, index)
  }

  /** Adding a row and removing it again gives back the list. */
  lemma RemoveUndoesAdd(rs: seq<Resource>)
    ensures RemoveResource(AddResource(rs), |rs|) == rs
  {
  }

  /** The row's type select. */
  function SetKind(rs: seq<Resource>, index: int, kind: ResourceKind): (r: seq<Resource>)
    requires 0 <= index < |rs|
    ensures |r| == |rs| && r[index] == rs[index].(kind := kind)
    ensures forall k :: 0 <= k < |rs| && k != index ==> r[k] == rs[k]
  {
    rs[index := rs[index].(kind := kind)]
  }

  /** The row's title box. */
  function SetTitle(rs: seq<Resource>, index: int, title: string): (r: seq<Resource>)
    requires 0 <= index < |rs|
    ensures |r| == |rs| && r[index] == rs[index].(title := title)
    ensures forall k :: 0 <= k < |rs| && k != index ==> r[k] == rs[k]
  {
    rs[index := rs[index].(title := title)]
  }

  /** The row's URL box. */
  function SetUrl(rs: seq<Resource>, index: int, url: string): (r: seq<Resource>)
    requires 0 <= index < |rs|
    ensures |r| == |rs| && r[index] == rs[index].(url := url)
    ensures forall k :: 0 <= k < |rs| && k != index ==> r[k] == rs[k]
  {
    rs[index := rs[index].(url := url)]
  }

  /** Edits of different fields of a row commute, and none touches the row's id. */
  lemma RowEditsCommute(rs: seq<Resource>, index: int, kind: ResourceKind, title: string, url: string)
    requires 0 <= index < |rs|
    ensures SetTitle(SetKind(rs, index, kind), index, title) == SetKind(SetTitle(rs, index, title), index, kind)
    ensures SetUrl(SetTitle(rs, index, title), index, url) == SetTitle(SetUrl(rs, index, url), index, title)
    ensures SetUrl(SetTitle(SetKind(rs, index, kind), index, title), index, url)[index].id == rs[index].id
  {
  }

  /** `handleSubmit`: the five input values and the current resource rows. */
  function Submit(inputs: Inputs, rs: seq<Resource>): (d: InterviewData)
    ensures d.companyName == inputs.companyName && d.jobRole == inputs.jobRole
    ensures d.date == inputs.date && d.time == inputs.time && d.mode == inputs.mode
    ensures d.resources == rs
  {
    InterviewData(inputs.companyName, inputs.jobRole, inputs.date, inputs.time, inputs.mode, rs)
  }

  /** Submitting an edited interview's form untouched submits that interview's own data. */
  lemma UntouchedSubmit(i: Interview)
    ensures Submit(DefaultInputs(Some(i)), InitialResources(Some(i)))
            == InterviewData(i.companyName, i.jobRole, i.date, i.time, i.mode, i.resources)
  {
  }
}
