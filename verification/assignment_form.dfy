/**
 * The assignment editor that Frontend/src/components/assignments/SubmissionGrading.tsx
 * defines (its default export is `AssignmentForm`), with the shapes of
 * Frontend/src/types/assignment.ts.
 *
 * The dropzone, `URL.createObjectURL` and the fresh ids are parameters: each
 * dropped file arrives with its name, MIME type, object URL and a fresh id.
 * Instants (`Date`) are integers; `parseInt` of the score input is an integer
 * argument (NaN is not modelled).
 */
module AssignmentForm {
  import opened Wrappers
  import Lists

  datatype AttachedFile = AttachedFile(id: string, name: string, url: string, fileType: string)

  /** Every field of an assignment but its id (`Omit<Assignment, 'id'>`): also the form's state. */
  datatype AssignmentData = AssignmentData(
    title: string,
    description: string,
    deadline: int,
    instructions: string,
    maxScore: int,
    courseId: string,
    materials: seq<AttachedFile>)

  datatype Assignment = Assignment(id: string, data: AssignmentData)

  /** The initial state: the edited assignment's fields, except that a maximum score of 0 (falsy)
      becomes 100; without one, empty fields, the current time, 100 points and no materials. */
  function Initial(initial: Option<AssignmentData>, now: int): (f: AssignmentData)
    ensures initial.None? ==> f == AssignmentData("", "", now, "", 100, "", [])
    ensures initial.Some? ==>
              && f.maxScore == (if initial.value.maxScore == 0 then 100 else initial.value.maxScore)
              && f == initial.value.(maxScore := f.maxScore)
  {
    match initial
    case None => AssignmentData("", "", now, "", 100, "", [])
    case Some(a) => a.(maxScore := if a.maxScore == 0 then 100 else a.maxScore)
  }

  /** A score of 0 cannot be kept through an edit: the form reopens it as 100. */
  lemma ZeroScoreBecomesHundred(a: AssignmentData, now: int)
    requires a.maxScore == 0
    ensures Initial(Some(a), now).maxScore == 100 && Initial(Some(a), now) != a
  {
  }

  /** A file as the dropzone hands it over, with the URL and id made for it. */
  datatype DroppedFile = DroppedFile(name: string, mime: string, objectUrl: string, freshId: string)

  /** The material made for one dropped file. */
  function Material(d: DroppedFile): AttachedFile {
    AttachedFile(d.freshId, d.name, d.objectUrl, d.mime)
  }

  function Materials(ds: seq<DroppedFile>): (r: seq<AttachedFile>)
    ensures |r| == |ds| && forall k :: 0 <= k < |ds| ==> r[k] == Material(ds[k])
  {
    seq(|ds|, k requires 0 <= k < |ds| => Material(ds[k]))
  }

  /** `onDrop`: one material per dropped file, in drop order, after the existing materials. */
  function DropFiles(f: AssignmentData, dropped: seq<DroppedFile>): (r: AssignmentData)
    ensures |r.materials| == |f.materials| + |dropped|
    ensures r.materials[..|f.materials|] == f.materials
    ensures forall k :: 0 <= k < |dropped| ==>
              r.materials[|f.materials| + k] == AttachedFile(dropped[k].freshId, dropped[k].name, dropped[k].objectUrl, dropped[k].mime)
    ensures r == f.(materials := r.materials)
  {
    f.(materials := f.materials + Materials(dropped))
  }

  /** The materials of two batches are those of each batch, one after the other. */
  lemma MaterialsAppend(a: seq<DroppedFile>, b: seq<DroppedFile>)
    ensures Materials(a) + Materials(b) == Materials(a + b)
  {
    var ab := Materials(a) + Materials(b);
    forall k | 0 <= k < |a + b|
      ensures ab[k] == Materials(a + b)[k]
    {
      if k < |a| {
        assert (a + b)[k] == a[k];
      } else {
        assert (a + b)[k] == b[k - |a|];
      }
    }
  }

  /** Two drops one after the other add the same materials as one drop of both batches. */
  lemma DropsConcatenate(f: AssignmentData, a: seq<DroppedFile>, b: seq<DroppedFile>)
    ensures DropFiles(DropFiles(f, a), b) == DropFiles(f, a + b)
  {
    MaterialsAppend(a, b);
    assert (f.materials + Materials(a)) + Materials(b) == f.materials + Materials(a + b);
  }

  /** A material's "Remove" button: drops every material with that id. */
  function RemoveMaterial(f: AssignmentData, id: string): (r: AssignmentData)
    ensures forall k :: 0 <= k < |r.materials| ==> r.materials[k] in f.materials && r.materials[k].id != id
    ensures forall k :: 0 <= k < |f.materials| && f.materials[k].id != id ==> f.materials[k] in r.materials
    ensures r.materials == Lists.Filter(f.materials, (m: AttachedFile) => m.id != id)
    ensures r == f.(materials := r.materials)
  {
    f.(materials := Lists.Filter(f.materials, (m: AttachedFile) => m.id != id))
  }

  /** Removal keeps the other materials in order: removing from a concatenated list concatenates the
      removals from each part, and a single material stays exactly when its id differs. */
  lemma RemoveMaterialInOrder(f: AssignmentData, a: seq<AttachedFile>, b: seq<AttachedFile>, m: AttachedFile, id: string)
    ensures RemoveMaterial(f.(materials := a + b), id).materials
            == RemoveMaterial(f.(materials := a), id).materials + RemoveMaterial(f.(materials := b), id).materials
    ensures RemoveMaterial(f.(materials := [m]), id).materials == if m.id != id then [m] else []
  {
    Lists.FilterAppend(a, b, (m: AttachedFile) => m.id != id);
  }

  /** Removing a material just dropped under a fresh id gives back the materials before the drop. */
  lemma {:induction false} RemoveUndoesDrop(f: AssignmentData, d: DroppedFile)
    requires forall k :: 0 <= k < |f.materials| ==> f.materials[k].id != d.freshId
    ensures RemoveMaterial(DropFiles(f, [d]), d.freshId) == f
  {
    var keep := (m: AttachedFile) => m.id != d.freshId;
    Lists.FilterAppend(f.materials, [Material(d)], keep);
    assert Lists.Filter([Material(d)], keep) == [];
    Lists.FilterKeepsAll(f.materials, keep);
    assert DropFiles(f, [d]).materials == f.materials + [Material(d)];
  }

  function EditTitle(f: AssignmentData, title: string): (r: AssignmentData)
    ensures r.title == title && r == f.(title := r.title)
  {
    f.(title := title)
  }

  function EditDescription(f: AssignmentData, description: string): (r: AssignmentData)
    ensures r.description == description && r == f.(description := r.description)
  {
    f.(description := description)
  }

  function EditDeadline(f: AssignmentData, deadline: int): (r: AssignmentData)
    ensures r.deadline == deadline && r == f.(deadline := r.deadline)
  {
    f.(deadline := deadline)
  }

  /** The score input stores what was typed, 0 included; only reopening the form turns 0 into 100. */
  function EditMaxScore(f: AssignmentData, maxScore: int): (r: AssignmentData)
    ensures r.maxScore == maxScore && r == f.(maxScore := r.maxScore)
  {
    f.(maxScore := maxScore)
  }

  function EditInstructions(f: AssignmentData, instructions: string): (r: AssignmentData)
    ensures r.instructions == instructions && r == f.(instructions := r.instructions)
  {
    f.(instructions := instructions)
  }

  /** Edits of two different fields do not interfere: each leaves the other's value in place. */
  lemma FieldEditsIndependent(f: AssignmentData, title: string, description: string, score: int)
    ensures EditTitle(EditDescription(f, description), title) == EditDescription(EditTitle(f, title), description)
    ensures EditMaxScore(EditTitle(f, title), score).title == title
    ensures EditTitle(EditMaxScore(f, score), title).maxScore == score
  {
  }

  /** `handleSubmit`: the parent receives the form data as it stands. */
  function Submit(f: AssignmentData): (r: AssignmentData)
    ensures r == f
  {
    f
  }
}
