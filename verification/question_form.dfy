/**
 * The question editor of Frontend/src/components/tests/QuestionForm.tsx, with
 * the question shapes of Frontend/src/types/test.ts.
 *
 * Every handler of the editor calls `onChange` with the whole question, edited;
 * each is modelled as a function from the question shown to the question passed
 * to `onChange`. Fresh option ids (`Math.random`) are parameters.
 */
module QuestionForm {
  import opened Wrappers
  import Lists

  datatype QuestionType = Mcq | Descriptive

  /** An answer option (`Option` in types/test.ts). */
  datatype Choice = Choice(id: string, text: string, isCorrect: bool)

  /** A question. `qtype` and `options` may be missing: the editor receives a partial question. */
  datatype Question = Question(
    id: string,
    text: string,
    qtype: Option<QuestionType>,
    marks: real,
    options: Option<seq<Choice>>,
    correctAnswer: Option<string>)

  /** The type the select shows: `question.type || 'mcq'`. */
  function ShownType(q: Question): QuestionType {
    q.qtype.GetOr(Mcq)
  }

  /** The options editor is rendered only when the type is literally 'mcq'. */
  predicate ShowsOptions(q: Question) {
    q.qtype == Some(Mcq)
  }

  /** The options editor appears only when the select shows "Multiple Choice"; a question without a
      type shows "Multiple Choice" but no options editor. */
  lemma OptionsEditorFollowsType(q: Question)
    ensures ShowsOptions(q) ==> ShownType(q) == Mcq
    ensures ShowsOptions(q) <==> ShownType(q) == Mcq && q.qtype.Some?
    ensures q.qtype.None? ==> ShownType(q) == Mcq && !ShowsOptions(q)
  {
  }

  /** `handleOptionAdd`: appends an empty, incorrect option; a missing list counts as empty. */
  function AddOption(q: Question, freshId: string): (r: Question)
    ensures r.options.Some?
    ensures q.options.Some? ==> r.options.value == q.options.value + [Choice(freshId, "", false)]
    ensures q.options.None? ==> r.options.value == [Choice(freshId, "", false)]
    ensures r == q.(options := r.options)
  {
    q.(options := Some(q.options.GetOr([]) + [Choice(freshId, "", false)]))
  }

  /** `handleOptionRemove`: drops every option with the id; a missing list stays missing. */
  function RemoveOption(q: Question, id: string): (r: Question)
    ensures q.options.None? <==> r.options.None?
    ensures q.options.Some? ==>
              && (forall k :: 0 <= k < |r.options.value| ==> r.options.value[k] in q.options.value && r.options.value[k].id != id)
              && (forall k :: 0 <= k < |q.options.value| && q.options.value[k].id != id ==> q.options.value[k] in r.options.value)
              && r.options.value == Lists.Filter(q.options.value, (o: Choice) => o.id != id)
    ensures r == q.(options := r.options)
  {
    match q.options
    case None => q
    case Some(os) => q.(options := Some(Lists.Filter(os, (o: Choice) => o.id != id)))
  }

  /** Removal keeps the order of the other options: removing from a concatenated list concatenates
      the removals from each part, and a single option stays exactly when its id differs. */
  lemma RemoveOptionInOrder(q: Question, a: seq<Choice>, b: seq<Choice>, o: Choice, id: string)
    ensures RemoveOption(q.(options := Some(a + b)), id).options.value
            == RemoveOption(q.(options := Some(a)), id).options.value + RemoveOption(q.(options := Some(b)), id).options.value
    ensures RemoveOption(q.(options := Some([o])), id).options.value == if o.id != id then [o] else []
  {
    Lists.FilterAppend(a, b, (o: Choice) => o.id != id);
  }

  /** Adding an option and removing it again by its fresh id gives back the question, once the
      question has an option list. */
  lemma {:induction false} RemoveUndoesAdd(q: Question, freshId: string)
    requires q.options.Some?
    requires forall k :: 0 <= k < |q.options.value| ==> q.options.value[k].id != freshId
    ensures RemoveOption(AddOption(q, freshId), freshId) == q
  {
    var keep := (o: Choice) => o.id != freshId;
    var os := q.options.value;
    Lists.FilterAppend(os, [Choice(freshId, "", false)], keep);
    assert Lists.Filter([Choice(freshId, "", false)], keep) == [];
    Lists.FilterKeepsAll(os, keep);
    var added := AddOption(q, freshId);
    assert added.options.value == os + [Choice(freshId, "", false)];
    assert Lists.Filter(added.options.value, keep) == os;
    assert RemoveOption(added, freshId) == q.(options := Some(os));
  }

  /** The radio button of option `id`: that option becomes the correct one and every other option
      is marked incorrect. */
  function MarkCorrect(q: Question, id: string): (r: Question)
    ensures q.options.None? <==> r.options.None?
    ensures q.options.Some? ==>
              && |r.options.value| == |q.options.value|
              && forall k :: 0 <= k < |q.options.value| ==>
                   r.options.value[k] == q.options.value[k].(isCorrect := q.options.value[k].id == id)
    ensures r == q.(options := r.options)
  {
    match q.options
    case None => q
    case Some(os) => q.(options := Some(seq(|os|, k requires 0 <= k < |os| => os[k].(isCorrect := os[k].id == id))))
  }

  ghost predicate DistinctIds(os: seq<Choice>) {
    forall i, j :: 0 <= i < j < |os| ==> os[i].id != os[j].id
  }

  /** With distinct option ids, after a radio click exactly the clicked option is correct (none, if
      the id is not in the list). */
  lemma MarkCorrectSingle(q: Question, id: string)
    requires q.options.Some? && DistinctIds(q.options.value)
    ensures var os := MarkCorrect(q, id).options.value;
            forall i, j :: 0 <= i < j < |os| ==> !(os[i].isCorrect && os[j].isCorrect)
    ensures var os := MarkCorrect(q, id).options.value;
            forall k :: 0 <= k < |os| ==> (os[k].isCorrect <==> os[k].id == id)
  {
  }

  /** Typing into the text box of option `id`: only that option's text changes. */
  function EditOptionText(q: Question, id: string, text: string): (r: Question)
    ensures q.options.None? <==> r.options.None?
    ensures q.options.Some? ==>
              && |r.options.value| == |q.options.value|
              && forall k :: 0 <= k < |q.options.value| ==>
                   if q.options.value[k].id == id then r.options.value[k] == q.options.value[k].(text := text)
                   else r.options.value[k] == q.options.value[k]
    ensures r == q.(options := r.options)
  {
    match q.options
    case None => q
    case Some(os) =>
      q.(options := Some(Lists.MapWhere(os, (o: Choice) => o.id == id, (o: Choice) => o.(text := text))))
  }

  /** Editing an option's text keeps which option is correct. */
  lemma EditTextKeepsCorrect(q: Question, id: string, text: string)
    requires q.options.Some?
    ensures var os := EditOptionText(q, id, text).options.value;
            forall k :: 0 <= k < |os| ==> os[k].isCorrect == q.options.value[k].isCorrect && os[k].id == q.options.value[k].id
  {
  }

  /** The question text box. */
  function EditText(q: Question, text: string): (r: Question)
    ensures r.text == text && r == q.(text := r.text)
  {
    q.(text := text)
  }

  /** The type select. */
  function ChangeType(q: Question, t: QuestionType): (r: Question)
    ensures r.qtype == Some(t) && ShownType(r) == t && r == q.(qtype := r.qtype)
  {
    q.(qtype := Some(t))
  }

  /** The marks input (`Number(e.target.value)`). */
  function EditMarks(q: Question, marks: real): (r: Question)
    ensures r.marks == marks && r == q.(marks := r.marks)
  {
    q.(marks := marks)
  }

  /** Switching to "Descriptive" hides the options but keeps them: switching back shows them again. */
  lemma TypeSwitchKeepsOptions(q: Question)
    ensures !ShowsOptions(ChangeType(q, Descriptive))
    ensures ChangeType(ChangeType(q, Descriptive), Mcq).options == q.options
    ensures ShowsOptions(ChangeType(ChangeType(q, Descriptive), Mcq))
  {
  }
}
