/**
 * The test editor of Frontend/src/components/tests/TestForm.tsx: defaults taken
 * from the test being edited, the question list, and `totalMarks`, which the
 * form recomputes as the sum of the questions' marks.
 *
 * Times are instants (`Date`) as integers; the current time and fresh question
 * ids are parameters. Marks and durations are JavaScript numbers, modelled as
 * `real` (NaN is not modelled).
 */
module TestForm {
  import opened Wrappers
  import Lists
  import opened QuestionForm

  /** Every field of a test but its id (`Omit<Test, 'id'>`): also the form's state. */
  datatype TestData = TestData(
    title: string,
    description: string,
    duration: real,
    scheduledFor: int,
    randomizeQuestions: bool,
    questions: seq<Question>,
    courseId: string,
    totalMarks: real)

  datatype Test = Test(id: string, data: TestData)

  /** The initial state: the edited test's fields, except that a duration of 0 (falsy) becomes 60;
      without a test, empty fields, 60 minutes, the current time and no questions. */
  function Initial(initial: Option<TestData>, now: int): (f: TestData)
    ensures initial.None? ==> f == TestData("", "", 60.0, now, false, [], "", 0.0)
    ensures initial.Some? ==>
              && f.duration == (if initial.value.duration == 0.0 then 60.0 else initial.value.duration)
              && f == initial.value.(duration := f.duration)
  {
    match initial
    case None => TestData("", "", 60.0, now, false, [], "", 0.0)
    case Some(t) => t.(duration := if t.duration == 0.0 then 60.0 else t.duration)
  }

  /** The sum of the questions' marks (`reduce((sum, q) => sum + (q.marks || 0), 0)`). */
  function SumMarks(qs: seq<Question>): real
    decreases |qs|
  {
    if |qs| == 0 then 0.0 else SumMarks(qs[..|qs| - 1]) + qs[|qs| - 1].marks
  }

  /** The form's total agrees with its questions. */
  ghost predicate MarksAgree(f: TestData) {
    f.totalMarks == SumMarks(f.questions)
  }

  lemma {:induction false} SumMarksAppend(a: seq<Question>, b: seq<Question>)
    ensures SumMarks(a + b) == SumMarks(a) + SumMarks(b)
    decreases |b|
  {
    if |b| == 0 {
      assert a + b == a;
    } else {
      assert (a + b)[..|a + b| - 1] == a + b[..|b| - 1];
      SumMarksAppend(a, b[..|b| - 1]);
    }
  }

  /** Replacing one question changes the sum by the difference of its marks. */
  lemma {:induction false} SumMarksReplace(qs: seq<Question>, i: int, q: Question)
    requires 0 <= i < |qs|
    ensures SumMarks(qs[i := q]) == SumMarks(qs) - qs[i].marks + q.marks
  {
    assert qs == qs[..i] + [qs[i]] + qs[i + 1..];
    assert qs[i := q] == qs[..i] + [q] + qs[i + 1..];
    SumMarksAppend(qs[..i] + [qs[i]], qs[i + 1..]);
    SumMarksAppend(qs[..i], [qs[i]]);
    SumMarksAppend(qs[..i] + [q], qs[i + 1..]);
    SumMarksAppend(qs[..i], [q]);
    assert SumMarks([qs[i]]) == qs[i].marks by { assert [qs[i]][..0] == []; }
    assert SumMarks([q]) == q.marks by { assert [q][..0] == []; }
  }

  /** Removing one question takes its marks off the sum. */
  lemma {:induction false} SumMarksRemove(qs: seq<Question>, i: int)
    requires 0 <= i < |qs|
    ensures SumMarks(Lists.RemoveAt(qs, i)) == SumMarks(qs) - qs[i].marks
  {
    assert qs == qs[..i] + [qs[i]] + qs[i + 1..];
    assert Lists.RemoveAt(qs, i) == qs[..i] + qs[i + 1..];
    SumMarksAppend(qs[..i] + [qs[i]], qs[i + 1..]);
    SumMarksAppend(qs[..i], [qs[i]]);
    SumMarksAppend(qs[..i], qs[i + 1..]);
    assert SumMarks([qs[i]]) == qs[i].marks by { assert [qs[i]][..0] == []; }
  }

  /** `handleAddQuestion`: appends an untitled multiple-choice question worth 0 marks with an empty
      option list. The total is not recomputed. */
  function AddQuestion(f: TestData, freshId: string): (r: TestData)
    ensures r.questions == f.questions + [Question(freshId, "", Some(Mcq), 0.0, Some([]), None)]
    ensures r == f.(questions := r.questions)
  {
    f.(questions := f.questions + [Question(freshId, "", Some(Mcq), 0.0, Some([]), None)])
  }

  /** A new question is worth nothing, so adding one keeps the total right without recomputing. */
  lemma AddQuestionKeepsMarks(f: TestData, freshId: string)
    requires MarksAgree(f)
    ensures MarksAgree(AddQuestion(f, freshId))
    ensures AddQuestion(f, freshId).totalMarks == f.totalMarks
  {
    var q := Question(freshId, "", Some(Mcq), 0.0, Some([]), None);
    SumMarksAppend(f.questions, [q]);
    assert SumMarks([q]) == 0.0 by { assert [q][..0] == []; }
  }

  /** `Partial<Question>`: each field is left out (`None`) or given. For `qtype`, `options` and
      `correctAnswer`, a given `None` is a key present with the value `undefined`. */
  datatype QuestionPatch = QuestionPatch(
    id: Option<string>,
    text: Option<string>,
    qtype: Option<Option<QuestionType>>,
    marks: Option<real>,
    options: Option<Option<seq<Choice>>>,
    correctAnswer: Option<Option<string>>)

  /** `{ ...q, ...patch }`: the patch's given fields override. */
  function Merge(q: Question, p: QuestionPatch): (r: Question)
    ensures r.id == p.id.GetOr(q.id) && r.text == p.text.GetOr(q.text) && r.marks == p.marks.GetOr(q.marks)
    ensures r.qtype == p.qtype.GetOr(q.qtype) && r.options == p.options.GetOr(q.options)
    ensures r.correctAnswer == p.correctAnswer.GetOr(q.correctAnswer)
  {
    Question(p.id.GetOr(q.id), p.text.GetOr(q.text), p.qtype.GetOr(q.qtype), p.marks.GetOr(q.marks),
             p.options.GetOr(q.options), p.correctAnswer.GetOr(q.correctAnswer))
  }

  /** The patch the question editor sends: the whole edited question (`{ ...question, ... }`). */
  function WholeQuestion(q: Question): QuestionPatch {
    QuestionPatch(Some(q.id), Some(q.text), Some(q.qtype), Some(q.marks), Some(q.options), Some(q.correctAnswer))
  }

  /** Merging the whole question installs it, whatever was there. */
  lemma MergeWhole(prev: Question, q: Question)
    ensures Merge(prev, WholeQuestion(q)) == q
  {
  }

  /** The empty patch changes nothing. */
  lemma MergeEmpty(q: Question)
    ensures Merge(q, QuestionPatch(None, None, None, None, None, None)) == q
  {
  }

  /** `handleQuestionChange`: merges the patch into question `index` only and recomputes the total. */
  function ChangeQuestion(f: TestData, index: int, p: QuestionPatch): (r: TestData)
    requires 0 <= index < |f.questions|
    ensures |r.questions| == |f.questions|
    ensures r.questions[index] == Merge(f.questions[index], p)
    ensures forall k :: 0 <= k < |f.questions| && k != index ==> r.questions[k] == f.questions[k]
    ensures MarksAgree(r)
    ensures r == f.(questions := r.questions, totalMarks := r.totalMarks)
  {
    var qs := f.questions[index := Merge(f.questions[index], p)];
    f.(questions := qs, totalMarks := SumMarks(qs))
  }

  /** After a change, the total moves by exactly the change in that question's marks. */
  lemma ChangeQuestionTotal(f: TestData, index: int, p: QuestionPatch)
    requires 0 <= index < |f.questions| && MarksAgree(f)
    ensures ChangeQuestion(f, index, p).totalMarks
            == f.totalMarks - f.questions[index].marks + Merge(f.questions[index], p).marks
  {
    SumMarksReplace(f.questions, index, Merge(f.questions[index], p));
  }

  /** The question editor's remove button: drops question `index` and recomputes the total. */
  function RemoveQuestion(f: TestData, index: int): (r: TestData)
    ensures 0 <= index < |f.questions| ==> |r.questions| == |f.questions| - 1
    ensures r.questions == Lists.RemoveAt(f.questions, index)
    ensures MarksAgree(r)
    ensures r == f.(questions := r.questions, totalMarks := r.totalMarks)
  {
    var qs := Lists.RemoveAt(f.questions, index);
    f.(questions := qs, totalMarks := SumMarks(qs))
  }

  /** Removing a question takes exactly its marks off the total. */
  lemma RemoveQuestionTotal(f: TestData, index: int)
    requires 0 <= index < |f.questions| && MarksAgree(f)
    ensures RemoveQuestion(f, index).totalMarks == f.totalMarks - f.questions[index].marks
  {
    SumMarksRemove(f.questions, index);
  }

  /** A fresh form's total agrees with its (empty) question list, and with an edited test's list
      when the stored total did. */
  lemma InitialMarksAgree(initial: Option<TestData>, now: int)
    requires initial.Some? ==> MarksAgree(initial.value)
    ensures MarksAgree(Initial(initial, now))
  {
  }

  function EditTitle(f: TestData, title: string): (r: TestData)
    ensures r.title == title && r == f.(title := r.title)
  {
    f.(title := title)
  }

  function EditDescription(f: TestData, description: string): (r: TestData)
    ensures r.description == description && r == f.(description := r.description)
  {
    f.(description := description)
  }

  /** The duration input (`Number(e.target.value)`): stored as typed, a 0 included. */
  function EditDuration(f: TestData, duration: real): (r: TestData)
    ensures r.duration == duration && r == f.(duration := r.duration)
  {
    f.(duration := duration)
  }

  function EditSchedule(f: TestData, at: int): (r: TestData)
    ensures r.scheduledFor == at && r == f.(scheduledFor := r.scheduledFor)
  {
    f.(scheduledFor := at)
  }

  function EditRandomize(f: TestData, randomize: bool): (r: TestData)
    ensures r.randomizeQuestions == randomize && r == f.(randomizeQuestions := r.randomizeQuestions)
  {
    f.(randomizeQuestions := randomize)
  }

  /** The detail fields leave the questions and the total alone. */
  lemma DetailEditsKeepMarks(f: TestData, s: string, d: real, at: int, b: bool)
    requires MarksAgree(f)
    ensures MarksAgree(EditTitle(f, s)) && MarksAgree(EditDescription(f, s)) && MarksAgree(EditDuration(f, d))
    ensures MarksAgree(EditSchedule(f, at)) && MarksAgree(EditRandomize(f, b))
  {
  }

  /** `handleSubmit`: the form's data as it stands. */
  function Submit(f: TestData): (r: TestData)
    ensures MarksAgree(f) ==> MarksAgree(r)
    ensures r == f
  {
    f
  }
}
