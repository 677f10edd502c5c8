/**
 * The interview page of Frontend/src/pages/interviews/InterviewManagement.tsx:
 * create, update and delete over the interview list. Fresh ids
 * (`crypto.randomUUID`), the clock (`new Date().toISOString()`, one argument per
 * read) and the answer to `window.confirm` are parameters.
 */
module InterviewManagement {
  import opened Wrappers
  import Lists
  import opened InterviewForm

  datatype PageState = PageState(interviews: seq<Interview>, editing: Option<Interview>)

  const InitialPage: PageState := PageState([], None)

  /** The ids of a list, position by position. */
  function Ids(xs: seq<Interview>): seq<string> {
    Lists.Map(xs, (x: Interview) => x.id)
  }

  /** An interview with the submitted data and the given id and timestamps. */
  function WithData(d: InterviewData, id: string, createdAt: string, updatedAt: string): Interview {
    Interview(id, d.companyName, d.jobRole, d.date, d.time, d.mode, d.resources, createdAt, updatedAt)
  }

  /** The data an interview holds, without id and timestamps. */
  function DataOf(i: Interview): InterviewData {
    InterviewData(i.companyName, i.jobRole, i.date, i.time, i.mode, i.resources)
  }

  lemma DataOfWithData(d: InterviewData, id: string, c: string, u: string)
    ensures DataOf(WithData(d, id, c, u)) == d
  {
  }

  /** `handleCreateInterview`: appends the data under a fresh id; the two timestamps come from two
      clock reads. */
  function Create(s: PageState, d: InterviewData, freshId: string, createdAt: string, updatedAt: string): (r: PageState)
    ensures |r.interviews| == |s.interviews| + 1 && r.interviews[..|s.interviews|] == s.interviews
    ensures var n := r.interviews[|s.interviews|];
            && n.id == freshId && DataOf(n) == d && n.createdAt == createdAt && n.updatedAt == updatedAt
    ensures r.editing == s.editing
  {
    s.(interviews := s.interviews + [WithData(d, freshId, createdAt, updatedAt)])
  }

  /** When both clock reads give the same instant, a new interview was created when it was last
      updated. */
  lemma CreateTimestampsAgree(s: PageState, d: InterviewData, freshId: string, now: string)
    ensures var n := Create(s, d, freshId, now, now).interviews[|s.interviews|];
            n.createdAt == n.updatedAt
  {
  }

  /** A list item's "Edit": the interview goes under edit. */
  function Edit(s: PageState, i: Interview): (r: PageState)
    ensures r.editing == Some(i) && r.interviews == s.interviews
  {
    s.(editing := Some(i))
  }

  /** `{ ...editingInterview, ...data, updatedAt }`: the edited interview with the submitted data,
      its id and creation time, and a new update time. */
  function Updated(e: Interview, d: InterviewData, now: string): (r: Interview)
    ensures DataOf(r) == d && r.id == e.id && r.createdAt == e.createdAt && r.updatedAt == now
  {
    WithData(d, e.id, e.createdAt, now)
  }

  /** `handleUpdateInterview`: with an interview under edit, every entry with its id is replaced by
      the updated interview and the edit closes; with none, nothing happens. */
  function Update(s: PageState, d: InterviewData, now: string): (r: PageState)
    ensures s.editing.None? ==> r == s
    ensures s.editing.Some? ==>
              && |r.interviews| == |s.interviews|
              && (forall k :: 0 <= k < |s.interviews| && s.interviews[k].id != s.editing.value.id ==>
                                r.interviews[k] == s.interviews[k])
              && (forall k :: 0 <= k < |s.interviews| && s.interviews[k].id == s.editing.value.id ==>
                                r.interviews[k] == Updated(s.editing.value, d, now))
              && r.editing.None?
  {
    match s.editing
    case None => s
    case Some(e) =>
      PageState(Lists.MapWhere(s.interviews, (i: Interview) => i.id == e.id, (i: Interview) => Updated(e, d, now)), None)
  }

  /** An update keeps every id in place. */
  lemma UpdateKeepsIds(s: PageState, d: InterviewData, now: string)
    ensures Ids(Update(s, d, now).interviews) == Ids(s.interviews)
  {
  }

  /** Editing an entry and submitting its own data only refreshes its update time. */
  lemma UpdateWithOwnData(s: PageState, k: int, now: string)
    requires 0 <= k < |s.interviews|
    ensures var i := s.interviews[k];
            Update(Edit(s, i), DataOf(i), now).interviews[k] == i.(updatedAt := now)
  {
  }

  /** `handleDeleteInterview`: once confirmed, drops every interview with that id. */
  function Delete(s: PageState, id: string, confirmed: bool): (r: PageState)
    ensures !confirmed ==> r == s
    ensures confirmed ==>
              && (forall k :: 0 <= k < |r.interviews| ==> r.interviews[k] in s.interviews && r.interviews[k].id != id)
              && (forall k :: 0 <= k < |s.interviews| && s.interviews[k].id != id ==> s.interviews[k] in r.interviews)
              && r.interviews == Lists.Filter(s.interviews, (i: Interview) => i.id != id)
    ensures r.editing == s.editing
  {
    if confirmed then s.(interviews := Lists.Filter(s.interviews, (i: Interview) => i.id != id)) else s
  }

  /** Deleting an interview just created under a fresh id gives back the list before the create. */
  lemma {:induction false} DeleteUndoesCreate(s: PageState, d: InterviewData, freshId: string, c: string, u: string)
    requires freshId !in Ids(s.interviews)
    ensures Delete(Create(s, d, freshId, c, u), freshId, true).interviews == s.interviews
  {
    var keep := (i: Interview) => i.id != freshId;
    var n := WithData(d, freshId, c, u);
    Lists.FilterAppend(s.interviews, [n], keep);
    assert Lists.Filter([n], keep) == [];
    forall k | 0 <= k < |s.interviews|
      ensures keep(s.interviews[k])
    {
      assert Ids(s.interviews)[k] == s.interviews[k].id;
    }
    Lists.FilterKeepsAll(s.interviews, keep);
    assert Create(s, d, freshId, c, u).interviews == s.interviews + [n];
  }

  /** The form's `onSubmit`: update while an interview is under edit, create otherwise. */
  function SubmitForm(s: PageState, d: InterviewData, freshId: string, t1: string, t2: string): (r: PageState)
    ensures s.editing.Some? ==> r == Update(s, d, t1)
    ensures s.editing.None? ==> r == Create(s, d, freshId, t1, t2)
  {
    if s.editing.Some? then Update(s, d, t1) else Create(s, d, freshId, t1, t2)
  }
}
