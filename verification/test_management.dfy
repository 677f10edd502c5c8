/**
 * The test management page of
 * Frontend/src/pages/testsmanager/TestManagement.tsx: the list of tests, the
 * create flow, and the three flags that choose what the page shows. Fresh test
 * ids are parameters.
 */
module TestManagement {
  import opened Wrappers
  import opened TestForm

  datatype PageState = PageState(tests: seq<Test>, showForm: bool, selected: Option<Test>, showAnalytics: bool)

  const InitialPage: PageState := PageState([], false, None, false)

  /** What the page renders below its header. */
  datatype View = FormView | AnalyticsView | ListView

  /** The form wins over the analytics panel, which wins over the list. */
  function ShownView(s: PageState): (v: View)
    ensures v == FormView <==> s.showForm
    ensures v == AnalyticsView <==> !s.showForm && s.showAnalytics
    ensures v == ListView <==> !s.showForm && !s.showAnalytics
  {
    if s.showForm then FormView else if s.showAnalytics then AnalyticsView else ListView
  }

  /** `handleCreateTest`: appends the submitted test under a fresh id and hides the form. */
  function CreateTest(s: PageState, data: TestData, freshId: string): (r: PageState)
    ensures |r.tests| == |s.tests| + 1 && r.tests[..|s.tests|] == s.tests
    ensures r.tests[|s.tests|] == Test(freshId, data)
    ensures !r.showForm && r.selected == s.selected && r.showAnalytics == s.showAnalytics
  {
    s.(tests := s.tests + [Test(freshId, data)], showForm := false)
  }

  /** The header's "Create Test" button: opens the form with nothing selected and no analytics. */
  function OpenForm(s: PageState): (r: PageState)
    ensures r.tests == s.tests && r.showForm && r.selected.None? && !r.showAnalytics
    ensures ShownView(r) == FormView
  {
    s.(showForm := true, selected := None, showAnalytics := false)
  }

  /** A test card's "Analytics" button. */
  function ShowAnalytics(s: PageState, t: Test): (r: PageState)
    ensures r.tests == s.tests && r.selected == Some(t) && r.showAnalytics && r.showForm == s.showForm
    ensures !s.showForm ==> ShownView(r) == AnalyticsView
  {
    s.(selected := Some(t), showAnalytics := true)
  }

  /** The form is passed `selectedTest` as its initial data. */
  function FormInitialData(s: PageState): Option<TestData> {
    match s.selected
    case Some(t) => Some(t.data)
    case None => None
  }

  /** Whenever the form is open nothing is selected: "Create Test" clears the selection, and
      "Analytics" exists only on the list, where the form is closed. */
  ghost predicate FormOpensBlank(s: PageState) {
    s.showForm ==> s.selected.None?
  }

  /** The page's transitions keep the form blank; so the form never edits an existing test, and
      every submit creates a new one. */
  lemma TransitionsKeepFormBlank(s: PageState, data: TestData, freshId: string, t: Test)
    requires FormOpensBlank(s)
    ensures FormOpensBlank(CreateTest(s, data, freshId)) && FormOpensBlank(OpenForm(s))
    ensures !s.showForm ==> FormOpensBlank(ShowAnalytics(s, t))
    ensures ShownView(s) == FormView ==> FormInitialData(s).None?
  {
  }

  /** Opening the form and submitting it lands on the list with the new test at its end. */
  lemma CreateFlow(s: PageState, data: TestData, freshId: string)
    ensures var r := CreateTest(OpenForm(s), data, freshId);
            && ShownView(r) == ListView
            && r.tests == s.tests + [Test(freshId, data)]
  {
  }
}
