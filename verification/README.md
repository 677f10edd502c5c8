# Student, course, test, assignment and interview management — a Dafny model

This project models the logic of a small education-management application. The application has two parts:

- an Express/Mongoose back end that stores students;
- a React front end with students, courses, tests, assignments, interviews and an admin sign-in.

The application has no algorithms. Its logic is a set of small deterministic transitions and predicates. Each is modelled here as a pure Dafny function over immutable datatypes, with lemmas relating them.

Modules follow the application's files:

| module | file | models |
|---|---|---|
| `StudentSchema` | student_schema.dfy | the `Student` schema: required paths, the unique email index, ObjectId casting, building and updating a document |
| `StudentRoutes` | student_routes.dfy | the five `/api/students` handlers and their status codes |
| `StudentModal` | student_modal.dfy | the create-or-update student dialog: mount effect, fetch, submit, the courses text box |
| `StudentHook` | student_hook.dfy | `useStudents`: the mock list and `addStudent` |
| `StudentList` | student_list.dfy | the student search and the three filter modes |
| `StudentProfile` | student_profile.dfy | chart points, course and project counters, the status badge |
| `CourseForm` | course_form.dfy | the course editor: input changes, resource picking and removal, submit |
| `CourseLibrary` | course_library.dfy | the course filters and the year select's options |
| `CoursesPage` | courses_page.dfy | create, edit, update, delete and cancel on the course list |
| `QuestionForm` | question_form.dfy | the question editor: options, the correct answer, type and marks |
| `TestForm` | test_form.dfy | the test editor and its `totalMarks` invariant |
| `TestManagement` | test_management.dfy | the test list page and its view flags |
| `AssignmentForm` | assignment_form.dfy | the assignment editor (defined in `SubmissionGrading.tsx`): defaults, dropped materials, field edits |
| `AssignmentManagement` | assignment_management.dfy | the assignment page: create, edit, update, delete, grading |
| `InterviewForm` | interview_form.dfy | the interview editor: resource rows and the submitted payload |
| `InterviewManagement` | interview_management.dfy | create, update and delete on the interview list |
| `Auth` | auth.dfy | the credential check and the sign-in state machine |
| `Wrappers`, `Text`, `Lists`, `StudentTypes` | wrappers.dfy, text.dfy, lists.dfy, student_types.dfy | `Option`/`Outcome`; ASCII lower-casing, substring search, decimal numerals, string order by code point and its agreement with JavaScript's UTF-16 order, `split`/`join` on `", "`; list filter, removal by index, in-place rewrite; the front end's student types |

Everything the code reads from outside is a parameter of the function that reads it:

- fresh ids (`Math.random`, `crypto.randomUUID`, the ObjectId `save()` assigns);
- the clock (`new Date()`);
- the answer to `window.confirm`;
- the file picked or dropped, and its object URL;
- whether the database answers;
- the outcome of an HTTP request;
- the configured temporary admin account.

Where the code and its description disagree, the model follows the code:

- Every failure of a student handler answers 500, including a missing required field and a duplicate email. No handler answers 400.
- The student dialog empties its form and closes after a failed request as well as after a successful one.
- The student dialog posts only `name`, `email` and `courses`. A create it requests can therefore never pass the schema's required `dob`, `phone` and `year`.
- The assignment page imports `AssignmentForm` from `components/assignments/AssignmentForm`, which is not part of this model. It renders `SubmissionGrading` with `submission` and `onGrade` props, but the component `SubmissionGrading.tsx` defines is an assignment editor taking `onSubmit` and `initialData`. Nothing on the page ever selects a submission, so that branch is never reached.

## Model

| member | source | states |
|---|---|---|
| StudentSchema.CastObjectId | Backend/routes/students.js:41 | a route id casts exactly when it is 24 hex digits, and the result is a canonical key |
| StudentSchema.CastKey | Backend/routes/students.js:41 | a canonical key casts to itself, so a created id can be looked up again |
| StudentSchema.ValidationErrors | Backend/models/student.js:6-30 | each of name, email, dob, phone and year fails validation exactly when it is missing, or is an empty string for a String path |
| StudentSchema.NewDocument | Backend/models/student.js:5-31 | a built document is complete iff the body validates; it starts with no courses and createdAt = updatedAt = now |
| StudentSchema.ApplyUpdate | Backend/routes/students.js:54-56 | an update keeps `_id` and createdAt and sets updatedAt; on each of the six paths a value in the body replaces the stored one, a null clears it, and an omitted field keeps it |
| StudentSchema.EmptyStore | Backend/models/student.js:10-14 | the empty collection is well formed and has unique emails |
| StudentSchema.Listing | Backend/routes/students.js:31 | `find()` lists one document per stored key, in insertion order |
| Lists.FilterDistinct | Backend/routes/students.js:69 | removing a key from an order without repetitions leaves none |
| StudentRoutes.Create | Backend/routes/students.js:9-26 | create answers 201 or 500; 201 iff the body validates, the database answers and neither the id nor the email is taken; 201 stores and returns the new document; 500 changes nothing |
| StudentRoutes.List | Backend/routes/students.js:29-36 | list never changes the store; 200 with the records iff the database answers, else 500 |
| StudentRoutes.ListReturnsEveryDocument | Backend/routes/students.js:31-32 | the list holds every stored document, one per key, and nothing else |
| StudentRoutes.Get | Backend/routes/students.js:39-49 | get never changes the store; an uncastable id gives 500; an absent id gives 404; a present id gives 200 with its record |
| StudentRoutes.Update | Backend/routes/students.js:52-64 | update of an absent id answers 404 and changes nothing; of a present id it merges the body and answers 200 with the merged record, or 500 on a duplicate email or cast error |
| StudentRoutes.Delete | Backend/routes/students.js:67-77 | delete of a present id removes it and answers 200 "Student deleted"; an absent id gives 404 and changes nothing |
| StudentRoutes.CreatePreservesInvariants | Backend/models/student.js:10-14 | a create keeps the collection well formed and its emails unique |
| StudentRoutes.CreateKeepsDocumentsComplete | Backend/models/student.js:6-30 | every stored document has all required paths after a create |
| StudentRoutes.UpdatePreservesInvariants | Backend/routes/students.js:52-64 | an update keeps the collection well formed and its emails unique |
| StudentRoutes.DeletePreservesInvariants | Backend/routes/students.js:67-77 | a delete keeps the collection well formed and its emails unique |
| StudentRoutes.RemoveKeyKeepsValid | Backend/routes/students.js:67-77 | dropping a stored document from the map and from the natural order leaves every key listed once and every listed key stored |
| StudentRoutes.CreateIgnoresCourses | Backend/routes/students.js:10-19 | the body's `courses` field makes no difference to a create |
| StudentRoutes.DuplicateEmailRejected | Backend/models/student.js:10-14 | a second student with a stored email gets 500, and the email still belongs to one document only |
| StudentRoutes.CreateThenGet | Backend/routes/students.js:21-22 | reading a created id back gives the body's values and the creation time |
| StudentRoutes.UpdateAbsentIsNotFound | Backend/routes/students.js:57-59 | update of an id with no document answers 404 and leaves the store as it was |
| StudentRoutes.UpdateKeepsUnmentionedPaths | Backend/routes/students.js:54-56 | a successful update keeps every path the body omits, keeps `_id` and createdAt, and refreshes updatedAt |
| StudentRoutes.UpdateSkipsRequiredCheck | Backend/routes/students.js:54-56 | an update runs no validators: emptying the required name succeeds and stores an incomplete document |
| StudentRoutes.DeleteTwice | Backend/routes/students.js:69-73 | deleting twice answers 200 then 404, and the second delete changes nothing |
| StudentRoutes.Lifecycle | Backend/routes/students.js:9-77 | create, get, update one field, delete, get gives 201, the record, the updated record, 200, then 404 |
| StudentModal.Mount | Frontend/src/components/students/AddStudentModal.tsx:33-55 | a non-empty student id selects update mode and fetches that student; otherwise create mode with an empty form and no request |
| StudentModal.ApplyFetch | Frontend/src/components/students/AddStudentModal.tsx:39-50 | a fetched record sets id, name, email and courses (missing courses become []); a failed fetch leaves the dialog unchanged |
| StudentModal.EditCourses | Frontend/src/components/students/AddStudentModal.tsx:130-131 | the courses box keeps exactly the typed text, and the other fields are unchanged |
| StudentModal.CoursesRoundTrip | Frontend/src/components/students/AddStudentModal.tsx:130-131 | re-typing the shown courses gives back a non-empty list whose items hold no ", "; an empty list comes back as [""] |
| StudentModal.EditName | Frontend/src/components/students/AddStudentModal.tsx:110 | the name box changes the name only |
| StudentModal.EditEmail | Frontend/src/components/students/AddStudentModal.tsx:121 | the email box changes the email only |
| StudentModal.SubmitRequest | Frontend/src/components/students/AddStudentModal.tsx:62-86 | update mode sends PUT to the form's id (the text "undefined" when there is none); create mode sends POST to the collection; the payload is the form |
| StudentModal.Submit | Frontend/src/components/students/AddStudentModal.tsx:59-90 | the parent is notified with the response body iff the request succeeds; the form is emptied and the dialog closed either way |
| StudentModal.SubmitResetsOnFailureToo | Frontend/src/components/students/AddStudentModal.tsx:88-89 | a failed and a successful submit leave the dialog in the same state |
| StudentModal.ToBody | Frontend/src/components/students/AddStudentModal.tsx:12-17 | the dialog's JSON gives the schema a name and an email, no dob, phone or year, and courses that fail to cast iff some item is not an ObjectId |
| StudentModal.CreateFromDialogAlwaysFails | Frontend/src/components/students/AddStudentModal.tsx:74-86 | every create the dialog requests is refused with 500 and leaves the collection unchanged |
| StudentModal.UpdateWithoutFetchedId | Frontend/src/components/students/AddStudentModal.tsx:65-68 | after a failed fetch the update goes to ".../undefined", which the server answers with 500 |
| StudentHook.InitialState | Frontend/src/hooks/useStudent.ts:6-35 | the hook starts with one student, id "1", and nobody selected |
| StudentHook.Select | Frontend/src/hooks/useStudent.ts:35 | selecting a student leaves the list alone |
| StudentHook.AddStudent | Frontend/src/hooks/useStudent.ts:37-49 | one student is appended and the others are kept; the new id is the decimal text of the new length; name and email come from the form; grade 0, active, no courses |
| StudentHook.AddStudentIgnoresCourses | Frontend/src/hooks/useStudent.ts:38-46 | the form's courses make no difference to the student added |
| StudentHook.InitialIdsCount | Frontend/src/hooks/useStudent.ts:6-34 | the initial list's ids count up from "1" |
| StudentHook.AddStudentKeepsCounting | Frontend/src/hooks/useStudent.ts:39-48 | appending keeps the ids counting "1", "2", … in order |
| StudentHook.CountingIdsDistinct | Frontend/src/hooks/useStudent.ts:39-48 | ids that count up from "1" are pairwise distinct |
| StudentList.FilteredStudents | Frontend/src/components/students/StudentList.tsx:21-37 | the shown students are exactly those matching the search and accepted by the mode, and none are added |
| StudentList.FilteredStudentsInOrder | Frontend/src/components/students/StudentList.tsx:21-37 | the shown list keeps the input's order: the filter of a concatenation is the concatenation of the filters, and one student is shown alone or not at all |
| StudentList.EmptySearchShowsAll | Frontend/src/components/students/StudentList.tsx:22-23 | an empty search with "All" shows every student, in order |
| StudentList.ModeNarrowsAll | Frontend/src/components/students/StudentList.tsx:21-37 | for the same search, every mode's list is the "All" list filtered further |
| StudentList.NameFindsStudent | Frontend/src/components/students/StudentList.tsx:22-23 | a student's own name finds them, both as written and lower-cased |
| StudentList.NameFindsStudentAnyCase | Frontend/src/components/students/StudentList.tsx:22-23 | any spelling of a student's name that differs only in ASCII case, all capitals included, finds them |
| StudentList.CountPendingPositive | Frontend/src/components/students/StudentList.tsx:32 | a project list has a positive pending count iff some project is pending |
| StudentList.PendingCounterPositive | Frontend/src/components/students/StudentList.tsx:30-33 | the profile's pending counter is positive iff some course has a pending project |
| StudentList.PendingModeMatchesProfile | Frontend/src/components/students/StudentList.tsx:30-33 | "Pending Tasks" keeps exactly the students whose profile shows a positive pending count |
| StudentProfile.CoursePoints | Frontend/src/components/students/StudentProfile.tsx:12-16 | one point per test score of a course, in order, each tagged with the course name |
| StudentProfile.TestScoreDataSize | Frontend/src/components/students/StudentProfile.tsx:11-17 | there are as many chart points as test scores |
| StudentProfile.TestScoreDataAppend | Frontend/src/components/students/StudentProfile.tsx:11-17 | flattening keeps course order |
| StudentProfile.TestScoreDataOrigin | Frontend/src/components/students/StudentProfile.tsx:11-17 | every point carries one score of one of the student's courses, and that course's name |
| StudentProfile.StatusCountsPartition | Frontend/src/components/students/StudentProfile.tsx:58-60 | in a project list, every project has exactly one of the three statuses |
| StudentProfile.CountersPartitionProjects | Frontend/src/components/students/StudentProfile.tsx:58-72 | completed plus pending plus in-progress is the number of projects, so in-progress projects count in neither counter |
| StudentProfile.StatusLabel | Frontend/src/components/students/StudentProfile.tsx:30 | the badge reads "Active" or "Inactive" |
| StudentProfile.MockProfile | Frontend/src/hooks/useStudent.ts:6-31 | the mock student shows one course, two chart points, one completed project and no pending one |
| CourseForm.Initial | Frontend/src/components/courses/CourseForm.tsx:15-23 | the form starts empty, with no resources and the current year as a number |
| CourseForm.InputChange | Frontend/src/components/courses/CourseForm.tsx:25-30 | the named field takes the typed string and every other field is unchanged |
| CourseForm.InputChangeLastWins | Frontend/src/components/courses/CourseForm.tsx:25-30 | of two changes to one field, the second wins |
| CourseForm.InputChangesCommute | Frontend/src/components/courses/CourseForm.tsx:25-30 | changes to two different fields commute |
| CourseForm.Accept | Frontend/src/components/courses/CourseForm.tsx:35 | pdf gives ".pdf", video gives "video/*", slide gives ".ppt,.pptx" |
| CourseForm.AcceptDistinguishesKinds | Frontend/src/components/courses/CourseForm.tsx:35 | two kinds share a filter iff they are the same kind |
| CourseForm.PickFile | Frontend/src/components/courses/CourseForm.tsx:37-48 | a picked file appends one resource with its name, kind and URL; no file adds nothing |
| CourseForm.RemoveResource | Frontend/src/components/courses/CourseForm.tsx:180 | removing at an index in range drops exactly that resource, keeping the others in order; an index out of range changes nothing; the other fields are kept |
| CourseForm.PickThenRemove | Frontend/src/components/courses/CourseForm.tsx:37-48 | removing the resource just picked gives back the form |
| CourseForm.RemoveResourceInverse | Frontend/src/components/courses/CourseForm.tsx:180 | putting the removed resource back at its index restores the list |
| CourseForm.Submit | Frontend/src/components/courses/CourseForm.tsx:53-56 | the parent receives the form's fields and current resources exactly as they stand |
| CourseLibrary.FilteredCourses | Frontend/src/components/courses/CourseLibrary.tsx:30-37 | a course is shown iff the search, semester and year filters all accept it, and none are added |
| CourseLibrary.FilteredCoursesInOrder | Frontend/src/components/courses/CourseLibrary.tsx:30-37 | the shown list keeps the input's order: the filter of a concatenation is the concatenation of the filters, and one course is shown alone or not at all |
| CourseLibrary.NoFilterShowsAll | Frontend/src/components/courses/CourseLibrary.tsx:31-34 | with no search and both selects on "All", every course is shown, in order |
| CourseLibrary.YearFilterByNumber | Frontend/src/components/courses/CourseLibrary.tsx:34 | a year's decimal text selects the courses with that numeric year or that exact year text |
| CourseLibrary.Years | Frontend/src/components/courses/CourseLibrary.tsx:76 | one year per course, in order |
| CourseLibrary.Dedup | Frontend/src/components/courses/CourseLibrary.tsx:76 | the `Set` holds each year of the list once and nothing else |
| CourseLibrary.InsertContents | Frontend/src/components/courses/CourseLibrary.tsx:76 | inserting into the sorted options adds exactly one value |
| CourseLibrary.InsertSorted | Frontend/src/components/courses/CourseLibrary.tsx:76 | inserting keeps the list in string order |
| CourseLibrary.SortProperties | Frontend/src/components/courses/CourseLibrary.tsx:76 | the default sort orders by string form (code-point order) and is a permutation |
| CourseLibrary.DistinctFromMultiset | Frontend/src/components/courses/CourseLibrary.tsx:76 | a permutation of a list without repetitions has none |
| CourseLibrary.MultiplicityInDistinct | Frontend/src/components/courses/CourseLibrary.tsx:76 | a list without repetitions holds each value at most once |
| CourseLibrary.YearOptionsSpec | Frontend/src/components/courses/CourseLibrary.tsx:76 | the year options are exactly the courses' years, each once, in string order |
| CourseLibrary.SameTextTwice | Frontend/src/components/courses/CourseLibrary.tsx:76 | the number 2024 and the text "2024" are two options that both read "2024" |
| CoursesPage.Create | Frontend/src/pages/courses/Courses.tsx:26-34 | one course with the data and a fresh id is appended, and the form is hidden |
| CoursesPage.Edit | Frontend/src/pages/courses/Courses.tsx:36-40 | the course goes under edit and the form opens in edit mode |
| CoursesPage.Update | Frontend/src/pages/courses/Courses.tsx:42-54 | every course with the edited id takes the data and keeps its id; others and the length are unchanged; the edit clears; with nothing under edit nothing changes |
| CoursesPage.Delete | Frontend/src/pages/courses/Courses.tsx:56-60 | a confirmed delete keeps exactly the courses with another id, in order; an unconfirmed one changes nothing |
| CoursesPage.Cancel | Frontend/src/pages/courses/Courses.tsx:86-90 | cancel hides the form and clears both edit flags |
| CoursesPage.OpenForm | Frontend/src/pages/courses/Courses.tsx:69-76 | "Create New Course" only opens the form |
| CoursesPage.SubmitForm | Frontend/src/pages/courses/Courses.tsx:81-83 | the form submits to update in edit mode and to create otherwise |
| CoursesPage.TransitionsKeepFlagsAgree | Frontend/src/pages/courses/Courses.tsx:36-90 | every transition keeps `isEditing` in step with the course under edit |
| CoursesPage.DeleteUndoesCreate | Frontend/src/pages/courses/Courses.tsx:26-60 | deleting a course just created under a fresh id gives back the list |
| CoursesPage.UpdateKeepsIds | Frontend/src/pages/courses/Courses.tsx:44-48 | an update keeps every id in place |
| CoursesPage.UpdateOnce | Frontend/src/pages/courses/Courses.tsx:43-53 | after an update nothing is under edit, so a second update changes nothing |
| CoursesPage.EditOverwritesEverything | Frontend/src/pages/courses/Courses.tsx:81-83 | after "Edit", the updated course is exactly the submitted data under the old id; submitting the form in its initial state, which takes no course, blanks every text field and resets the year to the current one |
| CoursesPage.EditThenCancel | Frontend/src/pages/courses/Courses.tsx:86-90 | edit then cancel leaves the list alone and closes the edit |
| QuestionForm.OptionsEditorFollowsType | Frontend/src/components/tests/QuestionForm.tsx:55-72 | the type shows as multiple choice when absent, and the options editor appears only for an explicit 'mcq' |
| QuestionForm.AddOption | Frontend/src/components/tests/QuestionForm.tsx:15-25 | one empty, incorrect option is appended; a missing list counts as empty; nothing else changes |
| QuestionForm.RemoveOption | Frontend/src/components/tests/QuestionForm.tsx:27-32 | the options with that id are dropped and every other one kept (the list filter by id); a missing list stays missing |
| QuestionForm.RemoveOptionInOrder | Frontend/src/components/tests/QuestionForm.tsx:27-32 | removal keeps the other options in order: removing from a concatenation concatenates the removals, and one option stays exactly when its id differs |
| QuestionForm.RemoveUndoesAdd | Frontend/src/components/tests/QuestionForm.tsx:15-32 | removing the option just added by its fresh id gives back the question |
| QuestionForm.MarkCorrect | Frontend/src/components/tests/QuestionForm.tsx:80-85 | the clicked id becomes correct and every other option incorrect; texts and ids are kept |
| QuestionForm.MarkCorrectSingle | Frontend/src/components/tests/QuestionForm.tsx:80-85 | with distinct ids, exactly the clicked option is correct afterwards |
| QuestionForm.EditOptionText | Frontend/src/components/tests/QuestionForm.tsx:91-95 | only the text of the options with that id changes |
| QuestionForm.EditTextKeepsCorrect | Frontend/src/components/tests/QuestionForm.tsx:91-95 | editing an option's text keeps which option is correct |
| QuestionForm.EditText | Frontend/src/components/tests/QuestionForm.tsx:42 | the text box changes the question text only |
| QuestionForm.ChangeType | Frontend/src/components/tests/QuestionForm.tsx:56 | the select sets the type, and the select then shows it |
| QuestionForm.EditMarks | Frontend/src/components/tests/QuestionForm.tsx:66 | the marks box changes the marks only |
| QuestionForm.TypeSwitchKeepsOptions | Frontend/src/components/tests/QuestionForm.tsx:56-72 | switching to descriptive hides the options without losing them |
| TestForm.Initial | Frontend/src/components/tests/TestForm.tsx:15-24 | a new form is empty with 60 minutes and no questions; an edited test keeps its fields, except a duration of 0 becomes 60 |
| TestForm.SumMarksAppend | Frontend/src/components/tests/TestForm.tsx:46 | the sum of marks over two lists is the sum of their sums |
| TestForm.SumMarksReplace | Frontend/src/components/tests/TestForm.tsx:46 | replacing one question changes the sum by the change in its marks |
| TestForm.SumMarksRemove | Frontend/src/components/tests/TestForm.tsx:135 | removing one question takes its marks off the sum |
| TestForm.AddQuestion | Frontend/src/components/tests/TestForm.tsx:26-38 | one untitled 'mcq' question with 0 marks and no options is appended; nothing else changes |
| TestForm.AddQuestionKeepsMarks | Frontend/src/components/tests/TestForm.tsx:26-38 | adding a question keeps totalMarks equal to the sum of marks, without changing it |
| TestForm.Merge | Frontend/src/components/tests/TestForm.tsx:42 | each field the patch gives overrides, each it omits is kept |
| TestForm.MergeWhole | Frontend/src/components/tests/TestForm.tsx:42 | merging a whole question installs it |
| TestForm.MergeEmpty | Frontend/src/components/tests/TestForm.tsx:42 | merging an empty patch changes nothing |
| TestForm.ChangeQuestion | Frontend/src/components/tests/TestForm.tsx:40-48 | only the question at the index takes the patch, and totalMarks is the sum of marks afterwards |
| TestForm.ChangeQuestionTotal | Frontend/src/components/tests/TestForm.tsx:40-48 | the total moves by exactly the change in that question's marks |
| TestForm.RemoveQuestion | Frontend/src/components/tests/TestForm.tsx:130-137 | exactly the question at the index is dropped, and totalMarks is the sum of marks afterwards |
| TestForm.RemoveQuestionTotal | Frontend/src/components/tests/TestForm.tsx:130-137 | removing a question takes exactly its marks off the total |
| TestForm.InitialMarksAgree | Frontend/src/components/tests/TestForm.tsx:15-24 | the initial form's total agrees with its questions, when the edited test's did |
| TestForm.EditTitle | Frontend/src/components/tests/TestForm.tsx:62 | the title box changes the title only |
| TestForm.EditDescription | Frontend/src/components/tests/TestForm.tsx:69 | the description box changes the description only |
| TestForm.EditDuration | Frontend/src/components/tests/TestForm.tsx:80 | the duration box changes the duration only, 0 included |
| TestForm.EditSchedule | Frontend/src/components/tests/TestForm.tsx:92 | the schedule input changes the scheduled time only |
| TestForm.EditRandomize | Frontend/src/components/tests/TestForm.tsx:102 | the checkbox changes the randomize flag only |
| TestForm.DetailEditsKeepMarks | Frontend/src/components/tests/TestForm.tsx:62-102 | the detail fields keep totalMarks equal to the sum of marks |
| TestForm.Submit | Frontend/src/components/tests/TestForm.tsx:50-53 | the parent receives the form data as it stands, with totalMarks still agreeing |
| TestManagement.ShownView | Frontend/src/pages/testsmanager/TestManagement.tsx:55-62 | the form shows iff showForm; else analytics iff showAnalytics; else the list |
| TestManagement.CreateTest | Frontend/src/pages/testsmanager/TestManagement.tsx:27-34 | one test with the data and a fresh id is appended, earlier tests are kept, and the form is hidden |
| TestManagement.OpenForm | Frontend/src/pages/testsmanager/TestManagement.tsx:42-46 | "Create Test" opens the form with nothing selected and no analytics |
| TestManagement.ShowAnalytics | Frontend/src/pages/testsmanager/TestManagement.tsx:71-74 | "Analytics" selects the test and shows its analytics |
| TestManagement.TransitionsKeepFormBlank | Frontend/src/pages/testsmanager/TestManagement.tsx:42-74 | whenever the form is open no test is selected, so the form never receives initial data |
| TestManagement.CreateFlow | Frontend/src/pages/testsmanager/TestManagement.tsx:27-46 | opening the form and submitting it shows the list with the new test at its end |
| AssignmentForm.Initial | Frontend/src/components/assignments/SubmissionGrading.tsx:15-23 | a new form is empty with score 100; an edited assignment keeps its fields, except a score of 0 becomes 100 |
| AssignmentForm.ZeroScoreBecomesHundred | Frontend/src/components/assignments/SubmissionGrading.tsx:20 | a score of 0 cannot survive reopening the form |
| AssignmentForm.Materials | Frontend/src/components/assignments/SubmissionGrading.tsx:27-32 | one material per dropped file, carrying its fresh id, name, URL and type |
| AssignmentForm.DropFiles | Frontend/src/components/assignments/SubmissionGrading.tsx:26-37 | dropped files are appended after the existing materials, in drop order; nothing else changes |
| AssignmentForm.DropsConcatenate | Frontend/src/components/assignments/SubmissionGrading.tsx:26-37 | two drops add the same as one drop of both batches |
| AssignmentForm.RemoveMaterial | Frontend/src/components/assignments/SubmissionGrading.tsx:124-127 | the materials with that id are dropped and every other one kept (the list filter by id); nothing else changes |
| AssignmentForm.RemoveMaterialInOrder | Frontend/src/components/assignments/SubmissionGrading.tsx:124-127 | removal keeps the other materials in order: removing from a concatenation concatenates the removals, and one material stays exactly when its id differs |
| AssignmentForm.RemoveUndoesDrop | Frontend/src/components/assignments/SubmissionGrading.tsx:26-127 | removing a material just dropped under a fresh id gives back the form |
| AssignmentForm.EditTitle | Frontend/src/components/assignments/SubmissionGrading.tsx:51 | the title box changes the title only |
| AssignmentForm.EditDescription | Frontend/src/components/assignments/SubmissionGrading.tsx:60 | the description box changes the description only |
| AssignmentForm.EditDeadline | Frontend/src/components/assignments/SubmissionGrading.tsx:72 | the deadline input changes the deadline only |
| AssignmentForm.EditMaxScore | Frontend/src/components/assignments/SubmissionGrading.tsx:82 | the score box changes the score only, 0 included |
| AssignmentForm.EditInstructions | Frontend/src/components/assignments/SubmissionGrading.tsx:93 | the instructions box changes the instructions only |
| AssignmentForm.FieldEditsIndependent | Frontend/src/components/assignments/SubmissionGrading.tsx:51-93 | edits of different fields commute and keep each other's values |
| AssignmentForm.Submit | Frontend/src/components/assignments/SubmissionGrading.tsx:40-43 | the parent receives the form data exactly as it stands |
| AssignmentManagement.ShownView | Frontend/src/pages/assignment/AssignmentMangement.tsx:84-123 | the form shows iff showForm; else grading iff a submission is selected; else the cards |
| AssignmentManagement.Create | Frontend/src/pages/assignment/AssignmentMangement.tsx:18-25 | one assignment with the data and a fresh id is appended, and the form is hidden |
| AssignmentManagement.Edit | Frontend/src/pages/assignment/AssignmentMangement.tsx:27-30 | the assignment goes under edit and the form opens |
| AssignmentManagement.Update | Frontend/src/pages/assignment/AssignmentMangement.tsx:32-44 | every assignment with the edited id takes the data and keeps its id; others and the length are unchanged; the edit clears; with nothing under edit nothing changes |
| AssignmentManagement.Delete | Frontend/src/pages/assignment/AssignmentMangement.tsx:46-48 | exactly the assignments with another id are kept, in order |
| AssignmentManagement.Grade | Frontend/src/pages/assignment/AssignmentMangement.tsx:50-64 | grade, feedback and feedback files go onto the submissions with that id only, their other fields are kept, and the selection clears |
| AssignmentManagement.RegradeOverwrites | Frontend/src/pages/assignment/AssignmentMangement.tsx:50-64 | grading twice keeps the second grade |
| AssignmentManagement.OpenForm | Frontend/src/pages/assignment/AssignmentMangement.tsx:72-75 | "Create Assignment" opens the form and clears the edit |
| AssignmentManagement.Cancel | Frontend/src/pages/assignment/AssignmentMangement.tsx:93-96 | cancel hides the form and clears the edit |
| AssignmentManagement.SubmitForm | Frontend/src/pages/assignment/AssignmentMangement.tsx:86-89 | the form submits to update while an assignment is under edit, else to create |
| AssignmentManagement.EditRoundTrip | Frontend/src/pages/assignment/AssignmentMangement.tsx:86-89 | resubmitting a reopened assignment unchanged keeps it, except that a score of 0 comes back as 100 |
| AssignmentManagement.GradingNeverShown | Frontend/src/pages/assignment/AssignmentMangement.tsx:102-106 | no transition selects a submission, so the grading panel never shows |
| InterviewForm.InitialResources | Frontend/src/components/interviews/InterviewForm.tsx:11-13 | the rows start as the edited interview's resources, else none |
| InterviewForm.DefaultInputs | Frontend/src/components/interviews/InterviewForm.tsx:47-98 | the inputs start from the edited interview, else empty, with the mode on online |
| InterviewForm.AddResource | Frontend/src/components/interviews/InterviewForm.tsx:29-31 | one empty URL row is appended and the other rows are kept |
| InterviewForm.RemoveResource | Frontend/src/components/interviews/InterviewForm.tsx:33-35 | exactly the row at the index is dropped, the rest keep their order |
| InterviewForm.RemoveUndoesAdd | Frontend/src/components/interviews/InterviewForm.tsx:29-35 | removing the row just added gives back the rows |
| InterviewForm.SetKind | Frontend/src/components/interviews/InterviewForm.tsx:124-131 | the type select changes only that row's type |
| InterviewForm.SetTitle | Frontend/src/components/interviews/InterviewForm.tsx:142-149 | the title box changes only that row's title |
| InterviewForm.SetUrl | Frontend/src/components/interviews/InterviewForm.tsx:157-163 | the URL box changes only that row's URL |
| InterviewForm.RowEditsCommute | Frontend/src/components/interviews/InterviewForm.tsx:124-163 | edits of different fields of a row commute, and none touches its id |
| InterviewForm.Submit | Frontend/src/components/interviews/InterviewForm.tsx:15-27 | the payload is the five inputs and the current rows |
| InterviewForm.UntouchedSubmit | Frontend/src/components/interviews/InterviewForm.tsx:11-98 | submitting an edited interview's form untouched submits its own data |
| InterviewManagement.DataOfWithData | Frontend/src/pages/interviews/InterviewManagement.tsx:11-16 | an interview built from data gives back that data |
| InterviewManagement.Create | Frontend/src/pages/interviews/InterviewManagement.tsx:10-18 | one interview with the data, a fresh id and the two timestamps is appended; earlier ones are kept |
| InterviewManagement.CreateTimestampsAgree | Frontend/src/pages/interviews/InterviewManagement.tsx:14-15 | when both clock reads agree, createdAt = updatedAt |
| InterviewManagement.Edit | Frontend/src/pages/interviews/InterviewManagement.tsx:68 | the interview goes under edit |
| InterviewManagement.Updated | Frontend/src/pages/interviews/InterviewManagement.tsx:23-27 | the updated interview has the new data, the old id and createdAt, and updatedAt = now |
| InterviewManagement.Update | Frontend/src/pages/interviews/InterviewManagement.tsx:20-33 | only the entries with the edited id are replaced, the length is kept and the edit clears; with nothing under edit nothing changes |
| InterviewManagement.UpdateKeepsIds | Frontend/src/pages/interviews/InterviewManagement.tsx:29-31 | an update keeps every id in place |
| InterviewManagement.UpdateWithOwnData | Frontend/src/pages/interviews/InterviewManagement.tsx:23-31 | resubmitting an entry's own data only refreshes its update time |
| InterviewManagement.Delete | Frontend/src/pages/interviews/InterviewManagement.tsx:35-39 | a confirmed delete keeps exactly the entries with another id, in order; an unconfirmed one changes nothing |
| InterviewManagement.DeleteUndoesCreate | Frontend/src/pages/interviews/InterviewManagement.tsx:10-39 | deleting an interview just created under a fresh id gives back the list |
| InterviewManagement.SubmitForm | Frontend/src/pages/interviews/InterviewManagement.tsx:55-58 | the form submits to update while an interview is under edit, else to create |
| Auth.ValidateCredentials | Frontend/src/utils/auth.ts:3-6 | true iff both email and password equal the configured ones exactly |
| Auth.ValidateRejectsMismatch | Frontend/src/utils/auth.ts:5 | a wrong email fails whatever the password, a wrong password whatever the email, and a trailing space is not trimmed |
| Auth.AdminOf | Frontend/src/contexts/AuthContext.tsx:24-29 | the signed-in admin carries the configured id, email and name, with role 'admin' |
| Auth.LoginStarted | Frontend/src/contexts/AuthContext.tsx:21 | a login in progress sets the loading flag and keeps the rest |
| Auth.Login | Frontend/src/contexts/AuthContext.tsx:20-42 | success iff the credentials are valid; success signs the configured admin in; failure raises "Invalid credentials", keeps admin and authentication, and clears loading |
| Auth.Logout | Frontend/src/contexts/AuthContext.tsx:44-50 | logout resets to no admin, not authenticated, not loading |
| Auth.TransitionsKeepConsistent | Frontend/src/contexts/AuthContext.tsx:14-50 | isAuthenticated iff an admin is present, initially and after every transition |
| Auth.SignedInIsConfigured | Frontend/src/contexts/AuthContext.tsx:23-34 | the only admin ever signed in is the configured one |
| Auth.FailedLoginKeepsSession | Frontend/src/contexts/AuthContext.tsx:35-40 | a failed login does not sign a signed-in admin out |
| Auth.LoginLogout | Frontend/src/contexts/AuthContext.tsx:20-50 | login, successful or not, followed by logout ends in the initial state |
| Text.Lower | Frontend/src/components/students/StudentList.tsx:22-23 | lower-casing keeps the length, turns each upper-case letter into its lower-case counterpart and changes nothing else |
| Text.CaseInsensitive | Frontend/src/components/students/StudentList.tsx:22-23 | the search ignores ASCII case: terms that lower-case alike, and fields that lower-case alike, give the same match |
| Text.LowerIdempotent | Frontend/src/components/students/StudentList.tsx:22-23 | lower-casing twice is lower-casing once |
| Text.ContainsIffOccurs | Frontend/src/components/students/StudentList.tsx:22-23 | `includes` holds iff the term occurs at some position |
| Text.ContainsEmpty | Frontend/src/components/students/StudentList.tsx:22-23 | the empty term occurs in every string |
| Text.EmptyTermMatches | Frontend/src/components/courses/CourseLibrary.tsx:31-32 | an empty search matches every field |
| Text.FieldMatchesItself | Frontend/src/components/courses/CourseLibrary.tsx:31-32 | a field matches its own text, in either case |
| Text.Capitalize | Frontend/src/components/students/StudentProfile.tsx:30 | a lower-case first letter becomes its upper-case counterpart; any other first character and the rest are kept |
| Text.CapitalizeChangesCaseOnly | Frontend/src/components/students/StudentProfile.tsx:30 | capitalising changes case only: lower-cased, the result equals the lower-cased input |
| Text.NatToString | Frontend/src/hooks/useStudent.ts:39 | a decimal numeral without leading zeros |
| Text.ParseNatToString | Frontend/src/hooks/useStudent.ts:39 | reading back a numeral gives the number |
| Text.NatToStringInjective | Frontend/src/hooks/useStudent.ts:39 | different numbers have different numerals |
| Text.IntToString | Frontend/src/components/courses/CourseLibrary.tsx:34 | a numeral with a minus sign for negative numbers |
| Text.IntToStringInjective | Frontend/src/components/courses/CourseLibrary.tsx:34 | different integers render differently |
| Text.LexLeTotal | Frontend/src/components/courses/CourseLibrary.tsx:76 | any two strings are ordered one way or the other |
| Text.LexLeTransitive | Frontend/src/components/courses/CourseLibrary.tsx:76 | string order is transitive |
| Text.LexLeAntisymmetric | Frontend/src/components/courses/CourseLibrary.tsx:76 | strings ordered both ways are equal |
| Text.CodeUnits | Frontend/src/components/courses/CourseLibrary.tsx:76 | a character below U+10000 is one UTF-16 code unit, any other a high surrogate followed by a low surrogate |
| Text.BmpOrderAgrees | Frontend/src/components/courses/CourseLibrary.tsx:76 | on strings without characters above U+FFFF, code-point order holds exactly when JavaScript's code-unit comparison does |
| Text.SurrogateOrderDiffers | Frontend/src/components/courses/CourseLibrary.tsx:76 | U+FF5E and U+1F600 are ordered one way by code point and the other way by UTF-16 code unit |
| Text.FindSeparator | Frontend/src/components/students/AddStudentModal.tsx:131 | the first ", " in a string, or none |
| Text.Split | Frontend/src/components/students/AddStudentModal.tsx:131 | `split(", ")` returns at least one piece |
| Text.JoinSplit | Frontend/src/components/students/AddStudentModal.tsx:130-131 | joining the pieces of a split gives back the text |
| Text.FirstSeparatorAfterItem | Frontend/src/components/students/AddStudentModal.tsx:130-131 | after an item free of ", ", the first separator is the one the join put there |
| Text.SplitJoin | Frontend/src/components/students/AddStudentModal.tsx:130-131 | splitting the join of a non-empty list of items free of ", " gives back the list |
| Text.SplitJoinEmpty | Frontend/src/components/students/AddStudentModal.tsx:130-131 | the empty list comes back as [""] |
| Lists.Filter | Frontend/src/pages/courses/Courses.tsx:58 | a filter keeps exactly the elements that pass |
| Lists.FilterAppend | Frontend/src/pages/courses/Courses.tsx:58 | filtering distributes over concatenation, so order is preserved |
| Lists.FilterKeepsAll | Frontend/src/pages/courses/Courses.tsx:58 | a filter every element passes changes nothing |
| Lists.FilterNarrowing | Frontend/src/components/students/StudentList.tsx:21-37 | filtering by a stronger predicate after a weaker one is filtering by the stronger one |
| Lists.FilterIdempotent | Frontend/src/pages/courses/Courses.tsx:58 | filtering twice by one predicate is filtering once |
| Lists.CountSplit | Frontend/src/components/students/StudentProfile.tsx:58-72 | every element is counted by exactly one of a predicate and its negation |
| Lists.RemoveAt | Frontend/src/components/courses/CourseForm.tsx:180 | removing at an index drops exactly that element and keeps the order of the rest |
| Lists.RemoveAtIsIndexFilter | Frontend/src/components/courses/CourseForm.tsx:180 | removal by slicing agrees with CourseForm.tsx's `filter((_, i) => i !== index)` |
| Lists.RemoveAtInverse | Frontend/src/components/courses/CourseForm.tsx:180 | putting the removed element back at its index restores the list |
| Lists.Map | Frontend/src/pages/courses/Courses.tsx:45 | `map` gives one image per element, position by position |
| Lists.MapWhere | Frontend/src/pages/courses/Courses.tsx:44-48 | `map` with a condition rewrites the selected elements and keeps the rest, and the length |

## Left out

- Backend/app.js is not part of this model: the MongoDB connection, environment loading and `listen` are process setup and I/O.
- HTTP, JSON encoding, axios and async scheduling are left out. Each request is a value, and its outcome is a parameter.
- Mongoose casting is abstracted. A body field is absent, null, a value of the path's type, or a value that does not cast. An ObjectId route parameter is accepted only in its 24-hex-digit text form; the 12-byte string form is left out.
- The database is a map from key to document plus the insertion order. Races between simultaneous requests are left out.
- `toLowerCase` and `toUpperCase` are modelled on ASCII letters only; Unicode case mapping is left out.
- Numbers are `int` or `real`. NaN from `Number` or `parseInt` of a bad input is left out, and so is floating-point rounding in sums of marks.
- Dates are integers (milliseconds), and interview timestamps are opaque strings. The ISO formatting is left out.
- Clearing a `datetime-local` box stores `new Date("")`, an Invalid Date. The next render's `toISOString()` then throws a RangeError (TestForm.tsx:91-92, SubmissionGrading.tsx:71-72). Invalid dates, and that crash, are left out: a date in the model is always an integer.
- React rendering is left out. In particular:
  - TestForm.tsx:41 reads `formData` where `prev` is meant (a stale closure). The model applies each change to the current state.
  - `InterviewForm` takes its initial state only on first mount, and the interview page renders it all the time (InterviewManagement.tsx:55-58). So choosing "Edit" on a second interview keeps the form's first state. The model takes the initial state from the interview under edit.
  - The assignment page mounts a fresh form for every "Edit": the form shows only while `showForm` is set (AssignmentMangement.tsx:84), and the Edit buttons live in the card list, which shows only while it is not (AssignmentMangement.tsx:109-113). What carries over there is "Create Assignment" pressed during an edit (AssignmentMangement.tsx:72-75). The form stays mounted with the edited values, and its submit becomes a create. The model's form data is a parameter of AssignmentManagement.SubmitForm, so it does not track that carried-over state.
- The test analytics panel and its mock data are left out: they are fixed numbers formatted for display.
- The `AUTH_CONFIG` constants file is not part of this model. The configured admin is a parameter. `useAuth` outside a provider is left out.
- Layout, dashboards, routing and `TextArea` are markup with no logic beyond what is modelled.
- AssignmentManagement.Delete: models the page's handler once it runs. The `window.confirm` gate in front of it (AssignmentCard.tsx:13-17) is left out, so the model does not state that a refused confirmation keeps the list. The course and interview pages confirm inside their own handlers, and their Delete members take the answer as a parameter.
- InterviewManagement.Create: the two timestamps come from two clock reads, so createdAt equals updatedAt only when the reads agree (CreateTimestampsAgree).
- Strings are sequences of Unicode code points, and `Text.LexLe` compares code points. JavaScript compares UTF-16 code units. The two orders agree whenever no character is above U+FFFF (Text.BmpOrderAgrees), as for every numeric year, and can differ otherwise (Text.SurrogateOrderDiffers).
- CourseLibrary.SortProperties: states that the sort orders by string form, in code-point order, and permutes its input. It does not state the stability of the engine's sort for values with equal text.
- CourseLibrary.YearOptionsSpec: the order among distinct values with the same text ("2024" and 2024) is that of the insertion sort, not proved to match the engine's. The order is by code point, which matches JavaScript only for texts without characters above U+FFFF.
- `components/assignments/AssignmentForm` is not part of this model. The assignment page is assumed to render the editor that `SubmissionGrading.tsx` defines (module `AssignmentForm`); AssignmentManagement.EditRoundTrip runs the page with that editor.
- The browser's constraint validation is left out. The browser does not fire a form's submit while a `required` input is empty, or while a `type="email"` input does not hold an address. The `Submit` members model the handler that runs once submit fires, so they accept any input.
- InterviewForm.Submit: the browser blocks submit while company name, job role, date or time is empty (InterviewForm.tsx:48, 61, 74, 87); the model does not.
- CourseForm.Submit: the browser blocks submit while title, description, instructor or semester is empty, or the duration or year box is cleared (CourseForm.tsx:72-139); the model does not.
- AssignmentForm.Submit: the browser blocks submit while title, description, deadline, maximum score or instructions is empty (SubmissionGrading.tsx:52-94); the model does not.
- TestForm.Submit: the browser blocks submit while the title, duration, schedule, or a question's text or marks is empty (TestForm.tsx:63-93, QuestionForm.tsx:43, 68); the model does not.
- StudentModal.Submit: the browser blocks submit while the name or email is empty or the email is not an address (AddStudentModal.tsx:107, 117-118); the model does not.
- StudentRoutes.Update: bodies carrying update operators (`$set`, `$unset`, `$push`, ...) are not modelled. The route passes the body to `findByIdAndUpdate` unchanged, so such a body would unset or append to paths; a `Body` holds only plain values for the six schema paths.
- StudentRoutes.Update: a cast error anywhere in the body fails the whole update. Which path caused it, and mongoose's error object, are not modelled.
