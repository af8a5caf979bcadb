# School list view: a verified model

This project models the client-side controller of the `SchoolList` view of a
small CRUD front end. The view keeps a copy of the server's collection of
schools and changes it through four REST requests against `/api/schools`:
load the list, create a school, update one, delete one. Besides the list it
keeps a loading flag, the current error, the create form (open or closed, and
its draft) and the inline edit mode (no row, or the one row being edited, and
its draft).

The model has four modules:

- `Text` (`text.dfy`): JavaScript's `trim()` on strings and the decimal
  rendering of an HTTP status code. These are the parts of the name check and
  of the error texts that the handlers depend on.
- `Schools` (`schools.dfy`): the `School` record, the form draft
  (`Partial<School>`), and the three list updates the handlers apply. A create
  prepends (`[created, ...s]`). A delete filters by id (`s.filter`). An update
  replaces by id (`s.map`).
- `SchoolListState` (`school_list_state.dfy`): the view's hooks as a
  `ViewState` value, with one pure function per handler. Each function says
  what the state is after the handler has run to completion. Every property is
  proved here, and the `Step` function brings all the handlers together as one
  state machine over events.
- `SchoolListView` (`school_list_view.dfy`): the component as a class. Its
  fields are the hooks. Its methods are the handlers, and each one calls the
  setters in the same order as the source. Every method is proved to leave
  `Snapshot()` equal to the matching `SchoolListState` function applied to the
  state before the call.

Each network round trip is an input to its handler. The input is a
`Reply<T>`: either a `Response(status, body)`, whose body is the parsed JSON,
or `Threw(message)` for a request or a parse that threw. `res.ok` is
`200 <= status <= 299`. The browser's confirmation dialog is a `confirmed:
bool` input. Every handler returns the request it sends (`GetAll`, `Post`,
`Put`, `Remove`), or `None` when it sends nothing. That is how "no request is
issued" is stated.

Some behaviour of the code worth noting, which the model keeps:

- A save replaces every school that has the saved id with the server's reply,
  not only the first one. It does so whatever id the reply carries.
- The error is not always cleared when an operation starts. A failed name
  check overwrites the error without clearing it first. A declined delete
  leaves the error as it is. Starting or cancelling an edit does not touch the
  error.
- `loading` is set to true at the start of every `fetchSchools`, not only on
  the first one. The view calls it only on mount.
- The draft of the create form resets to three empty strings. The draft of
  the edit row resets to `{}`, which has no fields at all. The model keeps
  these two resets distinct (`EmptyForm` and `NoValues`).

## Model

| member | source | states |
|---|---|---|
| Text.TrimStart | ReactCRUD/reactcrud.client/src/views/SchoolList.tsx:50 | the result is a suffix of the input that does not start with whitespace, and everything it drops is whitespace |
| Text.TrimEnd | ReactCRUD/reactcrud.client/src/views/SchoolList.tsx:50 | the result is a prefix of the input that does not end with whitespace, and everything it drops is whitespace |
| Text.BlankIffAllWhitespace | ReactCRUD/reactcrud.client/src/views/SchoolList.tsx:50 | `s.trim() === ""` holds exactly when every character of `s` is whitespace |
| Text.Decimal | ReactCRUD/reactcrud.client/src/views/SchoolList.tsx:33 | a status renders as a non-empty string of digits; 0 renders as "0" and a longer text never starts with '0' |
| Text.DecimalRoundTrip | ReactCRUD/reactcrud.client/src/views/SchoolList.tsx:33 | reading the rendered digits back gives the status |
| Text.DecimalInjective | ReactCRUD/reactcrud.client/src/views/SchoolList.tsx:33 | distinct statuses render as distinct texts |
| Schools.WithField | ReactCRUD/reactcrud.client/src/views/SchoolList.tsx:146-157 | typing into one input sets that field of the draft and leaves the other two as they were |
| Schools.ValuesOf | ReactCRUD/reactcrud.client/src/views/SchoolList.tsx:88 | an edit draft starts with the school's name, address and phone |
| Schools.RemoveById | ReactCRUD/reactcrud.client/src/views/SchoolList.tsx:79 | a school is in the result exactly when it is in the list and its id is not the deleted one; each kept school occurs as often as before, and no school with the deleted id remains |
| Schools.RemoveByIdKeepsOrder | ReactCRUD/reactcrud.client/src/views/SchoolList.tsx:79 | the kept schools stay in their original relative order |
| Schools.RemoveByIdRemovesId | ReactCRUD/reactcrud.client/src/views/SchoolList.tsx:79 | after a delete no school has the deleted id |
| Schools.RemoveAbsentId | ReactCRUD/reactcrud.client/src/views/SchoolList.tsx:79 | deleting an id that is not in the list leaves the list unchanged |
| Schools.RemoveByIdIdempotent | ReactCRUD/reactcrud.client/src/views/SchoolList.tsx:79 | deleting the same id twice is the same as deleting it once |
| Schools.RemoveByIdKeepsUniqueIds | ReactCRUD/reactcrud.client/src/views/SchoolList.tsx:79 | a delete keeps the ids of the list unique |
| Schools.SubsequenceKeepsUniqueIds | ReactCRUD/reactcrud.client/src/views/SchoolList.tsx:79 | any list that keeps some schools in order keeps ids unique and adds no school |
| Schools.ReplaceById | ReactCRUD/reactcrud.client/src/views/SchoolList.tsx:112 | the length is unchanged; every position whose id matches holds the reply, whatever the reply's own id, and every other position is unchanged |
| Schools.ReplaceByIdIdempotent | ReactCRUD/reactcrud.client/src/views/SchoolList.tsx:112 | replacing twice with the same reply is the same as replacing once, even when the reply has another id |
| Schools.ReplaceByIdKeepsIds | ReactCRUD/reactcrud.client/src/views/SchoolList.tsx:112 | when the reply has the saved id, every position keeps its id, so unique ids stay unique |
| Schools.PrependKeepsUniqueIds | ReactCRUD/reactcrud.client/src/views/SchoolList.tsx:63 | prepending a created school keeps ids unique exactly when its id is new |
| SchoolListState.ErrorOf | ReactCRUD/reactcrud.client/src/views/SchoolList.tsx:36-37 | a non-2xx status gives the operation's failure with that status; a thrown error with a message gives that message, and one without gives `UnknownError` |
| SchoolListState.ThrownErrorText | ReactCRUD/reactcrud.client/src/views/SchoolList.tsx:66-67 | a thrown error's text is its own message, or "Unknown error" when it has none, for every operation |
| SchoolListState.ShownNotEmpty | ReactCRUD/reactcrud.client/src/views/SchoolList.tsx:123 | the text of a validation error, a failed status or an unknown error is never empty, so the banner renders it |
| SchoolListState.ReadShownRoundTrip | ReactCRUD/reactcrud.client/src/views/SchoolList.tsx:33 | the text of every error without a foreign message can be read back: it names the operation and the status |
| SchoolListState.ShownDistinguishes | ReactCRUD/reactcrud.client/src/views/SchoolList.tsx:61 | two such errors with the same text are the same error |
| SchoolListState.Initial | ReactCRUD/reactcrud.client/src/views/SchoolList.tsx:12-24 | on mount the list is empty, loading is on, there is no error, the create form is closed with an empty draft, and no row is edited |
| SchoolListState.NameMissingIffWhitespace | ReactCRUD/reactcrud.client/src/views/SchoolList.tsx:50 | a name is rejected exactly when it is absent or all whitespace, the empty name included |
| SchoolListState.Fetched | ReactCRUD/reactcrud.client/src/views/SchoolList.tsx:28-41 | loading ends on success and on failure; a success replaces the list by the response and leaves no error; a failure keeps the list and sets the load error; the forms are untouched |
| SchoolListState.FetchTwiceSameState | ReactCRUD/reactcrud.client/src/views/SchoolList.tsx:34-35 | loading twice with the same reply leaves the same state, and so the same list, as loading once |
| SchoolListState.FirstFetchFailureKeepsListEmpty | ReactCRUD/reactcrud.client/src/views/SchoolList.tsx:36-37 | a failed first load leaves the list empty and sets an error |
| SchoolListState.LoadFailureShowsStatus | ReactCRUD/reactcrud.client/src/views/SchoolList.tsx:33 | a first load answered with 500 leaves no schools and shows "Failed to fetch schools: 500" |
| SchoolListState.CreateRequest | ReactCRUD/reactcrud.client/src/views/SchoolList.tsx:50-60 | no request is sent exactly when the name is missing; otherwise the request is a POST of the draft |
| SchoolListState.Created | ReactCRUD/reactcrud.client/src/views/SchoolList.tsx:48-69 | a missing name only sets "Name is required"; a success prepends the created school, resets the draft to empty strings, closes the form and clears the error; a failure keeps the list, the draft and the open form and sets the create error; loading and edit mode are untouched |
| SchoolListState.CreateOpened | ReactCRUD/reactcrud.client/src/views/SchoolList.tsx:131 | the create form opens and nothing else changes |
| SchoolListState.CreateCancelled | ReactCRUD/reactcrud.client/src/views/SchoolList.tsx:162-166 | the form closes, the draft resets to empty strings and the error clears; the list, loading and edit mode are untouched |
| SchoolListState.NewSchoolTyped | ReactCRUD/reactcrud.client/src/views/SchoolList.tsx:146-157 | typing changes only the create draft |
| SchoolListState.DeleteRequest | ReactCRUD/reactcrud.client/src/views/SchoolList.tsx:72-77 | no request is sent exactly when the user declines; otherwise a DELETE of the id is sent |
| SchoolListState.Deleted | ReactCRUD/reactcrud.client/src/views/SchoolList.tsx:72-83 | declining changes no state at all, the error included; a success keeps exactly the schools with another id, in order, and clears the error; a failure keeps the list and sets the delete error |
| SchoolListState.EditStarted | ReactCRUD/reactcrud.client/src/views/SchoolList.tsx:86-89 | the school's id becomes the one edited row, the draft is seeded from that school, and nothing else changes |
| SchoolListState.EditCancelled | ReactCRUD/reactcrud.client/src/views/SchoolList.tsx:92-95 | edit mode returns to Idle with the empty `{}` draft, and nothing else changes |
| SchoolListState.EditTyped | ReactCRUD/reactcrud.client/src/views/SchoolList.tsx:210-235 | typing changes only the edit draft |
| SchoolListState.SaveRequest | ReactCRUD/reactcrud.client/src/views/SchoolList.tsx:98-109 | no request is sent exactly when the draft's name is missing; otherwise a PUT of the draft to the school's id is sent |
| SchoolListState.Saved | ReactCRUD/reactcrud.client/src/views/SchoolList.tsx:98-117 | a missing name only sets "Name is required" and keeps the edited row and its draft; a success keeps the length, puts the reply at every position with the saved id, leaves the others alone, returns to Idle with an empty draft and clears the error; a failure keeps the list and the edit as typed and sets the update error |
| SchoolListState.SecondEditDiscardsFirst | ReactCRUD/reactcrud.client/src/views/SchoolList.tsx:86-89 | starting an edit on A and then on B gives the same state as starting on B alone, so A's draft is gone |
| SchoolListState.CancelAfterStart | ReactCRUD/reactcrud.client/src/views/SchoolList.tsx:86-95 | cancelling right after starting an edit gives the same state as cancelling without it |
| SchoolListState.AtMostOneEditedRow | ReactCRUD/reactcrud.client/src/views/SchoolList.tsx:204-207 | while ids are unique, at most one row of the table is shown in edit mode |
| SchoolListState.StepKeepsUniqueIds | ReactCRUD/reactcrud.client/src/views/SchoolList.tsx:28-117 | if the server keeps ids unique (a unique loaded list, a fresh created id, an echoed updated id), every handler keeps the list's ids unique |
| SchoolListState.FailureKeepsList | ReactCRUD/reactcrud.client/src/views/SchoolList.tsx:28-117 | a failed load, create, delete or update leaves the list as it was; it sets an error unless a delete was declined, and a declined delete changes nothing |
| SchoolListView.SchoolList.constructor | ReactCRUD/reactcrud.client/src/views/SchoolList.tsx:12-24 | the hooks start in the `Initial` state |
| SchoolListView.SchoolList.FetchSchools | ReactCRUD/reactcrud.client/src/views/SchoolList.tsx:28-41 | sends a GET and leaves the state `Fetched` describes |
| SchoolListView.SchoolList.OpenCreateForm | ReactCRUD/reactcrud.client/src/views/SchoolList.tsx:131 | leaves the state `CreateOpened` describes |
| SchoolListView.SchoolList.TypeNewSchool | ReactCRUD/reactcrud.client/src/views/SchoolList.tsx:146-157 | leaves the state `NewSchoolTyped` describes |
| SchoolListView.SchoolList.HandleCreate | ReactCRUD/reactcrud.client/src/views/SchoolList.tsx:48-69 | sends the request `CreateRequest` describes and leaves the state `Created` describes |
| SchoolListView.SchoolList.CancelCreateForm | ReactCRUD/reactcrud.client/src/views/SchoolList.tsx:162-166 | leaves the state `CreateCancelled` describes |
| SchoolListView.SchoolList.HandleDelete | ReactCRUD/reactcrud.client/src/views/SchoolList.tsx:72-83 | sends the request `DeleteRequest` describes and leaves the state `Deleted` describes |
| SchoolListView.SchoolList.StartEdit | ReactCRUD/reactcrud.client/src/views/SchoolList.tsx:86-89 | leaves the state `EditStarted` describes |
| SchoolListView.SchoolList.CancelEdit | ReactCRUD/reactcrud.client/src/views/SchoolList.tsx:92-95 | leaves the state `EditCancelled` describes |
| SchoolListView.SchoolList.TypeEditValue | ReactCRUD/reactcrud.client/src/views/SchoolList.tsx:210-235 | leaves the state `EditTyped` describes |
| SchoolListView.SchoolList.SaveEdit | ReactCRUD/reactcrud.client/src/views/SchoolList.tsx:98-117 | sends the request `SaveRequest` describes and leaves the state `Saved` describes; on success it calls `CancelEdit` |
| SchoolListView.ReloadAndReedit | ReactCRUD/reactcrud.client/src/views/SchoolList.tsx:28-41 | a caller using only the method contracts can conclude that reloading with the same reply keeps the list, and that a second `StartEdit` replaces the first |

## Left out

- Rendering is not modelled: the JSX, the CSS and the table layout (lines 119-261). The model keeps only the handlers that the markup wires to buttons and inputs.
- `fetch`, the URLs, the headers and JSON (de)serialisation are not modelled. Each request is a `Request` value, and its outcome is a `Reply` parameter.
- A successful reply's body is taken to be a well-formed `School` or `School[]`. The source only casts it with `as`, and never checks it.
- `window.confirm` is not modelled. Its answer is the `confirmed` parameter.
- React hooks, `useCallback`, `useEffect`, async/await and `e.preventDefault()` are not modelled. The mount-time load is a call to `FetchSchools` after the constructor.
- Interleaving is not modelled. Each handler runs to completion in one step. The states that show while a request is pending (for example `loading` set to true) are not observable between steps. Overlapping or duplicate requests are not modelled either; the source neither orders nor cancels them.
- The edit inputs and the Save button are rendered only for the row being edited. The model lets `TypeEditValue` and `SaveEdit` be called in any state, as the handlers themselves allow.
- Numbers are not modelled as floating point. JavaScript numbers are doubles; ids are modelled as `int` and statuses as `nat`.
- Strings are modelled as sequences of Unicode scalar values, not UTF-16 code units, so lone surrogates are not represented.
- ReactCRUD/reactcrud.client/src/App.tsx is not part of this model: it only routes `/` to the list and `/details/:id` to a detail view. The detail view's source is not part of this model.
