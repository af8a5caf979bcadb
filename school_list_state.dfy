/** The state of the school list view and what each of its handlers does to it,
    as pure functions. A network round trip is an input: the reply the server
    gave (a status and the parsed body) or the error the request threw. Each
    handler is taken as one atomic step from the state before the request to the
    state after the reply. */
module SchoolListState {
  import opened Text
  import opened Schools

  /** The four requests against the collection resource `/api/schools`. */
  datatype Operation = Load | Create | Update | Delete

  /** What ends a request: a response with its HTTP status and, for a
      successful one, its parsed body; or a thrown error (no connection,
      unparsable body), with its message when it has one. */
  datatype Reply<T> = Response(status: nat, body: T) | Threw(message: Option<string>)

  /** `res.ok`: the status is in the range 200-299. */
  predicate IsOk(status: nat) {
    200 <= status <= 299
  }

  predicate Succeeded<T>(reply: Reply<T>) {
    reply.Response? && IsOk(reply.status)
  }

  /** The error shown above the list. */
  datatype ErrorMessage =
    | NameRequired
    | Failed(op: Operation, status: nat)
    | Thrown(message: string)
    | UnknownError

  /** The error a failed request leaves: a non-2xx status names the operation
      and the status; a thrown error shows its own message, or a fixed text
      when it has none. */
  function ErrorOf<T>(op: Operation, reply: Reply<T>): (e: ErrorMessage)
    requires !Succeeded(reply)
    ensures reply.Response? ==> e == Failed(op, reply.status)
    ensures reply.Threw? ==>
      e == if reply.message.Some? then Thrown(reply.message.value) else UnknownError
  {
    match reply
    case Response(status, _) => Failed(op, status)
    case Threw(m) => if m.Some? then Thrown(m.value) else UnknownError
  }

  function Prefix(op: Operation): string {
    match op
    case Load => "Failed to fetch schools: "
    case Create => "Create failed: "
    case Update => "Update failed: "
    case Delete => "Delete failed: "
  }

  /** The text of an error as the view shows it. */
  function Shown(e: ErrorMessage): string {
    match e
    case NameRequired => "Name is required"
    case Failed(op, status) => Prefix(op) + Decimal(status)
    case Thrown(m) => m
    case UnknownError => "Unknown error"
  }

  /** `t` begins with `p` and has something after it. */
  predicate Extends(t: string, p: string) {
    |p| < |t| && t[..|p|] == p
  }

  /** Reads an error back from its text; the messages of thrown errors are not
      recognised. */
  function ReadShown(t: string): Option<ErrorMessage> {
    if t == Shown(NameRequired) then Some(NameRequired)
    else if t == Shown(UnknownError) then Some(UnknownError)
    else if Extends(t, Prefix(Load)) then ReadFailed(Load, t)
    else if Extends(t, Prefix(Create)) then ReadFailed(Create, t)
    else if Extends(t, Prefix(Update)) then ReadFailed(Update, t)
    else if Extends(t, Prefix(Delete)) then ReadFailed(Delete, t)
    else None
  }

  function ReadFailed(op: Operation, t: string): Option<ErrorMessage>
    requires Extends(t, Prefix(op))
  {
    var digits := t[|Prefix(op)|..];
    if IsDigits(digits) then Some(Failed(op, DigitsValue(digits))) else None
  }

  /** The first character of an operation's message. */
  function Lead(op: Operation): char {
    match op
    case Load => 'F'
    case Create => 'C'
    case Update => 'U'
    case Delete => 'D'
  }

  /** A prefix of one operation's message is not a prefix of another's: they
      differ in their first character. */
  lemma PrefixesDiffer(op: Operation, other: Operation, t: string)
    requires Extends(t, Prefix(op)) && op != other
    ensures !Extends(t, Prefix(other))
  {
    var p, q := Prefix(op), Prefix(other);
    assert t[0] == p[0] == Lead(op);
    assert q[0] == Lead(other);
  }

  /** The text of a failed request is neither of the fixed texts: its prefix
      ends in ": " where they do not. */
  lemma FailedTextNotFixed(op: Operation, t: string)
    requires Extends(t, Prefix(op))
    ensures t != Shown(NameRequired) && t != Shown(UnknownError)
  {
    var p := Prefix(op);
    assert t[|p| - 2] == ':';
  }

  /** A thrown error shows its own message, or "Unknown error" when it has
      none, whatever the operation. */
  lemma ThrownErrorText<T>(op: Operation, m: string)
    ensures var reply: Reply<T> := Threw(Some(m)); Shown(ErrorOf(op, reply)) == m
    ensures var reply: Reply<T> := Threw(None); Shown(ErrorOf(op, reply)) == "Unknown error"
  {
  }

  /** An error that does not carry a foreign message has a non-empty text, so
      the banner above the list shows it. */
  lemma ShownNotEmpty(e: ErrorMessage)
    requires !e.Thrown?
    ensures Shown(e) != ""
  {
  }

  /** Every error that does not carry a foreign message can be read back from
      its text: the text names the operation and the status. */
  lemma ReadShownRoundTrip(e: ErrorMessage)
    requires !e.Thrown?
    ensures ReadShown(Shown(e)) == Some(e)
  {
    if e.Failed? {
      var op, t := e.op, Shown(e);
      assert t[..|Prefix(op)|] == Prefix(op);
      assert t[|Prefix(op)|..] == Decimal(e.status);
      FailedTextNotFixed(op, t);
      forall other | other != op ensures !Extends(t, Prefix(other)) {
        PrefixesDiffer(op, other, t);
      }
      DecimalRoundTrip(e.status);
    }
  }

  /** Two errors that do not carry a foreign message show the same text only
      when they are the same error. */
  lemma ShownDistinguishes(e1: ErrorMessage, e2: ErrorMessage)
    requires !e1.Thrown? && !e2.Thrown?
    requires Shown(e1) == Shown(e2)
    ensures e1 == e2
  {
    ReadShownRoundTrip(e1);
    ReadShownRoundTrip(e2);
  }

  /** A request the view sends. */
  datatype Request =
    | GetAll
    | Post(body: Draft)
    | Put(id: int, body: Draft)
    | Remove(id: int)

  /** Inline edit mode: no row, or the one row whose school has this id. */
  datatype EditMode = Idle | Editing(id: int)

  /** The view's state hooks. */
  datatype ViewState = ViewState(
    schools: seq<School>,
    loading: bool,
    error: Option<ErrorMessage>,
    creating: bool,
    newSchool: Draft,
    editing: EditMode,
    editingValues: Draft)

  /** The state when the view mounts, before its first load. */
  function Initial(): (st: ViewState)
    ensures st.schools == [] && st.loading && st.error == None
    ensures !st.creating && st.newSchool == EmptyForm
    ensures st.editing == Idle && st.editingValues == NoValues
  {
    ViewState([], true, None, false, EmptyForm, Idle, NoValues)
  }

  /** `!name || name.trim() === ""`: an absent, empty or blank name. */
  predicate NameMissing(name: Option<string>) {
    name.None? || IsBlank(name.value)
  }

  /** A name is missing exactly when it is absent or every character of it is
      whitespace. */
  lemma NameMissingIffWhitespace(name: Option<string>)
    ensures NameMissing(name) <==>
      name.None? || forall i :: 0 <= i < |name.value| ==> IsWhitespace(name.value[i])
  {
    if name.Some? {
      BlankIffAllWhitespace(name.value);
    }
  }

  /** Everything but the list, the error and the loading flag is as before. */
  predicate SameForms(a: ViewState, b: ViewState) {
    a.creating == b.creating && a.newSchool == b.newSchool &&
    a.editing == b.editing && a.editingValues == b.editingValues
  }

  // ----- load -----

  /** `fetchSchools` with the server's reply: loading ends whatever the outcome;
      a success replaces the list by the response and leaves no error; a
      failure keeps the list and sets the error. The forms are untouched. */
  function Fetched(st: ViewState, reply: Reply<seq<School>>): (r: ViewState)
    ensures !r.loading && SameForms(r, st)
    ensures Succeeded(reply) ==> r.schools == reply.body && r.error == None
    ensures !Succeeded(reply) ==> r.schools == st.schools && r.error == Some(ErrorOf(Load, reply))
  {
    var started := st.(loading := true, error := None);
    var done := if Succeeded(reply) then started.(schools := reply.body)
                else started.(error := Some(ErrorOf(Load, reply)));
    done.(loading := false)
  }

  /** Loading twice with the same reply leaves the same state as loading once. */
  lemma FetchTwiceSameState(st: ViewState, reply: Reply<seq<School>>)
    ensures Fetched(Fetched(st, reply), reply) == Fetched(st, reply)
  {
  }

  /** The first load against a failing server leaves an empty list. */
  lemma FirstFetchFailureKeepsListEmpty(reply: Reply<seq<School>>)
    requires !Succeeded(reply)
    ensures Fetched(Initial(), reply).schools == []
    ensures Fetched(Initial(), reply).error.Some?
  {
  }

  // ----- create -----

  /** The request `handleCreate` sends: none when the name is missing,
      otherwise a POST of the draft. */
  function CreateRequest(st: ViewState): (req: Option<Request>)
    ensures req.None? <==> NameMissing(st.newSchool.name)
    ensures req.Some? ==> req.value == Post(st.newSchool)
  {
    if NameMissing(st.newSchool.name) then None else Some(Post(st.newSchool))
  }

  /** `handleCreate` with the server's reply (ignored when no request is sent). */
  function Created(st: ViewState, reply: Reply<School>): (r: ViewState)
    // a missing name only sets the validation error
    ensures NameMissing(st.newSchool.name) ==> r == st.(error := Some(NameRequired))
    // a success prepends the created school, resets the draft and closes the form
    ensures !NameMissing(st.newSchool.name) && Succeeded(reply) ==>
      && r.schools == [reply.body] + st.schools
      && r.newSchool == EmptyForm && !r.creating && r.error == None
    // a failure keeps the list, the draft and the open form
    ensures !NameMissing(st.newSchool.name) && !Succeeded(reply) ==>
      r == st.(error := Some(ErrorOf(Create, reply)))
    ensures r.loading == st.loading && r.editing == st.editing && r.editingValues == st.editingValues
  {
    if NameMissing(st.newSchool.name) then st.(error := Some(NameRequired))
    else
      var sent := st.(error := None);
      if Succeeded(reply) then
        sent.(schools := [reply.body] + sent.schools, newSchool := EmptyForm, creating := false)
      else sent.(error := Some(ErrorOf(Create, reply)))
  }

  /** The "Add new school" button: opens the create form. */
  function CreateOpened(st: ViewState): (r: ViewState)
    ensures r.creating
    ensures r.schools == st.schools && r.loading == st.loading && r.error == st.error
    ensures r.newSchool == st.newSchool && r.editing == st.editing && r.editingValues == st.editingValues
  {
    st.(creating := true)
  }

  /** The create form's Cancel button: closes the form, resets the draft and
      clears the error. */
  function CreateCancelled(st: ViewState): (r: ViewState)
    ensures !r.creating && r.newSchool == EmptyForm && r.error == None
    ensures r.schools == st.schools && r.loading == st.loading
    ensures r.editing == st.editing && r.editingValues == st.editingValues
  {
    st.(creating := false, newSchool := EmptyForm, error := None)
  }

  /** Typing into an input of the create form changes that field of the draft. */
  function NewSchoolTyped(st: ViewState, f: Field, v: string): (r: ViewState)
    ensures r.newSchool == WithField(st.newSchool, f, v)
    ensures r.schools == st.schools && r.loading == st.loading && r.error == st.error
    ensures r.creating == st.creating && r.editing == st.editing && r.editingValues == st.editingValues
  {
    st.(newSchool := WithField(st.newSchool, f, v))
  }

  // ----- delete -----

  /** The request `handleDelete` sends: none when the user declines. */
  function DeleteRequest(id: int, confirmed: bool): (req: Option<Request>)
    ensures req.None? <==> !confirmed
    ensures req.Some? ==> req.value == Remove(id)
  {
    if confirmed then Some(Remove(id)) else None
  }

  /** `handleDelete(id)` with the user's answer to the confirmation and the
      server's reply. */
  function Deleted(st: ViewState, id: int, confirmed: bool, reply: Reply<()>): (r: ViewState)
    // declining changes nothing at all, not even the error
    ensures !confirmed ==> r == st
    // a success keeps exactly the schools with another id, in order
    ensures confirmed && Succeeded(reply) ==>
      r == st.(schools := RemoveById(st.schools, id), error := None)
    ensures confirmed && Succeeded(reply) ==>
      SubsequenceOf(r.schools, st.schools) && !HasId(r.schools, id)
    // a failure keeps the list
    ensures confirmed && !Succeeded(reply) ==> r == st.(error := Some(ErrorOf(Delete, reply)))
  {
    if !confirmed then st
    else
      var sent := st.(error := None);
      if Succeeded(reply) then
        RemoveByIdKeepsOrder(st.schools, id);
        RemoveByIdRemovesId(st.schools, id);
        sent.(schools := RemoveById(sent.schools, id))
      else sent.(error := Some(ErrorOf(Delete, reply)))
  }

  // ----- edit -----

  /** `startEdit(s)`: row `s.id` becomes the one edited row, seeded with `s`'s
      values; a previous edit is discarded. */
  function EditStarted(st: ViewState, s: School): (r: ViewState)
    ensures r.editing == Editing(s.id) && r.editingValues == ValuesOf(s)
    ensures r.schools == st.schools && r.error == st.error && r.loading == st.loading
    ensures r.creating == st.creating && r.newSchool == st.newSchool
  {
    st.(editing := Editing(s.id), editingValues := ValuesOf(s))
  }

  /** `cancelEdit`: back to no edited row, with an empty draft. */
  function EditCancelled(st: ViewState): (r: ViewState)
    ensures r.editing == Idle && r.editingValues == NoValues
    ensures r.schools == st.schools && r.error == st.error && r.loading == st.loading
    ensures r.creating == st.creating && r.newSchool == st.newSchool
  {
    st.(editing := Idle, editingValues := NoValues)
  }

  /** Typing into an input of the edited row changes that field of its draft. */
  function EditTyped(st: ViewState, f: Field, v: string): (r: ViewState)
    ensures r.editingValues == WithField(st.editingValues, f, v)
    ensures r.schools == st.schools && r.loading == st.loading && r.error == st.error
    ensures r.creating == st.creating && r.newSchool == st.newSchool && r.editing == st.editing
  {
    st.(editingValues := WithField(st.editingValues, f, v))
  }

  /** The request `saveEdit(id)` sends: none when the draft's name is missing,
      otherwise a PUT of the draft to the school's resource. */
  function SaveRequest(st: ViewState, id: int): (req: Option<Request>)
    ensures req.None? <==> NameMissing(st.editingValues.name)
    ensures req.Some? ==> req.value == Put(id, st.editingValues)
  {
    if NameMissing(st.editingValues.name) then None else Some(Put(id, st.editingValues))
  }

  /** `saveEdit(id)` with the server's reply (ignored when no request is sent). */
  function Saved(st: ViewState, id: int, reply: Reply<School>): (r: ViewState)
    // a missing name only sets the validation error: the edit stays open as typed
    ensures NameMissing(st.editingValues.name) ==> r == st.(error := Some(NameRequired))
    // a success replaces every school with that id and leaves edit mode
    ensures !NameMissing(st.editingValues.name) && Succeeded(reply) ==>
      && |r.schools| == |st.schools|
      && (forall i :: 0 <= i < |st.schools| ==>
            r.schools[i] == if st.schools[i].id == id then reply.body else st.schools[i])
      && r.editing == Idle && r.editingValues == NoValues && r.error == None
    // a failure keeps the list and the edit as typed
    ensures !NameMissing(st.editingValues.name) && !Succeeded(reply) ==>
      r == st.(error := Some(ErrorOf(Update, reply)))
    ensures r.loading == st.loading && r.creating == st.creating && r.newSchool == st.newSchool
  {
    if NameMissing(st.editingValues.name) then st.(error := Some(NameRequired))
    else
      var sent := st.(error := None);
      if Succeeded(reply) then
        EditCancelled(sent.(schools := ReplaceById(sent.schools, id, reply.body)))
      else sent.(error := Some(ErrorOf(Update, reply)))
  }

  /** Starting an edit on row A and then on row B leaves B, and only B, in edit
      mode, with B's values: A's draft is gone. */
  lemma SecondEditDiscardsFirst(st: ViewState, a: School, b: School)
    ensures EditStarted(EditStarted(st, a), b) == EditStarted(st, b)
  {
  }

  /** Cancelling an edit undoes starting it as far as edit mode goes. */
  lemma CancelAfterStart(st: ViewState, a: School)
    ensures EditCancelled(EditStarted(st, a)) == EditCancelled(st)
  {
  }

  /** The row at position `i` is shown in edit mode. */
  predicate IsEditedRow(st: ViewState, i: int)
    requires 0 <= i < |st.schools|
  {
    st.editing == Editing(st.schools[i].id)
  }

  /** While ids are unique, at most one row of the table is in edit mode. */
  lemma AtMostOneEditedRow(st: ViewState)
    requires UniqueIds(st.schools)
    ensures forall i, j ::
      (0 <= i < |st.schools| && 0 <= j < |st.schools| && IsEditedRow(st, i) && IsEditedRow(st, j)) ==> i == j
  {
  }

  // ----- the whole view as one state machine -----

  /** Everything that can happen to the view: a handler run to completion with
      its inputs. */
  datatype Event =
    | FetchDone(fetchReply: Reply<seq<School>>)
    | OpenCreate
    | TypeNew(newField: Field, newText: string)
    | SubmitCreate(createReply: Reply<School>)
    | CancelCreate
    | DeleteRow(deleteId: int, confirmed: bool, deleteReply: Reply<()>)
    | StartEdit(school: School)
    | TypeEdit(editField: Field, editText: string)
    | SaveRow(saveId: int, saveReply: Reply<School>)
    | CancelEdit

  function Step(st: ViewState, e: Event): ViewState {
    match e
    case FetchDone(reply) => Fetched(st, reply)
    case OpenCreate => CreateOpened(st)
    case TypeNew(f, v) => NewSchoolTyped(st, f, v)
    case SubmitCreate(reply) => Created(st, reply)
    case CancelCreate => CreateCancelled(st)
    case DeleteRow(id, confirmed, reply) => Deleted(st, id, confirmed, reply)
    case StartEdit(s) => EditStarted(st, s)
    case TypeEdit(f, v) => EditTyped(st, f, v)
    case SaveRow(id, reply) => Saved(st, id, reply)
    case CancelEdit => EditCancelled(st)
  }

  /** The server keeps ids unique: a loaded list has unique ids, a created
      school has a fresh id, an updated school keeps its id. */
  predicate ReplyKeepsIds(st: ViewState, e: Event) {
    match e
    case FetchDone(reply) => Succeeded(reply) ==> UniqueIds(reply.body)
    case SubmitCreate(reply) => Succeeded(reply) ==> !HasId(st.schools, reply.body.id)
    case SaveRow(id, reply) => Succeeded(reply) ==> reply.body.id == id
    case _ => true
  }

  /** Against a server that keeps ids unique, every step keeps the list's ids
      unique: no two rows share a key, and edit mode covers at most one row. */
  lemma StepKeepsUniqueIds(st: ViewState, e: Event)
    requires UniqueIds(st.schools) && ReplyKeepsIds(st, e)
    ensures UniqueIds(Step(st, e).schools)
  {
    match e
    case SubmitCreate(reply) =>
      if !NameMissing(st.newSchool.name) && Succeeded(reply) {
        PrependKeepsUniqueIds(reply.body, st.schools);
      }
    case DeleteRow(id, confirmed, reply) =>
      if confirmed && Succeeded(reply) {
        RemoveByIdKeepsUniqueIds(st.schools, id);
      }
    case SaveRow(id, reply) =>
      if !NameMissing(st.editingValues.name) && Succeeded(reply) {
        ReplaceByIdKeepsIds(st.schools, id, reply.body);
      }
    case _ =>
  }

  /** A failed request, of any kind, leaves the list as it was and sets an
      error. */
  lemma FailureKeepsList(st: ViewState, e: Event)
    requires
      || (e.FetchDone? && !Succeeded(e.fetchReply))
      || (e.SubmitCreate? && !Succeeded(e.createReply))
      || (e.DeleteRow? && !Succeeded(e.deleteReply))
      || (e.SaveRow? && !Succeeded(e.saveReply))
    ensures Step(st, e).schools == st.schools
    ensures e.DeleteRow? && !e.confirmed ==> Step(st, e) == st
    ensures !(e.DeleteRow? && !e.confirmed) ==> Step(st, e).error.Some?
  {
  }

  // ----- concrete scenarios -----

  /** A first load against a server that answers 500 leaves no schools and
      shows "Failed to fetch schools: 500". */
  lemma LoadFailureShowsStatus()
    ensures Fetched(Initial(), Response(500, [])).schools == []
    ensures Fetched(Initial(), Response(500, [])).error == Some(Failed(Load, 500))
    ensures Shown(Failed(Load, 500)) == "Failed to fetch schools: 500"
  {
    assert Decimal(500) == Decimal(50) + ['0'];
    assert Decimal(50) == Decimal(5) + ['0'];
  }
}
