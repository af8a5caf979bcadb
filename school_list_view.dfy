/** The `SchoolList` component: its state hooks as fields and its handlers as
    methods that set those fields in the order the handlers call the setters.
    Each method takes the outcome of its network round trip (and, for delete,
    the user's answer to the confirmation dialog) as parameters, returns the
    request it sends, and is specified by the matching function of
    `SchoolListState`, whose properties are proved there. */
module SchoolListView {
  import opened Schools
  import opened SchoolListState

  class SchoolList {
    var schools: seq<School>
    var loading: bool
    var error: Option<ErrorMessage>
    var creating: bool
    var newSchool: Draft
    var editing: EditMode
    var editingValues: Draft

    /** The values of all the hooks at once. */
    function Snapshot(): ViewState
      reads this
    {
      ViewState(schools, loading, error, creating, newSchool, editing, editingValues)
    }

    /** Mounting: every hook takes its initial value. */
    constructor ()
      ensures Snapshot() == Initial()
    {
      schools := [];
      loading := true;
      error := None;
      creating := false;
      newSchool := EmptyForm;
      editing := Idle;
      editingValues := NoValues;
    }

    /** `fetchSchools`, which also runs on mount. */
    method FetchSchools(reply: Reply<seq<School>>) returns (sent: Request)
      modifies this
      ensures sent == GetAll
      ensures Snapshot() == Fetched(old(Snapshot()), reply)
    {
      loading := true;
      error := None;
      sent := GetAll;
      if Succeeded(reply) {
        schools := reply.body;
      } else {
        error := Some(ErrorOf(Load, reply));
      }
      loading := false;
    }

    /** The "Add new school" button. */
    method OpenCreateForm()
      modifies this
      ensures Snapshot() == CreateOpened(old(Snapshot()))
    {
      creating := true;
    }

    /** Typing into the create form. */
    method TypeNewSchool(f: Field, v: string)
      modifies this
      ensures Snapshot() == NewSchoolTyped(old(Snapshot()), f, v)
    {
      newSchool := WithField(newSchool, f, v);
    }

    /** `handleCreate`: validate the draft, POST it, prepend the reply. */
    method HandleCreate(reply: Reply<School>) returns (sent: Option<Request>)
      modifies this
      ensures sent == CreateRequest(old(Snapshot()))
      ensures Snapshot() == Created(old(Snapshot()), reply)
    {
      if NameMissing(newSchool.name) {
        error := Some(NameRequired);
        return None;
      }
      error := None;
      sent := Some(Post(newSchool));
      if Succeeded(reply) {
        schools := [reply.body] + schools;
        newSchool := EmptyForm;
        creating := false;
      } else {
        error := Some(ErrorOf(Create, reply));
      }
    }

    /** The create form's Cancel button. */
    method CancelCreateForm()
      modifies this
      ensures Snapshot() == CreateCancelled(old(Snapshot()))
    {
      creating := false;
      newSchool := EmptyForm;
      error := None;
    }

    /** `handleDelete(id)`: ask, DELETE, drop the schools with that id. */
    method HandleDelete(id: int, confirmed: bool, reply: Reply<()>) returns (sent: Option<Request>)
      modifies this
      ensures sent == DeleteRequest(id, confirmed)
      ensures Snapshot() == Deleted(old(Snapshot()), id, confirmed, reply)
    {
      if !confirmed {
        return None;
      }
      error := None;
      sent := Some(Remove(id));
      if Succeeded(reply) {
        schools := RemoveById(schools, id);
      } else {
        error := Some(ErrorOf(Delete, reply));
      }
    }

    /** `startEdit(school)`. */
    method StartEdit(school: School)
      modifies this
      ensures Snapshot() == EditStarted(old(Snapshot()), school)
    {
      editing := Editing(school.id);
      editingValues := ValuesOf(school);
    }

    /** `cancelEdit`. */
    method CancelEdit()
      modifies this
      ensures Snapshot() == EditCancelled(old(Snapshot()))
    {
      editing := Idle;
      editingValues := NoValues;
    }

    /** Typing into the edited row. */
    method TypeEditValue(f: Field, v: string)
      modifies this
      ensures Snapshot() == EditTyped(old(Snapshot()), f, v)
    {
      editingValues := WithField(editingValues, f, v);
    }

    /** `saveEdit(id)`: validate the draft, PUT it, swap in the reply, leave
        edit mode. */
    method SaveEdit(id: int, reply: Reply<School>) returns (sent: Option<Request>)
      modifies this
      ensures sent == SaveRequest(old(Snapshot()), id)
      ensures Snapshot() == Saved(old(Snapshot()), id, reply)
    {
      if NameMissing(editingValues.name) {
        error := Some(NameRequired);
        return None;
      }
      error := None;
      sent := Some(Put(id, editingValues));
      if Succeeded(reply) {
        schools := ReplaceById(schools, id, reply.body);
        CancelEdit();
      } else {
        error := Some(ErrorOf(Update, reply));
      }
    }
  }

  /** What a caller of the component can conclude from the method contracts
      alone: loading twice with the same reply gives the same list, and a
      second edit replaces the first. */
  method ReloadAndReedit(view: SchoolList, reply: Reply<seq<School>>, a: School, b: School)
    modifies view
    ensures view.editing == Editing(b.id) && view.editingValues == ValuesOf(b)
    ensures view.schools == Fetched(old(view.Snapshot()), reply).schools
  {
    var _ := view.FetchSchools(reply);
    var first := view.schools;
    var _ := view.FetchSchools(reply);
    FetchTwiceSameState(old(view.Snapshot()), reply);
    assert view.schools == first;
    view.StartEdit(a);
    view.StartEdit(b);
  }
}
