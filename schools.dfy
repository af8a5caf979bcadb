/** The School record, the partial record the forms edit, and the three list
    updates the view applies to its copy of the server's collection: prepend a
    created school, drop the schools with a deleted id, and swap in an updated
    school for every school with its id. */
module Schools {

  datatype Option<T> = None | Some(value: T)

  /** A school as the server returns it; `address` and `phone` may be absent. */
  datatype School = School(id: int, name: string, address: Option<string>, phone: Option<string>)

  /** A `Partial<School>` holding the values typed into a form. Only the three
      editable fields are ever set; each may be absent. */
  datatype Draft = Draft(name: Option<string>, address: Option<string>, phone: Option<string>)

  /** The draft of the create form when it is first shown and after a reset:
      all three fields present and empty. */
  const EmptyForm: Draft := Draft(Some(""), Some(""), Some(""))

  /** The draft of the edit row when no row is edited: no field present. */
  const NoValues: Draft := Draft(None, None, None)

  /** The three text inputs of a form. */
  datatype Field = Name | Address | Phone

  /** `{ ...d, [f]: v }`: the draft after typing `v` into input `f`. */
  function WithField(d: Draft, f: Field, v: string): (r: Draft)
    ensures f == Name ==> r.name == Some(v) && r.address == d.address && r.phone == d.phone
    ensures f == Address ==> r.address == Some(v) && r.name == d.name && r.phone == d.phone
    ensures f == Phone ==> r.phone == Some(v) && r.name == d.name && r.address == d.address
  {
    match f
    case Name => d.(name := Some(v))
    case Address => d.(address := Some(v))
    case Phone => d.(phone := Some(v))
  }

  /** The values an edit of `s` starts from. */
  function ValuesOf(s: School): (d: Draft)
    ensures d.name == Some(s.name) && d.address == s.address && d.phone == s.phone
  {
    Draft(Some(s.name), s.address, s.phone)
  }

  /** No two schools of the list share an id (the server assigns them). */
  predicate UniqueIds(s: seq<School>) {
    forall i, j :: 0 <= i < j < |s| ==> s[i].id != s[j].id
  }

  predicate HasId(s: seq<School>, id: int) {
    exists i :: 0 <= i < |s| && s[i].id == id
  }

  /** `r` is `s` with some elements left out and the rest in their original
      order. */
  ghost predicate SubsequenceOf(r: seq<School>, s: seq<School>)
    decreases |s|
  {
    if r == [] then true
    else if s == [] then false
    else (r[0] == s[0] && SubsequenceOf(r[1..], s[1..])) || SubsequenceOf(r, s[1..])
  }

  /** `s.filter(x => x.id !== id)`: the schools of `s` whose id is not `id`.
      Every school with another id is kept, as often as it occurs, and none with
      `id` is. */
  function RemoveById(s: seq<School>, id: int): (r: seq<School>)
    ensures |r| <= |s|
    ensures forall x :: x in r <==> x in s && x.id != id
    ensures forall x :: multiset(r)[x] == if x.id == id then 0 else multiset(s)[x]
  {
    if s == [] then []
    else
      var rest := RemoveById(s[1..], id);
      assert s == [s[0]] + s[1..];
      if s[0].id == id then rest else [s[0]] + rest
  }

  /** `s.map(x => x.id === id ? updated : x)`: every school whose id is `id` is
      replaced by `updated`, whatever `updated`'s own id is; every other
      position keeps its school. */
  function ReplaceById(s: seq<School>, id: int, updated: School): (r: seq<School>)
    ensures |r| == |s|
    ensures forall i :: 0 <= i < |s| ==> r[i] == if s[i].id == id then updated else s[i]
  {
    if s == [] then []
    else [if s[0].id == id then updated else s[0]] + ReplaceById(s[1..], id, updated)
  }

  /** Deleting keeps the surviving schools in their original relative order. */
  lemma {:induction false} RemoveByIdKeepsOrder(s: seq<School>, id: int)
    ensures SubsequenceOf(RemoveById(s, id), s)
  {
    if s != [] {
      RemoveByIdKeepsOrder(s[1..], id);
      var rest := RemoveById(s[1..], id);
      if s[0].id == id {
        SubsequenceOfDropHead(rest, s);
      } else {
        assert ([s[0]] + rest)[1..] == rest;
      }
    }
  }

  lemma {:induction false} SubsequenceOfDropHead(r: seq<School>, s: seq<School>)
    requires s != [] && SubsequenceOf(r, s[1..])
    ensures SubsequenceOf(r, s)
  {
  }

  /** A subsequence of a list with unique ids has unique ids. */
  lemma {:induction false} SubsequenceKeepsUniqueIds(r: seq<School>, s: seq<School>)
    requires SubsequenceOf(r, s) && UniqueIds(s)
    ensures UniqueIds(r)
    ensures forall x :: x in r ==> x in s
    decreases |s|
  {
    if r != [] {
      assert s != [];
      if r[0] == s[0] && SubsequenceOf(r[1..], s[1..]) {
        SubsequenceKeepsUniqueIds(r[1..], s[1..]);
        forall j | 0 < j < |r| ensures r[0].id != r[j].id {
          assert r[j] == r[1..][j - 1];
          assert r[j] in r[1..];
          assert r[j] in s[1..];
          var k :| 0 <= k < |s[1..]| && s[1..][k] == r[j];
          assert s[k + 1] == r[j];
        }
        forall x | x in r ensures x in s {
          if x != r[0] {
            assert x in r[1..];
          }
        }
      } else {
        SubsequenceKeepsUniqueIds(r, s[1..]);
      }
    }
  }

  /** Deleting keeps ids unique. */
  lemma RemoveByIdKeepsUniqueIds(s: seq<School>, id: int)
    requires UniqueIds(s)
    ensures UniqueIds(RemoveById(s, id))
  {
    RemoveByIdKeepsOrder(s, id);
    SubsequenceKeepsUniqueIds(RemoveById(s, id), s);
  }

  /** After a delete no school with the deleted id remains. */
  lemma RemoveByIdRemovesId(s: seq<School>, id: int)
    ensures !HasId(RemoveById(s, id), id)
  {
    var r := RemoveById(s, id);
    forall i | 0 <= i < |r| ensures r[i].id != id {
      assert r[i] in r;
    }
  }

  /** Deleting an id that is not in the list changes nothing. */
  lemma {:induction false} RemoveAbsentId(s: seq<School>, id: int)
    requires !HasId(s, id)
    ensures RemoveById(s, id) == s
  {
    if s != [] {
      assert s[0].id != id;
      forall i | 0 <= i < |s[1..]| ensures s[1..][i].id != id {
        assert s[1..][i] == s[i + 1];
      }
      RemoveAbsentId(s[1..], id);
      assert s == [s[0]] + s[1..];
    }
  }

  /** Deleting the same id twice is the same as deleting it once. */
  lemma RemoveByIdIdempotent(s: seq<School>, id: int)
    ensures RemoveById(RemoveById(s, id), id) == RemoveById(s, id)
  {
    RemoveByIdRemovesId(s, id);
    RemoveAbsentId(RemoveById(s, id), id);
  }

  /** Replacing twice with the same reply is the same as replacing once, even
      when the reply carries another id. */
  lemma ReplaceByIdIdempotent(s: seq<School>, id: int, updated: School)
    ensures ReplaceById(ReplaceById(s, id, updated), id, updated) == ReplaceById(s, id, updated)
  {
    var once := ReplaceById(s, id, updated);
    var twice := ReplaceById(once, id, updated);
    assert forall i :: 0 <= i < |s| ==> twice[i] == once[i];
  }

  /** When the server echoes the id, a replace keeps every position's id, so
      unique ids stay unique. */
  lemma ReplaceByIdKeepsIds(s: seq<School>, id: int, updated: School)
    requires updated.id == id
    ensures forall i :: 0 <= i < |s| ==> ReplaceById(s, id, updated)[i].id == s[i].id
    ensures UniqueIds(s) ==> UniqueIds(ReplaceById(s, id, updated))
  {
  }

  /** Prepending keeps ids unique exactly when the new id is not already in
      the list. */
  lemma PrependKeepsUniqueIds(created: School, s: seq<School>)
    requires UniqueIds(s)
    ensures UniqueIds([created] + s) <==> !HasId(s, created.id)
  {
    var r := [created] + s;
    if HasId(s, created.id) {
      var i :| 0 <= i < |s| && s[i].id == created.id;
      assert r[0].id == r[i + 1].id;
    }
    if !HasId(s, created.id) {
      forall i, j | 0 <= i < j < |r| ensures r[i].id != r[j].id {
        if i == 0 {
          assert r[j] == s[j - 1];
        } else {
          assert r[i] == s[i - 1] && r[j] == s[j - 1];
        }
      }
    }
  }
}
