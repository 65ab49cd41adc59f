/**
 * The `facilityVariables` table: the queries by box, id and key, and the
 * admin mutations that create, patch and delete variables. Every mutation
 * checks the admin key first; a mutation that throws leaves the table as it
 * was.
 */
module FacilityVariables {
  import opened Wrappers
  import opened Seqs
  import opened AgentTypes
  import opened Store
  import opened JsText
  import opened Helpers

  // ---------------------------------------------------------------------
  // Queries

  /** The comparator `a.sortOrder - b.sortOrder` on variables. */
  predicate VariableOrder(a: Doc<FacilityVariable>, b: Doc<FacilityVariable>) {
    a.fields.sortOrder <= b.fields.sortOrder
  }

  lemma VariableOrderPreorder()
    ensures TotalPreorder(VariableOrder)
  {
  }

  function InBox(boxId: Id): Doc<FacilityVariable> -> bool {
    (v: Doc<FacilityVariable>) => v.fields.boxId == boxId
  }

  /** `getByBoxId`: the variables of a box (index `by_boxId`), sorted by `sortOrder`. */
  function GetByBoxId(variables: Table<FacilityVariable>, boxId: Id): (r: seq<Doc<FacilityVariable>>)
    ensures Sorted(r, VariableOrder)
  {
    var found := Where(variables, InBox(boxId));
    assert Sorted(SortBy(found, VariableOrder), VariableOrder) by {
      VariableOrderPreorder();
      SortBySorted(found, VariableOrder);
    }
    SortBy(found, VariableOrder)
  }

  /** A variable is listed for a box exactly when it is stored with that `boxId`. */
  lemma GetByBoxIdMember(variables: Table<FacilityVariable>, boxId: Id, d: Doc<FacilityVariable>)
    requires TableValid(variables)
    ensures d in GetByBoxId(variables, boxId)
        <==> d.id in variables.docs && variables.docs[d.id] == d.fields && d.fields.boxId == boxId
  {
    SortByMember(Where(variables, InBox(boxId)), VariableOrder, d);
    WhereMember(variables, InBox(boxId), d);
  }

  function HasKey(key: string): Doc<FacilityVariable> -> bool {
    (v: Doc<FacilityVariable>) => v.fields.key == key
  }

  /** `getByKey` (index `by_key`): the variables with that key, in creation order. */
  function GetByKey(variables: Table<FacilityVariable>, key: string): (r: seq<Doc<FacilityVariable>>)
    ensures forall i :: 0 <= i < |r| ==> r[i].fields.key == key && r[i].id in variables.docs
    ensures forall i, j :: 0 <= i < j < |r| ==> r[i].id < r[j].id
  {
    Where(variables, HasKey(key))
  }

  lemma GetByKeyMember(variables: Table<FacilityVariable>, key: string, d: Doc<FacilityVariable>)
    requires TableValid(variables)
    ensures d in GetByKey(variables, key)
        <==> d.id in variables.docs && variables.docs[d.id] == d.fields && d.fields.key == key
  {
    WhereMember(variables, HasKey(key), d);
  }

  // ---------------------------------------------------------------------
  // Validation shared by the mutations

  const VARIABLE_TYPES: seq<string> := ["text", "email", "number", "coordinates", "nested"]

  datatype VariableError =
    | AdminKeyRejected(reason: AdminKeyError)
    | BoxNotFound
    | VariableNotFound
    | ParentNotFound
    | ParentInOtherBox
    | SelfParent
    | InvalidType
    | NestedWithValue
    | Storage(failure: StoreError)

  /**
   * Every stored parent link names an id handed out earlier, and when that
   * parent is still stored it is in the child's own box.
   */
  ghost predicate ParentsInOwnBox(variables: Table<FacilityVariable>) {
    forall c | c in variables.docs && variables.docs[c].parentVariableId.Some?
      :: && variables.docs[c].parentVariableId.value < variables.next
         && (variables.docs[c].parentVariableId.value in variables.docs ==>
               variables.docs[variables.docs[c].parentVariableId.value].boxId == variables.docs[c].boxId)
  }

  // ---------------------------------------------------------------------
  // adminCreate

  /** The checks of `adminCreate`, in the order the handler makes them. */
  function CreateCheck(secret: Option<string>, adminKey: string, boxes: Table<FacilityBox>,
                       variables: Table<FacilityVariable>, data: FacilityVariable): (r: Outcome<VariableError>)
    ensures r == Pass <==>
      && CheckAdminKey(adminKey, secret) == Pass
      && data.boxId in boxes.docs
      && (data.parentVariableId.Some? ==>
            data.parentVariableId.value in variables.docs
            && variables.docs[data.parentVariableId.value].boxId == data.boxId)
      && data.kind in VARIABLE_TYPES
      && !(data.kind == "nested" && data.value.Some?)
    ensures CheckAdminKey(adminKey, secret).Fail? ==> r == Fail(AdminKeyRejected(CheckAdminKey(adminKey, secret).error))
    ensures r == Fail(ParentInOtherBox) ==>
      data.parentVariableId.Some? && data.parentVariableId.value in variables.docs
      && variables.docs[data.parentVariableId.value].boxId != data.boxId
    ensures r == Fail(NestedWithValue) ==> data.kind == "nested" && data.value.Some?
  {
    var auth := CheckAdminKey(adminKey, secret);
    if auth.Fail? then Fail(AdminKeyRejected(auth.error))
    else if data.boxId !in boxes.docs then Fail(BoxNotFound)
    else if data.parentVariableId.Some? && data.parentVariableId.value !in variables.docs then Fail(ParentNotFound)
    else if data.parentVariableId.Some? && variables.docs[data.parentVariableId.value].boxId != data.boxId
    then Fail(ParentInOtherBox)
    else if data.kind !in VARIABLE_TYPES then Fail(InvalidType)
    else if data.kind == "nested" && data.value.Some? then Fail(NestedWithValue)
    else Pass
  }

  /** `adminCreate`: inserts the record once every check passes. */
  method AdminCreate(db: Db, secret: Option<string>, adminKey: string, data: FacilityVariable)
    returns (r: Result<Id, VariableError>)
    requires db.Valid()
    modifies db`variables
    ensures db.Valid()
    ensures r.Ok? <==> CreateCheck(secret, adminKey, db.boxes, old(db.variables), data) == Pass
    ensures r.Err? ==> r.error == CreateCheck(secret, adminKey, db.boxes, old(db.variables), data).error
    ensures r.Err? ==> db.variables == old(db.variables)
    ensures r.Ok? ==> r.value !in old(db.variables.docs) && db.variables.docs == old(db.variables.docs)[r.value := data]
  {
    var check := CreateCheck(secret, adminKey, db.boxes, db.variables, data);
    if check.Fail? {
      return Err(check.error);
    }
    var (t, id) := Insert(db.variables, data);
    db.variables := t;
    return Ok(id);
  }

  /** A created variable's parent is in its own box, so the link invariant is kept. */
  lemma CreateKeepsParentsInOwnBox(secret: Option<string>, adminKey: string, boxes: Table<FacilityBox>,
                                   variables: Table<FacilityVariable>, data: FacilityVariable)
    requires TableValid(variables) && ParentsInOwnBox(variables)
    requires CreateCheck(secret, adminKey, boxes, variables, data) == Pass
    ensures ParentsInOwnBox(Insert(variables, data).0)
  {
    var (t, id) := Insert(variables, data);
    forall c | c in t.docs && t.docs[c].parentVariableId.Some?
      ensures t.docs[c].parentVariableId.value < t.next
      ensures t.docs[c].parentVariableId.value in t.docs ==>
                t.docs[t.docs[c].parentVariableId.value].boxId == t.docs[c].boxId
    {
      var p := t.docs[c].parentVariableId.value;
      if c == id {
        assert p in variables.docs && t.docs[p] == variables.docs[p];
      } else {
        assert t.docs[c] == variables.docs[c];
        assert p < variables.next && p != id;
        if p in variables.docs {
          assert variables.docs[p].boxId == variables.docs[c].boxId;
        }
      }
    }
  }

  // ---------------------------------------------------------------------
  // adminUpdate

  /** The optional fields of `adminUpdate`; `None` is an omitted field. */
  datatype VariableUpdate = VariableUpdate(
    boxId: Option<Id>,
    key: Option<string>,
    displayLabel: Option<string>,
    kind: Option<string>,
    value: Option<VariableValue>,
    sortOrder: Option<real>,
    parentVariableId: Option<Id>,
    unit: Option<string>,
    unitCategory: Option<string>)

  /** `db.patch(id, cleanUpdates)`: the fields given replace the stored ones. */
  function Patched(current: FacilityVariable, u: VariableUpdate): FacilityVariable {
    FacilityVariable(
      Override(u.boxId, current.boxId),
      Override(u.key, current.key),
      Override(u.displayLabel, current.displayLabel),
      Override(u.kind, current.kind),
      OverrideOptional(u.value, current.value),
      Override(u.sortOrder, current.sortOrder),
      OverrideOptional(u.parentVariableId, current.parentVariableId),
      OverrideOptional(u.unit, current.unit),
      OverrideOptional(u.unitCategory, current.unitCategory))
  }

  /** Given fields take the new value, omitted fields keep the old one. */
  lemma PatchedFields(current: FacilityVariable, u: VariableUpdate)
    ensures Patched(current, u).boxId == if u.boxId.Some? then u.boxId.value else current.boxId
    ensures Patched(current, u).kind == if u.kind.Some? then u.kind.value else current.kind
    ensures u.value.None? ==> Patched(current, u).value == current.value
    ensures u.value.Some? ==> Patched(current, u).value == u.value
    ensures Patched(current, u).parentVariableId
         == if u.parentVariableId.Some? then u.parentVariableId else current.parentVariableId
    ensures u == VariableUpdate(None, None, None, None, None, None, None, None, None) ==> Patched(current, u) == current
  {
  }

  /** Applying the same patch twice is applying it once. */
  lemma PatchedIdempotent(current: FacilityVariable, u: VariableUpdate)
    ensures Patched(Patched(current, u), u) == Patched(current, u)
  {
  }

  /** The checks of `adminUpdate`, in the order the handler makes them. */
  function UpdateCheck(secret: Option<string>, adminKey: string, boxes: Table<FacilityBox>,
                       variables: Table<FacilityVariable>, id: Id, u: VariableUpdate): (r: Outcome<VariableError>)
    ensures r == Pass <==>
      && CheckAdminKey(adminKey, secret) == Pass
      && id in variables.docs
      && (u.boxId.Some? ==> u.boxId.value in boxes.docs)
      && (u.parentVariableId.Some? ==>
            && u.parentVariableId.value in variables.docs
            && variables.docs[u.parentVariableId.value].boxId == Override(u.boxId, variables.docs[id].boxId)
            && u.parentVariableId.value != id)
      && (Truthy(u.kind) ==> u.kind.value in VARIABLE_TYPES)
    ensures CheckAdminKey(adminKey, secret).Fail? ==> r == Fail(AdminKeyRejected(CheckAdminKey(adminKey, secret).error))
    ensures r == Fail(SelfParent) ==> u.parentVariableId == Some(id)
  {
    var auth := CheckAdminKey(adminKey, secret);
    if auth.Fail? then Fail(AdminKeyRejected(auth.error))
    else if id !in variables.docs then Fail(VariableNotFound)
    else if u.boxId.Some? && u.boxId.value !in boxes.docs then Fail(BoxNotFound)
    else if u.parentVariableId.Some? && u.parentVariableId.value !in variables.docs then Fail(ParentNotFound)
    else if u.parentVariableId.Some?
         && variables.docs[u.parentVariableId.value].boxId != Override(u.boxId, variables.docs[id].boxId)
    then Fail(ParentInOtherBox)
    else if u.parentVariableId.Some? && u.parentVariableId.value == id then Fail(SelfParent)
    else if Truthy(u.kind) && u.kind.value !in VARIABLE_TYPES then Fail(InvalidType)
    else Pass
  }

  /** `adminUpdate`: patches the stored variable once every check passes. */
  method AdminUpdate(db: Db, secret: Option<string>, adminKey: string, id: Id, u: VariableUpdate)
    returns (r: Result<Id, VariableError>)
    requires db.Valid()
    modifies db`variables
    ensures db.Valid()
    ensures r.Ok? <==> UpdateCheck(secret, adminKey, db.boxes, old(db.variables), id, u) == Pass
    ensures r.Err? ==> r.error == UpdateCheck(secret, adminKey, db.boxes, old(db.variables), id, u).error
    ensures r.Err? ==> db.variables == old(db.variables)
    ensures r.Ok? ==> r.value == id
    ensures r.Ok? ==> db.variables.docs == old(db.variables.docs)[id := Patched(old(db.variables.docs)[id], u)]
  {
    var check := UpdateCheck(secret, adminKey, db.boxes, db.variables, id, u);
    if check.Fail? {
      return Err(check.error);
    }
    var patched := Replace(db.variables, id, Patched(db.variables.docs[id], u));
    db.variables := patched.value;
    return Ok(id);
  }

  /** A parent given in the update is in the variable's (new) box and is not the variable itself. */
  lemma UpdatedParentIsSound(secret: Option<string>, adminKey: string, boxes: Table<FacilityBox>,
                             variables: Table<FacilityVariable>, id: Id, u: VariableUpdate)
    requires UpdateCheck(secret, adminKey, boxes, variables, id, u) == Pass
    requires u.parentVariableId.Some?
    ensures Patched(variables.docs[id], u).parentVariableId != Some(id)
    ensures variables.docs[u.parentVariableId.value].boxId == Patched(variables.docs[id], u).boxId
  {
  }

  /**
   * Moving a child to another box without naming its parent passes every
   * check and leaves it pointing at a parent in the old box.
   */
  lemma MoveWithoutParentSplitsLink()
    ensures var boxes := Table(map[0 := FacilityBox(0, "A", "", "", 0.0), 1 := FacilityBox(0, "B", "", "", 1.0)], 2);
      var parent := FacilityVariable(0, "p", "P", "nested", None, 0.0, None, None, None);
      var child := FacilityVariable(0, "c", "C", "text", None, 1.0, Some(0), None, None);
      var variables := Table(map[0 := parent, 1 := child], 2);
      var u := VariableUpdate(Some(1), None, None, None, None, None, None, None, None);
      && ParentsInOwnBox(variables)
      && UpdateCheck(Some("k"), "k", boxes, variables, 1, u) == Pass
      && !ParentsInOwnBox(Table(variables.docs[1 := Patched(child, u)], 2))
  {
    var boxes := Table(map[0 := FacilityBox(0, "A", "", "", 0.0), 1 := FacilityBox(0, "B", "", "", 1.0)], 2);
    var parent := FacilityVariable(0, "p", "P", "nested", None, 0.0, None, None, None);
    var child := FacilityVariable(0, "c", "C", "text", None, 1.0, Some(0), None, None);
    var variables := Table(map[0 := parent, 1 := child], 2);
    var u := VariableUpdate(Some(1), None, None, None, None, None, None, None, None);
    assert ParentsInOwnBox(variables) by {
      forall c | c in variables.docs && variables.docs[c].parentVariableId.Some?
        ensures variables.docs[c].parentVariableId.value < variables.next
        ensures variables.docs[variables.docs[c].parentVariableId.value].boxId == variables.docs[c].boxId
      {
        assert c == 1;
      }
    }
    assert CheckAdminKey("k", Some("k")) == Pass;
    var moved := Table(variables.docs[1 := Patched(child, u)], 2);
    assert moved.docs[1].parentVariableId == Some(0) && moved.docs[0].boxId != moved.docs[1].boxId;
  }

  // ---------------------------------------------------------------------
  // Deleting variables

  /**
   * `for (...) await ctx.db.delete(v._id)` over collected variables: ids
   * strictly increasing, so each is still stored when its turn comes.
   */
  method DeleteVariables(db: Db, ds: seq<Doc<FacilityVariable>>)
    requires TableValid(db.variables)
    requires forall i :: 0 <= i < |ds| ==> ds[i].id in db.variables.docs
    requires forall i, j :: 0 <= i < j < |ds| ==> ds[i].id < ds[j].id
    modifies db`variables
    ensures TableValid(db.variables) && db.variables.next == old(db.variables.next)
    ensures db.variables.docs == old(db.variables.docs) - IdsOf(ds)
  {
    ghost var start := db.variables.docs;
    for i := 0 to |ds|
      invariant TableValid(db.variables) && db.variables.next == old(db.variables.next)
      invariant db.variables.docs == start - IdsOf(ds[..i])
    {
      assert ds[i].id !in IdsOf(ds[..i]);
      var deleted := Delete(db.variables, ds[i].id);
      db.variables := deleted.value;
      assert IdsOf(ds[..i + 1]) == IdsOf(ds[..i]) + {ds[i].id} by {
        assert ds[..i + 1] == ds[..i] + [ds[i]];
      }
    }
    assert ds[..|ds|] == ds;
  }

  function ChildOf(id: Id): Doc<FacilityVariable> -> bool {
    (v: Doc<FacilityVariable>) => v.fields.parentVariableId == Some(id)
  }

  /** The table after a successful `adminDelete`: the variable and its direct children are gone. */
  function AfterDelete(variables: Table<FacilityVariable>, id: Id): map<Id, FacilityVariable> {
    map c | c in variables.docs && c != id && variables.docs[c].parentVariableId != Some(id) :: variables.docs[c]
  }

  /**
   * `adminDelete`: deletes the direct children, then the variable itself.
   * The last delete throws when the variable is missing or was its own
   * child, and then nothing is deleted.
   */
  method AdminDelete(db: Db, secret: Option<string>, adminKey: string, id: Id)
    returns (r: Result<Id, VariableError>)
    requires db.Valid()
    modifies db`variables
    ensures db.Valid()
    ensures r.Ok? <==>
      CheckAdminKey(adminKey, secret) == Pass && id in old(db.variables.docs)
      && old(db.variables.docs)[id].parentVariableId != Some(id)
    ensures r.Ok? ==> r.value == id && db.variables.docs == AfterDelete(old(db.variables), id)
    ensures r.Err? ==> db.variables == old(db.variables)
    ensures CheckAdminKey(adminKey, secret).Fail? ==> r == Err(AdminKeyRejected(CheckAdminKey(adminKey, secret).error))
  {
    var auth := CheckAdminKey(adminKey, secret);
    if auth.Fail? {
      return Err(AdminKeyRejected(auth.error));
    }
    var saved := db.variables;
    var children := Where(db.variables, ChildOf(id));
    DeleteVariables(db, children);
    forall c ensures c in IdsOf(children) <==> c in saved.docs && saved.docs[c].parentVariableId == Some(id) {
      if c in saved.docs {
        WhereMember(saved, ChildOf(id), Doc(c, saved.docs[c]));
      }
    }
    var last := Delete(db.variables, id);
    if last.Err? {
      db.variables := saved;
      return Err(Storage(last.error));
    }
    db.variables := last.value;
    assert db.variables.docs == AfterDelete(saved, id);
    return Ok(id);
  }

  /** Only direct children go: a grandchild stays, now pointing at a missing parent. */
  lemma GrandchildSurvives(variables: Table<FacilityVariable>, id: Id, child: Id, grandchild: Id)
    requires id in variables.docs && child in variables.docs && grandchild in variables.docs
    requires variables.docs[child].parentVariableId == Some(id)
    requires variables.docs[grandchild].parentVariableId == Some(child)
    requires child != id && grandchild != id
    ensures grandchild in AfterDelete(variables, id)
    ensures child !in AfterDelete(variables, id)
    ensures AfterDelete(variables, id)[grandchild].parentVariableId.value !in AfterDelete(variables, id)
  {
  }

  /** After the delete no stored variable names the deleted one as its parent. */
  lemma NoChildLeft(variables: Table<FacilityVariable>, id: Id, c: Id)
    requires c in AfterDelete(variables, id)
    ensures AfterDelete(variables, id)[c].parentVariableId != Some(id)
    ensures c in variables.docs && AfterDelete(variables, id)[c] == variables.docs[c]
  {
  }
}
