/**
 * The `facilityBoxes` table: the query by location, and the admin mutations
 * that create, patch and delete boxes. Deleting a box first deletes the
 * box's variables; when the box itself is missing the handler throws and
 * those deletions are undone with it.
 */
module FacilityBoxes {
  import opened Wrappers
  import opened Seqs
  import opened AgentTypes
  import opened Store
  import opened Helpers
  import FacilityVariables

  // ---------------------------------------------------------------------
  // Queries

  /** The comparator `a.sortOrder - b.sortOrder` on boxes. */
  predicate BoxOrder(a: Doc<FacilityBox>, b: Doc<FacilityBox>) {
    a.fields.sortOrder <= b.fields.sortOrder
  }

  lemma BoxOrderPreorder()
    ensures TotalPreorder(BoxOrder)
  {
  }

  function AtLocale(localeId: Id): Doc<FacilityBox> -> bool {
    (b: Doc<FacilityBox>) => b.fields.geoLocaleId == localeId
  }

  /** `getByGeoLocaleId`: the boxes of a location (index `by_geoLocaleId`), sorted by `sortOrder`. */
  function GetByGeoLocaleId(boxes: Table<FacilityBox>, localeId: Id): (r: seq<Doc<FacilityBox>>)
    ensures Sorted(r, BoxOrder)
  {
    var found := Where(boxes, AtLocale(localeId));
    assert Sorted(SortBy(found, BoxOrder), BoxOrder) by {
      BoxOrderPreorder();
      SortBySorted(found, BoxOrder);
    }
    SortBy(found, BoxOrder)
  }

  /** A box is listed for a location exactly when it is stored with that `geoLocaleId`. */
  lemma GetByGeoLocaleIdMember(boxes: Table<FacilityBox>, localeId: Id, d: Doc<FacilityBox>)
    requires TableValid(boxes)
    ensures d in GetByGeoLocaleId(boxes, localeId)
        <==> d.id in boxes.docs && boxes.docs[d.id] == d.fields && d.fields.geoLocaleId == localeId
  {
    SortByMember(Where(boxes, AtLocale(localeId)), BoxOrder, d);
    WhereMember(boxes, AtLocale(localeId), d);
  }

  /** Boxes with equal `sortOrder` keep their creation order. */
  lemma BoxTiesInCreationOrder(boxes: Table<FacilityBox>, localeId: Id, x: Doc<FacilityBox>)
    ensures Equivalents(GetByGeoLocaleId(boxes, localeId), x, BoxOrder)
         == Equivalents(Where(boxes, AtLocale(localeId)), x, BoxOrder)
  {
    BoxOrderPreorder();
    SortByStable(Where(boxes, AtLocale(localeId)), x, BoxOrder);
  }

  // ---------------------------------------------------------------------
  // Mutations

  datatype BoxError =
    | AdminKeyRejected(reason: AdminKeyError)
    | GeoLocaleNotFound
    | Storage(failure: StoreError)

  /** `adminCreate`: inserts the box when the key is accepted and its location exists. */
  method AdminCreate(db: Db, secret: Option<string>, adminKey: string, data: FacilityBox)
    returns (r: Result<Id, BoxError>)
    requires db.Valid()
    modifies db`boxes
    ensures db.Valid()
    ensures r.Ok? <==> CheckAdminKey(adminKey, secret) == Pass && data.geoLocaleId in db.geoLocales.docs
    ensures CheckAdminKey(adminKey, secret).Fail? ==> r == Err(AdminKeyRejected(CheckAdminKey(adminKey, secret).error))
    ensures CheckAdminKey(adminKey, secret) == Pass && data.geoLocaleId !in db.geoLocales.docs ==> r == Err(GeoLocaleNotFound)
    ensures r.Err? ==> db.boxes == old(db.boxes)
    ensures r.Ok? ==> r.value !in old(db.boxes.docs) && db.boxes.docs == old(db.boxes.docs)[r.value := data]
  {
    var auth := CheckAdminKey(adminKey, secret);
    if auth.Fail? {
      return Err(AdminKeyRejected(auth.error));
    }
    if Get(db.geoLocales, data.geoLocaleId).None? {
      return Err(GeoLocaleNotFound);
    }
    var (t, id) := Insert(db.boxes, data);
    db.boxes := t;
    return Ok(id);
  }

  /** The optional fields of `adminUpdate`; `None` is an omitted field. */
  datatype BoxUpdate = BoxUpdate(
    geoLocaleId: Option<Id>,
    title: Option<string>,
    icon: Option<string>,
    color: Option<string>,
    sortOrder: Option<real>)

  /** `db.patch(id, cleanUpdates)` on a box. */
  function PatchedBox(current: FacilityBox, u: BoxUpdate): FacilityBox {
    FacilityBox(
      Override(u.geoLocaleId, current.geoLocaleId),
      Override(u.title, current.title),
      Override(u.icon, current.icon),
      Override(u.color, current.color),
      Override(u.sortOrder, current.sortOrder))
  }

  /** Omitted fields keep their value, given ones are replaced; the empty patch changes nothing. */
  lemma PatchedBoxFields(current: FacilityBox, u: BoxUpdate)
    ensures PatchedBox(current, u).geoLocaleId == if u.geoLocaleId.Some? then u.geoLocaleId.value else current.geoLocaleId
    ensures PatchedBox(current, u).sortOrder == if u.sortOrder.Some? then u.sortOrder.value else current.sortOrder
    ensures u == BoxUpdate(None, None, None, None, None) ==> PatchedBox(current, u) == current
    ensures PatchedBox(PatchedBox(current, u), u) == PatchedBox(current, u)
  {
  }

  /**
   * `adminUpdate`: checks the key and a given location, then patches; the
   * patch throws when the box does not exist.
   */
  method AdminUpdate(db: Db, secret: Option<string>, adminKey: string, id: Id, u: BoxUpdate)
    returns (r: Result<Id, BoxError>)
    requires db.Valid()
    modifies db`boxes
    ensures db.Valid()
    ensures r.Ok? <==>
      && CheckAdminKey(adminKey, secret) == Pass
      && (u.geoLocaleId.Some? ==> u.geoLocaleId.value in db.geoLocales.docs)
      && id in old(db.boxes.docs)
    ensures r == Err(Storage(NonexistentDocument(id))) <==>
      && CheckAdminKey(adminKey, secret) == Pass
      && (u.geoLocaleId.Some? ==> u.geoLocaleId.value in db.geoLocales.docs)
      && id !in old(db.boxes.docs)
    ensures r.Err? ==> db.boxes == old(db.boxes)
    ensures r.Ok? ==> r.value == id
    ensures r.Ok? ==> db.boxes.docs == old(db.boxes.docs)[id := PatchedBox(old(db.boxes.docs)[id], u)]
  {
    var auth := CheckAdminKey(adminKey, secret);
    if auth.Fail? {
      return Err(AdminKeyRejected(auth.error));
    }
    if u.geoLocaleId.Some? && Get(db.geoLocales, u.geoLocaleId.value).None? {
      return Err(GeoLocaleNotFound);
    }
    var current := Get(db.boxes, id);
    var patched := Replace(db.boxes, id, PatchedBox(current.GetOr(FacilityBox(0, "", "", "", 0.0)), u));
    if patched.Err? {
      return Err(Storage(patched.error));
    }
    db.boxes := patched.value;
    return Ok(id);
  }

  /** The variables left after deleting box `id`. */
  function VariablesWithoutBox(variables: Table<FacilityVariable>, id: Id): map<Id, FacilityVariable> {
    map c | c in variables.docs && variables.docs[c].boxId != id :: variables.docs[c]
  }

  /**
   * `adminDelete`: deletes the box's variables, then the box. A missing box
   * makes the last delete throw, and then no variable is deleted either.
   */
  method AdminDelete(db: Db, secret: Option<string>, adminKey: string, id: Id)
    returns (r: Result<Id, BoxError>)
    requires db.Valid()
    modifies db`boxes, db`variables
    ensures db.Valid()
    ensures r.Ok? <==> CheckAdminKey(adminKey, secret) == Pass && id in old(db.boxes.docs)
    ensures CheckAdminKey(adminKey, secret).Fail? ==> r == Err(AdminKeyRejected(CheckAdminKey(adminKey, secret).error))
    ensures r.Ok? ==> r.value == id && db.boxes.docs == old(db.boxes.docs) - {id}
    ensures r.Ok? ==> db.variables.docs == VariablesWithoutBox(old(db.variables), id)
    ensures r.Err? ==> db.boxes == old(db.boxes) && db.variables == old(db.variables)
  {
    var auth := CheckAdminKey(adminKey, secret);
    if auth.Fail? {
      return Err(AdminKeyRejected(auth.error));
    }
    var saved := db.variables;
    var contained := Where(db.variables, FacilityVariables.InBox(id));
    FacilityVariables.DeleteVariables(db, contained);
    forall c ensures c in IdsOf(contained) <==> c in saved.docs && saved.docs[c].boxId == id {
      if c in saved.docs {
        WhereMember(saved, FacilityVariables.InBox(id), Doc(c, saved.docs[c]));
      }
    }
    var last := Delete(db.boxes, id);
    if last.Err? {
      db.variables := saved;
      return Err(Storage(last.error));
    }
    db.boxes := last.value;
    assert db.variables.docs == VariablesWithoutBox(saved, id);
    return Ok(id);
  }
}
