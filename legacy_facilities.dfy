/**
 * The legacy `facilities` table behind the plain map: the filtered,
 * name-sorted list, lookup by id, the batch upsert keyed by `externalId`,
 * and the delete-everything helper.
 */
module LegacyFacilities {
  import opened Wrappers
  import opened Seqs
  import opened JsText
  import opened Store

  // ---------------------------------------------------------------------
  // list

  /** The comparator `a.name.localeCompare(b.name)`. */
  predicate ByFacilityName(a: Doc<FacilityDoc>, b: Doc<FacilityDoc>) {
    NameLe(a.fields.name, b.fields.name)
  }

  lemma ByFacilityNamePreorder()
    ensures TotalPreorder(ByFacilityName)
  {
    forall a: Doc<FacilityDoc>, b: Doc<FacilityDoc> ensures ByFacilityName(a, b) || ByFacilityName(b, a) {
      NameLeTotal(a.fields.name, b.fields.name);
    }
    forall a: Doc<FacilityDoc>, b: Doc<FacilityDoc>, c: Doc<FacilityDoc> | ByFacilityName(a, b) && ByFacilityName(b, c)
      ensures ByFacilityName(a, c)
    {
      NameLeTransitive(a.fields.name, b.fields.name, c.fields.name);
    }
  }

  /** The `by_category` index lookup. */
  function InCategory(category: string): Doc<FacilityDoc> -> bool {
    (d: Doc<FacilityDoc>) => d.fields.category == Some(category)
  }

  /** The lower-cased needle occurs in the lower-cased name or in a present address. */
  predicate NameOrAddressHit(f: FacilityDoc, needle: string) {
    Contains(Lower(f.name), needle) || (f.address.Some? && Contains(Lower(f.address.value), needle))
  }

  function HitsNeedle(needle: string): Doc<FacilityDoc> -> bool {
    (d: Doc<FacilityDoc>) => NameOrAddressHit(d.fields, needle)
  }

  /** The documents `list` keeps, in storage order, before the sort. */
  function Listed(t: Table<FacilityDoc>, category: Option<string>, search: Option<string>): seq<Doc<FacilityDoc>> {
    var docs := if Truthy(category) then Where(t, InCategory(category.value)) else Collect(t);
    var needle := if search.Some? then Some(Lower(search.value)) else None;
    if Truthy(needle) then Filter(docs, HitsNeedle(needle.value)) else docs
  }

  /** `list`: the kept documents sorted by name. */
  function ListFacilities(t: Table<FacilityDoc>, category: Option<string>, search: Option<string>): (r: seq<Doc<FacilityDoc>>)
    ensures Sorted(r, ByFacilityName)
  {
    var kept := Listed(t, category, search);
    assert Sorted(SortBy(kept, ByFacilityName), ByFacilityName) by {
      ByFacilityNamePreorder();
      SortBySorted(kept, ByFacilityName);
    }
    SortBy(kept, ByFacilityName)
  }

  /**
   * A document is listed exactly when it is stored, has the given category
   * (when one is given) and, for a non-empty search, matches on name or on
   * an address it has.
   */
  lemma ListMember(t: Table<FacilityDoc>, category: Option<string>, search: Option<string>, d: Doc<FacilityDoc>)
    requires TableValid(t)
    ensures d in ListFacilities(t, category, search) <==>
      && d.id in t.docs && t.docs[d.id] == d.fields
      && (Truthy(category) ==> d.fields.category == Some(category.value))
      && (Truthy(search) ==> NameOrAddressHit(d.fields, Lower(search.value)))
  {
    var docs := if Truthy(category) then Where(t, InCategory(category.value)) else Collect(t);
    SortByMember(Listed(t, category, search), ByFacilityName, d);
    if Truthy(category) {
      WhereMember(t, InCategory(category.value), d);
    } else {
      CollectMember(t, d);
    }
    if search.Some? {
      FilterMember(docs, HitsNeedle(Lower(search.value)), d);
    }
  }

  /** Documents with equal names keep their storage order (the sort is stable). */
  lemma ListTiesInStorageOrder(t: Table<FacilityDoc>, category: Option<string>, search: Option<string>, x: Doc<FacilityDoc>)
    ensures Equivalents(ListFacilities(t, category, search), x, ByFacilityName)
         == Equivalents(Listed(t, category, search), x, ByFacilityName)
  {
    ByFacilityNamePreorder();
    SortByStable(Listed(t, category, search), x, ByFacilityName);
  }

  // ---------------------------------------------------------------------
  // upsertMany

  /** One element of the `facilities` argument. */
  datatype FacilityInput = FacilityInput(
    name: string,
    lat: real,
    lng: real,
    category: Option<string>,
    address: Option<string>,
    phone: Option<string>,
    website: Option<string>,
    description: Option<string>,
    tags: Option<seq<string>>,
    externalId: Option<string>)

  /** `{ ...f, updatedAt: now }` as a new document. */
  function NewFacility(f: FacilityInput, now: int): FacilityDoc {
    FacilityDoc(f.name, f.lat, f.lng, f.category, f.address, f.phone, f.website, f.description, f.tags, f.externalId, now)
  }

  /** `db.patch(id, { ...f, updatedAt: now })`: fields the row omits keep their value. */
  function PatchedFacility(current: FacilityDoc, f: FacilityInput, now: int): FacilityDoc {
    FacilityDoc(f.name, f.lat, f.lng,
      OverrideOptional(f.category, current.category),
      OverrideOptional(f.address, current.address),
      OverrideOptional(f.phone, current.phone),
      OverrideOptional(f.website, current.website),
      OverrideOptional(f.description, current.description),
      OverrideOptional(f.tags, current.tags),
      OverrideOptional(f.externalId, current.externalId),
      now)
  }

  function HasExternalId(e: string): Doc<FacilityDoc> -> bool {
    (d: Doc<FacilityDoc>) => d.fields.externalId == Some(e)
  }

  /** The document a row is written onto: the first one with its (non-empty) `externalId`. */
  function Target(t: Table<FacilityDoc>, f: FacilityInput): Option<Doc<FacilityDoc>> {
    if Truthy(f.externalId) then First(t, HasExternalId(f.externalId.value)) else None
  }

  /** One turn of the upsert loop. */
  function UpsertOne(t: Table<FacilityDoc>, f: FacilityInput, now: int): (r: Table<FacilityDoc>)
    requires TableValid(t)
    ensures TableValid(r)
  {
    match Target(t, f)
    case Some(d) => Replace(t, d.id, PatchedFacility(d.fields, f, now)).value
    case None => Insert(t, NewFacility(f, now)).0
  }

  /** The table after the first `k` rows. */
  function Upserted(t: Table<FacilityDoc>, fs: seq<FacilityInput>, k: nat, now: int): (r: Table<FacilityDoc>)
    requires k <= |fs| && TableValid(t)
    ensures TableValid(r)
  {
    if k == 0 then t else UpsertOne(Upserted(t, fs, k - 1, now), fs[k - 1], now)
  }

  /** Some stored document carries the external id `e`. */
  predicate Known(t: Table<FacilityDoc>, e: string) {
    exists id :: id in t.docs && t.docs[id].externalId == Some(e)
  }

  /**
   * A row with a known external id patches the first document carrying it
   * and creates none; any other row inserts one new document. Either way the
   * written document is stamped with `now` and nothing else changes.
   */
  lemma UpsertOneEffect(t: Table<FacilityDoc>, f: FacilityInput, now: int)
    requires TableValid(t)
    ensures Target(t, f).None? <==> !Truthy(f.externalId) || !Known(t, f.externalId.value)
    ensures Target(t, f).Some? ==>
      var id := Target(t, f).value.id;
      && id in t.docs && t.docs[id].externalId == f.externalId
      && UpsertOne(t, f, now).docs == t.docs[id := PatchedFacility(t.docs[id], f, now)]
      && |UpsertOne(t, f, now).docs| == |t.docs|
    ensures Target(t, f).None? ==>
      var id := t.next;
      && id !in t.docs
      && UpsertOne(t, f, now).docs == t.docs[id := NewFacility(f, now)]
      && |UpsertOne(t, f, now).docs| == |t.docs| + 1
  {
    if Truthy(f.externalId) {
      var e := f.externalId.value;
      if First(t, HasExternalId(e)).None? {
        forall id | id in t.docs ensures t.docs[id].externalId != Some(e) {
          FirstNoneMeansNoMatch(t, HasExternalId(e), id);
        }
      }
    }
    match Target(t, f)
    case Some(d) =>
      assert t.docs[d.id := PatchedFacility(d.fields, f, now)].Keys == t.docs.Keys;
    case None =>
  }

  /** An external id, once stored, stays stored, and a row's own one is stored after its turn. */
  lemma UpsertOneKnown(t: Table<FacilityDoc>, f: FacilityInput, now: int, e: string)
    requires TableValid(t)
    ensures Known(t, e) ==> Known(UpsertOne(t, f, now), e)
    ensures Truthy(f.externalId) ==> Known(UpsertOne(t, f, now), f.externalId.value)
  {
    UpsertOneEffect(t, f, now);
    var r := UpsertOne(t, f, now);
    if Known(t, e) {
      var id :| id in t.docs && t.docs[id].externalId == Some(e);
      match Target(t, f)
      case Some(d) =>
        if id == d.id {
          assert r.docs[id].externalId == Some(e);
        } else {
          assert r.docs[id] == t.docs[id];
        }
      case None =>
        assert r.docs[id] == t.docs[id];
    }
    if Truthy(f.externalId) {
      match Target(t, f)
      case Some(d) =>
        assert r.docs[d.id].externalId == f.externalId;
      case None =>
        assert r.docs[t.next].externalId == f.externalId;
    }
  }

  /** Every row with a non-empty external id leaves that id stored. */
  lemma {:induction false} UpsertedKnowsBatch(t: Table<FacilityDoc>, fs: seq<FacilityInput>, k: nat, now: int, j: nat)
    requires k <= |fs| && TableValid(t) && j < k && Truthy(fs[j].externalId)
    ensures Known(Upserted(t, fs, k, now), fs[j].externalId.value)
  {
    var e := fs[j].externalId.value;
    UpsertOneKnown(Upserted(t, fs, k - 1, now), fs[k - 1], now, e);
    if j < k - 1 {
      UpsertedKnowsBatch(t, fs, k - 1, now, j);
    }
  }

  /** A row whose external id is stored patches and creates nothing. */
  lemma KnownRowPatches(t: Table<FacilityDoc>, f: FacilityInput, now: int)
    requires TableValid(t) && Truthy(f.externalId) && Known(t, f.externalId.value)
    ensures |UpsertOne(t, f, now).docs| == |t.docs|
  {
    UpsertOneEffect(t, f, now);
  }

  /** A stored external id stays stored through any batch. */
  lemma {:induction false} KnownStaysKnown(t: Table<FacilityDoc>, fs: seq<FacilityInput>, k: nat, now: int, e: string)
    requires k <= |fs| && TableValid(t) && Known(t, e)
    ensures Known(Upserted(t, fs, k, now), e)
  {
    if k > 0 {
      KnownStaysKnown(t, fs, k - 1, now, e);
      UpsertOneKnown(Upserted(t, fs, k - 1, now), fs[k - 1], now, e);
    }
  }

  /** Rows whose external ids are all stored only patch: the document count stays. */
  lemma {:induction false} KnownRowsKeepCount(t: Table<FacilityDoc>, fs: seq<FacilityInput>, k: nat, now: int)
    requires k <= |fs| && TableValid(t)
    requires forall j :: 0 <= j < |fs| ==> Truthy(fs[j].externalId) && Known(t, fs[j].externalId.value)
    ensures |Upserted(t, fs, k, now).docs| == |t.docs|
  {
    if k > 0 {
      KnownRowsKeepCount(t, fs, k - 1, now);
      var f, prev := fs[k - 1], Upserted(t, fs, k - 1, now);
      assert Truthy(f.externalId) && Known(t, f.externalId.value);
      KnownStaysKnown(t, fs, k - 1, now, f.externalId.value);
      KnownRowPatches(prev, f, now);
      assert Upserted(t, fs, k, now) == UpsertOne(prev, f, now);
    }
  }

  /** Re-running a batch whose rows all carry an external id creates no document. */
  lemma RerunKeepsCount(t: Table<FacilityDoc>, fs: seq<FacilityInput>, now: int, later: int)
    requires TableValid(t)
    requires forall j :: 0 <= j < |fs| ==> Truthy(fs[j].externalId)
    ensures var once := Upserted(t, fs, |fs|, now);
      |Upserted(once, fs, |fs|, later).docs| == |once.docs|
  {
    var once := Upserted(t, fs, |fs|, now);
    forall j | 0 <= j < |fs| ensures Known(once, fs[j].externalId.value) {
      UpsertedKnowsBatch(t, fs, |fs|, now, j);
    }
    KnownRowsKeepCount(once, fs, |fs|, later);
  }

  /** Rows without an external id always insert: re-running them duplicates every one. */
  lemma {:induction false} AnonymousRowsInsert(t: Table<FacilityDoc>, fs: seq<FacilityInput>, k: nat, now: int)
    requires k <= |fs| && TableValid(t)
    requires forall j :: 0 <= j < |fs| ==> !Truthy(fs[j].externalId)
    ensures |Upserted(t, fs, k, now).docs| == |t.docs| + k
  {
    if k > 0 {
      AnonymousRowsInsert(t, fs, k - 1, now);
      UpsertOneEffect(Upserted(t, fs, k - 1, now), fs[k - 1], now);
    }
  }

  /** A batch of `k` rows adds between none and `k` documents. */
  lemma {:induction false} UpsertedSize(t: Table<FacilityDoc>, fs: seq<FacilityInput>, k: nat, now: int)
    requires k <= |fs| && TableValid(t)
    ensures |t.docs| <= |Upserted(t, fs, k, now).docs| <= |t.docs| + k
  {
    if k > 0 {
      UpsertedSize(t, fs, k - 1, now);
      UpsertOneEffect(Upserted(t, fs, k - 1, now), fs[k - 1], now);
    }
  }

  datatype UpsertResult = UpsertResult(ok: bool, upserted: nat)

  /** `upsertMany`: one patch or insert per row, in order; `upserted` is the number of rows. */
  method UpsertMany(db: Db, fs: seq<FacilityInput>, now: int) returns (r: UpsertResult)
    requires db.Valid()
    modifies db`facilities
    ensures db.Valid()
    ensures db.facilities == Upserted(old(db.facilities), fs, |fs|, now)
    ensures r == UpsertResult(true, |fs|)
  {
    ghost var start := db.facilities;
    for i := 0 to |fs|
      invariant db.Valid()
      invariant db.facilities == Upserted(start, fs, i, now)
    {
      var f := fs[i];
      ghost var before := db.facilities;
      if Truthy(f.externalId) {
        var existing := First(db.facilities, HasExternalId(f.externalId.value));
        if existing.Some? {
          var patched := Replace(db.facilities, existing.value.id, PatchedFacility(existing.value.fields, f, now));
          db.facilities := patched.value;
          assert db.facilities == UpsertOne(before, f, now);
          continue;
        }
      }
      var (t, _) := Insert(db.facilities, NewFacility(f, now));
      db.facilities := t;
      assert db.facilities == UpsertOne(before, f, now);
    }
    return UpsertResult(true, |fs|);
  }

  // ---------------------------------------------------------------------
  // deleteAll

  /** `deleteAll`: deletes every document one by one and reports how many there were. */
  method DeleteAll(db: Db) returns (count: nat)
    requires db.Valid()
    modifies db`facilities
    ensures db.Valid()
    ensures db.facilities.docs == map[] && db.facilities.next == old(db.facilities.next)
    ensures count == |old(db.facilities.docs)|
  {
    ghost var start := db.facilities;
    var all := Collect(db.facilities);
    for i := 0 to |all|
      invariant db.Valid()
      invariant db.facilities.next == start.next
      invariant db.facilities.docs == start.docs - IdsOf(all[..i])
    {
      CollectStep(start, i);
      var removed := Delete(db.facilities, all[i].id);
      db.facilities := removed.value;
    }
    IdsOfCollect(start);
    CollectSize(start);
    assert all[..|all|] == all;
    count := |all|;
  }
}
