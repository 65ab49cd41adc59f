/**
 * The Convex database (`ctx.db`) as the model sees it: one table per
 * collection, each a map from document id to record plus the id the next
 * insert receives. Ids grow with creation time, so a query's `collect()` and
 * an index lookup with equal keys list documents in ascending id order, and
 * `.first()` is the lowest matching id. `patch` and `delete` of an id that is
 * not in the table fail, and a mutation that fails commits none of its writes.
 */
module Store {
  import opened Wrappers
  import opened Seqs
  import opened AgentTypes

  // ---------------------------------------------------------------------
  // Records of the tables

  /** A facility location (`geoLocales`). */
  datatype GeoLocale = GeoLocale(
    name: string,
    kind: string,
    region: string,
    coordinates: Coordinates,
    description: string,
    isActive: bool)

  /** A UI section of a facility (`facilityBoxes`). */
  datatype FacilityBox = FacilityBox(
    geoLocaleId: Id,
    title: string,
    icon: string,
    color: string,
    sortOrder: real)

  /** `v.union(v.string(), v.number())` */
  datatype VariableValue = Text(text: string) | Number(number: real)

  /** An attribute row inside a box (`facilityVariables`). */
  datatype FacilityVariable = FacilityVariable(
    boxId: Id,
    key: string,
    displayLabel: string,
    kind: string,
    value: Option<VariableValue>,
    sortOrder: real,
    parentVariableId: Option<Id>,
    unit: Option<string>,
    unitCategory: Option<string>)

  /** A row of the legacy `facilities` table. */
  datatype FacilityDoc = FacilityDoc(
    name: string,
    lat: real,
    lng: real,
    category: Option<string>,
    address: Option<string>,
    phone: Option<string>,
    website: Option<string>,
    description: Option<string>,
    tags: Option<seq<string>>,
    externalId: Option<string>,
    updatedAt: int)

  // ---------------------------------------------------------------------
  // Tables

  datatype Table<R> = Table(docs: map<Id, R>, next: Id)

  /** A document as a query returns it: its `_id` and its fields. */
  datatype Doc<R> = Doc(id: Id, fields: R)

  /** Every stored id was handed out before `next`. */
  predicate TableValid<R>(t: Table<R>) {
    forall id | id in t.docs :: id < t.next
  }

  function EmptyTable<R>(): (t: Table<R>)
    ensures TableValid(t) && t.docs == map[]
  {
    Table(map[], 0)
  }

  /** `db.get(id)` */
  function Get<R>(t: Table<R>, id: Id): (r: Option<R>)
    ensures r.Some? <==> id in t.docs
    ensures r.Some? ==> r.value == t.docs[id]
  {
    if id in t.docs then Some(t.docs[id]) else None
  }

  /** `db.insert(record)`: the new document gets the next id. */
  function Insert<R>(t: Table<R>, record: R): (res: (Table<R>, Id))
    requires TableValid(t)
    ensures TableValid(res.0)
    ensures res.1 !in t.docs && res.1 >= t.next
    ensures res.0.docs == t.docs[res.1 := record]
  {
    (Table(t.docs[t.next := record], t.next + 1), t.next)
  }

  datatype StoreError = NonexistentDocument(id: Id)

  /** `db.patch` / `db.replace` with the already merged record; fails on a missing id. */
  function Replace<R>(t: Table<R>, id: Id, record: R): (r: Result<Table<R>, StoreError>)
    requires TableValid(t)
    ensures r.Ok? <==> id in t.docs
    ensures r.Ok? ==> TableValid(r.value) && r.value.docs == t.docs[id := record]
    ensures r.Err? ==> r.error == NonexistentDocument(id)
  {
    if id in t.docs then Ok(Table(t.docs[id := record], t.next)) else Err(NonexistentDocument(id))
  }

  /** `db.delete(id)`; fails on a missing id. */
  function Delete<R>(t: Table<R>, id: Id): (r: Result<Table<R>, StoreError>)
    requires TableValid(t)
    ensures r.Ok? <==> id in t.docs
    ensures r.Ok? ==> TableValid(r.value) && r.value.docs == t.docs - {id} && r.value.next == t.next
    ensures r.Err? ==> r.error == NonexistentDocument(id)
  {
    if id in t.docs then Ok(Table(t.docs - {id}, t.next)) else Err(NonexistentDocument(id))
  }

  // ---------------------------------------------------------------------
  // Collect

  /** The documents with an id below `n`, in ascending id order. */
  function CollectBelow<R>(docs: map<Id, R>, n: nat): (r: seq<Doc<R>>)
    ensures forall i :: 0 <= i < |r| ==> r[i].id < n && r[i].id in docs && docs[r[i].id] == r[i].fields
    ensures forall i, j :: 0 <= i < j < |r| ==> r[i].id < r[j].id
  {
    if n == 0 then []
    else CollectBelow(docs, n - 1) + (if n - 1 in docs then [Doc(n - 1, docs[n - 1])] else [])
  }

  /** `db.query(table).collect()`: every document once, in creation order. */
  function Collect<R>(t: Table<R>): (r: seq<Doc<R>>)
    ensures forall i :: 0 <= i < |r| ==> r[i].id in t.docs && t.docs[r[i].id] == r[i].fields
    ensures forall i, j :: 0 <= i < j < |r| ==> r[i].id < r[j].id
  {
    CollectBelow(t.docs, t.next)
  }

  lemma {:induction false} CollectBelowComplete<R>(docs: map<Id, R>, n: nat, id: Id)
    requires id in docs && id < n
    ensures Doc(id, docs[id]) in CollectBelow(docs, n)
  {
    if id < n - 1 {
      CollectBelowComplete(docs, n - 1, id);
    }
  }

  /** A document is collected exactly when it is stored. */
  lemma CollectMember<R>(t: Table<R>, d: Doc<R>)
    requires TableValid(t)
    ensures d in Collect(t) <==> d.id in t.docs && t.docs[d.id] == d.fields
  {
    if d.id in t.docs && t.docs[d.id] == d.fields {
      CollectBelowComplete(t.docs, t.next, d.id);
    }
  }

  /** `CollectBelow` lists each stored id below `n` once. */
  lemma {:induction false} CollectBelowSize<R>(docs: map<Id, R>, n: nat)
    ensures |CollectBelow(docs, n)| == |set k | k in docs && k < n|
  {
    if n == 0 {
      assert (set k | k in docs && k < n) == {};
    } else {
      CollectBelowSize(docs, n - 1);
      var below := set k | k in docs && k < n - 1;
      if n - 1 in docs {
        assert (set k | k in docs && k < n) == below + {n - 1};
      } else {
        assert (set k | k in docs && k < n) == below;
      }
    }
  }

  /** `collect()` returns as many documents as the table holds. */
  lemma CollectSize<R>(t: Table<R>)
    requires TableValid(t)
    ensures |Collect(t)| == |t.docs|
  {
    CollectBelowSize(t.docs, t.next);
    assert (set k | k in t.docs && k < t.next) == t.docs.Keys;
  }

  /** The ids of a list of documents. */
  function IdsOf<R>(ds: seq<Doc<R>>): set<Id> {
    set i | 0 <= i < |ds| :: ds[i].id
  }

  /** The collected ids are exactly the stored ones. */
  lemma IdsOfCollect<R>(t: Table<R>)
    requires TableValid(t)
    ensures IdsOf(Collect(t)) == t.docs.Keys
  {
    var all := Collect(t);
    forall id | id in t.docs ensures id in IdsOf(all) {
      CollectMember(t, Doc(id, t.docs[id]));
      var i :| 0 <= i < |all| && all[i] == Doc(id, t.docs[id]);
    }
  }

  /** A walk over `Collect(t)` meets each stored id once: the next one is stored and not yet visited. */
  lemma CollectStep<R>(t: Table<R>, i: nat)
    requires i < |Collect(t)|
    ensures var all := Collect(t);
      && all[i].id in t.docs
      && all[i].id !in IdsOf(all[..i])
      && IdsOf(all[..i + 1]) == IdsOf(all[..i]) + {all[i].id}
  {
    var all := Collect(t);
    assert all[..i + 1] == all[..i] + [all[i]];
    forall c | c in IdsOf(all[..i]) ensures c < all[i].id {
      var j :| 0 <= j < i && all[..i][j].id == c;
      assert all[j] == all[..i][j];
    }
  }

  /** No two documents share an id. */
  predicate DistinctIds<R>(ds: seq<Doc<R>>) {
    forall i, j :: 0 <= i < j < |ds| ==> ds[i].id != ds[j].id
  }

  /** The documents satisfying `p`, in creation order (a filtered `collect()`). */
  function Where<R>(t: Table<R>, p: Doc<R> -> bool): (r: seq<Doc<R>>)
    ensures forall i :: 0 <= i < |r| ==> p(r[i]) && r[i].id in t.docs && t.docs[r[i].id] == r[i].fields
    ensures forall i, j :: 0 <= i < j < |r| ==> r[i].id < r[j].id
  {
    var all := Collect(t);
    var r := Filter(all, p);
    FilterSorted(all, p, (a: Doc<R>, b: Doc<R>) => a.id < b.id);
    forall i | 0 <= i < |r| ensures r[i].id in t.docs && t.docs[r[i].id] == r[i].fields {
      FilterMember(all, p, r[i]);
    }
    r
  }

  /** A stored document satisfying `p` is among the matches. */
  lemma WhereMember<R>(t: Table<R>, p: Doc<R> -> bool, d: Doc<R>)
    requires TableValid(t)
    ensures d in Where(t, p) <==> d.id in t.docs && t.docs[d.id] == d.fields && p(d)
  {
    FilterMember(Collect(t), p, d);
    CollectMember(t, d);
  }

  /** `.first()`: the matching document with the lowest id, if any. */
  function First<R>(t: Table<R>, p: Doc<R> -> bool): (r: Option<Doc<R>>)
    ensures r.Some? ==> p(r.value) && r.value.id in t.docs && t.docs[r.value.id] == r.value.fields
    ensures r.Some? ==> forall i :: 0 <= i < |Where(t, p)| ==> r.value.id <= Where(t, p)[i].id
    ensures r.None? <==> Where(t, p) == []
  {
    var ms := Where(t, p);
    if ms == [] then None else Some(ms[0])
  }

  lemma FirstNoneMeansNoMatch<R>(t: Table<R>, p: Doc<R> -> bool, id: Id)
    requires TableValid(t)
    requires First(t, p).None? && id in t.docs
    ensures !p(Doc(id, t.docs[id]))
  {
    WhereMember(t, p, Doc(id, t.docs[id]));
  }

  // ---------------------------------------------------------------------
  // The database

  class Db {
    var geoLocales: Table<GeoLocale>
    var boxes: Table<FacilityBox>
    var variables: Table<FacilityVariable>
    var sessions: Table<AdminSession>
    var facilities: Table<FacilityDoc>

    predicate Valid()
      reads this
    {
      TableValid(geoLocales) && TableValid(boxes) && TableValid(variables)
      && TableValid(sessions) && TableValid(facilities)
    }

    /** An empty deployment. */
    constructor ()
      ensures Valid()
      ensures geoLocales.docs == map[] && boxes.docs == map[] && variables.docs == map[]
      ensures sessions.docs == map[] && facilities.docs == map[]
    {
      geoLocales := EmptyTable();
      boxes := EmptyTable();
      variables := EmptyTable();
      sessions := EmptyTable();
      facilities := EmptyTable();
    }
  }
}
