/**
 * The public queries over facility locations: the filtered, name-sorted
 * list, lookup by id, and the detailed views that attach each location's
 * boxes (by `sortOrder`) and, inside each box, its variables arranged as a
 * forest by `parentVariableId`.
 */
module GeoLocales {
  import opened Wrappers
  import opened Seqs
  import opened JsText
  import opened AgentTypes
  import opened Store
  import opened FacilityBoxes
  import opened FacilityVariables

  // ---------------------------------------------------------------------
  // getFilteredGeoLocales / list

  /** The optional arguments of `list` and `listWithDetails`. */
  datatype LocaleQuery = LocaleQuery(
    kind: Option<string>,
    region: Option<string>,
    search: Option<string>,
    activeOnly: Option<bool>)

  /** `activeOnly` defaults to `true` when it is not passed. */
  predicate ActiveOnly(q: LocaleQuery) {
    q.activeOnly.GetOr(true)
  }

  /** Case-insensitive substring match on name or description. */
  predicate SearchHit(l: GeoLocale, needle: string) {
    Contains(Lower(l.name), needle) || Contains(Lower(l.description), needle)
  }

  /** A location belongs to the list: every filter that is given (truthy) holds. */
  predicate Selected(q: LocaleQuery, l: GeoLocale) {
    && (ActiveOnly(q) ==> l.isActive)
    && (Truthy(q.kind) ==> l.kind == q.kind.value)
    && (Truthy(q.region) ==> l.region == q.region.value)
    && (Truthy(q.search) ==> SearchHit(l, Lower(q.search.value)))
  }

  predicate IsActive(d: Doc<GeoLocale>) {
    d.fields.isActive
  }

  function HasKind(kind: string): Doc<GeoLocale> -> bool {
    (d: Doc<GeoLocale>) => d.fields.kind == kind
  }

  function InRegion(region: string): Doc<GeoLocale> -> bool {
    (d: Doc<GeoLocale>) => d.fields.region == region
  }

  function Hits(needle: string): Doc<GeoLocale> -> bool {
    (d: Doc<GeoLocale>) => SearchHit(d.fields, needle)
  }

  /** The `type` and `region` keys `countBy` groups locations by. */
  function KindOf(d: Doc<GeoLocale>): string { d.fields.kind }

  function RegionOf(d: Doc<GeoLocale>): string { d.fields.region }

  /** The comparator `a.name.localeCompare(b.name)`. */
  predicate ByName(a: Doc<GeoLocale>, b: Doc<GeoLocale>) {
    NameLe(a.fields.name, b.fields.name)
  }

  lemma ByNamePreorder()
    ensures TotalPreorder(ByName)
  {
    forall a: Doc<GeoLocale>, b: Doc<GeoLocale> ensures ByName(a, b) || ByName(b, a) {
      NameLeTotal(a.fields.name, b.fields.name);
    }
    forall a: Doc<GeoLocale>, b: Doc<GeoLocale>, c: Doc<GeoLocale> | ByName(a, b) && ByName(b, c)
      ensures ByName(a, c)
    {
      NameLeTransitive(a.fields.name, b.fields.name, c.fields.name);
    }
  }

  /** `getFilteredGeoLocales`: the selected locations, sorted by name. */
  function FilteredGeoLocales(t: Table<GeoLocale>, q: LocaleQuery): (r: seq<Doc<GeoLocale>>)
    ensures Sorted(r, ByName)
  {
    var selected := Narrowed(t, q);
    assert Sorted(SortBy(selected, ByName), ByName) by {
      ByNamePreorder();
      SortBySorted(selected, ByName);
    }
    SortBy(selected, ByName)
  }

  /** The filter stages of `getFilteredGeoLocales`, before the sort. */
  function Narrowed(t: Table<GeoLocale>, q: LocaleQuery): seq<Doc<GeoLocale>> {
    var docs := Collect(t);
    var active := FilterIf(docs, ActiveOnly(q), IsActive);
    var byKind := FilterIf(active, Truthy(q.kind), HasKind(q.kind.GetOr("")));
    var byRegion := FilterIf(byKind, Truthy(q.region), InRegion(q.region.GetOr("")));
    FilterIf(byRegion, Truthy(q.search), Hits(Lower(q.search.GetOr(""))))
  }

  /** A location is listed exactly when it is stored and the query selects it. */
  lemma FilteredMember(t: Table<GeoLocale>, q: LocaleQuery, d: Doc<GeoLocale>)
    requires TableValid(t)
    ensures d in FilteredGeoLocales(t, q) <==> d.id in t.docs && t.docs[d.id] == d.fields && Selected(q, d.fields)
  {
    var docs := Collect(t);
    var active := FilterIf(docs, ActiveOnly(q), IsActive);
    var byKind := FilterIf(active, Truthy(q.kind), HasKind(q.kind.GetOr("")));
    var byRegion := FilterIf(byKind, Truthy(q.region), InRegion(q.region.GetOr("")));
    SortByMember(Narrowed(t, q), ByName, d);
    CollectMember(t, d);
    FilterIfMember(docs, ActiveOnly(q), IsActive, d);
    FilterIfMember(active, Truthy(q.kind), HasKind(q.kind.GetOr("")), d);
    FilterIfMember(byKind, Truthy(q.region), InRegion(q.region.GetOr("")), d);
    FilterIfMember(byRegion, Truthy(q.search), Hits(Lower(q.search.GetOr(""))), d);
    assert HasKind(q.kind.GetOr(""))(d) <==> d.fields.kind == q.kind.GetOr("");
    assert InRegion(q.region.GetOr(""))(d) <==> d.fields.region == q.region.GetOr("");
    assert Hits(Lower(q.search.GetOr("")))(d) <==> SearchHit(d.fields, Lower(q.search.GetOr("")));
  }

  /** Locations with equal names keep their creation order. */
  lemma FilteredTiesInCreationOrder(t: Table<GeoLocale>, q: LocaleQuery, x: Doc<GeoLocale>)
    ensures Equivalents(FilteredGeoLocales(t, q), x, ByName) == Equivalents(Narrowed(t, q), x, ByName)
  {
    ByNamePreorder();
    SortByStable(Narrowed(t, q), x, ByName);
  }

  /** Without filters and with `activeOnly: false`, every stored location is listed. */
  lemma UnfilteredListsAll(t: Table<GeoLocale>, id: Id)
    requires TableValid(t) && id in t.docs
    ensures Doc(id, t.docs[id]) in FilteredGeoLocales(t, LocaleQuery(None, None, None, Some(false)))
  {
    FilteredMember(t, LocaleQuery(None, None, None, Some(false)), Doc(id, t.docs[id]));
  }


  // ---------------------------------------------------------------------
  // The variable forest

  /**
   * Where the tree building puts a variable: under its parent when the
   * parent is one of the box's variables, otherwise among the roots.
   */
  function Slot(vs: seq<Doc<FacilityVariable>>): Doc<FacilityVariable> -> Option<Id> {
    (d: Doc<FacilityVariable>) => if d.fields.parentVariableId.Some? && d.fields.parentVariableId.value in IdsOf(vs)
         then Some(d.fields.parentVariableId.value) else None
  }

  /** The root variables of a box, in input order. */
  function RootVariables(vs: seq<Doc<FacilityVariable>>): seq<Doc<FacilityVariable>> {
    Filter(vs, KeyIs(Slot(vs), None))
  }

  /** The `subVariables` of the variable `p`, in input order. */
  function SubVariables(vs: seq<Doc<FacilityVariable>>, p: Id): seq<Doc<FacilityVariable>> {
    Filter(vs, KeyIs(Slot(vs), Some(p)))
  }

  /**
   * The nodes of the built structure, by reference: the root list, and for
   * every variable id of the box the list its node's `subVariables` ends with.
   */
  datatype Forest = Forest(
    roots: seq<Doc<FacilityVariable>>,
    subVariables: map<Id, seq<Doc<FacilityVariable>>>)

  function ForestOf(vs: seq<Doc<FacilityVariable>>): Forest {
    Forest(RootVariables(vs), map p | p in IdsOf(vs) :: SubVariables(vs, p))
  }

  /** The `variablesMap` / `rootVariables` loop. */
  method AssembleForest(vs: seq<Doc<FacilityVariable>>) returns (f: Forest)
    ensures f.roots == RootVariables(vs)
    ensures forall p :: p in f.subVariables <==> p in IdsOf(vs)
    ensures forall p | p in f.subVariables :: f.subVariables[p] == SubVariables(vs, p)
  {
    var ids := IdsOf(vs);
    var subs: map<Id, seq<Doc<FacilityVariable>>> := map p | p in ids :: [];
    var roots: seq<Doc<FacilityVariable>> := [];
    for i := 0 to |vs|
      invariant roots == Filter(vs[..i], KeyIs(Slot(vs), None))
      invariant forall p :: p in subs <==> p in ids
      invariant SubsUpTo(vs, i, subs)
    {
      var v := vs[i];
      ghost var before := subs;
      if v.fields.parentVariableId.Some? && v.fields.parentVariableId.value in subs {
        var parentId := v.fields.parentVariableId.value;
        subs := subs[parentId := subs[parentId] + [v]];
      } else {
        roots := roots + [v];
      }
      PlaceStep(vs, i, before, subs);
      RootStep(vs, i);
    }
    assert vs[..|vs|] == vs;
    f := Forest(roots, subs);
  }

  /** Each `subVariables` list holds the children among the first `i` variables. */
  ghost predicate SubsUpTo(vs: seq<Doc<FacilityVariable>>, i: nat, subs: map<Id, seq<Doc<FacilityVariable>>>)
    requires i <= |vs|
  {
    forall p | p in subs :: subs[p] == Filter(vs[..i], KeyIs(Slot(vs), Some(p)))
  }

  lemma RootStep(vs: seq<Doc<FacilityVariable>>, i: nat)
    requires i < |vs|
    ensures Filter(vs[..i + 1], KeyIs(Slot(vs), None))
         == Filter(vs[..i], KeyIs(Slot(vs), None)) + (if Slot(vs)(vs[i]) == None then [vs[i]] else [])
  {
    assert vs[..i + 1] == vs[..i] + [vs[i]];
    FilterSnoc(vs[..i], vs[i], KeyIs(Slot(vs), None));
  }

  /** Appending `vs[i]` to its parent's list (if the parent is present) keeps `SubsUpTo`. */
  lemma PlaceStep(vs: seq<Doc<FacilityVariable>>, i: nat,
                  before: map<Id, seq<Doc<FacilityVariable>>>, after: map<Id, seq<Doc<FacilityVariable>>>)
    requires i < |vs|
    requires forall p :: p in before <==> p in IdsOf(vs)
    requires SubsUpTo(vs, i, before)
    requires var pv := vs[i].fields.parentVariableId;
      after == if pv.Some? && pv.value in before then before[pv.value := before[pv.value] + [vs[i]]] else before
    ensures SubsUpTo(vs, i + 1, after)
  {
    var v := vs[i];
    assert vs[..i + 1] == vs[..i] + [v];
    forall p | p in after
      ensures after[p] == Filter(vs[..i + 1], KeyIs(Slot(vs), Some(p)))
    {
      FilterSnoc(vs[..i], v, KeyIs(Slot(vs), Some(p)));
    }
  }

  /** A forest that meets the three postconditions of the loop is `ForestOf(vs)`. */
  lemma ForestUnique(vs: seq<Doc<FacilityVariable>>, f: Forest)
    requires f.roots == RootVariables(vs)
    requires forall p :: p in f.subVariables <==> p in IdsOf(vs)
    requires forall p | p in f.subVariables :: f.subVariables[p] == SubVariables(vs, p)
    ensures f == ForestOf(vs)
  {
    var g := ForestOf(vs);
    assert f.subVariables.Keys == g.subVariables.Keys;
    assert forall p | p in f.subVariables :: f.subVariables[p] == g.subVariables[p];
    assert f.subVariables == g.subVariables;
  }

  /**
   * Every variable of the box has exactly one place: among the roots when its
   * parent is absent or not in the box, otherwise under that parent only.
   */
  lemma VariablePlacement(vs: seq<Doc<FacilityVariable>>, d: Doc<FacilityVariable>, p: Id)
    requires d in vs
    ensures d in RootVariables(vs)
        <==> d.fields.parentVariableId.None? || d.fields.parentVariableId.value !in IdsOf(vs)
    ensures d in SubVariables(vs, p)
        <==> d.fields.parentVariableId == Some(p) && p in IdsOf(vs)
  {
    FilterMember(vs, KeyIs(Slot(vs), None), d);
    FilterMember(vs, KeyIs(Slot(vs), Some(p)), d);
  }

  /** Only variables of the box are placed anywhere. */
  lemma PlacedAreVariables(vs: seq<Doc<FacilityVariable>>, d: Doc<FacilityVariable>, p: Id)
    ensures d in RootVariables(vs) ==> d in vs
    ensures d in SubVariables(vs, p) ==> d in vs && d.fields.parentVariableId == Some(p)
  {
    FilterMember(vs, KeyIs(Slot(vs), None), d);
    FilterMember(vs, KeyIs(Slot(vs), Some(p)), d);
  }

  /** The place of each variable, one per box variable, after the root slot. */
  function ParentSlots(vs: seq<Doc<FacilityVariable>>): (r: seq<Option<Id>>)
    ensures |r| == |vs|
    ensures forall i :: 0 <= i < |vs| ==> r[i] == Some(vs[i].id)
  {
    seq(|vs|, i requires 0 <= i < |vs| => Some(vs[i].id))
  }

  /**
   * The roots together with the `subVariables` lists of all the box's
   * variables hold exactly as many entries as the box has variables.
   */
  lemma ForestPartition(vs: seq<Doc<FacilityVariable>>)
    requires DistinctIds(vs)
    ensures |RootVariables(vs)| + CountPerKey(vs, Slot(vs), ParentSlots(vs)) == |vs|
  {
    var ks := [None] + ParentSlots(vs);
    assert ks[1..] == ParentSlots(vs);
    forall i | 0 <= i < |vs| ensures Slot(vs)(vs[i]) in ks {
      var s := Slot(vs)(vs[i]);
      if s.Some? {
        var j :| 0 <= j < |vs| && vs[j].id == s.value;
        assert ks[j + 1] == s;
      }
    }
    forall i, j | 0 <= i < j < |ks| ensures ks[i] != ks[j] {
      if i > 0 { assert ks[i] == Some(vs[i - 1].id) && ks[j] == Some(vs[j - 1].id); }
    }
    PartitionCount(vs, Slot(vs), ks);
  }

  /** Variables sorted by `sortOrder` give sorted roots and sorted siblings. */
  lemma SiblingsSorted(vs: seq<Doc<FacilityVariable>>, p: Id)
    requires Sorted(vs, VariableOrder)
    ensures Sorted(RootVariables(vs), VariableOrder)
    ensures Sorted(SubVariables(vs, p), VariableOrder)
  {
    FilterSorted(vs, KeyIs(Slot(vs), None), VariableOrder);
    FilterSorted(vs, KeyIs(Slot(vs), Some(p)), VariableOrder);
  }

  /** Two variables that name each other as parent both vanish from the roots. */
  lemma TwoCycleHasNoRoot(a: Doc<FacilityVariable>, b: Doc<FacilityVariable>)
    requires a.id != b.id
    requires a.fields.parentVariableId == Some(b.id) && b.fields.parentVariableId == Some(a.id)
    ensures RootVariables([a, b]) == []
    ensures SubVariables([a, b], b.id) == [a] && SubVariables([a, b], a.id) == [b]
  {
    var vs := [a, b];
    assert vs[0] == a && vs[1] == b;
    assert a.id in IdsOf(vs) && b.id in IdsOf(vs);
    assert vs == [a] + [b];
    FilterAppend([a], [b], KeyIs(Slot(vs), None));
    FilterAppend([a], [b], KeyIs(Slot(vs), Some(a.id)));
    FilterAppend([a], [b], KeyIs(Slot(vs), Some(b.id)));
    FilterSingle(a, KeyIs(Slot(vs), None));
    FilterSingle(b, KeyIs(Slot(vs), None));
    FilterSingle(a, KeyIs(Slot(vs), Some(a.id)));
    FilterSingle(b, KeyIs(Slot(vs), Some(a.id)));
    FilterSingle(a, KeyIs(Slot(vs), Some(b.id)));
    FilterSingle(b, KeyIs(Slot(vs), Some(b.id)));
  }

  /** A variable that is its own parent is pushed into itself and is no root. */
  lemma SelfParentHasNoRoot(a: Doc<FacilityVariable>)
    requires a.fields.parentVariableId == Some(a.id)
    ensures RootVariables([a]) == []
    ensures SubVariables([a], a.id) == [a]
  {
    assert [a][0] == a;
    assert a.id in IdsOf([a]);
    FilterSingle(a, KeyIs(Slot([a]), None));
    FilterSingle(a, KeyIs(Slot([a]), Some(a.id)));
  }

  // ---------------------------------------------------------------------
  // listWithDetails / getByIdWithDetails

  datatype BoxDetails = BoxDetails(id: Id, title: string, icon: string, color: string, variables: Forest)

  datatype LocaleData = LocaleData(title: string, kind: string, boxes: seq<BoxDetails>)

  /** `{ id, type, coordinates, data: { title, type, boxes } }` */
  datatype LocaleDetails = LocaleDetails(id: Id, kind: string, coordinates: Coordinates, data: LocaleData)

  // A handler that reads a location record's field off an entry finds only
  // `type` and `coordinates` there: `_id`, `name`, `region`, `description`,
  // `isActive` and `boxes` all read `undefined`.

  /** `f.isActive` on an entry: `undefined`, which is falsy. */
  predicate ReadsActive(d: LocaleDetails) {
    false
  }

  /** `f.region` on an entry: `undefined`, which `countBy` files under 'unknown'. */
  function ReadsRegion(d: LocaleDetails): string {
    ""
  }

  /** `f.type` on an entry: the location's type. */
  function DetailsKind(d: LocaleDetails): string {
    d.kind
  }

  function BoxDetailsOf(variables: Table<FacilityVariable>, b: Doc<FacilityBox>): BoxDetails
  {
    BoxDetails(b.id, b.fields.title, b.fields.icon, b.fields.color, ForestOf(GetByBoxId(variables, b.id)))
  }

  /** The boxes of a location, sorted, each with its variable forest. */
  function DetailedBoxes(boxes: Table<FacilityBox>, variables: Table<FacilityVariable>, localeId: Id): seq<BoxDetails>
  {
    var bs := GetByGeoLocaleId(boxes, localeId);
    seq(|bs|, i requires 0 <= i < |bs| => BoxDetailsOf(variables, bs[i]))
  }

  /**
   * Every detailed box is a stored box of the location, with its title, icon
   * and colour, and with the variables stored for that box as its forest.
   */
  lemma DetailedBoxOfLocale(boxes: Table<FacilityBox>, variables: Table<FacilityVariable>, localeId: Id, i: nat)
    requires TableValid(boxes) && i < |DetailedBoxes(boxes, variables, localeId)|
    ensures var b := DetailedBoxes(boxes, variables, localeId)[i];
      && b.id in boxes.docs && boxes.docs[b.id].geoLocaleId == localeId
      && b.title == boxes.docs[b.id].title && b.icon == boxes.docs[b.id].icon && b.color == boxes.docs[b.id].color
      && b.variables == ForestOf(GetByBoxId(variables, b.id))
  {
    var bs := GetByGeoLocaleId(boxes, localeId);
    GetByGeoLocaleIdMember(boxes, localeId, bs[i]);
  }

  function DetailsOf(boxes: Table<FacilityBox>, variables: Table<FacilityVariable>, l: Doc<GeoLocale>): LocaleDetails
  {
    LocaleDetails(l.id, l.fields.kind, l.fields.coordinates,
      LocaleData(l.fields.name, l.fields.kind, DetailedBoxes(boxes, variables, l.id)))
  }

  /** The per-location part of both detailed queries. */
  method BoxesWithVariables(db: Db, localeId: Id) returns (r: seq<BoxDetails>)
    ensures r == DetailedBoxes(db.boxes, db.variables, localeId)
  {
    var bs := GetByGeoLocaleId(db.boxes, localeId);
    r := [];
    for i := 0 to |bs|
      invariant |r| == i
      invariant forall j :: 0 <= j < i ==> r[j] == BoxDetailsOf(db.variables, bs[j])
    {
      var box := bs[i];
      var vs := GetByBoxId(db.variables, box.id);
      var forest := AssembleForest(vs);
      ForestUnique(vs, forest);
      r := r + [BoxDetails(box.id, box.fields.title, box.fields.icon, box.fields.color, forest)];
    }
  }

  /** The `geoLocales.map(...)` step of `listWithDetails`. */
  method DetailAll(db: Db, ls: seq<Doc<GeoLocale>>) returns (r: seq<LocaleDetails>)
    ensures |r| == |ls|
    ensures forall i :: 0 <= i < |r| ==> r[i] == DetailsOf(db.boxes, db.variables, ls[i])
  {
    r := [];
    for i := 0 to |ls|
      invariant |r| == i
      invariant forall j :: 0 <= j < i ==> r[j] == DetailsOf(db.boxes, db.variables, ls[j])
    {
      var d := Detail(db, ls[i]);
      r := r + [d];
    }
  }

  /** The `{ id, type, coordinates, data }` entry of one location. */
  method Detail(db: Db, l: Doc<GeoLocale>) returns (d: LocaleDetails)
    ensures d == DetailsOf(db.boxes, db.variables, l)
  {
    var detailed := BoxesWithVariables(db, l.id);
    d := LocaleDetails(l.id, l.fields.kind, l.fields.coordinates,
                       LocaleData(l.fields.name, l.fields.kind, detailed));
  }

  /** `listWithDetails`: one detailed entry per listed location, in list order. */
  method ListWithDetails(db: Db, q: LocaleQuery) returns (r: seq<LocaleDetails>)
    ensures |r| == |FilteredGeoLocales(db.geoLocales, q)|
    ensures forall i :: 0 <= i < |r| ==>
      r[i] == DetailsOf(db.boxes, db.variables, FilteredGeoLocales(db.geoLocales, q)[i])
  {
    r := DetailAll(db, FilteredGeoLocales(db.geoLocales, q));
  }

  /** `getByIdWithDetails`: `null` exactly when the id is not stored. */
  method GetByIdWithDetails(db: Db, id: Id) returns (r: Option<LocaleDetails>)
    ensures r.None? <==> id !in db.geoLocales.docs
    ensures r.Some? ==> r.value == DetailsOf(db.boxes, db.variables, Doc(id, db.geoLocales.docs[id]))
  {
    var found := Get(db.geoLocales, id);
    if found.None? {
      return None;
    }
    var d := Detail(db, Doc(id, found.value));
    r := Some(d);
  }
}
