/**
 * The handlers of the public assistant's read-only tools (`fabiola`):
 * search, facility details, nearby facilities and statistics. Each reads
 * the filtered location list and reshapes it; nothing is written. The
 * handlers read the fields of a location record (`name`, `region`,
 * `isActive`, ...) off every listed entry, and they are modelled over those
 * records; `StatisticsOnDetails`, `SearchOnDetails` and `DetailsOnEntry`
 * show what the handlers come to on the entries the queries actually return.
 */
module PublicTools {
  import opened Wrappers
  import opened Seqs
  import opened JsText
  import opened AgentTypes
  import opened Store
  import opened Helpers
  import opened FacilityBoxes
  import opened GeoLocales

  /** The fields both listing tools return for a facility. */
  datatype FacilitySummary = FacilitySummary(
    id: Id, name: string, kind: string, region: string, coordinates: Coordinates, description: string)

  function SummaryOf(d: Doc<GeoLocale>): FacilitySummary {
    FacilitySummary(d.id, d.fields.name, d.fields.kind, d.fields.region, d.fields.coordinates, d.fields.description)
  }

  // ---------------------------------------------------------------------
  // search_facilities

  datatype SearchArgs = SearchArgs(
    search: Option<string>, kind: Option<string>, region: Option<string>, activeOnly: Option<bool>)

  datatype SearchResult = SearchResult(facilities: seq<FacilitySummary>, total: nat, shown: nat)

  const SEARCH_LIMIT: nat := 20

  /** `args.search ? sanitizeSearchInput(args.search) : undefined` */
  function SearchTerm(search: Option<string>): Option<string> {
    if Truthy(search) then Some(SanitizeSearchInput(search.value)) else None
  }

  /** The `listWithDetails` call: the type and region filters, active only unless told otherwise. */
  function SearchQuery(args: SearchArgs): LocaleQuery {
    LocaleQuery(args.kind, args.region, None, Some(args.activeOnly.GetOr(true)))
  }

  /** Every match, before the limit: the text filter applies only to a non-empty sanitized term. */
  function SearchMatches(t: Table<GeoLocale>, args: SearchArgs): (r: seq<Doc<GeoLocale>>)
    ensures Sorted(r, ByName)
  {
    var listed := FilteredGeoLocales(t, SearchQuery(args));
    var term := SearchTerm(args.search);
    assert Sorted(Filter(listed, Hits(Lower(term.GetOr("")))), ByName) by {
      FilterSorted(listed, Hits(Lower(term.GetOr(""))), ByName);
    }
    if Truthy(term) then Filter(listed, Hits(Lower(term.value))) else listed
  }

  /**
   * A facility matches exactly when it is stored, the type, region and
   * activity filters select it, and a non-empty sanitized term occurs in its
   * lower-cased name or description.
   */
  lemma SearchMember(t: Table<GeoLocale>, args: SearchArgs, d: Doc<GeoLocale>)
    requires TableValid(t)
    ensures d in SearchMatches(t, args) <==>
      && d.id in t.docs && t.docs[d.id] == d.fields
      && Selected(SearchQuery(args), d.fields)
      && (Truthy(SearchTerm(args.search)) ==> SearchHit(d.fields, Lower(SearchTerm(args.search).value)))
  {
    var listed := FilteredGeoLocales(t, SearchQuery(args));
    FilteredMember(t, SearchQuery(args), d);
    FilterMember(listed, Hits(Lower(SearchTerm(args.search).GetOr(""))), d);
  }

  /** `searchFacilitiesTool`: at most 20 matches are shown, `total` counts them all. */
  function SearchFacilities(t: Table<GeoLocale>, args: SearchArgs): (r: SearchResult)
    ensures r.total == |SearchMatches(t, args)|
    ensures r.shown == |r.facilities| == Min(SEARCH_LIMIT, r.total)
    ensures forall i :: 0 <= i < |r.facilities| ==> r.facilities[i] == SummaryOf(SearchMatches(t, args)[i])
  {
    var results := SearchMatches(t, args);
    var limited := Take(results, SEARCH_LIMIT);
    var shown := seq(|limited|, i requires 0 <= i < |limited| => SummaryOf(limited[i]));
    SearchResult(shown, |results|, |limited|)
  }

  // ---------------------------------------------------------------------
  // get_facility_details

  /** The variable fields the details tool returns: key, label (`displayLabel`), type, value and unit. */
  datatype VariableView = VariableView(
    key: string, displayLabel: string, kind: string, value: Option<VariableValue>, unit: Option<string>)

  datatype BoxView = BoxView(title: string, icon: string, color: string, variables: seq<VariableView>)

  datatype FacilityDetails = FacilityDetails(
    id: Id, name: string, kind: string, region: string, coordinates: Coordinates,
    description: string, isActive: bool, boxes: seq<BoxView>)

  const FACILITY_NOT_FOUND: string := "Facility not found"

  function VariableViewOf(v: Doc<FacilityVariable>): VariableView {
    VariableView(v.fields.key, v.fields.displayLabel, v.fields.kind, v.fields.value, v.fields.unit)
  }

  /**
   * A box with its top-level variables, as `box.variables?.map(...)` lists
   * them: each variable keeps its key, label, type, value and unit.
   */
  function BoxViewOf(b: BoxDetails): (r: BoxView)
    ensures r.title == b.title && r.icon == b.icon && r.color == b.color
    ensures |r.variables| == |b.variables.roots|
    ensures forall i :: 0 <= i < |r.variables| ==>
      var v := b.variables.roots[i].fields;
      r.variables[i] == VariableView(v.key, v.displayLabel, v.kind, v.value, v.unit)
  {
    var roots := b.variables.roots;
    BoxView(b.title, b.icon, b.color, seq(|roots|, i requires 0 <= i < |roots| => VariableViewOf(roots[i])))
  }

  /** `getFacilityDetailsTool`: an error result when the facility does not exist. */
  method GetFacilityDetails(db: Db, facilityId: Id) returns (r: Result<FacilityDetails, string>)
    ensures r.Err? <==> facilityId !in db.geoLocales.docs
    ensures r.Err? ==> r.error == FACILITY_NOT_FOUND
    ensures r.Ok? ==>
      var l, bs := db.geoLocales.docs[facilityId], GetByGeoLocaleId(db.boxes, facilityId);
      && r.value.id == facilityId && r.value.name == l.name && r.value.kind == l.kind
      && r.value.region == l.region && r.value.coordinates == l.coordinates
      && r.value.description == l.description && r.value.isActive == l.isActive
      && |r.value.boxes| == |bs|
      && forall i :: 0 <= i < |bs| ==>
           && r.value.boxes[i].title == bs[i].fields.title
           && r.value.boxes[i].icon == bs[i].fields.icon && r.value.boxes[i].color == bs[i].fields.color
           && r.value.boxes[i] == BoxViewOf(BoxDetailsOf(db.variables, bs[i]))
  {
    var facility := GetByIdWithDetails(db, facilityId);
    if facility.None? {
      return Err(FACILITY_NOT_FOUND);
    }
    var l := db.geoLocales.docs[facilityId];
    var boxes := facility.value.data.boxes;
    var views := seq(|boxes|, i requires 0 <= i < |boxes| => BoxViewOf(boxes[i]));
    r := Ok(FacilityDetails(facilityId, l.name, l.kind, l.region, l.coordinates, l.description, l.isActive, views));
  }

  // ---------------------------------------------------------------------
  // get_nearby_facilities

  datatype NearbyArgs = NearbyArgs(lat: real, lng: real, radiusKm: Option<real>, kind: Option<string>)

  const DEFAULT_RADIUS_KM: real := 10.0
  const NEARBY_LIMIT: nat := 15
  const SEARCH_COORDINATES: string := "Search coordinates"

  /** A facility with its distance from the search centre. */
  datatype Placed = Placed(facility: Doc<GeoLocale>, distance: real)

  datatype NearbyItem = NearbyItem(facility: FacilitySummary, distance: real)

  datatype NearbyResult = NearbyResult(searchCenter: Coordinates, radiusKm: real, facilities: seq<NearbyItem>, total: nat)

  /** The comparator `a.distance - b.distance`. */
  predicate ByDistance(a: Placed, b: Placed) {
    a.distance <= b.distance
  }

  lemma ByDistancePreorder()
    ensures TotalPreorder(ByDistance)
  {
  }

  function Center(args: NearbyArgs): Coordinates {
    Coordinates(args.lat, args.lng)
  }

  function Radius(args: NearbyArgs): real {
    args.radiusKm.GetOr(DEFAULT_RADIUS_KM)
  }

  /** `listWithDetails({ type, activeOnly: true })` */
  function NearbyQuery(args: NearbyArgs): LocaleQuery {
    LocaleQuery(args.kind, None, None, Some(true))
  }

  function Within(radius: real): Placed -> bool {
    (p: Placed) => p.distance <= radius
  }

  /** The `.map(f => ({ ...f, distance }))` step. */
  function Placements(fs: seq<Doc<GeoLocale>>, center: Coordinates, distance: (Coordinates, Coordinates) -> real): (r: seq<Placed>)
    ensures |r| == |fs|
    ensures forall i :: 0 <= i < |r| ==> r[i] == Placed(fs[i], distance(center, fs[i].fields.coordinates))
  {
    seq(|fs|, i requires 0 <= i < |fs| => Placed(fs[i], distance(center, fs[i].fields.coordinates)))
  }

  /** The facilities within the radius, nearest first. */
  function NearbyMatches(t: Table<GeoLocale>, args: NearbyArgs, distance: (Coordinates, Coordinates) -> real): (r: seq<Placed>)
    ensures Sorted(r, ByDistance)
  {
    var placed := Placements(FilteredGeoLocales(t, NearbyQuery(args)), Center(args), distance);
    var near := Filter(placed, Within(Radius(args)));
    assert Sorted(SortBy(near, ByDistance), ByDistance) by {
      ByDistancePreorder();
      SortBySorted(near, ByDistance);
    }
    SortBy(near, ByDistance)
  }

  /**
   * A facility is among the matches exactly when it is stored, active, of
   * the requested type, and no farther than the radius (the bound included).
   */
  lemma NearbyMember(t: Table<GeoLocale>, args: NearbyArgs, distance: (Coordinates, Coordinates) -> real, p: Placed)
    requires TableValid(t)
    ensures p in NearbyMatches(t, args, distance) <==>
      && p.facility.id in t.docs && t.docs[p.facility.id] == p.facility.fields
      && p.facility.fields.isActive
      && (Truthy(args.kind) ==> p.facility.fields.kind == args.kind.value)
      && p.distance == distance(Center(args), p.facility.fields.coordinates)
      && p.distance <= Radius(args)
  {
    var fs := FilteredGeoLocales(t, NearbyQuery(args));
    var placed := Placements(fs, Center(args), distance);
    var near := Filter(placed, Within(Radius(args)));
    SortByMember(near, ByDistance, p);
    FilterMember(placed, Within(Radius(args)), p);
    FilteredMember(t, NearbyQuery(args), p.facility);
    if p in placed {
      var i :| 0 <= i < |placed| && placed[i] == p;
      assert fs[i] == p.facility;
    }
    if p.facility in fs && p.distance == distance(Center(args), p.facility.fields.coordinates) {
      var i :| 0 <= i < |fs| && fs[i] == p.facility;
      assert placed[i] == p;
    }
  }

  /** Every match lies within the radius. */
  lemma NearbyWithinRadius(t: Table<GeoLocale>, args: NearbyArgs, distance: (Coordinates, Coordinates) -> real, i: nat)
    requires i < |NearbyMatches(t, args, distance)|
    ensures NearbyMatches(t, args, distance)[i].distance <= Radius(args)
  {
    var placed := Placements(FilteredGeoLocales(t, NearbyQuery(args)), Center(args), distance);
    var near := Filter(placed, Within(Radius(args)));
    SortByMember(near, ByDistance, NearbyMatches(t, args, distance)[i]);
  }

  /** The shown prefix keeps the radius bound and the distance order. */
  lemma NearbyShown(all: seq<Placed>, t: Table<GeoLocale>, args: NearbyArgs, distance: (Coordinates, Coordinates) -> real)
    requires all == NearbyMatches(t, args, distance)
    ensures forall i :: 0 <= i < Min(NEARBY_LIMIT, |all|) ==> all[i].distance <= Radius(args)
    ensures forall i, j :: 0 <= i < j < Min(NEARBY_LIMIT, |all|) ==> all[i].distance <= all[j].distance
  {
    forall i | 0 <= i < Min(NEARBY_LIMIT, |all|) ensures all[i].distance <= Radius(args) {
      NearbyWithinRadius(t, args, distance, i);
    }
  }

  function ItemOf(p: Placed): NearbyItem {
    NearbyItem(SummaryOf(p.facility), p.distance)
  }

  /**
   * `getNearbyFacilitiesTool`: an out-of-bounds centre is an error whatever
   * the table holds; otherwise the 15 nearest facilities within the radius,
   * nearest first, and the number of all of them.
   */
  function GetNearbyFacilities(t: Table<GeoLocale>, args: NearbyArgs, distance: (Coordinates, Coordinates) -> real)
    : (r: Result<NearbyResult, CoordinateError>)
    ensures r.Err? <==> !IsValidPuertoRicoCoordinates(Center(args))
    ensures r.Err? ==> r.error == OutsideBounds(SEARCH_COORDINATES, Center(args), PUERTO_RICO_BOUNDS)
    ensures r.Ok? ==>
      var all, shown := NearbyMatches(t, args, distance), r.value.facilities;
      && r.value.searchCenter == Center(args) && r.value.radiusKm == Radius(args)
      && r.value.total == |all|
      && |shown| == Min(NEARBY_LIMIT, |all|)
      && (forall i :: 0 <= i < |shown| ==> shown[i] == ItemOf(all[i]) && shown[i].distance <= Radius(args))
      && (forall i, j :: 0 <= i < j < |shown| ==> shown[i].distance <= shown[j].distance)
  {
    match ValidateCoordinates(Center(args), SEARCH_COORDINATES)
    case Fail(e) => Err(e)
    case Pass =>
      var all := NearbyMatches(t, args, distance);
      var limited := Take(all, NEARBY_LIMIT);
      var shown := seq(|limited|, i requires 0 <= i < |limited| => ItemOf(limited[i]));
      NearbyShown(all, t, args, distance);
      Ok(NearbyResult(Center(args), Radius(args), shown, |all|))
  }

  // ---------------------------------------------------------------------
  // get_statistics

  datatype Statistics = Statistics(
    total: nat, active: nat, inactive: int,
    byType: map<string, nat>, byRegion: map<string, nat>,
    typeFilter: string, regionFilter: string)

  const ALL: string := "all"

  /** `listWithDetails({ type, region, activeOnly: false })`: inactive facilities included. */
  function StatisticsListing(t: Table<GeoLocale>, kind: Option<string>, region: Option<string>): seq<Doc<GeoLocale>> {
    FilteredGeoLocales(t, LocaleQuery(kind, region, None, Some(false)))
  }

  /** A facility is counted exactly when it is stored and of the given type and region, active or not. */
  lemma StatisticsListingMember(t: Table<GeoLocale>, kind: Option<string>, region: Option<string>, d: Doc<GeoLocale>)
    requires TableValid(t)
    ensures d in StatisticsListing(t, kind, region) <==>
      && d.id in t.docs && t.docs[d.id] == d.fields
      && (Truthy(kind) ==> d.fields.kind == kind.value)
      && (Truthy(region) ==> d.fields.region == region.value)
  {
    FilteredMember(t, LocaleQuery(kind, region, None, Some(false)), d);
  }

  /** An absent filter is echoed as 'all' (`args.type || 'all'`). */
  function Echo(filter: Option<string>): (r: string)
    ensures r == ALL <==> !Truthy(filter) || filter.value == ALL
  {
    if Truthy(filter) then filter.value else ALL
  }

  /**
   * `getStatisticsTool`: the active and inactive counts split the total
   * (`inactive` is the number of listed facilities that are not active), and
   * both groupings count every listed facility once.
   */
  function GetStatistics(t: Table<GeoLocale>, kind: Option<string>, region: Option<string>): (r: Statistics)
    ensures var fs := StatisticsListing(t, kind, region);
      && r.total == |fs|
      && r.active == Count(fs, IsActive)
      && r.inactive == Count(fs, Not(IsActive))
      && r.active + r.inactive == r.total
      && r.byType == Counts(fs, KindOf) && r.byRegion == Counts(fs, RegionOf)
      && Sum(r.byType) == r.total && Sum(r.byRegion) == r.total
      && r.typeFilter == Echo(kind) && r.regionFilter == Echo(region)
  {
    var fs := StatisticsListing(t, kind, region);
    var active := Filter(fs, IsActive);
    FilterComplement(fs, IsActive);
    CountsTotal(fs, KindOf);
    CountsTotal(fs, RegionOf);
    Statistics(|fs|, |active|, |fs| - |active|, Counts(fs, KindOf), Counts(fs, RegionOf), Echo(kind), Echo(region))
  }

  /** A stored active facility of the given type and region makes the active count positive. */
  lemma StatisticsSeeActive(t: Table<GeoLocale>, kind: Option<string>, region: Option<string>, id: Id)
    requires TableValid(t) && id in t.docs && t.docs[id].isActive
    requires Truthy(kind) ==> t.docs[id].kind == kind.value
    requires Truthy(region) ==> t.docs[id].region == region.value
    ensures GetStatistics(t, kind, region).active >= 1
  {
    var d := Doc(id, t.docs[id]);
    var fs := StatisticsListing(t, kind, region);
    StatisticsListingMember(t, kind, region, d);
    FilterMember(fs, IsActive, d);
  }

  /**
   * The statistics as the handler computes them on the entries
   * `listWithDetails` returns: an entry is `{ id, type, coordinates, data }`,
   * so `f.isActive` and `f.region` read `undefined` on every one of them.
   */
  function StatisticsOnDetails(ds: seq<LocaleDetails>, kind: Option<string>, region: Option<string>): Statistics {
    var active := Filter(ds, ReadsActive);
    Statistics(|ds|, |active|, |ds| - |active|,
               Counts(ds, DetailsKind), Counts(ds, ReadsRegion),
               Echo(kind), Echo(region))
  }

  /** On those entries no facility is ever counted active, and every one is grouped under region 'unknown'. */
  lemma StatisticsOnDetailsSeeNoActive(ds: seq<LocaleDetails>, kind: Option<string>, region: Option<string>)
    ensures StatisticsOnDetails(ds, kind, region).active == 0
    ensures StatisticsOnDetails(ds, kind, region).inactive == |ds|
    ensures forall k :: k in StatisticsOnDetails(ds, kind, region).byRegion ==> k == "unknown"
  {
    FilterNone(ds, ReadsActive);
    CountsNoKey(ds, ReadsRegion);
  }

  // ---------------------------------------------------------------------
  // Search and details on the entries the queries return

  /**
   * What a listing tool shows of a `listWithDetails` entry: `type` and
   * `coordinates`; `f._id`, `f.name`, `f.region` and `f.description` read
   * `undefined` and drop out of the result.
   */
  datatype EntryView = EntryView(
    id: Option<Id>, name: Option<string>, kind: string, region: Option<string>,
    coordinates: Coordinates, description: Option<string>)

  function EntryViewOf(d: LocaleDetails): EntryView {
    EntryView(None, None, d.kind, None, d.coordinates, None)
  }

  datatype EntrySearch = EntrySearch(facilities: seq<EntryView>, total: nat, shown: nat)

  /** The `TypeError` `f.name.toLowerCase()` throws on an entry; the handler returns it as its error. */
  const NAME_UNDEFINED: string := "Cannot read properties of undefined (reading 'toLowerCase')"

  /**
   * `searchFacilitiesTool` on the entries `listWithDetails` returns: with a
   * term that sanitises to something non-empty the text filter throws on the
   * first entry it reads, so such a search over a non-empty listing is an
   * error; otherwise the first 20 entries are shown, none with a name.
   */
  function SearchOnDetails(ds: seq<LocaleDetails>, search: Option<string>): (r: Result<EntrySearch, string>)
    ensures r.Err? <==> Truthy(SearchTerm(search)) && |ds| > 0
    ensures r.Err? ==> r.error == NAME_UNDEFINED
    ensures r.Ok? ==> r.value.total == |ds| && r.value.shown == |r.value.facilities| == Min(SEARCH_LIMIT, |ds|)
    ensures r.Ok? ==> forall i :: 0 <= i < |r.value.facilities| ==>
      r.value.facilities[i].name.None? && r.value.facilities[i].kind == ds[i].kind
  {
    if Truthy(SearchTerm(search)) && |ds| > 0 then
      Err(NAME_UNDEFINED)
    else
      var limited := Take(ds, SEARCH_LIMIT);
      Ok(EntrySearch(seq(|limited|, i requires 0 <= i < |limited| => EntryViewOf(limited[i])), |ds|, |limited|))
  }

  /**
   * Whenever the search over the location records finds a facility for a
   * non-empty term, the handler over the entries of the same listing fails.
   */
  lemma SearchOnDetailsFailsWhereRecordsMatch(t: Table<GeoLocale>, args: SearchArgs, ds: seq<LocaleDetails>, d: Doc<GeoLocale>)
    requires |ds| == |FilteredGeoLocales(t, SearchQuery(args))|
    requires Truthy(SearchTerm(args.search)) && d in SearchMatches(t, args)
    ensures SearchOnDetails(ds, args.search) == Err(NAME_UNDEFINED)
  {
    var listed := FilteredGeoLocales(t, SearchQuery(args));
    FilterMember(listed, Hits(Lower(SearchTerm(args.search).value)), d);
  }

  /**
   * What the details tool shows of a `getByIdWithDetails` entry: `type` and
   * `coordinates`; `_id`, `name`, `region`, `description`, `isActive` and
   * `boxes` read `undefined`, the boxes sitting under `data.boxes`.
   */
  datatype EntryDetailsView = EntryDetailsView(
    id: Option<Id>, name: Option<string>, kind: string, region: Option<string>, coordinates: Coordinates,
    description: Option<string>, isActive: Option<bool>, boxes: Option<seq<BoxView>>)

  /** `getFacilityDetailsTool` on the entry it receives: no boxes are ever shown, whatever the location holds. */
  function DetailsOnEntry(entry: Option<LocaleDetails>): (r: Result<EntryDetailsView, string>)
    ensures r.Err? <==> entry.None?
    ensures r.Err? ==> r.error == FACILITY_NOT_FOUND
    ensures r.Ok? ==>
      && r.value.boxes.None? && r.value.name.None? && r.value.isActive.None?
      && r.value.kind == entry.value.kind && r.value.coordinates == entry.value.coordinates
  {
    match entry
    case None => Err(FACILITY_NOT_FOUND)
    case Some(e) => Ok(EntryDetailsView(None, None, e.kind, None, e.coordinates, None, None, None))
  }
}
