/**
 * The handlers of the admin agent's tools (`jaynette`): create, update and
 * delete a facility location, bulk import with a dry-run mode, and reports.
 * The tools authenticate with the configured `ADMIN_SECRET_KEY` itself, list
 * every location (`activeOnly: false`) to find name clashes, and write
 * through the location mutations, which are modelled as a plain insert,
 * patch and delete on the `geoLocales` table.
 */
module AdminTools {
  import opened Wrappers
  import opened Seqs
  import opened JsText
  import opened AgentTypes
  import opened Store
  import opened Helpers
  import opened GeoLocales

  // ---------------------------------------------------------------------
  // Shared steps

  /** `validateAdminKey(process.env.ADMIN_SECRET_KEY!)`: only "not configured" can fail. */
  function ToolAuth(secret: Option<string>): (r: Outcome<AdminKeyError>)
    ensures r == Pass <==> Truthy(secret)
    ensures r.Fail? ==> r.error == NotConfigured
  {
    CheckAdminKey(secret.GetOr(""), secret)
  }

  /** `api.geoLocales.list({ activeOnly: false })`: every location, sorted by name. */
  function AllLocations(t: Table<GeoLocale>): seq<Doc<GeoLocale>> {
    FilteredGeoLocales(t, LocaleQuery(None, None, None, Some(false)))
  }

  /** A listed location is a stored one, and every stored one is listed. */
  lemma AllLocationsMember(t: Table<GeoLocale>, d: Doc<GeoLocale>)
    requires TableValid(t)
    ensures d in AllLocations(t) <==> d.id in t.docs && t.docs[d.id] == d.fields
  {
    FilteredMember(t, LocaleQuery(None, None, None, Some(false)), d);
  }

  /** Names compare case-insensitively (`toLowerCase()` on both sides). */
  predicate SameName(a: string, b: string) {
    Lower(a) == Lower(b)
  }

  datatype ToolError =
    | KeyRejected(reason: AdminKeyError)
    | OutOfBounds(failure: CoordinateError)
    | DuplicateName(name: string, existingId: Id)
    | FacilityNotFound(id: Id)
    | NameConflict(name: string)

  /** A location whose name clashes with `name`, other than the one `except` names. */
  function Clashes(name: string, except: Option<Id>): Doc<GeoLocale> -> bool {
    (d: Doc<GeoLocale>) => SameName(d.fields.name, name) && Some(d.id) != except
  }

  /** `list.find(...)` for a name clash: the first clashing location in name order, if any. */
  function FindNamed(t: Table<GeoLocale>, name: string, except: Option<Id>): (r: Option<Doc<GeoLocale>>)
    requires TableValid(t)
    ensures r.Some? ==> r.value.id in t.docs && t.docs[r.value.id] == r.value.fields
    ensures r.Some? ==> SameName(r.value.fields.name, name) && Some(r.value.id) != except
    ensures r.None? <==> forall id :: id in t.docs && Some(id) != except ==> !SameName(t.docs[id].name, name)
  {
    FindNamedExact(t, name, except);
    Find(AllLocations(t), Clashes(name, except))
  }

  lemma FindNamedExact(t: Table<GeoLocale>, name: string, except: Option<Id>)
    requires TableValid(t)
    ensures var r := Find(AllLocations(t), Clashes(name, except));
      && (r.Some? ==> r.value.id in t.docs && t.docs[r.value.id] == r.value.fields)
      && (r.None? <==> forall id :: id in t.docs && Some(id) != except ==> !SameName(t.docs[id].name, name))
  {
    var list := AllLocations(t);
    var r := Find(list, Clashes(name, except));
    if r.Some? {
      AllLocationsMember(t, r.value);
    } else {
      forall id | id in t.docs && Some(id) != except ensures !SameName(t.docs[id].name, name) {
        AllLocationsMember(t, Doc(id, t.docs[id]));
        var i :| 0 <= i < |list| && list[i] == Doc(id, t.docs[id]);
        assert !Clashes(name, except)(list[i]);
      }
    }
  }

  // ---------------------------------------------------------------------
  // create_facility

  datatype CreateArgs = CreateArgs(
    name: string,
    kind: string,
    coordinates: Coordinates,
    description: Option<string>,
    region: Option<string>)

  /** The record the tool creates: description defaults to "", region to "central", active. */
  function NewLocale(args: CreateArgs): (l: GeoLocale)
    ensures l.name == args.name && l.kind == args.kind && l.coordinates == args.coordinates && l.isActive
    ensures l.description == if args.description.Some? then args.description.value else ""
    ensures !Truthy(args.region) ==> l.region == "central"
  {
    GeoLocale(
      args.name, args.kind,
      if Truthy(args.region) then args.region.value else "central",
      args.coordinates, args.description.GetOr(""), true)
  }

  /** `createFacilityTool`: refuses a missing key, an out-of-bounds point and any clash of names. */
  method CreateFacility(db: Db, secret: Option<string>, args: CreateArgs) returns (r: Result<Id, ToolError>)
    requires db.Valid()
    modifies db`geoLocales
    ensures db.Valid()
    ensures !Truthy(secret) ==> r == Err(KeyRejected(NotConfigured))
    ensures Truthy(secret) && !IsValidPuertoRicoCoordinates(args.coordinates) ==> r.Err? && r.error.OutOfBounds?
    ensures r.Ok? <==>
      && Truthy(secret)
      && IsValidPuertoRicoCoordinates(args.coordinates)
      && forall id :: id in old(db.geoLocales.docs) ==> !SameName(old(db.geoLocales.docs)[id].name, args.name)
    ensures r.Err? && r.error.DuplicateName? ==>
      r.error.existingId in old(db.geoLocales.docs) && SameName(old(db.geoLocales.docs)[r.error.existingId].name, args.name)
    ensures r.Err? ==> db.geoLocales == old(db.geoLocales)
    ensures r.Ok? ==> r.value !in old(db.geoLocales.docs) && db.geoLocales.docs == old(db.geoLocales.docs)[r.value := NewLocale(args)]
  {
    var auth := ToolAuth(secret);
    if auth.Fail? {
      return Err(KeyRejected(auth.error));
    }
    var bounds := ValidateCoordinates(args.coordinates, "Facility coordinates");
    if bounds.Fail? {
      return Err(OutOfBounds(bounds.error));
    }
    var duplicate := FindNamed(db.geoLocales, args.name, None);
    if duplicate.Some? {
      return Err(DuplicateName(args.name, duplicate.value.id));
    }
    var (t, id) := Insert(db.geoLocales, NewLocale(args));
    db.geoLocales := t;
    return Ok(id);
  }

  // ---------------------------------------------------------------------
  // update_facility

  /** The optional fields of `updates`; `None` is an omitted field. */
  datatype LocaleUpdate = LocaleUpdate(
    name: Option<string>,
    kind: Option<string>,
    coordinates: Option<Coordinates>,
    description: Option<string>,
    region: Option<string>,
    isActive: Option<bool>)

  /** The location patched with the given fields. */
  function PatchedLocale(l: GeoLocale, u: LocaleUpdate): GeoLocale {
    GeoLocale(
      Override(u.name, l.name), Override(u.kind, l.kind), Override(u.region, l.region),
      Override(u.coordinates, l.coordinates), Override(u.description, l.description), Override(u.isActive, l.isActive))
  }

  /** Only the given fields change; patching twice with the same update is patching once. */
  lemma PatchedLocaleFields(l: GeoLocale, u: LocaleUpdate)
    ensures u.name.None? ==> PatchedLocale(l, u).name == l.name
    ensures u.isActive.None? ==> PatchedLocale(l, u).isActive == l.isActive
    ensures u.coordinates.Some? ==> PatchedLocale(l, u).coordinates == u.coordinates.value
    ensures u == LocaleUpdate(None, None, None, None, None, None) ==> PatchedLocale(l, u) == l
    ensures PatchedLocale(PatchedLocale(l, u), u) == PatchedLocale(l, u)
  {
  }

  /** A rename is checked only when the new name is truthy and differs from the current name exactly. */
  predicate Renames(u: LocaleUpdate, current: GeoLocale) {
    Truthy(u.name) && u.name.value != current.name
  }

  /**
   * `updateFacilityTool`: checks the key, a given point, that the location
   * exists and, for a rename, that no other location has that name.
   */
  method UpdateFacility(db: Db, secret: Option<string>, id: Id, u: LocaleUpdate) returns (r: Result<Id, ToolError>)
    requires db.Valid()
    modifies db`geoLocales
    ensures db.Valid()
    ensures !Truthy(secret) ==> r == Err(KeyRejected(NotConfigured))
    ensures Truthy(secret) && u.coordinates.Some? && !IsValidPuertoRicoCoordinates(u.coordinates.value) ==>
      r == Err(OutOfBounds(OutsideBounds("Updated coordinates", u.coordinates.value, PUERTO_RICO_BOUNDS)))
    ensures r == Err(FacilityNotFound(id)) <==>
      Truthy(secret) && (u.coordinates.Some? ==> IsValidPuertoRicoCoordinates(u.coordinates.value))
      && id !in old(db.geoLocales.docs)
    ensures r.Ok? <==>
      && Truthy(secret)
      && (u.coordinates.Some? ==> IsValidPuertoRicoCoordinates(u.coordinates.value))
      && id in old(db.geoLocales.docs)
      && (Renames(u, old(db.geoLocales.docs)[id]) ==>
            forall other :: other in old(db.geoLocales.docs) && other != id
              ==> !SameName(old(db.geoLocales.docs)[other].name, u.name.value))
    ensures r.Err? ==> db.geoLocales == old(db.geoLocales)
    ensures r.Ok? ==> r.value == id
    ensures r.Ok? ==> db.geoLocales.docs == old(db.geoLocales.docs)[id := PatchedLocale(old(db.geoLocales.docs)[id], u)]
  {
    var auth := ToolAuth(secret);
    if auth.Fail? {
      return Err(KeyRejected(auth.error));
    }
    if u.coordinates.Some? {
      var bounds := ValidateCoordinates(u.coordinates.value, "Updated coordinates");
      if bounds.Fail? {
        return Err(OutOfBounds(bounds.error));
      }
    }
    var existing := Get(db.geoLocales, id);
    if existing.None? {
      return Err(FacilityNotFound(id));
    }
    if Renames(u, existing.value) {
      var conflict := FindNamed(db.geoLocales, u.name.value, Some(id));
      if conflict.Some? {
        return Err(NameConflict(u.name.value));
      }
    }
    var patched := Replace(db.geoLocales, id, PatchedLocale(existing.value, u));
    db.geoLocales := patched.value;
    return Ok(id);
  }

  // ---------------------------------------------------------------------
  // delete_facility

  /** `deleteFacilityTool`: removes an existing location and reports its name. */
  method DeleteFacility(db: Db, secret: Option<string>, id: Id) returns (r: Result<string, ToolError>)
    requires db.Valid()
    modifies db`geoLocales
    ensures db.Valid()
    ensures !Truthy(secret) ==> r == Err(KeyRejected(NotConfigured))
    ensures r.Ok? <==> Truthy(secret) && id in old(db.geoLocales.docs)
    ensures Truthy(secret) && id !in old(db.geoLocales.docs) ==> r == Err(FacilityNotFound(id))
    ensures r.Err? ==> db.geoLocales == old(db.geoLocales)
    ensures r.Ok? ==> r.value == old(db.geoLocales.docs)[id].name && db.geoLocales.docs == old(db.geoLocales.docs) - {id}
  {
    var auth := ToolAuth(secret);
    if auth.Fail? {
      return Err(KeyRejected(auth.error));
    }
    var facility := Get(db.geoLocales, id);
    if facility.None? {
      return Err(FacilityNotFound(id));
    }
    var removed := Delete(db.geoLocales, id);
    db.geoLocales := removed.value;
    return Ok(facility.value.name);
  }

  // ---------------------------------------------------------------------
  // generate_report

  datatype ReportFilters = ReportFilters(kind: Option<string>, region: Option<string>, activeOnly: Option<bool>)

  /** One location of the detailed report. */
  datatype ReportRow = ReportRow(
    id: Id, name: string, kind: string, region: string, coordinates: Coordinates,
    description: string, isActive: bool, boxCount: nat)

  datatype Report =
    | Summary(total: nat, active: nat, inactive: nat, byType: map<string, nat>, byRegion: map<string, nat>)
    | Detailed(facilities: seq<ReportRow>, total: nat)
    | CapacityReport(facilitiesAnalyzed: nat)

  /** The query `listWithDetails` receives: each filter that was given. */
  function ReportQuery(filters: Option<ReportFilters>): LocaleQuery {
    match filters
    case None => LocaleQuery(None, None, None, None)
    case Some(f) => LocaleQuery(f.kind, f.region, None, f.activeOnly)
  }

  /** A detailed-report row; the tool reads `f.boxes?.length || 0`, absent on a location record. */
  function RowOf(d: Doc<GeoLocale>): ReportRow {
    ReportRow(d.id, d.fields.name, d.fields.kind, d.fields.region, d.fields.coordinates,
              d.fields.description, d.fields.isActive, 0)
  }

  /**
   * The `summary` report of the listed locations: the active and inactive
   * ones split the total, and both groupings count every location once.
   */
  function SummaryOf(fs: seq<Doc<GeoLocale>>): (r: Report)
    ensures r.Summary? && r.total == |fs|
    ensures r.active == Count(fs, IsActive) && r.inactive == Count(fs, Not(IsActive))
    ensures r.active + r.inactive == |fs|
    ensures r.byType == Counts(fs, KindOf) && r.byRegion == Counts(fs, RegionOf)
    ensures Sum(r.byType) == |fs| && Sum(r.byRegion) == |fs|
  {
    FilterComplement(fs, IsActive);
    CountsTotal(fs, KindOf);
    CountsTotal(fs, RegionOf);
    Summary(|fs|, Count(fs, IsActive), Count(fs, Not(IsActive)), Counts(fs, KindOf), Counts(fs, RegionOf))
  }

  /** The rows of the `detailed` report, one per listed location, in order. */
  function DetailedRows(fs: seq<Doc<GeoLocale>>): (r: seq<ReportRow>)
    ensures |r| == |fs| && forall i :: 0 <= i < |fs| ==> r[i] == RowOf(fs[i])
  {
    seq(|fs|, i requires 0 <= i < |fs| => RowOf(fs[i]))
  }

  /** The report of the given type over a listing: one of the three types, or an error. */
  function ReportOver(fs: seq<Doc<GeoLocale>>, reportType: string): (r: Result<Report, string>)
    ensures r.Ok? <==> reportType in ["summary", "detailed", "capacity"]
    ensures r.Err? ==> r.error == "Unknown report type"
    ensures r.Ok? && r.value.Summary? ==>
      && r.value.total == |fs|
      && r.value.active == Count(fs, IsActive) && r.value.inactive == Count(fs, Not(IsActive))
      && r.value.active + r.value.inactive == r.value.total
      && r.value.byType == Counts(fs, KindOf) && r.value.byRegion == Counts(fs, RegionOf)
      && Sum(r.value.byType) == r.value.total
      && Sum(r.value.byRegion) == r.value.total
    ensures r.Ok? && r.value.Detailed? ==>
      && r.value.total == |r.value.facilities| == |fs|
      && forall i :: 0 <= i < |fs| ==> r.value.facilities[i] == RowOf(fs[i])
    ensures r.Ok? && r.value.CapacityReport? ==> r.value.facilitiesAnalyzed == |fs|
  {
    if reportType == "summary" then
      Ok(SummaryOf(fs))
    else if reportType == "detailed" then
      Ok(Detailed(DetailedRows(fs), |fs|))
    else if reportType == "capacity" then
      Ok(CapacityReport(|fs|))
    else
      Err("Unknown report type")
  }

  /** `generateReportTool` over the filtered locations. */
  function GenerateReport(t: Table<GeoLocale>, reportType: string, filters: Option<ReportFilters>): (r: Result<Report, string>)
    ensures r.Ok? <==> reportType in ["summary", "detailed", "capacity"]
    ensures r.Err? ==> r.error == "Unknown report type"
    ensures r.Ok? && r.value.Summary? ==>
      var fs := FilteredGeoLocales(t, ReportQuery(filters));
      && r.value.total == |fs|
      && r.value.active == Count(fs, IsActive) && r.value.inactive == Count(fs, Not(IsActive))
      && r.value.active + r.value.inactive == r.value.total
      && r.value.byType == Counts(fs, KindOf) && r.value.byRegion == Counts(fs, RegionOf)
      && Sum(r.value.byType) == r.value.total
      && Sum(r.value.byRegion) == r.value.total
    ensures r.Ok? && r.value.Detailed? ==>
      var fs := FilteredGeoLocales(t, ReportQuery(filters));
      && r.value.total == |r.value.facilities| == |fs|
      && forall i :: 0 <= i < |fs| ==> r.value.facilities[i] == RowOf(fs[i])
    ensures r.Ok? && r.value.CapacityReport? ==>
      r.value.facilitiesAnalyzed == |FilteredGeoLocales(t, ReportQuery(filters))|
  {
    ReportOver(FilteredGeoLocales(t, ReportQuery(filters)), reportType)
  }

  /** An active filter makes the summary count no inactive location. */
  lemma ActiveReportHasNoInactive(t: Table<GeoLocale>, f: ReportFilters)
    requires f.activeOnly != Some(false)
    ensures GenerateReport(t, "summary", Some(f)).value.inactive == 0
  {
    var fs := FilteredGeoLocales(t, ReportQuery(Some(f)));
    forall i | 0 <= i < |fs| ensures IsActive(fs[i]) {
      ReportListedAreSelected(t, ReportQuery(Some(f)), i);
    }
    FilterAll(fs, IsActive);
    FilterComplement(fs, IsActive);
  }

  /**
   * The `summary` report as the handler computes it on the entries
   * `listWithDetails` returns: `f.isActive` and `f.region` read `undefined`,
   * so every location counts as inactive and is filed under region 'unknown'.
   */
  function SummaryOnDetails(ds: seq<LocaleDetails>): (r: Report)
    ensures r.Summary? && r.total == |ds| && r.active == 0 && r.inactive == |ds|
    ensures Sum(r.byType) == |ds|
    ensures forall k :: k in r.byRegion ==> k == "unknown"
  {
    FilterNone(ds, ReadsActive);
    FilterAll(ds, Not(ReadsActive));
    CountsTotal(ds, DetailsKind);
    CountsNoKey(ds, ReadsRegion);
    Summary(|ds|, Count(ds, ReadsActive), Count(ds, Not(ReadsActive)), Counts(ds, DetailsKind), Counts(ds, ReadsRegion))
  }

  /**
   * With the active filter, the summary over the location records counts no
   * inactive location, while the handler over the entries of the same
   * listing counts every one of them inactive.
   */
  lemma ActiveReportOnDetailsCountsAllInactive(t: Table<GeoLocale>, f: ReportFilters, ds: seq<LocaleDetails>)
    requires f.activeOnly != Some(false)
    requires |ds| == |FilteredGeoLocales(t, ReportQuery(Some(f)))| > 0
    ensures GenerateReport(t, "summary", Some(f)).value.inactive == 0
    ensures SummaryOnDetails(ds).inactive == |ds| > 0
  {
    ActiveReportHasNoInactive(t, f);
  }

  /** A detailed-report row read off an entry: only `type` and `coordinates` are there. */
  datatype EntryRow = EntryRow(
    id: Option<Id>, name: Option<string>, kind: string, region: Option<string>, coordinates: Coordinates,
    description: Option<string>, isActive: Option<bool>, boxCount: nat)

  /**
   * The rows of the `detailed` report on the entries `listWithDetails`
   * returns: no row has an id, name, region, description or activity, and
   * `f.boxes?.length || 0` is 0 even for a location with boxes.
   */
  function DetailedRowsOnDetails(ds: seq<LocaleDetails>): (r: seq<EntryRow>)
    ensures |r| == |ds|
    ensures forall i :: 0 <= i < |ds| ==>
      && r[i].id.None? && r[i].name.None? && r[i].region.None? && r[i].isActive.None?
      && r[i].kind == ds[i].kind && r[i].coordinates == ds[i].coordinates && r[i].boxCount == 0
  {
    seq(|ds|, i requires 0 <= i < |ds| => EntryRow(None, None, ds[i].kind, None, ds[i].coordinates, None, None, 0))
  }

  lemma ReportListedAreSelected(t: Table<GeoLocale>, q: LocaleQuery, j: nat)
    requires j < |FilteredGeoLocales(t, q)|
    ensures Selected(q, FilteredGeoLocales(t, q)[j].fields)
  {
    var fs := FilteredGeoLocales(t, q);
    SortByMember(Narrowed(t, q), ByName, fs[j]);
    NarrowedSelected(t, q, fs[j]);
  }

  lemma NarrowedSelected(t: Table<GeoLocale>, q: LocaleQuery, d: Doc<GeoLocale>)
    requires d in Narrowed(t, q)
    ensures Selected(q, d.fields)
  {
    var docs := Collect(t);
    var active := FilterIf(docs, ActiveOnly(q), IsActive);
    var byKind := FilterIf(active, Truthy(q.kind), HasKind(q.kind.GetOr("")));
    var byRegion := FilterIf(byKind, Truthy(q.region), InRegion(q.region.GetOr("")));
    FilterIfMember(byRegion, Truthy(q.search), Hits(Lower(q.search.GetOr(""))), d);
    FilterIfMember(byKind, Truthy(q.region), InRegion(q.region.GetOr("")), d);
    FilterIfMember(active, Truthy(q.kind), HasKind(q.kind.GetOr("")), d);
    FilterIfMember(docs, ActiveOnly(q), IsActive, d);
  }

  // ---------------------------------------------------------------------
  // bulk_import

  datatype ImportRow = ImportRow(
    name: string,
    kind: string,
    lat: real,
    lng: real,
    description: Option<string>,
    region: Option<string>)

  const LAT_ERROR: string := "Latitude outside Puerto Rico bounds (17.5-18.6)"
  const LNG_ERROR: string := "Longitude outside Puerto Rico bounds (-67.5 to -65.0)"
  const DUPLICATE_REASON: string := "Facility with this name already exists"
  const WOULD_BE_CREATED: string := "would be created"

  /** The bounds test of the import loop: latitude first, then longitude. */
  function BoundsError(row: ImportRow): (r: Option<string>)
    ensures r.None? <==> IsValidPuertoRicoCoordinates(Coordinates(row.lat, row.lng))
    ensures r.Some? ==> r.value == if InRange(row.lat, PUERTO_RICO_BOUNDS.lat) then LNG_ERROR else LAT_ERROR
  {
    if row.lat < 17.5 || row.lat > 18.6 then Some(LAT_ERROR)
    else if row.lng < -67.5 || row.lng > -65.0 then Some(LNG_ERROR)
    else None
  }

  /** The location a row creates, with the same defaults as `create_facility`. */
  function RowLocale(row: ImportRow): GeoLocale {
    NewLocale(CreateArgs(row.name, row.kind, Coordinates(row.lat, row.lng), row.description, row.region))
  }

  /** What the loop carries: the three lists, the lower-cased names seen so far, the table. */
  datatype ImportState = ImportState(result: BulkImportResult, names: set<string>, table: Table<GeoLocale>)

  /** One turn of the loop, for the row numbered `rowNumber`. */
  function Step(st: ImportState, row: ImportRow, rowNumber: nat, dryRun: bool): (r: ImportState)
    requires TableValid(st.table)
    ensures TableValid(r.table)
  {
    var res := st.result;
    match BoundsError(row)
    case Some(e) =>
      st.(result := res.(failed := res.failed + [ImportFailure(row.name, Some(rowNumber), e)]))
    case None =>
      if Lower(row.name) in st.names then
        st.(result := res.(skipped := res.skipped + [ImportSkip(row.name, Some(rowNumber), DUPLICATE_REASON, None)]))
      else if !dryRun then
        var (t, id) := Insert(st.table, RowLocale(row));
        ImportState(
          res.(successful := res.successful + [ImportSuccess(row.name, Some(rowNumber), Some(id), None)]),
          st.names + {Lower(row.name)}, t)
      else
        st.(result := res.(successful := res.successful + [ImportSuccess(row.name, Some(rowNumber), None, Some(WOULD_BE_CREATED))]))
  }

  /** The state after the first `k` rows. */
  function ImportPrefix(rows: seq<ImportRow>, k: nat, init: ImportState, dryRun: bool): (r: ImportState)
    requires k <= |rows| && TableValid(init.table)
    ensures TableValid(r.table)
  {
    if k == 0 then init else Step(ImportPrefix(rows, k - 1, init, dryRun), rows[k - 1], k, dryRun)
  }

  /** `new Set(existing.map(f => f.name.toLowerCase()))` */
  function ExistingNames(t: Table<GeoLocale>): set<string> {
    var list := AllLocations(t);
    set i | 0 <= i < |list| :: Lower(list[i].fields.name)
  }

  /** The seeded names are exactly the lower-cased names of the stored locations. */
  lemma ExistingNamesMember(t: Table<GeoLocale>, n: string)
    requires TableValid(t)
    ensures n in ExistingNames(t) <==> exists id :: id in t.docs && Lower(t.docs[id].name) == n
  {
    var list := AllLocations(t);
    if n in ExistingNames(t) {
      var i :| 0 <= i < |list| && Lower(list[i].fields.name) == n;
      AllLocationsMember(t, list[i]);
    }
    if exists id :: id in t.docs && Lower(t.docs[id].name) == n {
      var id :| id in t.docs && Lower(t.docs[id].name) == n;
      AllLocationsMember(t, Doc(id, t.docs[id]));
      var i :| 0 <= i < |list| && list[i] == Doc(id, t.docs[id]);
      assert Lower(list[i].fields.name) == n;
    }
  }

  function StartOfImport(t: Table<GeoLocale>): ImportState {
    ImportState(BulkImportResult([], [], []), ExistingNames(t), t)
  }

  datatype ImportSummary = ImportSummary(total: nat, successful: nat, failed: nat, skipped: nat)

  datatype ImportReport = ImportReport(dryRun: bool, summary: ImportSummary, results: BulkImportResult)

  /** The body of the import loop: one row is failed, skipped or created. */
  method ImportOne(db: Db, successful: seq<ImportSuccess>, failed: seq<ImportFailure>, skipped: seq<ImportSkip>,
                   names: set<string>, row: ImportRow, rowNumber: nat, dryRun: bool)
    returns (successful': seq<ImportSuccess>, failed': seq<ImportFailure>, skipped': seq<ImportSkip>, names': set<string>)
    requires db.Valid()
    modifies db`geoLocales
    ensures db.Valid()
    ensures ImportState(BulkImportResult(successful', failed', skipped'), names', db.geoLocales)
         == Step(ImportState(BulkImportResult(successful, failed, skipped), names, old(db.geoLocales)), row, rowNumber, dryRun)
  {
    successful', failed', skipped', names' := successful, failed, skipped, names;
    var boundsError := BoundsError(row);
    if boundsError.Some? {
      failed' := failed + [ImportFailure(row.name, Some(rowNumber), boundsError.value)];
    } else if Lower(row.name) in names {
      skipped' := skipped + [ImportSkip(row.name, Some(rowNumber), DUPLICATE_REASON, None)];
    } else if !dryRun {
      var (t, id) := Insert(db.geoLocales, RowLocale(row));
      db.geoLocales := t;
      successful' := successful + [ImportSuccess(row.name, Some(rowNumber), Some(id), None)];
      names' := names + {Lower(row.name)};
    } else {
      successful' := successful + [ImportSuccess(row.name, Some(rowNumber), None, Some(WOULD_BE_CREATED))];
    }
  }

  /**
   * `bulkImportTool`: each row is checked against the bounds, then against
   * the names seen so far, and is created (or, in a dry run, only reported);
   * the report echoes `dryRun` and counts the three lists.
   */
  method BulkImport(db: Db, secret: Option<string>, rows: seq<ImportRow>, dryRun: bool)
    returns (r: Result<ImportReport, ToolError>)
    requires db.Valid()
    modifies db`geoLocales
    ensures db.Valid()
    ensures r.Err? <==> !Truthy(secret)
    ensures r.Err? ==> r.error == KeyRejected(NotConfigured) && db.geoLocales == old(db.geoLocales)
    ensures r.Ok? ==>
      var fin := ImportPrefix(rows, |rows|, StartOfImport(old(db.geoLocales)), dryRun);
      && db.geoLocales == fin.table
      && r.value.results == fin.result
      && r.value.dryRun == dryRun
      && r.value.summary == ImportSummary(|rows|, |fin.result.successful|, |fin.result.failed|, |fin.result.skipped|)
  {
    var auth := ToolAuth(secret);
    if auth.Fail? {
      return Err(KeyRejected(auth.error));
    }
    ghost var start := StartOfImport(db.geoLocales);
    var names := ExistingNames(db.geoLocales);
    var successful: seq<ImportSuccess> := [];
    var failed: seq<ImportFailure> := [];
    var skipped: seq<ImportSkip> := [];
    var i := 0;
    while i < |rows|
      invariant 0 <= i <= |rows|
      invariant db.Valid()
      invariant ImportState(BulkImportResult(successful, failed, skipped), names, db.geoLocales)
             == ImportPrefix(rows, i, start, dryRun)
    {
      successful, failed, skipped, names := ImportOne(db, successful, failed, skipped, names, rows[i], i + 1, dryRun);
      i := i + 1;
    }
    var results := BulkImportResult(successful, failed, skipped);
    return Ok(ImportReport(dryRun, ImportSummary(|rows|, |successful|, |failed|, |skipped|), results));
  }

  // ---------------------------------------------------------------------
  // What the import promises

  function SuccessRows(l: seq<ImportSuccess>): (rs: seq<Option<nat>>)
    ensures |rs| == |l| && forall i :: 0 <= i < |l| ==> rs[i] == l[i].row
  {
    seq(|l|, i requires 0 <= i < |l| => l[i].row)
  }

  function FailureRows(l: seq<ImportFailure>): (rs: seq<Option<nat>>)
    ensures |rs| == |l| && forall i :: 0 <= i < |l| ==> rs[i] == l[i].row
  {
    seq(|l|, i requires 0 <= i < |l| => l[i].row)
  }

  function SkipRows(l: seq<ImportSkip>): (rs: seq<Option<nat>>)
    ensures |rs| == |l| && forall i :: 0 <= i < |l| ==> rs[i] == l[i].row
  {
    seq(|l|, i requires 0 <= i < |l| => l[i].row)
  }

  /** Every entry carries a row number between 1 and `k`. */
  predicate Numbered(rs: seq<Option<nat>>, k: nat) {
    forall i :: 0 <= i < |rs| ==> rs[i].Some? && 1 <= rs[i].value <= k
  }

  /** Row numbers strictly increase along the list. */
  predicate Ascending(rs: seq<Option<nat>>) {
    forall i, j :: 0 <= i < j < |rs| && rs[i].Some? && rs[j].Some? ==> rs[i].value < rs[j].value
  }

  function RowSet(rs: seq<Option<nat>>): set<nat> {
    set i | 0 <= i < |rs| && rs[i].Some? :: rs[i].value
  }

  /** The row numbers 1 to `k`. */
  function Upto(k: nat): (r: set<nat>)
    ensures forall j :: j in r <==> 1 <= j <= k
  {
    if k == 0 then {} else Upto(k - 1) + {k}
  }

  lemma RowSetSnoc(rs: seq<Option<nat>>, k: nat)
    ensures RowSet(rs + [Some(k)]) == RowSet(rs) + {k}
  {
    var rs' := rs + [Some(k)];
    assert rs'[|rs|] == Some(k);
    forall x | x in RowSet(rs) ensures x in RowSet(rs') {
      var i :| 0 <= i < |rs| && rs[i].Some? && rs[i].value == x;
      assert rs'[i] == rs[i];
    }
    forall x | x in RowSet(rs') ensures x in RowSet(rs) + {k} {
      var i :| 0 <= i < |rs'| && rs'[i].Some? && rs'[i].value == x;
      if i < |rs| {
        assert rs[i] == rs'[i];
      }
    }
  }

  lemma AppendRow(rs: seq<Option<nat>>, k: nat)
    requires k >= 1 && Numbered(rs, k - 1) && Ascending(rs)
    ensures Numbered(rs + [Some(k)], k) && Ascending(rs + [Some(k)])
    ensures RowSet(rs + [Some(k)]) == RowSet(rs) + {k} && k !in RowSet(rs)
  {
    var rs' := rs + [Some(k)];
    assert forall i :: 0 <= i < |rs| ==> rs'[i] == rs[i];
    RowSetSnoc(rs, k);
  }

  /** The three row lists of the first `k` rows: numbered, ascending, disjoint, covering 1 to `k`. */
  predicate Accounted(s: seq<Option<nat>>, f: seq<Option<nat>>, p: seq<Option<nat>>, k: nat) {
    && Numbered(s, k) && Numbered(f, k) && Numbered(p, k)
    && Ascending(s) && Ascending(f) && Ascending(p)
    && RowSet(s) + RowSet(f) + RowSet(p) == Upto(k)
    && RowSet(s) * RowSet(f) == {} && RowSet(s) * RowSet(p) == {} && RowSet(f) * RowSet(p) == {}
  }

  /** Appending row `k` to any one of the lists keeps them accounted. */
  lemma AccountedSnoc(s: seq<Option<nat>>, f: seq<Option<nat>>, p: seq<Option<nat>>, k: nat)
    requires k >= 1 && Accounted(s, f, p, k - 1)
    ensures Accounted(s + [Some(k)], f, p, k)
    ensures Accounted(s, f + [Some(k)], p, k)
    ensures Accounted(s, f, p + [Some(k)], k)
  {
    AppendRow(s, k);
    AppendRow(f, k);
    AppendRow(p, k);
  }

  function Rows(res: BulkImportResult): (seq<Option<nat>>, seq<Option<nat>>, seq<Option<nat>>) {
    (SuccessRows(res.successful), FailureRows(res.failed), SkipRows(res.skipped))
  }

  /** A turn appends one entry, numbered `k`, to exactly one of the lists. */
  lemma StepAppendsOne(st: ImportState, row: ImportRow, k: nat, dryRun: bool)
    requires TableValid(st.table)
    ensures
      var (s, f, p) := Rows(st.result);
      var (s', f', p') := Rows(Step(st, row, k, dryRun).result);
      || (s' == s + [Some(k)] && f' == f && p' == p)
      || (s' == s && f' == f + [Some(k)] && p' == p)
      || (s' == s && f' == f && p' == p + [Some(k)])
  {
  }

  /**
   * Every row lands in exactly one list, each list is in increasing row
   * order, and the three sizes add up to the number of rows.
   */
  lemma {:induction false} ImportAccounts(rows: seq<ImportRow>, k: nat, init: ImportState, dryRun: bool)
    requires k <= |rows| && TableValid(init.table)
    requires init.result == BulkImportResult([], [], [])
    ensures
      var res := ImportPrefix(rows, k, init, dryRun).result;
      && |res.successful| + |res.failed| + |res.skipped| == k
      && Accounted(Rows(res).0, Rows(res).1, Rows(res).2, k)
  {
    if k > 0 {
      ImportAccounts(rows, k - 1, init, dryRun);
      StepAccounts(ImportPrefix(rows, k - 1, init, dryRun), rows[k - 1], k, dryRun);
    }
  }

  /** The turn for row `k` keeps the lists accounted and adds one entry. */
  lemma StepAccounts(st: ImportState, row: ImportRow, k: nat, dryRun: bool)
    requires k >= 1 && TableValid(st.table)
    requires Accounted(Rows(st.result).0, Rows(st.result).1, Rows(st.result).2, k - 1)
    requires |st.result.successful| + |st.result.failed| + |st.result.skipped| == k - 1
    ensures var res := Step(st, row, k, dryRun).result;
      && Accounted(Rows(res).0, Rows(res).1, Rows(res).2, k)
      && |res.successful| + |res.failed| + |res.skipped| == k
  {
    StepAppendsOne(st, row, k, dryRun);
    var (s, f, p) := Rows(st.result);
    var (s', f', p') := Rows(Step(st, row, k, dryRun).result);
    AccountedStep(s, f, p, s', f', p', k);
  }

  /** A list gaining row `k` keeps the three lists accounted, and their sizes grow by one. */
  lemma AccountedStep(s: seq<Option<nat>>, f: seq<Option<nat>>, p: seq<Option<nat>>,
                      s': seq<Option<nat>>, f': seq<Option<nat>>, p': seq<Option<nat>>, k: nat)
    requires k >= 1 && Accounted(s, f, p, k - 1)
    requires || (s' == s + [Some(k)] && f' == f && p' == p)
             || (s' == s && f' == f + [Some(k)] && p' == p)
             || (s' == s && f' == f && p' == p + [Some(k)])
    ensures Accounted(s', f', p', k)
    ensures |s'| + |f'| + |p'| == |s| + |f| + |p| + 1
  {
    AccountedSnoc(s, f, p, k);
  }

  /** Where a row goes, stated without the loop: the bounds first, then the names. */
  datatype Disposition = Created | SkippedAsDuplicate | Failed

  /** The row's name was seeded, or (outside a dry run) an earlier in-bounds row had it. */
  predicate SeenBefore(rows: seq<ImportRow>, m: nat, seeded: set<string>, dryRun: bool)
    requires m < |rows|
  {
    || Lower(rows[m].name) in seeded
    || (!dryRun && exists e :: 0 <= e < m && BoundsError(rows[e]).None? && Lower(rows[e].name) == Lower(rows[m].name))
  }

  function DispositionOf(rows: seq<ImportRow>, m: nat, seeded: set<string>, dryRun: bool): Disposition
    requires m < |rows|
  {
    if BoundsError(rows[m]).Some? then Failed
    else if SeenBefore(rows, m, seeded, dryRun) then SkippedAsDuplicate
    else Created
  }

  /** The lower-cased names of the in-bounds rows among the first `k`. */
  function AcceptedNames(rows: seq<ImportRow>, k: nat): set<string>
    requires k <= |rows|
  {
    set e | 0 <= e < k && BoundsError(rows[e]).None? :: Lower(rows[e].name)
  }

  /** The name set grows by each in-bounds row's name, and not at all in a dry run. */
  lemma {:induction false} NamesAfter(rows: seq<ImportRow>, k: nat, init: ImportState, dryRun: bool)
    requires k <= |rows| && TableValid(init.table)
    ensures ImportPrefix(rows, k, init, dryRun).names
         == init.names + (if dryRun then {} else AcceptedNames(rows, k))
  {
    if k == 0 {
      assert AcceptedNames(rows, 0) == {};
    } else {
      NamesAfter(rows, k - 1, init, dryRun);
      if BoundsError(rows[k - 1]).None? {
        assert AcceptedNames(rows, k) == AcceptedNames(rows, k - 1) + {Lower(rows[k - 1].name)};
      } else {
        assert AcceptedNames(rows, k) == AcceptedNames(rows, k - 1);
      }
    }
  }

  /** A row's name is among those seen when the loop reaches it exactly when `SeenBefore` holds. */
  lemma SeenMeansSeenBefore(rows: seq<ImportRow>, m: nat, init: ImportState, dryRun: bool)
    requires m < |rows| && TableValid(init.table)
    ensures Lower(rows[m].name) in ImportPrefix(rows, m, init, dryRun).names <==> SeenBefore(rows, m, init.names, dryRun)
  {
    NamesAfter(rows, m, init, dryRun);
  }

  /** The row numbers among 1 to `k` whose disposition is `d`. */
  function RowsWith(rows: seq<ImportRow>, k: nat, seeded: set<string>, dryRun: bool, d: Disposition): (r: set<nat>)
    requires k <= |rows|
    ensures r <= Upto(k)
  {
    if k == 0 then {}
    else RowsWith(rows, k - 1, seeded, dryRun, d) + (if DispositionOf(rows, k - 1, seeded, dryRun) == d then {k} else {})
  }

  /** Turn `k` appends to the list its disposition names. */
  lemma StepFollowsDisposition(rows: seq<ImportRow>, k: nat, init: ImportState, dryRun: bool)
    requires 1 <= k <= |rows| && TableValid(init.table)
    ensures
      var res, res' := ImportPrefix(rows, k - 1, init, dryRun).result, ImportPrefix(rows, k, init, dryRun).result;
      var d := DispositionOf(rows, k - 1, init.names, dryRun);
      && SuccessRows(res'.successful) == SuccessRows(res.successful) + (if d == Created then [Some(k)] else [])
      && FailureRows(res'.failed) == FailureRows(res.failed) + (if d == Failed then [Some(k)] else [])
      && SkipRows(res'.skipped) == SkipRows(res.skipped) + (if d == SkippedAsDuplicate then [Some(k)] else [])
  {
    var st, row := ImportPrefix(rows, k - 1, init, dryRun), rows[k - 1];
    var st' := Step(st, row, k, dryRun);
    assert ImportPrefix(rows, k, init, dryRun) == st';
    SeenMeansSeenBefore(rows, k - 1, init, dryRun);
    var res, res' := st.result, st'.result;
    if BoundsError(row).Some? {
      FailureRowsSnoc(res.failed, res'.failed[|res.failed|]);
      assert res'.successful == res.successful && res'.skipped == res.skipped;
    } else if Lower(row.name) in st.names {
      SkipRowsSnoc(res.skipped, res'.skipped[|res.skipped|]);
      assert res'.successful == res.successful && res'.failed == res.failed;
    } else {
      SuccessRowsSnoc(res.successful, res'.successful[|res.successful|]);
      assert res'.failed == res.failed && res'.skipped == res.skipped;
    }
  }

  lemma SuccessRowsSnoc(l: seq<ImportSuccess>, e: ImportSuccess)
    ensures SuccessRows(l + [e]) == SuccessRows(l) + [e.row]
  {
    assert forall i :: 0 <= i < |l| ==> (l + [e])[i] == l[i];
  }

  lemma FailureRowsSnoc(l: seq<ImportFailure>, e: ImportFailure)
    ensures FailureRows(l + [e]) == FailureRows(l) + [e.row]
  {
    assert forall i :: 0 <= i < |l| ==> (l + [e])[i] == l[i];
  }

  lemma SkipRowsSnoc(l: seq<ImportSkip>, e: ImportSkip)
    ensures SkipRows(l + [e]) == SkipRows(l) + [e.row]
  {
    assert forall i :: 0 <= i < |l| ==> (l + [e])[i] == l[i];
  }

  /** `RowSet` of a list that may have gained row `k`. */
  lemma RowSetMaybeSnoc(rs: seq<Option<nat>>, k: nat, added: bool)
    ensures RowSet(rs + (if added then [Some(k)] else [])) == RowSet(rs) + (if added then {k} else {})
  {
    if added {
      RowSetSnoc(rs, k);
    } else {
      assert rs + [] == rs;
    }
  }

  /**
   * Each list holds exactly the rows of its disposition: out-of-bounds rows
   * fail even when their name is taken, seen names are skipped, the rest
   * succeed.
   */
  lemma {:induction false} RowsByDisposition(rows: seq<ImportRow>, k: nat, init: ImportState, dryRun: bool)
    requires k <= |rows| && TableValid(init.table)
    requires init.result == BulkImportResult([], [], [])
    ensures
      var res := ImportPrefix(rows, k, init, dryRun).result;
      && RowSet(SuccessRows(res.successful)) == RowsWith(rows, k, init.names, dryRun, Created)
      && RowSet(FailureRows(res.failed)) == RowsWith(rows, k, init.names, dryRun, Failed)
      && RowSet(SkipRows(res.skipped)) == RowsWith(rows, k, init.names, dryRun, SkippedAsDuplicate)
  {
    if k > 0 {
      RowsByDisposition(rows, k - 1, init, dryRun);
      StepFollowsDisposition(rows, k, init, dryRun);
      var res := ImportPrefix(rows, k - 1, init, dryRun).result;
      var d := DispositionOf(rows, k - 1, init.names, dryRun);
      RowSetMaybeSnoc(SuccessRows(res.successful), k, d == Created);
      RowSetMaybeSnoc(FailureRows(res.failed), k, d == Failed);
      RowSetMaybeSnoc(SkipRows(res.skipped), k, d == SkippedAsDuplicate);
    }
  }

  /** A dry run writes nothing, seeds no names, and reports each accepted row as "would be created". */
  lemma {:induction false} DryRunWritesNothing(rows: seq<ImportRow>, k: nat, init: ImportState)
    requires k <= |rows| && TableValid(init.table)
    requires init.result.successful == []
    ensures var fin := ImportPrefix(rows, k, init, true);
      && fin.table == init.table
      && fin.names == init.names
      && forall i :: 0 <= i < |fin.result.successful| ==>
           fin.result.successful[i].id.None? && fin.result.successful[i].status == Some(WOULD_BE_CREATED)
  {
    if k > 0 {
      DryRunWritesNothing(rows, k - 1, init);
    }
  }

  /** Outside a dry run every successful entry names a new stored location with the row's name. */
  lemma {:induction false} ImportCreates(rows: seq<ImportRow>, k: nat, init: ImportState)
    requires k <= |rows| && TableValid(init.table)
    requires init.result.successful == []
    ensures var fin := ImportPrefix(rows, k, init, false);
      && |fin.table.docs| == |init.table.docs| + |fin.result.successful|
      && init.table.docs.Keys <= fin.table.docs.Keys
      && forall i :: 0 <= i < |fin.result.successful| ==>
           var e := fin.result.successful[i];
           && e.id.Some? && e.id.value !in init.table.docs && e.id.value in fin.table.docs
           && fin.table.docs[e.id.value].name == e.name && e.status.None?
  {
    if k > 0 {
      ImportCreates(rows, k - 1, init);
      CreateStep(init.table, ImportPrefix(rows, k - 1, init, false), rows[k - 1], k);
    }
  }

  /** The import stores no point outside Puerto Rico: every location it adds passed the bounds check. */
  lemma {:induction false} ImportAddsOnlyValidPoints(rows: seq<ImportRow>, k: nat, init: ImportState, dryRun: bool)
    requires k <= |rows| && TableValid(init.table)
    ensures var fin := ImportPrefix(rows, k, init, dryRun).table;
      forall id :: id in fin.docs && id !in init.table.docs ==> IsValidPuertoRicoCoordinates(fin.docs[id].coordinates)
  {
    if k > 0 {
      ImportAddsOnlyValidPoints(rows, k - 1, init, dryRun);
    }
  }

  /** What a committing import has done to the table so far, starting from `init`. */
  ghost predicate CreatedFrom(init: Table<GeoLocale>, st: ImportState) {
    && |st.table.docs| == |init.docs| + |st.result.successful|
    && init.docs.Keys <= st.table.docs.Keys
    && forall i :: 0 <= i < |st.result.successful| ==>
         var e := st.result.successful[i];
         && e.id.Some? && e.id.value !in init.docs && e.id.value in st.table.docs
         && st.table.docs[e.id.value].name == e.name && e.status.None?
  }

  /** One committing turn keeps `CreatedFrom`. */
  lemma CreateStep(init: Table<GeoLocale>, st: ImportState, row: ImportRow, k: nat)
    requires TableValid(st.table) && CreatedFrom(init, st)
    ensures CreatedFrom(init, Step(st, row, k, false))
  {
    if BoundsError(row).None? && Lower(row.name) !in st.names {
      var (t, id) := Insert(st.table, RowLocale(row));
      var st' := Step(st, row, k, false);
      assert st'.table == t;
      assert st'.result.successful == st.result.successful + [ImportSuccess(row.name, Some(k), Some(id), None)];
      assert |t.docs| == |st.table.docs| + 1;
      forall i | 0 <= i < |st'.result.successful|
        ensures var e := st'.result.successful[i];
          e.id.Some? && e.id.value !in init.docs && e.id.value in t.docs && t.docs[e.id.value].name == e.name
      {
        if i < |st.result.successful| {
          assert st'.result.successful[i] == st.result.successful[i];
        }
      }
    }
  }

  /** Two equal in-bounds rows with a new name: a dry run accepts both, a real run skips the second. */
  lemma DryRunMissesBatchDuplicates(t: Table<GeoLocale>, row: ImportRow)
    requires TableValid(t)
    requires BoundsError(row).None? && Lower(row.name) !in ExistingNames(t)
    ensures var dry := ImportPrefix([row, row], 2, StartOfImport(t), true).result;
      |dry.successful| == 2 && |dry.skipped| == 0
    ensures var committed := ImportPrefix([row, row], 2, StartOfImport(t), false).result;
      |committed.successful| == 1 && |committed.skipped| == 1
  {
    var start := StartOfImport(t);
    var rows := [row, row];
    assert ImportPrefix(rows, 1, start, true) == Step(start, row, 1, true);
    assert ImportPrefix(rows, 1, start, false) == Step(start, row, 1, false);
    assert Lower(row.name) !in ImportPrefix(rows, 1, start, true).names;
    assert Lower(row.name) in ImportPrefix(rows, 1, start, false).names;
  }
}
