# Puerto Rico logistics map — verified model of the backend core

This project models the backend of the Puerto Rico logistics map. It also models the small pure helpers of the map page and of the export script.

The backend is a set of Convex queries and mutations, plus the handlers of two agent tool sets:

- `geoLocales`: facility locations, filtered and sorted by name, with detailed views.
- `facilityBoxes` and `facilityVariables`: boxes of attributes per location, and the variables inside each box. Variables form a tree through `parentVariableId`.
- `adminSessions`: password sign-in with four-hour sessions.
- `facilities`: the legacy flat table, with upsert by `externalId`.
- The admin agent tools (create, update, delete, bulk import, reports).
- The public assistant tools (search, details, nearby, statistics).

The database is the class `Store.Db`, one field per table. Each table is a map from document id to record, plus the id the next insert receives. Mutations are methods whose `modifies` clause names the tables they write. Their contracts state the whole new table and the unchanged one on every error path, since a Convex mutation that throws commits nothing.

Queries are functions over a table value. Each is tied by lemmas to an independent description: membership exactly when stored and selected, sortedness, stability, sizes. The `getById` queries of all four tables are `Store.Get`.

Three inputs of the source are not deterministic, so they are parameters:

- the clock reading `now`;
- the random bytes behind a token;
- the great-circle distance function (Haversine in the source).

The Convex behaviour the model assumes is stated in `store.dfy`:

- ids grow with creation time, so `collect()` and index lookups list documents in ascending id order, and `.first()` is the lowest matching id;
- `patch` and `delete` of a missing id fail;
- a failing mutation rolls back.

JavaScript semantics are written out where they matter:

- truthiness of optional strings;
- `??`, as `Coalesce`;
- UTF-16 code units, for `substring` and `charCodeAt`;
- `trim` and its whitespace class;
- `<<` and `>>> 0` on 32-bit integers;
- the stable `Array.prototype.sort`, as `Seqs.SortBy`.

## Model

| member | source | states |
|---|---|---|
| Helpers.ValidateCoordinates | convex/agents/shared/helpers.ts:90-101 | passes exactly when 17.5 ≤ lat ≤ 18.6 and −67.5 ≤ lng ≤ −65.0; a failure carries the field name, the point and the bounds |
| Helpers.TakeCodeUnits | convex/agents/shared/helpers.ts:171-186 | the cut to 200 UTF-16 code units is a prefix of whole characters, never longer than the limit, and the whole input when it fits |
| Helpers.SanitizeSearchInput | convex/agents/shared/helpers.ts:171-186 | the sanitised text is at most 200 characters long, holds only word characters, whitespace, `- . ,` and the listed accented letters, and only characters of the trimmed input |
| Helpers.SanitizeKeepsCleanInput | convex/agents/shared/helpers.ts:171-186 | a trimmed input of at most 200 code units holding only allowed characters comes back unchanged |
| Helpers.SanitizeKeepsAllowed | convex/agents/shared/helpers.ts:171-186 | every allowed character within the first 200 code units of the trimmed input survives |
| Helpers.TallyMeaning | convex/agents/shared/helpers.ts:223-229 | the accumulated counts have exactly the occurring keys, each mapped to the number of items with that key |
| Helpers.TallyTotal | convex/agents/shared/helpers.ts:223-229 | the accumulated counts add up to the number of items |
| Helpers.GroupBy | convex/agents/shared/helpers.ts:200-209 | the groups are keyed by exactly the occurring keys, and each group holds the items with its key in input order |
| Helpers.GroupSizesTotal | convex/agents/shared/helpers.ts:200-209 | the group sizes add up to the item count, so every item lands in exactly one group |
| Helpers.CountsTotal | convex/agents/shared/helpers.ts:223-229 | `countBy`'s counts add up to the number of items, no count is filed under the empty key, and items with a falsy key are counted under 'unknown' |
| Helpers.CountsNoKey | convex/agents/shared/helpers.ts:223-229 | when no item has a key, every item is counted under 'unknown' |
| Helpers.CountBy | convex/agents/shared/helpers.ts:223-229 | the item-by-item accumulation loop computes exactly those counts |
| Helpers.GenerateSecureToken | convex/agents/shared/helpers.ts:241-245 | n random bytes become 2n lower-case hex digits that decode back to the same bytes |
| Helpers.CheckAdminKey | convex/agents/shared/helpers.ts:281-291 | fails "not configured" exactly when the secret is missing or empty (checked first), "unauthorized" exactly when a configured secret differs from the key, and passes exactly when they are equal |
| Helpers.ValidateRequiredFields | convex/agents/shared/helpers.ts:329-341 | passes exactly when no required field is undefined, null or empty; a failure lists every missing field and only missing ones, and is never empty |
| AgentTypes.BoundsInclusive | agents/lib/types.ts:213-220 | the bounds test is exactly the closed rectangle lat ∈ [17.5, 18.6], lng ∈ [−67.5, −65.0], both corners included |
| AgentTypes.EnumerationsExact | agents/lib/types.ts:22-40 | exactly the four facility types and the five regions are accepted, each listed once |
| AgentTypes.ByteHex | agents/lib/types.ts:281 | one byte becomes two lower-case hex digits |
| AgentTypes.ByteHexDigits | agents/lib/types.ts:281 | the two digits are the high and the low nibble of the byte, so a small byte is zero-padded |
| AgentTypes.HexEncode | agents/lib/types.ts:281 | n bytes become 2n lower-case hex digits |
| AgentTypes.HexRoundTrip | agents/lib/types.ts:277-282 | decoding the hex text gives back the bytes, so distinct bytes give distinct tokens |
| AgentTypes.GenerateSessionToken | agents/lib/types.ts:277-282 | 32 random bytes give 64 lower-case hex digits that decode back to those bytes |
| GeoLocales.FilteredGeoLocales | convex/geoLocales.ts:10-50 | the filtered locations are sorted by name |
| GeoLocales.FilteredMember | convex/geoLocales.ts:19-46 | a location is listed exactly when it is stored and active (unless `activeOnly` is false; it defaults to true), has the given type and region, and for a given search contains the lower-cased needle in its lower-cased name or description |
| GeoLocales.FilteredTiesInCreationOrder | convex/geoLocales.ts:49 | locations with equal names keep their creation order (the sort is stable) |
| GeoLocales.UnfilteredListsAll | convex/geoLocales.ts:56-66 | with no filter and `activeOnly: false`, `list` returns every stored location |
| Store.Get | convex/geoLocales.ts:71-76 | `getById` returns the stored record exactly when the id is stored |
| GeoLocales.AssembleForest | convex/geoLocales.ts:117-132 | the tree-building loop yields the roots in order, and one `subVariables` list per variable of the box holding its children in order |
| GeoLocales.VariablePlacement | convex/geoLocales.ts:122-131 | a variable is a root exactly when it has no parent or its parent is not in the box, and it is a child of `p` exactly when its parent is `p` and `p` is in the box |
| GeoLocales.PlacedAreVariables | convex/geoLocales.ts:117-132 | only variables of the box are placed, each under the parent it names |
| GeoLocales.ForestPartition | convex/geoLocales.ts:117-132 | the roots plus all the children lists hold exactly as many entries as the box has variables: none is dropped or repeated |
| GeoLocales.SiblingsSorted | convex/geoLocales.ts:114-132 | variables sorted by `sortOrder` give roots and sibling lists sorted by `sortOrder` |
| GeoLocales.TwoCycleHasNoRoot | convex/geoLocales.ts:120-132 | two variables naming each other as parent are children of each other, and neither is a root |
| GeoLocales.SelfParentHasNoRoot | convex/geoLocales.ts:120-132 | a variable that is its own parent is pushed into itself and is no root |
| GeoLocales.DetailedBoxOfLocale | convex/geoLocales.ts:97-142 | every detailed box is a stored box of the location, with its title, icon and colour, and with the variables stored for that box as its forest |
| GeoLocales.BoxesWithVariables | convex/geoLocales.ts:97-142 | the per-location step builds exactly those detailed boxes, each with its variable forest |
| GeoLocales.Detail | convex/geoLocales.ts:96-154 | the entry of one location holds its id, type and coordinates, and its name, type and detailed boxes as `data` |
| GeoLocales.DetailAll | convex/geoLocales.ts:94-155 | one `{ id, type, coordinates, data }` entry per location, in list order |
| GeoLocales.ListWithDetails | convex/geoLocales.ts:82-159 | one detailed entry per location of the filtered list, in the same order |
| GeoLocales.GetByIdWithDetails | convex/geoLocales.ts:164-227 | null exactly when the id is not stored, and otherwise the same detailed entry as the list builds |
| FacilityBoxes.GetByGeoLocaleId | convex/facilityBoxes.ts:25-35 | the boxes are sorted by ascending `sortOrder` |
| FacilityBoxes.GetByGeoLocaleIdMember | convex/facilityBoxes.ts:28-31 | a box is listed exactly when it is stored with that `geoLocaleId` |
| FacilityBoxes.BoxTiesInCreationOrder | convex/facilityBoxes.ts:33 | boxes with equal `sortOrder` keep their creation order |
| FacilityBoxes.AdminCreate | convex/facilityBoxes.ts:51-73 | inserts exactly one box with the given fields exactly when the key is accepted and the location exists; a rejected key reports the key error, a missing location reports that, and nothing is written on error |
| FacilityBoxes.PatchedBoxFields | convex/facilityBoxes.ts:103-107 | given fields replace the stored ones, omitted ones are kept, the empty patch changes nothing, and patching twice is patching once |
| FacilityBoxes.AdminUpdate | convex/facilityBoxes.ts:79-110 | patches exactly when the key is accepted, a given location exists and the box exists; a missing box fails at the patch; and nothing changes on error |
| FacilityBoxes.AdminDelete | convex/facilityBoxes.ts:117-139 | on success the box and every variable of that box are gone and every other variable is unchanged; on a bad key or a missing box nothing is deleted |
| FacilityVariables.GetByBoxId | convex/facilityVariables.ts:24-34 | the variables are sorted by ascending `sortOrder` |
| FacilityVariables.GetByBoxIdMember | convex/facilityVariables.ts:24-34 | a variable is listed exactly when it is stored with that `boxId` |
| FacilityVariables.GetByKey | convex/facilityVariables.ts:49-57 | only stored variables with that key, in ascending id order |
| FacilityVariables.GetByKeyMember | convex/facilityVariables.ts:49-57 | a variable is listed exactly when it is stored with that key |
| FacilityVariables.CreateCheck | convex/facilityVariables.ts:77-108 | the create checks pass exactly when the key is accepted, the box exists, a given parent exists in the same box, the type is one of the five and a nested variable has no value; the key is checked first |
| FacilityVariables.AdminCreate | convex/facilityVariables.ts:63-112 | inserts exactly one record with the given fields exactly when the checks pass, and otherwise reports the first failing check and writes nothing |
| FacilityVariables.CreateKeepsParentsInOwnBox | convex/facilityVariables.ts:88-97 | a created variable keeps the invariant that every parent link points into the child's own box |
| FacilityVariables.PatchedFields | convex/facilityVariables.ts:177-181 | given fields take the new value, omitted fields keep the old one, and the empty patch changes nothing |
| FacilityVariables.PatchedIdempotent | convex/facilityVariables.ts:177-181 | applying the same patch twice is applying it once |
| FacilityVariables.UpdateCheck | convex/facilityVariables.ts:134-174 | the update checks pass exactly when the key is accepted, the variable exists, a given box exists, a given parent exists, lies in the target box (new or current) and is not the variable itself, and a given type is one of the five |
| FacilityVariables.AdminUpdate | convex/facilityVariables.ts:118-184 | patches exactly when the checks pass, and otherwise reports the first failing check and writes nothing |
| FacilityVariables.UpdatedParentIsSound | convex/facilityVariables.ts:152-166 | after an accepted update with a parent, that parent is in the variable's box and is not the variable |
| FacilityVariables.MoveWithoutParentSplitsLink | convex/facilityVariables.ts:144-166 | moving a child to another box without naming a parent is accepted, and leaves the child pointing at a parent in its old box |
| FacilityVariables.DeleteVariables | convex/facilityVariables.ts:209-212 | deleting the collected children one by one removes exactly their ids |
| FacilityVariables.AdminDelete | convex/facilityVariables.ts:191-218 | succeeds exactly when the key is accepted, the variable exists and is not its own parent; on success the variable and its direct children are gone and every other variable is unchanged; otherwise nothing changes |
| FacilityVariables.GrandchildSurvives | convex/facilityVariables.ts:200-206 | only direct children are deleted: a grandchild stays, pointing at a parent that no longer exists |
| FacilityVariables.NoChildLeft | convex/facilityVariables.ts:200-215 | no remaining variable names the deleted one as its parent, and every remaining variable is unchanged |
| AdminSessions.FindByToken | convex/adminSessions.ts:108-111 | a found session is stored and carries the token |
| AdminSessions.FindByTokenNone | convex/adminSessions.ts:108-114 | nothing is found exactly when no stored session carries the token |
| AdminSessions.FindByTokenLowest | convex/adminSessions.ts:108-111 | the lookup returns the lowest-id session with the token |
| AdminSessions.Validate | convex/adminSessions.ts:107-139 | "Session not found" exactly when no session matches, "Session expired" exactly when the match has `expiresAt ≤ now`, and otherwise valid with the stored session's id, user, expiry and creation time but no token |
| AdminSessions.ValidateNotFound | convex/adminSessions.ts:113-119 | "Session not found" means that no stored session has the token at all |
| AdminSessions.SweepSizes | convex/adminSessions.ts:213-218 | the survivors and the expired ids split the table, and their sizes add up |
| AdminSessions.SurvivingInsert | convex/adminSessions.ts:67-75 | a session that is live at `now` and inserted before the sweep survives it |
| AdminSessions.ExpiredAmongCollect | convex/adminSessions.ts:210-218 | the sweep over `collect()` meets exactly the sessions with `expiresAt ≤ now` |
| AdminSessions.CleanupExpiredSessions | convex/adminSessions.ts:206-226 | deletes exactly the sessions with `expiresAt ≤ now`, and `deletedCount` is the number removed |
| AdminSessions.NewSession | convex/adminSessions.ts:62-72 | the minted session is live at `now` and lives 14,400,000 ms |
| AdminSessions.Authenticate | convex/adminSessions.ts:44-83 | missing configuration and a wrong password are the two errors, and neither writes anything; success returns the token drawn from the random bytes and `now` + 4 h, and leaves the sessions that survive the sweep plus the new session |
| AdminSessions.Invalidated | convex/adminSessions.ts:157-164 | the session the token names is removed if there is one; sessions with other tokens stay; an unknown token changes nothing |
| AdminSessions.InvalidateIdempotent | convex/adminSessions.ts:156-167 | when at most one session carries the token, invalidating twice is invalidating once |
| AdminSessions.Invalidate | convex/adminSessions.ts:152-168 | always succeeds, and leaves exactly the invalidated table |
| AdminSessions.LiveSessionsStored | convex/adminSessions.ts:183-189 | the user's live sessions are stored, belong to the user, have `expiresAt > now` and come in ascending id order |
| AdminSessions.GetActiveSessions | convex/adminSessions.ts:178-198 | each listed entry is a live session of the user with its creation and expiry times and no token, in ascending id order |
| AdminSessions.ActiveSessionsComplete | convex/adminSessions.ts:183-196 | every live session of the user is listed |
| AdminSessions.Extended | convex/adminSessions.ts:254-258 | only the expiry changes: token, user and creation time stay; the session is live at `now` and expired 4 h later |
| AdminSessions.ExtendSession | convex/adminSessions.ts:236-266 | fails exactly for an unknown or an expired token, and then writes nothing; otherwise it sets only that session's expiry to `now` + 4 h and returns it |
| AdminSessions.ExtendedTokenValidates | convex/adminSessions.ts:240-258 | after an extension the same token validates, for the same session |
| AdminSessions.GetSessionStats | convex/adminSessions.ts:273-294 | `active` counts the sessions with `expiresAt > now`, `expired` those with `expiresAt <= now`, and together they are all the sessions; the oldest and newest active times are present exactly when some session is active |
| AdminSessions.StatsMatchSweep | convex/adminSessions.ts:276-284 | the statistics agree with the sweep at the same instant: `active` is the number of sessions it keeps, `expired` the number it deletes |
| AdminSessions.StatsBounds | convex/adminSessions.ts:286-291 | the oldest and newest active creation times bound those of every live session, and both are attained by a live session |
| AdminTools.ToolAuth | convex/agents/jaynette.ts:66-67 | passing the configured key to itself fails only with "not configured", exactly when the key is missing or empty |
| AdminTools.AllLocationsMember | convex/agents/jaynette.ts:73-75 | the unfiltered list holds every stored location, active or not |
| AdminTools.FindNamed | convex/agents/jaynette.ts:77-79 | a clash is a stored location other than the excluded one whose lower-cased name equals the lower-cased new name; none is found exactly when no such location exists |
| AdminTools.NewLocale | convex/agents/jaynette.ts:88-96 | the created record has the given name, type and point, is active, and defaults the description to "" and the region to "central" |
| AdminTools.CreateFacility | convex/agents/jaynette.ts:63-107 | creates exactly when the key is configured, the point is in bounds and no location of any activity has the same lower-cased name; a clash names the existing id, and nothing is written on error |
| AdminTools.PatchedLocaleFields | convex/agents/jaynette.ts:179-183 | only the given fields change, the empty update changes nothing, and updating twice is updating once |
| AdminTools.UpdateFacility | convex/agents/jaynette.ts:141-193 | checks the key, then a given point (an out-of-bounds point is the "Updated coordinates" bounds error, whatever else is wrong), then that the location exists; a rename to a truthy name that differs from the current one must not clash with another location; success patches only the given fields; nothing is written on error |
| AdminTools.DeleteFacility | convex/agents/jaynette.ts:210-238 | removes the location exactly when the key is configured and the location exists, reports its name, and otherwise writes nothing |
| AdminTools.SummaryOf | convex/agents/jaynette.ts:395-407 | the summary counts every listed location once as total; `active` counts the active ones and `inactive` the rest; `byType` and `byRegion` are the `countBy` groupings by type and by region, each summing to the total |
| AdminTools.DetailedRows | convex/agents/jaynette.ts:409-424 | one row per listed location, in list order, carrying its id, name, type, region, point, description and activity, with a box count of 0 (a location record has no `boxes`) |
| AdminTools.ReportOver | convex/agents/jaynette.ts:394-437 | over a given listing: the three report types are accepted and any other is "Unknown report type"; the summary and detailed report carry the counts, groupings and full rows of that listing; the capacity report counts it |
| AdminTools.GenerateReport | convex/agents/jaynette.ts:386-441 | the three report types are accepted and any other is an error; the summary counts the filtered locations, the active ones, the inactive ones and their groupings by type and by region; the detailed report has one full row per filtered location, in order; the capacity report counts them |
| AdminTools.SummaryOnDetails | convex/agents/jaynette.ts:395-407 | on the entries `listWithDetails` returns, the summary counts every location inactive, none active, and files all under region 'unknown' |
| AdminTools.ActiveReportOnDetailsCountsAllInactive | convex/agents/jaynette.ts:388-407 | with the active filter and a non-empty listing, the summary over the records counts no inactive location while the handler over the entries counts all of them inactive |
| AdminTools.DetailedRowsOnDetails | convex/agents/jaynette.ts:409-424 | on the entries `listWithDetails` returns, each detailed row has the type and coordinates but no id, name, region or activity, and a box count of 0 |
| AdminTools.ActiveReportHasNoInactive | convex/agents/jaynette.ts:388-402 | unless `activeOnly` is false, the summary counts no inactive location |
| AdminTools.ReportListedAreSelected | convex/agents/jaynette.ts:388-392 | every reported location satisfies the report's filters |
| AdminTools.BoundsError | convex/agents/jaynette.ts:292-297 | a row fails the bounds test exactly when its point is out of bounds, and the latitude message wins when both coordinates are out |
| AdminTools.ExistingNamesMember | convex/agents/jaynette.ts:278 | the seeded name set is exactly the lower-cased names of the stored locations |
| AdminTools.ImportOne | convex/agents/jaynette.ts:290-342 | the loop body fails, skips or creates one row, as the step function says |
| AdminTools.BulkImport | convex/agents/jaynette.ts:269-361 | a missing key is the only error and writes nothing; otherwise the table and the three lists are those the row loop leaves after the last row, `dryRun` is echoed, and the summary counts the rows and each list |
| AdminTools.StepAppendsOne | convex/agents/jaynette.ts:290-342 | each turn appends exactly one entry, numbered with the row, to exactly one of the three lists |
| AdminTools.ImportAccounts | convex/agents/jaynette.ts:286-351 | every row lands in exactly one list, each list is in increasing row order, and the three sizes add up to the number of rows |
| AdminTools.NamesAfter | convex/agents/jaynette.ts:327-328 | the name set grows by the name of each created row, and not at all in a dry run |
| AdminTools.SeenMeansSeenBefore | convex/agents/jaynette.ts:300-307 | a row's name is already in the set exactly when it was seeded or, outside a dry run, an earlier in-bounds row had it |
| AdminTools.StepFollowsDisposition | convex/agents/jaynette.ts:290-342 | each turn appends to the list its disposition names: bounds first, then names |
| AdminTools.RowsByDisposition | convex/agents/jaynette.ts:290-342 | each list holds exactly the rows of its disposition: out-of-bounds rows fail even with a duplicate name, seen names are skipped, and the rest succeed |
| AdminTools.DryRunWritesNothing | convex/agents/jaynette.ts:329-335 | a dry run writes nothing, adds no name, and reports every accepted row as "would be created" without an id |
| AdminTools.ImportAddsOnlyValidPoints | convex/agents/jaynette.ts:289-328 | every location the import adds to the table lies within the Puerto Rico bounds |
| AdminTools.ImportCreates | convex/agents/jaynette.ts:310-328 | outside a dry run each success names a new stored location with the row's name, and the table grows by the number of successes |
| AdminTools.DryRunMissesBatchDuplicates | convex/agents/jaynette.ts:327-328 | two equal new in-bounds rows: a dry run accepts both, a real run creates one and skips the other |
| PublicTools.SearchMatches | convex/agents/fabiola.ts:62-79 | the matches are in name order |
| PublicTools.SearchMember | convex/agents/fabiola.ts:62-79 | a facility matches exactly when it is stored and passes the type, region and activity filters, and, for a term that sanitises to something non-empty, contains the lower-cased term in its lower-cased name or description |
| PublicTools.SearchFacilities | convex/agents/fabiola.ts:59-99 | `total` counts all matches, `shown` = min(20, total), and the shown facilities are the first matches in order |
| PublicTools.BoxViewOf | convex/agents/fabiola.ts:134-145 | a box view keeps the box's title, icon and colour and lists its top-level variables in order, each with its key, label, type, value and unit |
| PublicTools.GetFacilityDetails | convex/agents/fabiola.ts:116-150 | "Facility not found" exactly when the id is not stored; otherwise the location's fields and its boxes in `sortOrder` order, each with its title, icon, colour and top-level variables (key, label, type, value, unit) |
| PublicTools.Placements | convex/agents/fabiola.ts:189-196 | each facility is paired with its distance from the centre |
| PublicTools.NearbyMatches | convex/agents/fabiola.ts:189-198 | the matches are sorted by non-decreasing distance |
| PublicTools.NearbyMember | convex/agents/fabiola.ts:183-198 | a facility is a match exactly when it is stored, active, of the requested type and no farther than the radius (bound included) |
| PublicTools.NearbyWithinRadius | convex/agents/fabiola.ts:197 | every match lies within the radius |
| PublicTools.NearbyShown | convex/agents/fabiola.ts:198-203 | the shown prefix keeps the radius bound and the distance order |
| PublicTools.GetNearbyFacilities | convex/agents/fabiola.ts:174-217 | an out-of-bounds centre is an error whatever the table holds; otherwise at most the 15 nearest matches are shown, nearest first and within the radius, and `total` counts all matches |
| PublicTools.StatisticsListingMember | convex/agents/fabiola.ts:237-241 | a facility is counted exactly when it is stored and of the given type and region, active or not |
| PublicTools.Echo | convex/agents/fabiola.ts:252-253 | an absent or empty filter is echoed as 'all' |
| PublicTools.GetStatistics | convex/agents/fabiola.ts:235-259 | `active` counts the active listed facilities and `inactive` the rest; `byType` and `byRegion` are the `countBy` groupings by type and by region, each summing to the total |
| PublicTools.StatisticsSeeActive | convex/agents/fabiola.ts:243-247 | a stored active facility within the filters makes the active count positive |
| PublicTools.StatisticsOnDetailsSeeNoActive | convex/agents/fabiola.ts:243-250 | on the entries `listWithDetails` returns, no facility counts as active and all are grouped under region 'unknown' |
| PublicTools.SearchOnDetails | convex/agents/fabiola.ts:59-99 | on the entries `listWithDetails` returns, a search whose term sanitises to something non-empty is an error exactly when the listing is non-empty; otherwise the first 20 entries are shown, none with a name |
| PublicTools.SearchOnDetailsFailsWhereRecordsMatch | convex/agents/fabiola.ts:73-79 | whenever the search over the location records finds a facility for a non-empty term, the handler over the entries of the same listing returns the `toLowerCase` TypeError |
| PublicTools.DetailsOnEntry | convex/agents/fabiola.ts:116-150 | on the entry `getByIdWithDetails` returns, "Facility not found" exactly when there is none, and otherwise a view with the type and coordinates but no name, activity or boxes |
| LegacyFacilities.ListFacilities | convex/facilities.ts:5-33 | the listed documents are sorted by name |
| LegacyFacilities.ListMember | convex/facilities.ts:12-28 | a document is listed exactly when it is stored, has the given category, and, for a non-empty search, contains the lower-cased needle in its lower-cased name or in an address it has |
| LegacyFacilities.ListTiesInStorageOrder | convex/facilities.ts:31 | documents with equal names keep their storage order |
| LegacyFacilities.UpsertOneEffect | convex/facilities.ts:75-89 | a row with a known external id patches the first document carrying it and creates none; any other row inserts one new document; the written document is stamped with `now`, and nothing else changes |
| LegacyFacilities.UpsertOneKnown | convex/facilities.ts:76-88 | a stored external id stays stored, and a row's own external id is stored after its turn |
| LegacyFacilities.UpsertedKnowsBatch | convex/facilities.ts:75-89 | every row of the batch with a non-empty external id leaves that id stored |
| LegacyFacilities.KnownRowPatches | convex/facilities.ts:76-85 | a row whose external id is stored keeps the document count |
| LegacyFacilities.KnownStaysKnown | convex/facilities.ts:75-89 | a stored external id stays stored through any batch |
| LegacyFacilities.KnownRowsKeepCount | convex/facilities.ts:75-89 | a batch whose external ids are all stored keeps the document count |
| LegacyFacilities.RerunKeepsCount | convex/facilities.ts:76-88 | re-running a batch in which every row has an external id creates no document |
| LegacyFacilities.AnonymousRowsInsert | convex/facilities.ts:76-88 | rows without an external id always insert, so a batch of k of them adds k documents |
| LegacyFacilities.UpsertedSize | convex/facilities.ts:75-89 | a batch of k rows adds between none and k documents |
| LegacyFacilities.UpsertMany | convex/facilities.ts:51-93 | performs one patch or insert per row, in order, and reports `upserted` = number of rows |
| LegacyFacilities.DeleteAll | convex/facilities.ts:98-107 | leaves the table empty and reports its previous size |
| RfiMap.EscapeChar | app/rfimap/components/RfiMap.tsx:101 | an ordinary character is kept; each of `& < > " '` becomes an entity beginning with `&` and ending with `;`; no replacement holds `< > " '` |
| RfiMap.Escape | app/rfimap/components/RfiMap.tsx:100-102 | the output is never shorter than the input and holds none of `< > " '` |
| RfiMap.EscapeAppend | app/rfimap/components/RfiMap.tsx:101 | escaping a concatenation escapes each part |
| RfiMap.EscapeClean | app/rfimap/components/RfiMap.tsx:101 | text without the five characters is returned unchanged |
| RfiMap.EscapeSameLength | app/rfimap/components/RfiMap.tsx:101 | the output is as long as the input exactly when there is nothing to replace |
| RfiMap.UnescapeChar | app/rfimap/components/RfiMap.tsx:101 | decoding the replacement of any character gives back that character |
| RfiMap.UnescapeEscape | app/rfimap/components/RfiMap.tsx:100-102 | decoding the escaped text gives back the original, so escaping loses nothing |
| RfiMap.JoinContains | app/rfimap/components/RfiMap.tsx:94-97 | every joined part appears in the joined text |
| RfiMap.EscapeAll | app/rfimap/components/RfiMap.tsx:94 | each tag is escaped, in order |
| RfiMap.TagsRowHoldsTags | app/rfimap/components/RfiMap.tsx:94 | every tag appears, escaped, in the tags row |
| RfiMap.Rows | app/rfimap/components/RfiMap.tsx:84-94 | one row per shown field, in the same order, each with its exact markup |
| RfiMap.ShownFieldsMember | app/rfimap/components/RfiMap.tsx:84-94 | a field gets a row exactly when it is present and non-empty (for the tags, a non-empty list) |
| RfiMap.ShownFieldsInOrder | app/rfimap/components/RfiMap.tsx:83-94 | rows come in the fixed order category, address, phone, website, description, tags |
| RfiMap.PushIfShown | app/rfimap/components/RfiMap.tsx:84-94 | one `if (field) rows.push(row)` line appends the field's row exactly when the field is shown |
| RfiMap.BuildInfoHtml | app/rfimap/components/RfiMap.tsx:82-98 | the built HTML is the info window of the marker, which always begins with the escaped name in its header |
| ExportFacilities.NatText | scripts/exportFacilities.ts:36 | a natural number's text is non-empty, all digits, with no leading zero |
| ExportFacilities.ParseNatText | scripts/exportFacilities.ts:36 | the digits read back as the number |
| ExportFacilities.IntText | scripts/exportFacilities.ts:36 | an integer's text is non-empty and has no whitespace at either end |
| ExportFacilities.AsString | scripts/exportFacilities.ts:33-38 | null and undefined give none, a string gives its trim (none when nothing is left), a number gives its text, and anything else gives none; a result is never empty |
| ExportFacilities.AsStringIdempotent | scripts/exportFacilities.ts:33-38 | `asString` of a text it returned gives that text again |
| ExportFacilities.AsStringNumber | scripts/exportFacilities.ts:36 | the text of a number reads back as the number |
| ExportFacilities.Strings | scripts/exportFacilities.ts:75 | no longer than the array, and empty exactly when no element is a string |
| ExportFacilities.StringsMember | scripts/exportFacilities.ts:75 | a string is kept exactly when it is an element |
| ExportFacilities.StringsAppend | scripts/exportFacilities.ts:75 | the kept strings keep the array's order |
| ExportFacilities.ToStringArray | scripts/exportFacilities.ts:73-77 | a non-array gives none; an array gives none exactly when it has no string element, and otherwise its string elements in order |
| ExportFacilities.NormalizedKeys | scripts/exportFacilities.ts:54 | each search key is normalised, in order |
| ExportFacilities.ExtractText | scripts/exportFacilities.ts:53-71 | returns the text of the first variable whose normalised key (or, without one, label) contains a normalised search key and whose first non-null field among value, text, content and data yields text; none exactly when no variable does |
| ExportFacilities.Djb2 | scripts/exportFacilities.ts:80-86 | the DJB2 value reduced modulo 2^32 lies in [0, 2^32) |
| ExportFacilities.JsStepIsDjb2 | scripts/exportFacilities.ts:83 | `((h << 5) + h + c) >>> 0`, with `<<` on 32-bit signed integers, equals (33·h + c) mod 2^32 |
| ExportFacilities.Hash32 | scripts/exportFacilities.ts:80-86 | the loop computes DJB2 over the string's UTF-16 code units, and the result lies in [0, 2^32) |
| ExportFacilities.HashEmpty | scripts/exportFacilities.ts:81 | the hash of the empty string is 5381 |
| ExportFacilities.HashSnoc | scripts/exportFacilities.ts:82-84 | appending a character takes one step: hash(s + c) = (33·hash(s) + code(c)) mod 2^32 |

## Left out

- Argument schemas: the zod and Convex argument schemas are not modelled. Tool and mutation arguments arrive already typed, and an argument the schema would reject is not a case.
- Result envelopes:
  - `createSuccessResult` and `createErrorResult` become `Result` values; the thrown and caught error messages become constructors of error datatypes.
  - The bulk-import failure texts leave out the coordinate value that the source interpolates into them.
  - Timestamps in reports (`new Date().toISOString()`) and the message strings of report and import summaries are not modelled.
- Location mutations: the create, patch and delete mutations on `geoLocales` that the admin tools call are not part of this model. The tools' writes are a plain insert, patch and delete on that table.
  - AdminTools.DeleteFacility: does not cascade to boxes and variables, because the delete mutation that would do it is not part of this model.
- Clock, randomness and I/O are parameters: `Date.now()` is `now`, and `crypto.getRandomValues` is the byte sequence `random`. The one-second delay after a wrong password is left out, since it has no effect on state.
- Distance and rounding: `calculateDistance` (Haversine, floating point) is the parameter `distance`. Coordinates and distances are exact reals; there is no floating-point rounding.
  - PublicTools.GetNearbyFacilities: reports the unrounded distance; the rounding to one decimal (`Math.round(d * 10) / 10`) for display is not modelled.
- Authenticate and cleanup: AdminSessions.Authenticate runs the expired-session sweep that the handler intends. The source calls the registered mutation object `cleanupExpiredSessions` as if it were a plain function, and what that does at run time depends on the Convex version. It is not modelled.
- Expiry predicates: `isExpired` and `isSessionExpired` take the clock as a parameter (`IsSessionExpired(expiresAt, now)`).
- Helpers.GroupBy and Helpers.CountBy: keys form a pure map. The source accumulates into a plain `{}` object, where a key such as "constructor" or "__proto__" would misbehave; the tools' enumerated type and region arguments never produce such a key.
- Text built-ins: `toLowerCase` lower-cases ASCII letters only, and `localeCompare` is code-point order. Unicode case mapping and locale collation are not modelled.
- Export-script helpers:
  - `normalize` (NFD decomposition plus ASCII filtering) and `encodeURI` are passed in as functions.
  - JSON numbers (`JsValue.Num`) are integers, so `toString` of a fraction or an exponent form is not modelled.
  - `dummyCoords`, file I/O and the script's main body are not modelled.
- ExportFacilities.HashSnoc: stated only for characters of the Basic Multilingual Plane; a character outside it adds two code units, that is two DJB2 steps, as `Hash32` itself computes.
- UI: the React map component and everything outside `buildInfoHtml` and `escapeHtml`.
- PublicTools.GetNearbyFacilities: modelled over the location records. On the entries `listWithDetails` actually returns, the selection, the distances and the order are the same, since they use only `coordinates`, but each shown facility has no id, name, region or description (convex/agents/fabiola.ts:203-208).
- Dry-run duplicates: within-batch duplicates are caught only outside a dry run. The model keeps this, as AdminTools.DryRunMissesBatchDuplicates shows.
- Nested-value rule: `adminUpdate` does not re-check the nested/value rule, and the model keeps that too.

## Findings

| source | as written | input that shows it | evidently intended | confidence | as-written member | corrected member |
|---|---|---|---|---|---|---|
| convex/agents/fabiola.ts:237-250 | the statistics tool reads `isActive` and `region` off the entries of `listWithDetails`, which are `{ id, type, coordinates, data }` (convex/geoLocales.ts:144-153) and carry neither field | a table with one active facility in region "north": the tool reports `active` 0, `inactive` 1 and that facility under region 'unknown' | count activity and region from the location records | not executed | PublicTools.StatisticsOnDetailsSeeNoActive | PublicTools.StatisticsSeeActive |
| convex/agents/fabiola.ts:73-79 | the search tool reads `f.name` off the entries of `listWithDetails`, where it is `undefined`, so `f.name.toLowerCase()` throws a TypeError that the handler returns as an error result | the term "UPS" over a table with one active location named "UPS Hub": the tool returns an error instead of that location | match the term against the names and descriptions of the location records | not executed | PublicTools.SearchOnDetailsFailsWhereRecordsMatch | PublicTools.SearchMember |
| convex/agents/fabiola.ts:126-145 | the details tool reads `_id`, `name`, `region`, `description`, `isActive` and `boxes` off the `getByIdWithDetails` entry, where all are `undefined`; the boxes sit under `data.boxes` | a stored location with one box: the tool returns its type and coordinates only, and no boxes | return the location's fields and its boxes with their top-level variables | not executed | PublicTools.DetailsOnEntry | PublicTools.GetFacilityDetails |
| convex/agents/jaynette.ts:395-407 | the summary report reads `isActive` and `region` off the entries of `listWithDetails` | a summary with `activeOnly` true over a table with one active location in region "north": `active` 0, `inactive` 1, and the location under region 'unknown' | count activity and region from the location records | not executed | AdminTools.ActiveReportOnDetailsCountsAllInactive | AdminTools.ActiveReportHasNoInactive |
| convex/agents/jaynette.ts:409-424 | the detailed report reads `_id`, `name`, `region`, `description` and `isActive` off the entries of `listWithDetails`, where all are `undefined` | a table with one location: its row holds only the type and the coordinates | rows carrying the fields of the location records; the box count is 0 either way, since a location record has no `boxes` either | not executed | AdminTools.DetailedRowsOnDetails | AdminTools.DetailedRows |
