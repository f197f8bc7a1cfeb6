# Mosque accounting backend: a Dafny model of its decision and aggregation core

The system is a Django backend that keeps the income and expense records of
mosques. The places form a tree of regions, cities and mosques. Users carry a
role (`admin`, `region_admin`, `city_admin`, `mosque_admin`) and a home place.
The repository holds two copies of the application: the newer root app
(`core/`, `record/`, `place/`) and the older `mosques_app/`.

This project models the logic of that backend that is not framework glue, as
pure functions over immutable data:

- **Calendar, Periods**: report periods.
  - `Calendar` is proleptic Gregorian dates with an ordinal.
  - Period labels are structured values that stand for the `strftime` strings
    `%Y-%m-%d`, `%Y-%W` and `%Y-%m`.
  - A record's bucket is the database truncation (`TruncDay`, `TruncWeek`,
    `TruncMonth`) followed by the same `strftime`.
  - `_generate_date_range` is modelled for all three periods.
- **Forest**: the place table.
  - A sequence of rows pointing at their parents by id.
  - Acyclicity is witnessed by a ghost height map.
  - The breadth-first `get_descendant_place_ids` is a method with loop
    invariants.
- **Ledger, Pivot, Reports**: the report engine.
  - Records are joined with their category and grouped by bucket, category,
    operation type and place. A record's date may be null, as the root app's
    column allows: the flat report then fails, and the hierarchical report's
    date range drops the record.
  - The two sign rules are modelled.
  - The flat report overwrites each cell with `=`; the hierarchical report
    accumulates with `+=`.
  - Tables are zero-filled, have per-row totals and end with a `'Жами'` totals
    row.
  - The hierarchical report builds a recursive tree of tables; the profit sum
    is modelled too.
- **PlaceScope, TierScope, RecordAccess, Domain**: the access decisions.
  - The newer app's place listing, with `_place_id_belongs_to` both as written
    (a region administrator's request can hang) and corrected.
  - The older app's place listing, which dispatches on type tags.
  - The self/parent/grandparent area check of both record listings.
  - The `IsNotMosqueAdmin` permission.
- **Audit, RecordCreate, Users, ExcelImport**: the writes.
  - The audited `save`/`delete` is a store of tables plus an append-only
    activity log.
  - The serializer mixin, and record creation in both apps (coercion and check
    order included).
  - `ReportValueSerializer`'s renaming.
  - The user manager.
  - The Excel import's row loop as a fold.

The database is a value. An operation returns the database it leaves together
with its result or the exception it raises (`Outcome`, `Result`). Nothing runs
in a transaction, so writes made before an exception stay.

Clocks and the request are parameters:
- "today" is passed in;
- the request's user, query parameters and remote address are passed in;
- workbook rows arrive already read.

Amounts are integers.

## Model

| member | source | states |
|---|---|---|
| Periods.ParsePeriod | record/views.py:206-219 | exactly the tokens `daily`, `weekly` and `monthly` select a period; every other token is rejected |
| Periods.MondayOf | record/views.py:211 | week truncation gives the Monday on or before the date, less than seven days earlier |
| Periods.DailyFrom | record/views.py:99-102 | the daily range has (end − start) + 1 labels when start ≤ end and none otherwise; the i-th label is the day start + i |
| Periods.WeeklyFrom | record/views.py:103-106 | the weekly range has (end − start) div 7 + 1 labels when start ≤ end; the i-th label is the `%Y-%W` label of start + 7i |
| Periods.MonthStepIsNextMonth | record/views.py:110-111 | `replace(day=28) + 4 days`, then `replace(day=1)`, always lands on the first day of the next calendar month, strictly later |
| Periods.MonthlyFrom | record/views.py:107-111 | the monthly range has one label per calendar month from start's month through end's month, whatever day start falls on, consecutive and valid |
| Periods.WeekKeyOrder | record/views.py:105 | a later date never has an earlier `%Y-%W` label, and a date at least a week later has a strictly later one |
| Periods.WeekLabelSeparates | record/views.py:105 | two dates in different Monday-weeks get different `%Y-%W` labels |
| Periods.DailyDistinct | record/views.py:99-102 | daily labels never repeat |
| Periods.WeeklyIncreasing | record/views.py:103-106 | weekly labels are strictly increasing in `%Y-%W` order, hence distinct |
| Periods.MonthlyDistinct | record/views.py:107-111 | monthly labels never repeat |
| Periods.DateRangeDistinct | record/views.py:95-113 | whatever the period token, the generated labels never repeat (an unknown token gives none) |
| Periods.DailyCovers | record/views.py:99-102 | every day from start to end has its own column, and a record of that day lands in it |
| Periods.MonthlyCovers | record/views.py:107-111 | every day from start to end has its month's column, and its record's month bucket is among the labels |
| Periods.WeeklyRangeMissesEndWeek | record/views.py:103-106 | as written: when end is less than a week after start and on an earlier weekday, the range has one label and the week holding end has no column |
| Periods.WeeklyRangeMissesEndWeekExample | record/views.py:103-106 | as written: Sunday 0001-01-07 to Monday 0001-01-08 yields one label, which is not Monday's bucket |
| Periods.WeeklyRangeMissesYearStartWeek | record/views.py:103-106 | as written: a start before its year's first Monday is bucketed under the previous year's week, which no column carries |
| Periods.WeeklyColumnsFrom | record/views.py:103-106 | corrected weekly columns: week labels in strictly increasing order, none earlier than the first day's bucket |
| Periods.WeeklyColumnsCover | record/views.py:103-106 | corrected weekly columns: every day from start to end has its week bucket among the columns |
| Periods.WeeklyColumnsFromDays | record/views.py:103-106 | corrected weekly columns: every column is the week bucket of some day from start to end |
| Periods.WeeklyColumnsExactly | record/views.py:103-106 | corrected weekly columns in both directions: a label is a column exactly when some day from start to end falls in that week |
| Periods.WeeklyColumnsDistinct | record/views.py:103-106 | corrected weekly columns never repeat a label |
| Domain.ParseRole | core/models.py:48-53 | reading the role column: a null column is no role, and only the text `mosque_admin` is a mosque administrator |
| Domain.RoleTagRoundTrip | mosques_app/core/models.py:33-39 | each named role reads back as itself from its stored tag |
| Domain.ParseOpType | core/models.py:182-192 | only `income` is income and only `expense` is expense; any other stored text is neither |
| Domain.OpTypeTagRoundTrip | core/models.py:182-185 | income and expense read back as themselves from their tags |
| Domain.ParsePlaceType | mosques_app/core/models.py:177-184 | `region`, `city` and `mosquee` (sic) are the three place types; nothing else is |
| Domain.PlaceTypeTagRoundTrip | mosques_app/core/models.py:177-181 | each place type reads back as itself from its stored tag |
| Domain.IsNotMosqueAdminCases | mosques_app/core/permissions/IsNotMosqueAdmin.py:8-9 | mosque administrators, unauthenticated users and inactive users are denied; active authenticated users of any other role, a null role included, are allowed |
| Forest.Find | record/views.py:42 | `get(pk=…)` yields a row carrying that id, or none exists |
| Forest.ChildrenOf | place/views.py:93 | `filter(parent=x)` keeps exactly the rows whose parent is x; x null keeps exactly the roots |
| Forest.ChildIds | record/views.py:120-123 | the listed ids are exactly those of rows whose parent is the given place |
| Forest.DescendantIds | record/views.py:115-124 | the breadth-first walk starts with the given id, repeats no id on an acyclic forest, and lists exactly the id and all its descendants |
| Params.ParseId | place/views.py:95 | `int(text)`: digit strings read as their value, and a text that neither is digits nor starts with a minus sign is rejected |
| Params.IdTextRoundTrip | mosques_app/place/views.py:56 | reading back `str(id)` gives the id |
| Params.PaddedIdDiffers | mosques_app/place/views.py:56 | `"07"` names place 7 yet differs from `str(7)`, so the text comparisons reject it |
| Params.OrKey | place/views.py:88 | `qp or own`: a non-empty parameter wins; otherwise the own place, or nothing when there is none |
| Params.KeyLookup | place/views.py:93 | using a key in a lookup: no key selects null, an own id selects itself, and text that is no integer raises `ValueError` |
| Params.KeyInt | place/views.py:95 | `int(key)`: no key is a `TypeError` and non-numeric text a `ValueError`; otherwise it agrees with the lookup |
| PlaceScope.AncestorLoopAsWritten | place/views.py:65-69 | as written: no parent returns false, and a direct parent equal to the user's place returns true |
| PlaceScope.BelongsAsWritten | place/views.py:58-69 | as written: equal ids return true before any lookup, and an unknown place raises `DoesNotExist` |
| PlaceScope.AncestorLoopNeverEnds | place/views.py:65-67 | once the direct parent is not the user's place, the loop does not finish for any number of iterations |
| PlaceScope.BelongsAsWrittenHangs | place/views.py:62-67 | the call does not return for a place whose direct parent is some other place |
| PlaceScope.GrandchildHangs | place/views.py:58-69 | on region → city → mosque, asking whether the mosque belongs to the region never returns, although it lies in the region's subtree |
| PlaceScope.AncestorIff | place/views.py:64-67 | corrected walk: walking up the parents finds the target exactly when the place lies strictly below it |
| PlaceScope.BelongsToIff | place/views.py:58-69 | corrected check: true exactly for the user's place and the places below it; it fails, with `DoesNotExist`, only on an unknown place |
| PlaceScope.AsWrittenAgreesWhenItReturns | place/views.py:58-69 | wherever the loop as written returns, its answer is the corrected check's |
| PlaceScope.PlaceViewBody | place/views.py:84-102 | the view with the corrected ancestor walk: a mosque administrator, and only they, get `NotFound`; a role other than admin, region admin or mosque admin gets an empty list |
| PlaceScope.PlaceViewBodyAsWritten | place/views.py:84-102 | the view as written: every branch but the region administrator's returns at once; a mosque administrator, and only they, get `NotFound`; a region administrator's listing, when it comes, is the children of the requested place |
| PlaceScope.ViewAsWrittenAgrees | place/views.py:84-102 | wherever the view as written returns, its answer is the corrected view's |
| PlaceScope.RegionAdminAsWritten | place/views.py:94-98 | as written, a region administrator is listed the children of exactly their own place and the places directly under it; a root is `PermissionDenied`, an unknown place `DoesNotExist`, and a place whose parent is any other place never gets an answer |
| PlaceScope.RegionAdminAsWrittenStaysInside | place/views.py:94-96 | as written, too, everything a region administrator is shown lies in their own subtree |
| PlaceScope.ViewHangsOnGrandchild | place/views.py:58-69 | on region → city → mosque, the region's administrator asking for the mosque gets no answer as written, while the corrected view lists the mosque's children |
| PlaceScope.PlaceList | place/views.py:53 | the permission refuses exactly the users `IsNotMosqueAdmin` refuses; everyone else gets the view body's answer |
| PlaceScope.PlaceListNeverNotFound | place/views.py:99-100 | behind the permission, the view's `NotFound` branch is never reached |
| PlaceScope.AdminListing | place/views.py:88-93 | an administrator gets the children of the requested place, else of their own place, else exactly the root places; a non-numeric parameter raises `ValueError` |
| PlaceScope.RegionAdminListing | place/views.py:94-98 | with the corrected walk, a region administrator gets the children of the place exactly when it is their place or lies below it, and `PermissionDenied` for any other place |
| PlaceScope.RegionAdminStaysInside | place/views.py:94-96 | with the corrected walk, everything a region administrator is shown lies in their own subtree |
| PlaceScope.MosquesQuery | place/views.py:42-48 | a non-empty `place_id` keeps exactly the places whose parent it names; an absent or empty one keeps every place |
| TierScope.OwnText | mosques_app/place/views.py:56 | `str(user.place_id)` reads back as the user's place, and is no id at all for a user without a place |
| TierScope.PlaceTypeOf | mosques_app/place/views.py:18-22 | the type tag of the named row; raises `DoesNotExist` when no row has that key and `ValueError` for non-numeric text |
| TierScope.CityParentId | mosques_app/place/views.py:24-30 | succeeds exactly for an existing place; a returned id is that place's parent, and no id is returned only for a root place |
| TierScope.RegionsOf | mosques_app/place/views.py:47 | exactly the places typed region |
| TierScope.TierViewBody | mosques_app/place/views.py:82-85 | a mosque administrator always gets `NotFound`; an unrecognised role gets an empty list |
| TierScope.TierPlaceList | mosques_app/place/views.py:14 | the permission refuses exactly the users `IsNotMosqueAdmin` refuses; everyone else gets the view body's answer |
| TierScope.TierAdminListing | mosques_app/place/views.py:41-49 | an administrator with neither a requested nor an own place gets exactly the region-typed places; otherwise the children of the named place |
| TierScope.TierRegionAdminListing | mosques_app/place/views.py:50-69 | region admin: no parameter lists their place's children; a region is listed iff the text is their own id as `str` spells it, else `PermissionDenied`; a city is listed iff its parent is their place, else `PermissionDenied`; a mosque is `NotFound`; any other type an empty list |
| TierScope.TierRegionAdminReach | mosques_app/place/views.py:50-69 | whatever a region administrator is shown is a child of their place or of a city directly under it |
| TierScope.TierCityAdminListing | mosques_app/place/views.py:70-81 | a city administrator gets their own place's children for their own id; any other region or city is `PermissionDenied` and a mosque `NotFound` |
| TierScope.TierCityAdminOwnPlace | mosques_app/place/views.py:70-73 | without a parameter, a city administrator whose place is missing or null gets `DoesNotExist`; otherwise they get their place's children |
| TierScope.TierCityAdminReach | mosques_app/place/views.py:70-81 | whatever a city administrator is shown is a child of their own place |
| Ledger.GroupByCorrect | record/views.py:222-225 | the grouped query has one group per key that occurs and none for any other key; each group's total is the sum of the amounts of the records carrying its key |
| Ledger.FlatSigned | record/views.py:234-237 | the flat report counts income positive and every other operation type negative |
| Ledger.LedgerSigned | record/views.py:427-428 | the hierarchical report and the profit count expense negative and every other operation type positive |
| Ledger.SignRulesAgree | record/views.py:234-237 | the two sign rules agree on income and expense and are opposite on any other stored type |
| Ledger.Profit | record/views.py:460-466 | the profit is null exactly when the place has no record (SQL `SUM` over nothing) |
| Ledger.ProfitIsIncomeMinusExpense | record/views.py:461-465 | the profit is income minus expense, any other type counted as income |
| Ledger.ProfitAppend | record/views.py:461-465 | the signed total of two batches of records is the sum of their signed totals |
| Pivot.CellOf | record/views.py:247 | a label the category has no amount for reads as 0 |
| Pivot.Assign | record/views.py:235-237 | `report_data[c][l] = v` changes only that cell; a new category is appended after the existing ones |
| Pivot.Accumulate | record/views.py:429 | `report_data[c][l] += v` adds v to that cell only; a new category is appended after the existing ones |
| Pivot.FlatDataCells | record/views.py:229-237 | flat report: each cell holds the flat-signed total of the last group written to it, or 0; categories appear in order of first appearance |
| Pivot.LeafDataCells | record/views.py:423-429 | hierarchical report: each cell holds the sum of the ledger-signed totals of all groups written to it; categories appear in order of first appearance |
| Pivot.OverwriteMatchesSum | record/views.py:235 | with one group per cell and only income and expense, the overwritten value equals the accumulated sum |
| Pivot.FlatMatchesLeaf | record/views.py:423-429 | under those conditions, the `=` filling and the `+=` filling hold the same table |
| Pivot.TableShape | record/views.py:243-252 | one row per category plus one; each row has a title, one cell per period and a total; a category's cell is its amount or 0; each row's total is the sum of its cells; the `'Жами'` row comes last |
| Pivot.ColumnTotalIsColumnSum | record/views.py:250 | over labels without repeats, each column total is the sum of that column over the category rows, and 0 for a label outside the range |
| Pivot.GrandTotal | record/views.py:254-260 | the sum of the column totals equals the sum of the row totals |
| Pivot.TotalRowSums | record/views.py:254-261 | each period cell of the `'Жами'` row is its column's sum, and its last cell is the sum of the row totals |
| Reports.ParseDateParam | record/views.py:194-200 | a missing date takes its default; a well-formed valid date is kept; a malformed one parses to none; impossible day numbers raise `ValueError` |
| Reports.ReportPreamble | record/views.py:183-219 | non-mosque-admins must name a place (`ValueError`); a mosque admin always gets their own place; dates default to the first of the month and today; an accepted request has valid dates with start ≤ end and a known period |
| Reports.PreambleBadRequests | record/views.py:202-219 | start after end, a malformed date, or (with valid ordered dates) exactly an unknown period token gives 400 |
| Reports.MosqueAdminIgnoresPlaceParam | record/views.py:186-189 | a mosque administrator's request never depends on the `place_id` they send |
| Reports.AtPlace | record/views.py:222 | `filter(place_id=…)` keeps exactly the records of that place; a null id keeps exactly the records without a place |
| Reports.HasUndated | record/views.py:228-230 | true exactly when some record has a null date, whose `period` then has no `strftime`; without one, every record has a real date |
| Reports.FlatReportUndatedFails | record/views.py:222-230 | once the preamble and the place lookup pass, the flat report raises `AttributeError` exactly when some record of the place has a null date |
| Reports.FlatReportListsEveryCategory | record/views.py:222-252 | a flat report that succeeds has a row for every category of the place's records, whether or not their dates lie in the range: the range only picks the columns |
| Reports.FlatReportTotals | record/views.py:239-268 | a flat report's periods are the generated range; it has one row per category and then the `'Жами'` row, whose cells are the column sums and whose last cell is the sum of the row totals |
| Reports.Put | record/views.py:411 | `dict[k] = v` makes k present with value v; the size grows only for a new key |
| Reports.GroupsAt | record/views.py:393-395 | the groups filed under a place are exactly its own groups |
| Reports.Build | record/views.py:405-418 | a place becomes a leaf exactly when it has no children |
| Reports.BuildKids | record/views.py:410-412 | the children loop has exactly one key per child name |
| Reports.BuildShape | record/views.py:405-418 | a place with children maps exactly its children's names to subtrees; a childless place's table is built from its own groups alone |
| Reports.Scoped | record/views.py:380 | the query keeps exactly the records whose place is listed and whose date is not null and lies in [start, end]; what it keeps all carry real dates |
| Reports.HierarchicalReport | record/views.py:335-403 | preamble errors pass through; a `place_id` that is no id is `ValueError`; a missing or null place is `DoesNotExist`; an existing place always gets its report, whose single key is the root's name and whose tree is built over exactly the root's subtree and the records dated in range |
| Reports.ReportTree | record/views.py:376-401 | after the preamble: a non-numeric place is `ValueError`, a null or unknown place `DoesNotExist`; an existing place always succeeds, with one entry, the root's name, whose tree is built over exactly the root's subtree |
| Reports.LeafCellIsSignedSum | record/views.py:420-429 | a leaf's cell is the signed sum of that leaf's own records of the category whose dates fall in the label's bucket |
| RecordAccess.AreaIds | record/views.py:47-53 | the area starts with the place and holds one to three ids; a root place's area is itself alone; it fails, with `DoesNotExist`, exactly when the parent link or the parent's own parent link names a missing row |
| RecordAccess.AreaIdsIff | record/views.py:47-56 | a place is in the area exactly when it is the requested place, its parent or its grandparent |
| RecordAccess.AreaAbove | record/views.py:47-57 | whatever lies in the area lies at or above the requested place |
| RecordAccess.ListRecords | record/views.py:34-59 | a non-mosque-admin without `place_id` gets `ValidationError`; no parameter and no own place is an `AttributeError` |
| RecordAccess.ListedAreExactlyThePlace | record/views.py:56-59 | a successful listing shows exactly the requested place's records, none of its descendants'; the user's place is at or above it; the older app never succeeds for a user without a place |
| RecordAccess.AreaCheckIff | mosques_app/record/views.py:41-51 | for a user with a place, the check passes exactly when their place is the requested place, its parent or its grandparent; otherwise `ValidationError`; both apps agree |
| RecordAccess.NoPlaceUser | mosques_app/record/views.py:50 | a user without a place: the root app lists any existing place (record/views.py:56 skips the check), the older app raises `AttributeError` |
| RecordAccess.MosqueAdminOwnRecords | record/views.py:38-41 | a mosque administrator without a parameter is shown their own place's records |
| RecordCreate.GetPlace | record/serializers.py:39 | `Place.objects.get(id=…)` returns the row with the submitted id, else `DoesNotExist`, or `ValueError` for non-numeric text |
| RecordCreate.RootCreate | record/serializers.py:23-55 | a missing category is a `ValidationError` with nothing stored; a missing place fails on `place_data.get` with nothing stored; a category or place id that is no integer fails the foreign keys' conversion with a `ValueError`, nothing stored or logged; a null category id is an `IntegrityError`; success needs integer ids, a category, and a place that exists |
| RecordCreate.AfterInsert | record/serializers.py:39-53 | after the insert: a failed place lookup passes its error through and any failure leaves the database as the insert left it; success logs one 'update' by the requester, keeps the key and stamps `updated_by`; a mosque administrator's record is moved to their own place |
| RecordCreate.InsertedBeforeChecks | record/serializers.py:32-37 | with integer category and place ids, whatever the outcome, the row is inserted first with the submitted category and place converted to integer keys and `created_by` = requester, logged as 'create' with no user |
| RecordCreate.NonMosqueRejectedAfterInsert | record/serializers.py:39-47 | an admin or region admin naming a non-mosque gets `ValidationError`, yet the table gained the row and the log its 'create' |
| RecordCreate.SuccessfulCreate | record/serializers.py:32-53 | success logs exactly 'create' (no user) then 'update' (requester); the stored category is the converted integer key; a mosque administrator's record is moved to their own place |
| RecordCreate.AdminPlaceIgnored | record/serializers.py:41-47 | for admin and region admin the outcome does not depend on their own place; only `is_mosque` is checked |
| RecordCreate.OlderCreate | mosques_app/record/serializers.py:11-23 | the older app saves once with the request: one 'create' logged with the requester; all other fields come from the validated data; the place is the requester's |
| RecordCreate.OlderPlaceFromUser | mosques_app/record/serializers.py:16-18 | a submitted place has no effect; a requester without a place stores a null place |
| RecordCreate.ToRepresentation | record/serializers.py:63-70 | the four output keys exist exactly when the row has the four source keys; each output value is the source value of the renamed key; otherwise `KeyError` |
| RecordCreate.RepresentationRoundTrip | record/serializers.py:63-70 | the renaming loses nothing: undoing it gives back the query row |
| Audit.Description | core/models.py:135 | the log description starts with the class name followed by a space |
| Audit.LogFor | core/models.py:117-137 | the entry carries the action, the key and the class name; without a request the user and address are null, with one they are the requester's |
| Audit.Write | core/models.py:128 | a new instance takes the sequence's next key; a keyed one keeps its key; the row is stored under its key and the fields are kept |
| Audit.Save | core/models.py:109-137 | 'create' exactly when there is no key; only the written row's table changes; an auditable model appends exactly one entry; a plain model with a request raises `TypeError`; a forced insert over an existing key is an `IntegrityError`; errors change nothing |
| Audit.SaveStamps | core/models.py:120-126 | with a request a create stamps `created_by` and an update `updated_by`, never both; without one nothing is stamped; other columns are stored as given |
| Audit.DeleteRow | core/models.py:139-157 | one 'delete' entry is logged before removal, even when the missing key then raises `ValueError`; only that row goes; a plain model logs nothing |
| Audit.SaveKeepsCounted | core/models.py:128 | a new row's key was unused, and every key stays below the sequence's next value |
| Audit.SaveThenDelete | core/models.py:109-157 | saving a new instance and deleting it restores the table's rows, and the log gains exactly a 'create' and a 'delete' for the same key |
| Audit.PlainModelRejectsRequest | core/models.py:162-198 | a root-app Unit or Category saved or deleted with a request raises `TypeError` and writes nothing, and saved directly without one succeeds; through the serializer's create, update and delete, which always pass the `request` keyword, it raises `TypeError` with or without a request, whatever the data; the older app's Category saves |
| Audit.IdValue | core/serializers.py:13 | an integer id is that key, null is no key, and text is a key exactly when it reads as an integer (else `ValueError`) |
| Audit.ToInternalValue | core/serializers.py:37-48 | a non-null input `id` is kept in the validated data; every other column is the base validation's |
| Audit.Instance | core/serializers.py:13 | the instance's fields are the validated data without `id`; an `id` becomes its key |
| Audit.MixinCreate | core/serializers.py:8-18 | a plain model raises `TypeError` before any key conversion, with or without a request, since the `request` keyword is always passed; otherwise a malformed `id` is a `ValueError` with nothing written, and a well-formed instance is built from exactly the validated data and saved once with the request |
| Audit.SetAttrs | core/serializers.py:24-25 | every validated attribute is assigned; every other attribute keeps its value; nothing else appears |
| Audit.MixinUpdate | core/serializers.py:20-30 | a plain model raises `TypeError` first, with or without a request; otherwise a malformed `id` is a `ValueError` with nothing written, else the attributes are assigned and saved once with the request |
| Audit.MixinDelete | core/serializers.py:32-35 | a plain model refuses the `request` keyword with `TypeError`, with or without a request; an auditable model logs one 'delete' with the forwarded request and removes exactly the row, failing only when there is no key |
| Audit.UpdateChangesOnlyGiven | core/serializers.py:20-30 | an update changes exactly the given columns plus `updated_by`, keeps the key, and logs one 'update' |
| Audit.CreateWithIdIsUpdate | core/serializers.py:37-48 | a create whose input carries an `id` keeps that key, overwrites that row, and is logged as 'update' |
| Audit.DeleteLogsFirst | core/serializers.py:32-35 | a delete always adds one entry; with no key it then raises `ValueError`; with a key the row is gone |
| ExcelImport.NewPlace | place/excel.py:62-67 | a row without INN creates a root non-mosque with empty INN; a row with INN creates a mosque under the current parent; employee count 0 |
| ExcelImport.Step | place/excel.py:59-70 | a row without a name changes nothing; a named row whose text exceeds the column width raises |
| ExcelImport.LastRoot | place/excel.py:56-64 | finds the latest INN-less named row before position j; every named row after it has an INN; none exists only if all have one |
| ExcelImport.FoldCreates | place/excel.py:56-70 | a run without failure creates exactly one place per named row, in row order, with consecutive keys; each mosque's parent is the latest INN-less row before it; one 'create' per place with no user |
| ExcelImport.FailureKeepsEarlierRows | place/excel.py:74-75 | a failing run stops at a named row that does not fit; the places of earlier rows stay, as a run over those rows alone leaves them |
| ExcelImport.DepthAtMostTwo | place/excel.py:56-67 | every new place is a root, or has a new INN-less non-mosque root as its parent, or has the loop's starting parent |
| ExcelImport.Post | place/excel.py:40-75 | a non-admin gets `PermissionDenied` and a missing file 400, both with nothing created; every other failure is a 500 |
| ExcelImport.PostCreates | place/excel.py:50-72 | a successful upload appends one place per named row of the second sheet, starting with no parent, and logs one 'create' each |
| Users.CreateUser | core/models.py:13-21 | a missing or empty username is `ValueError` and a taken one an `IntegrityError`; a new user is stored active, not staff, not superuser, with the given role and no place; the password is usable iff one was given |
| Users.CreateSuperuser | core/models.py:23-31 | as written: the returned user is admin, staff and superuser; the stored row has staff and superuser but keeps the default role |
| Users.SuperuserRoleNotStored | core/models.py:25-29 | as written: the stored row reads back as `mosque_admin` and differs from the returned user |
| Users.CreateSuperuserStored | core/models.py:23-31 | corrected: fails exactly when `create_user` fails; on success the table gains exactly the returned user |
| Users.SuperuserStoredAsReturned | core/models.py:23-31 | corrected: the superuser read back is an admin with staff and superuser, equal to the one returned; no other row changes |

## Left out

- HTTP and DRF plumbing is not modelled. This covers response wrapping, schema decorators and pagination with its out-of-range fallback (record/views.py:61-82, place/views.py:104-124). An exception is modelled as the `Error` it raises, not as the status code it becomes.
- Floating point is not modelled. Amounts are integers. The reports' `float()` conversions (record/views.py:227, 250, 429, 464) and their rounding are left out.
- Group order is not modelled. SQL `GROUP BY ... ORDER BY period` is modelled as grouping in order of first appearance. The `Pivot` lemmas hold for any group order, but the category order in a table follows the model's order, not the database's.
- `Params.ParseId`: accepts only an optional minus sign followed by decimal digits. Python's `int()` also accepts surrounding blanks, a plus sign, digit separators and non-ASCII decimal digits (`int("٥") == 5`).
- `Reports.ReportPreamble`: `parse_date` is abstracted to absent, malformed or a year-month-day triple. Text parsing and the date-overflow edge at `MAXYEAR` are not modelled.
- `PlaceViewMosques`' `SearchFilter` on `name` is left out. It is DRF behaviour outside the view's own code.
- `ReportValueView.get` (record/views.py:524-543) is not modelled. Its query and its debug output are ORM calls; only its serializer's renaming is modelled.
- `Audit.Save`: each table has one key sequence. An explicit key saved without a forced insert simply takes that slot. Sequence collisions and cascade deletes of child rows are not modelled.
- Timestamps are left out: `created_at`, `updated_at` and the log's timestamp are clock values.
- Password hashing is left out: a password is kept as given. `extra_fields` other than the role are left out.
- `Audit.Save`: other database exceptions are not modelled. Foreign-key existence of categories and places is not modelled: a record whose `place.id` names no row fails the place foreign key at the insert in the program (an `IntegrityError`, nothing stored), while `RecordCreate.AfterInsert` keeps the row and reports `DoesNotExist`. Of the `DataError` cases, only the Excel import's column width is modelled.
- `RecordCreate.ToRepresentation`: the DRF field conversions of the base `to_representation` are not modelled. The model keeps only the four keys the method overwrites.
- Workbook loading is left out. The rows arrive as optional text cells; numeric cells read as numbers are not modelled.
- `get_client_ip` is not part of this model. The caller's address is a parameter.
- JWT login, logout, user registration, the admin screens, the migration, URL configuration, and the Unit and Category CRUD viewsets are framework configuration and are left out.
- `PlaceScope.PlaceViewBody`, `PlaceScope.PlaceList` and their lemmas use the corrected ancestor walk, so they answer where the program never returns. The program's own behaviour, hang included, is `PlaceScope.PlaceViewBodyAsWritten`, whose fuel bounds the loop: `None` stands for the request that never gets an answer.
- `Periods.DateRange` and the reports keep the weekly generator as written, so the report model matches the code. The corrected weekly columns (`Periods.WeeklyColumnsFrom`) are modelled and proved beside it.

## Findings

| source | as written | input that shows it | evidently intended | confidence | as-written member | corrected member |
|---|---|---|---|---|---|---|
| record/views.py:103-106 | the weekly range steps `start + 7k` while `<= end`, labelling each step with `%Y-%W` | start Sunday 0001-01-07, end Monday 0001-01-08: one label, and the Monday's week gets no column; likewise a start before its year's first Monday is bucketed in the previous year's week 52/53, which has no column | one column for each week bucket that a day from start to end falls in | not executed | Periods.WeeklyRangeMissesEndWeekExample | Periods.WeeklyColumnsExactly |
| place/views.py:65-67 | `while parent is not None` never reassigns `parent` | region 1 → city 2 → mosque 3: `_place_id_belongs_to(3, 1)` loops forever, though the mosque lies under the region | walk up one parent per iteration | not executed | PlaceScope.ViewHangsOnGrandchild | PlaceScope.BelongsToIff |
| core/models.py:25-31 | `user.role = 'admin'` runs after the last `save` | any new superuser: the row reads back with role `mosque_admin` | set the role before saving | not executed | Users.SuperuserRoleNotStored | Users.SuperuserStoredAsReturned |

Two further behaviours are modelled as written and are not claimed as findings:

- `to_internal_value` keeps the input's `id`, so a create carrying an id overwrites that row and is logged as an update (`Audit.CreateWithIdIsUpdate`).
- The root app's Unit and Category are plain models, so the mixin's `save(request=…)` and `delete(request=…)` on them raise `TypeError`, even with `request=None` (`Audit.PlainModelRejectsRequest`).
