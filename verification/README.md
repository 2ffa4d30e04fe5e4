# Hospital geocoder — a Dafny model of its decision logic

The repository geocodes a table of Bulgarian hospitals. It normalises addresses
and city names, builds query variants, asks several search providers
(Nominatim free text, Nominatim structured, Overpass, Google) and scores and
selects candidates. It caches answers under the key `address||city||oblast`,
cleans that cache of suspicious clusters, and re-runs rows whose result was
removed or missing.

This project models the deterministic core of that work. It covers:

- `UltimateGeocoder` (ultimate_geocode.py): the street-number and street-name
  extractors, the 0-100 result score, the Overpass element choice, and
  `geocode` with its candidate pool, selection and cache.
- The cache-hygiene scripts (clean_cache_and_rerun.py,
  analyze_cache_duplicates.py): coordinate grouping, the removal set, the rows
  chosen for re-geocoding, and the duplicate report.
- The rule fix_all_coords.py uses to keep a result, and its accepted/failed
  bookkeeping.
- The four normaliser and variant modules: improve_data.py,
  normalize_official.py, fix_addresses.py and refine_missing_aggressive.py.

The providers, and the helpers the scripts call but whose code is not part of
this model, are function parameters ("oracles"). `geocode_address`,
`_is_generic_display`, `nominatim_free_text_search`, `geocode_with_overpass`
and `geocode_with_google` are treated this way. An exception raised by one of
them is an explicit `None`/`Option` case.

Files and modules:

| file | module | models |
|---|---|---|
| text.dfy | `Text` | Python `str` methods: `replace`, `strip`, `split`, `lower`/`upper`/`title`, `isupper`, `in` |
| patterns.dfy | `Patterns` | the regular-expression atoms the scripts use, as greedy scanners; `re.sub` scan order |
| sheet.dfy | `Sheet` | a pandas cell (`NaN` or text), a hospital row, a geocoder answer |
| scoring.dfy | `Scoring` | `_extract_street_number`, `_extract_street_name`, `_score_result` |
| geocoder.dfy | `Geocoder`, `GeocoderProperties` | `_overpass_search` selection, `geocode`, the cache; pool and selection properties |
| geocode_cache.dfy | `GeocodeCache` | the JSON cache as an ordered list of members, grouped by `(str(lat), str(lng))` |
| cache_cleanup.dfy | `CacheCleanup` | clean_cache_and_rerun.py |
| duplicate_report.dfy | `DuplicateReport` | analyze_cache_duplicates.py |
| coord_fix.dfy | `CoordFix` | the row loop of fix_all_coords.py |
| improve_data.dfy | `ImproveData` | improve_data.py |
| normalize_official.dfy | `NormalizeOfficial` | normalize_official.py |
| fix_addresses.dfy | `FixAddresses` | fix_addresses.py |
| refine_missing.dfy | `RefineMissing` | refine_missing_aggressive.py |

Modelling conventions:

- A pandas cell is `Cell = NaN | Str(s)`.
- NaN is truthy in Python, so `x or ''` keeps a NaN. `f"{x}"` of a NaN is
  `"nan"` (`Sheet.Fmt`).
- A JSON object read in file order is a sequence of entries with distinct keys.
- A Python dict iterated in insertion order is a sequence of pairs.
- Coordinates are `real`, and coordinate text is kept as a string where the
  code compares text.
- Every regular expression is hand-written as a small scanner with Python's
  semantics:
  - greedy atoms;
  - `$` matches at the end or before a final newline;
  - `.` does not match a newline;
  - `re.sub` replaces left to right without overlap;
  - `re.IGNORECASE` is modelled through case mapping.
- A loop in the source is a `method` with a `while` loop, proved equal to a
  recursive specification function. The properties are lemmas about that
  function.

Points where the code decides the behaviour:

- Clusters are formed on the exact text of the coordinates. Two points that
  differ by a tiny amount are in different clusters.
- The cache key is the raw `address||city||oblast`. It is not normalised.
- A failed `geocode` writes nothing to the cache. A second call after a
  failure therefore sends its planned requests again, and its answer depends
  on what the providers answer then. After a success or a cache hit, the
  second call answers the same from the cache and sends no request
  (GeocoderProperties.RepeatedCall).
- Failures are not always contained. In fix_all_coords.py, a row whose
  settlement and region are both missing makes `city.lower()` raise once an
  answer is found, which ends the run. `CoordFix` models this as `Crash`.
  Likewise, normalize_official.py raises `TypeError` for a NaN city as soon
  as the address is not blank.
- The result check in fix_all_coords.py has no tiers and no "generic
  display" rule. A result is accepted unless its provider is city-level or
  the cleaned city is missing from the display text.

## Model

Some functions only define what a script computes and carry no contract of
their own; the lemmas and methods in the table state their properties:
CacheCleanup.Removed (clean_cache_and_rerun.py:39-50), CacheCleanup.RowKey
(clean_cache_and_rerun.py:80-83), CacheCleanup.MissingResult
(clean_cache_and_rerun.py:84), CacheCleanup.NeedsFix
(clean_cache_and_rerun.py:83-85), CacheCleanup.Selected
(clean_cache_and_rerun.py:78-86), CoordFix.CleanCity (fix_all_coords.py:97),
CoordFix.Suspicious (fix_all_coords.py:87-101), CoordFix.Process
(fix_all_coords.py:50-117), RefineMissing.MentionsAlbena
(refine_missing_aggressive.py:43), RefineMissing.MentionsBoulevard
(refine_missing_aggressive.py:47), RefineMissing.QueryOf
(refine_missing_aggressive.py:23-27), RefineMissing.VariantsOf
(refine_missing_aggressive.py:33-57) and RefineMissing.FirstHitFrom
(refine_missing_aggressive.py:58-92).

| member | source | states |
|---|---|---|
| Sheet.Fmt | refine_missing_aggressive.py:34-40 | an f-string of a cell gives its text, and `"nan"` for a missing value |
| Sheet.OrEmpty | fix_all_coords.py:63 | `x or ''` returns the cell itself: NaN is truthy, and an empty string falls back to an equal empty string |
| Sheet.CellOf | fix_all_coords.py:104-107 | a missing answer field is stored as a missing cell, a present one as its text |
| Sheet.WithAnswer | fix_all_coords.py:104-107 | writing an answer sets exactly lat, lng, provider and display_name and keeps name, address, settlement and region |
| Scoring.TokenEnd | ultimate_geocode.py:45 | the number token starting at a digit ends after that digit and within the address |
| Scoring.FirstNumberAt | ultimate_geocode.py:45 | the leftmost position where the street-number pattern matches, with no match before it; none exactly when no later position matches |
| Scoring.ExtractStreetNumber | ultimate_geocode.py:42-46 | None exactly when no position matches the pattern; otherwise the token at the leftmost match, which is followed only by whitespace |
| Scoring.TrailingDigitsAreTheNumber | ultimate_geocode.py:45-46 | an address ending in a space and a digit run yields exactly that digit run |
| Scoring.TokenStopsAtSpace | ultimate_geocode.py:45 | the number token never extends past a whitespace character |
| Scoring.FirstIs | ultimate_geocode.py:45 | a matching position with no match before it is the one the search returns |
| Scoring.ExtractStreetName | ultimate_geocode.py:48-54 | the street name is trimmed and no longer than the address, and for one-line input no whitespace in it is followed by a digit |
| Scoring.StreetMarkersDropped | ultimate_geocode.py:51 | every `ул.`, `бул.` and `жк` deleted and the rest stripped: trimmed, no longer than the address, and still one line |
| Scoring.ExtractStreetNameCut | ultimate_geocode.py:50-54 | for one-line input, the street name is the marker-free text cut at its first whitespace run followed by a digit, then stripped; text with no such run comes back whole |
| Scoring.BoulevardLeavesStrayLetter | ultimate_geocode.py:50-53 | removing `ул.` before `бул.` turns `бул. Витоша 12` into `б Витоша`: a stray `б` survives |
| Scoring.WordMatches | ultimate_geocode.py:107-108 | the count of matching words is at most the number of words longer than 3 characters (LongWordCount), and equals that number when every word occurs in the display text |
| Scoring.Decimals | ultimate_geocode.py:120-122 | the digits after the last dot number at most the length of the coordinate text |
| Scoring.Clamp | ultimate_geocode.py:149 | `max(0, min(100, x))`: always in [0,100], the identity inside it, 0 below and 100 above |
| Scoring.ScoreResult | ultimate_geocode.py:56-149 | the score of any result is in [0,100] |
| Scoring.CityTermCases | ultimate_geocode.py:62-72 | the city term is +30, +20 or -30: +30 exactly when the lowered result city equals the lowered query city, -30 exactly when it also does not occur in the lowered display |
| Scoring.ExactCityOutranksDisplayMatch | ultimate_geocode.py:62-72 | two results differing only in their city fields: the exact-field match scores 10 more before clamping and never less after |
| Scoring.NumberTermCases | ultimate_geocode.py:74-90 | the number term is in [-10,40]; it is 0 without a requested number; 40 exactly on an equal field; -10 exactly when the field is empty and the display lacks the number; 20 when only the display has it; 0 for a different number not in the display |
| Scoring.ExactNumberOutranksMissing | ultimate_geocode.py:74-115 | an equal house-number field is worth 58 more than no field at all (+40 and +8 instead of -10), so it never scores lower |
| Scoring.StreetTermBounds | ultimate_geocode.py:92-109 | the street term is 0, 7, 14, 15 or 25; it is 0 when the extracted street name has at most 3 characters |
| Scoring.EmptyRoadCountsAsMatch | ultimate_geocode.py:99-100 | an empty road field is contained in every street name, so the term is 25 |
| Scoring.PrecisionBySum | ultimate_geocode.py:117-128 | the precision bonus is 10 when the decimal digits of lat and lon sum to at least 14, 5 when they sum to at least 10, and 0 otherwise |
| Scoring.TypeTermsCases | ultimate_geocode.py:130-146 | +5 exactly for a node and +3 exactly for a way; -20 exactly for class `place` not of type house; +5 exactly for building, house or a hospital/clinic/doctors amenity |
| Geocoder.Abs | ultimate_geocode.py:341-342 | the absolute value is non-negative and equal to x or -x |
| Geocoder.NearSymmetric | ultimate_geocode.py:340-344 | "within 0.0001 in lat and in lng" is symmetric |
| Geocoder.FirstMax | ultimate_geocode.py:403-413 | the index of the earliest maximum: no score is higher, and every earlier score is lower |
| Geocoder.FirstMaxUnique | ultimate_geocode.py:403-413 | any index with those two properties is the earliest maximum |
| Geocoder.FirstMaxStep | ultimate_geocode.py:273-275 | extending the scanned prefix by one element keeps the old best unless the new element is strictly better |
| Geocoder.ElementScore | ultimate_geocode.py:263-271 | an element scores 0, 30, 50 or 80: at least 50 exactly when its lowered name contains the lowered hospital name, 30 or 80 exactly when its amenity is `hospital` |
| Geocoder.ElementScores | ultimate_geocode.py:262-271 | the score list has one score per element, in element order |
| Geocoder.OverpassPick | ultimate_geocode.py:257-290 | a pick exists exactly when there are elements and the best-scoring one scores at least 30 and has coordinates or a center; the pick carries that element's score (30, 50 or 80, and no element scores more), its coordinates (else its center), and its name (else `Unknown`) |
| Geocoder.BestElement | ultimate_geocode.py:262-276 | the first element of highest score: no element scores more, and every earlier one scores less |
| Geocoder.SelectElement | ultimate_geocode.py:257-290 | the loop over the elements followed by the coordinate choice returns exactly OverpassPick |
| Geocoder.ScanElements | ultimate_geocode.py:259-275 | the loop leaves no best element exactly when every score is 0; otherwise the best is the earliest maximum |
| Geocoder.Queries | ultimate_geocode.py:318-325 | five query slots: the first and third always present, the second and fourth exactly when both number and street name are non-empty, the fifth exactly when the oblast is non-empty |
| Geocoder.Scores | ultimate_geocode.py:403 | the sort key of each candidate, in pool order |
| Geocoder.Resolve | ultimate_geocode.py:401-436 | an empty pool gives `(None, None, None, None, 0)`, and a non-empty one a full answer |
| Geocoder.FromEntry | ultimate_geocode.py:304-307 | a cached entry answers with its stored lat, lng, provider and display, and score 50 when the entry has none |
| Geocoder.EntryRoundTrip | ultimate_geocode.py:421-432 | storing a successful answer and reading it back gives the identical answer |
| Geocoder.UltimateGeocoder.constructor | ultimate_geocode.py:27-36 | the cache starts as the stored cache file (empty without one) |
| Geocoder.UltimateGeocoder.Geocode | ultimate_geocode.py:296-436 | a cached key answers from the cache with no request and no change; otherwise the answer is Resolve of the final pool, the requests are the planned ones, and the cache gains exactly this key on success and is unchanged on failure |
| Geocoder.CollectCandidates | ultimate_geocode.py:315-398 | the three strategies build exactly FinalPool and send exactly PlannedRequests |
| Geocoder.Select | ultimate_geocode.py:401-436 | the sort-and-take-head step returns exactly Resolve of the pool |
| Geocoder.SearchFreeText | ultimate_geocode.py:327-357 | the free-text loop skips None queries and builds exactly FreeTextPool, one request per present query |
| Geocoder.AddAll | ultimate_geocode.py:334-355 | offering each result in turn gives exactly OfferAll |
| Geocoder.IsDuplicate | ultimate_geocode.py:340-344 | the duplicate test holds exactly when some pooled candidate is near the point |
| Geocoder.PickBest | ultimate_geocode.py:403-413 | the chosen index is the earliest maximum of the scores |
| GeocoderProperties.OfferKeeps | ultimate_geocode.py:338-355 | offering one result keeps the pool free of near duplicates with all scores in [30,100], and at most appends one candidate |
| GeocoderProperties.OfferAllKeeps | ultimate_geocode.py:334-355 | the same for a whole result list, adding at most one candidate per result and keeping the old pool as a prefix |
| GeocoderProperties.FreeTextPoolKeeps | ultimate_geocode.py:327-357 | the free-text strategy keeps the pool free of near duplicates with scores in [30,100] |
| GeocoderProperties.NominatimPoolSound | ultimate_geocode.py:327-384 | after both Nominatim strategies, no two candidates are near each other and every score is in [30,100] |
| GeocoderProperties.FinalPoolShape | ultimate_geocode.py:386-398 | Overpass adds at most one candidate, at the end, only for a named hospital with fewer than two candidates; its provider is `overpass` and its score is 50, 70 or 100 |
| GeocoderProperties.ResolvePicksBest | ultimate_geocode.py:401-419 | the answer is some candidate's position, display and score; no candidate scores more, every earlier one scores less, and the provider carries `_lowconf` exactly when the score is below 50 |
| GeocoderProperties.SuccessScoreRange | ultimate_geocode.py:338-432 | a call that finds something answers with a score from 30 to 100 |
| GeocoderProperties.RepeatedCall | ultimate_geocode.py:302-432 | after an answer other than Failure, the second call returns the same answer and sends no request; after a Failure the cache is unchanged, holds no entry for the key, and the second call sends exactly the planned requests again |
| GeocodeCache.CoordOf | clean_cache_and_rerun.py:32-36 | an entry has a coordinate pair exactly when it is a record with both lat and lng present |
| GeocodeCache.KeysOf | clean_cache_and_rerun.py:37 | the keys of a group, one per member, in order |
| GeocodeCache.GroupsAreItemsAt | analyze_cache_duplicates.py:13-21 | the group map built in one pass holds a coordinate exactly when some entry has it, and its list is those entries in cache order |
| GeocodeCache.ItemsAtHas | analyze_cache_duplicates.py:20-21 | every entry with coordinates is in the group of its coordinates |
| GeocodeCache.ItemsAtFrom | analyze_cache_duplicates.py:20-21 | every member of a group comes from an entry with that coordinate pair |
| GeocodeCache.ExactlyOneGroup | clean_cache_and_rerun.py:36-37 | with distinct keys, a grouped key lies in a group exactly when that group is its own coordinate pair |
| GeocodeCache.UngroupedWithoutCoords | clean_cache_and_rerun.py:32-35 | an entry without both coordinates is in no group |
| CacheCleanup.LoadedCache | clean_cache_and_rerun.py:22-27 | the cache file when it is readable, the in-memory cache otherwise |
| CacheCleanup.GroupByCoord | clean_cache_and_rerun.py:30-37 | the grouping loop gives exactly the coordinate groups, as key lists |
| CacheCleanup.MarkForRemoval | clean_cache_and_rerun.py:40-50 | a key is marked exactly when an entry with that key is in a group of at least 3 or its display is generic; exceptions of the generic test mark nothing |
| CacheCleanup.LargeGroupToEntry | clean_cache_and_rerun.py:41-43 | every key of a group of size at least 3 belongs to an entry in a large cluster |
| CacheCleanup.EntryToLargeGroup | clean_cache_and_rerun.py:41-43 | every entry in a large cluster is listed in a group of size at least 3 |
| CacheCleanup.RemovedIff | clean_cache_and_rerun.py:40-50 | with distinct keys, an entry is removed exactly when its own cluster has at least 3 members or its display is generic |
| CacheCleanup.ClusterSize | clean_cache_and_rerun.py:36-42 | a group's size is the number of entries with that coordinate pair |
| CacheCleanup.Without | clean_cache_and_rerun.py:55-57 | removing keys never lengthens the cache |
| CacheCleanup.RemoveKeys | clean_cache_and_rerun.py:55-57 | the pop loop leaves exactly the cache without the marked keys |
| CacheCleanup.Pop | clean_cache_and_rerun.py:57 | `cache.pop(k, None)` removes exactly the key k, and does nothing when it is absent |
| CacheCleanup.WithoutSnoc | clean_cache_and_rerun.py:55-57 | removal works entry by entry |
| CacheCleanup.WithoutNothing | clean_cache_and_rerun.py:55 | an empty removal set leaves the cache unchanged |
| CacheCleanup.WithoutTwice | clean_cache_and_rerun.py:56-57 | popping one more key after a removal set equals removing the union, so pop order does not matter |
| CacheCleanup.WithoutKeeps | clean_cache_and_rerun.py:55-57 | an entry survives exactly when it was in the cache and its key is not marked: no marked key remains and every unmarked entry is unchanged |
| CacheCleanup.RowsToFix | clean_cache_and_rerun.py:78-86 | the selection loop gives exactly the selected rows |
| CacheCleanup.SelectedSound | clean_cache_and_rerun.py:79-86 | every selected row needs fixing (its key is marked, or lat, lng or provider is missing or blank) and carries that row's address, city, oblast and name |
| CacheCleanup.SelectedOrdered | clean_cache_and_rerun.py:79-86 | the selected rows are in table order without repeats |
| CacheCleanup.SelectedComplete | clean_cache_and_rerun.py:79-86 | every row that needs fixing is selected |
| CacheCleanup.Applied | clean_cache_and_rerun.py:93-110 | re-geocoding keeps the number of rows |
| CacheCleanup.CountFound | clean_cache_and_rerun.py:100-106 | at most one update per tried row |
| CacheCleanup.Regeocode | clean_cache_and_rerun.py:91-112 | the loop writes exactly the found answers, counts them, lists exactly the others as failed, and updated plus failed equals the rows tried |
| CacheCleanup.UntouchedRows | clean_cache_and_rerun.py:93-110 | a row that is not tried is unchanged |
| CacheCleanup.AppliedFoundRow | clean_cache_and_rerun.py:93-110 | a tried row whose index no other fix shares ends up with its answer's four columns when the answer is found, and unchanged otherwise |
| CacheCleanup.SelectedRowsAnswered | clean_cache_and_rerun.py:78-110 | each selected row gets its answer when found and is left alone otherwise, and a row that needs no fixing is unchanged |
| CacheCleanup.OnlyResultColumns | clean_cache_and_rerun.py:102-105 | re-geocoding changes only lat, lng, provider and display_name |
| CacheCleanup.NothingFoundNothingChanged | clean_cache_and_rerun.py:115-119 | when nothing is found the table equals the input, so skipping the CSV write loses nothing |
| CacheCleanup.CleanAndRerun | clean_cache_and_rerun.py:22-119 | the whole script: the removed keys, the cleaned cache, the rows tried, the updated table (each tried row has its answer when found and is unchanged otherwise; every row that needs no fixing is unchanged), the counts, and a CSV write exactly when something was updated |
| DuplicateReport.CoordOrderIsGroups | analyze_cache_duplicates.py:13-21 | the order of first appearance lists each group's coordinates exactly once |
| DuplicateReport.CollectGroups | analyze_cache_duplicates.py:13-23 | the loop builds exactly the coordinate groups, in first-appearance order, skipping entries without coordinates and entries that raise |
| DuplicateReport.DupsIn | analyze_cache_duplicates.py:26 | every listed group is a group with more than one member |
| DuplicateReport.DupsInComplete | analyze_cache_duplicates.py:26 | every group with more than one member is listed |
| DuplicateReport.DupsInNoRepeats | analyze_cache_duplicates.py:26 | no group is listed twice |
| DuplicateReport.DuplicatesExactly | analyze_cache_duplicates.py:13-26 | a coordinate pair is in the duplicate list exactly when more than one entry has it, listed with all of those entries |
| DuplicateReport.DuplicatesOnce | analyze_cache_duplicates.py:26 | the duplicate list has distinct coordinates |
| DuplicateReport.Insert | analyze_cache_duplicates.py:28 | inserting adds exactly that group |
| DuplicateReport.SortBySize | analyze_cache_duplicates.py:28 | the sort is a permutation |
| DuplicateReport.InsertKeepsOrder | analyze_cache_duplicates.py:28 | inserting into a list of non-increasing size keeps it non-increasing |
| DuplicateReport.SortedBySize | analyze_cache_duplicates.py:28 | the sorted list is non-increasing in group size |
| DuplicateReport.OfSizeAppend | analyze_cache_duplicates.py:28 | the groups of one size in a list extended by one group |
| DuplicateReport.OfSizeNone | analyze_cache_duplicates.py:28 | no group of a size above all sizes |
| DuplicateReport.InsertOfSize | analyze_cache_duplicates.py:28 | inserting places a group after the equal-sized ones already there |
| DuplicateReport.SortIsStable | analyze_cache_duplicates.py:28 | groups of equal size keep their order: the sort is stable |
| DuplicateReport.Shown | analyze_cache_duplicates.py:32-35 | at most 30 groups and at most 20 keys per group, the leading ones, in order |
| DuplicateReport.AnalyzeDuplicates | analyze_cache_duplicates.py:13-35 | the total count, the number of duplicate groups, and the shown prefix of the size-sorted list, non-increasing |
| CoordFix.AddressIn | fix_all_coords.py:51-55 | the address is stripped text, or "" when missing |
| CoordFix.CityIn | fix_all_coords.py:57-61 | the stripped settlement, or the region cell when the settlement is missing or blank |
| CoordFix.OblastIn | fix_all_coords.py:63-65 | the stripped region, or NaN when missing |
| CoordFix.SuspicionCases | fix_all_coords.py:87-101 | a city-level provider is always suspicious; with a city of at most 3 characters, or a cleaned city of at most 3, only the provider counts |
| CoordFix.CityInDisplayPasses | fix_all_coords.py:96-101 | a display containing the lowered cleaned city passes the display check |
| CoordFix.Judge | fix_all_coords.py:73-117 | no answer (an exception, or falsy lat or lng) gives NotFound; a found answer with a NaN city crashes; otherwise the row is accepted exactly when the result is not suspicious; a rejection is city-level exactly for a city-level provider |
| CoordFix.Outcomes | fix_all_coords.py:50-117 | one outcome per row |
| CoordFix.OutcomesAt | fix_all_coords.py:73-117 | the outcome of row i is the verdict on its own answer |
| CoordFix.Tallied | fix_all_coords.py:50-117 | a completed run keeps every row, and a crash happens at a visited row |
| CoordFix.EveryRowCounted | fix_all_coords.py:103-117 | updated plus failed equals the rows processed, and there are no more city-level rows than failed ones |
| CoordFix.CityLevelAlsoFailed | fix_all_coords.py:90-114 | every row in `city_level` is also in `failed` |
| CoordFix.RowFate | fix_all_coords.py:103-117 | an accepted row gets the four result columns, and any other row is left as it was |
| CoordFix.UnvisitedRow | fix_all_coords.py:50 | rows the loop has not reached are unchanged |
| CoordFix.CrashesAtFirstCrash | fix_all_coords.py:50-117 | the run crashes exactly when some row's verdict is a crash, at the first such row |
| CoordFix.CrashPersists | fix_all_coords.py:50-117 | after a crash later rows change nothing |
| CoordFix.JudgeRow | fix_all_coords.py:79-117 | the imperative suspicion test gives exactly Judge |
| CoordFix.AskAndJudge | fix_all_coords.py:73-117 | one pass of the row loop calls the geocoder with the row's address, city, region and name, and judges that answer exactly as the row's outcome says |
| CoordFix.AskRow | fix_all_coords.py:73-117 | asking and judging row i gives exactly the i-th outcome of the table |
| CoordFix.Record | fix_all_coords.py:103-117 | the bookkeeping of one row advances the tally by exactly that row |
| CoordFix.FixAllCoords | fix_all_coords.py:50-120 | the row loop yields exactly the tally of all verdicts, or the first crash |
| ImproveData.DropTrailingPunct | improve_data.py:52 | the result is a prefix of the input, does not end in ',' or '.', and everything dropped is ',' or '.' |
| ImproveData.NumberEnd | improve_data.py:56 | the number token `\d+L?` at a digit ends after it and within the text |
| ImproveData.FirstLandmarkNumber | improve_data.py:56 | the first number followed by a landmark word is a position where the cut applies |
| ImproveData.FirstLandmarkMinimal | improve_data.py:56 | no earlier position qualifies |
| ImproveData.FirstLandmarkIs | improve_data.py:56 | the first digit run, when it is followed by a landmark, is the one found |
| ImproveData.NumberedDigits | improve_data.py:62-63 | the digits after `бл`/`блок` and whitespace |
| ImproveData.MarkersWellFormed | improve_data.py:17-22 | every marker deleted in step 1 is non-empty and replaced by nothing |
| ImproveData.TyposWellFormed | improve_data.py:32-46 | the typo keys are non-empty and their replacements hold no `№` |
| ImproveData.DeleteMarkers | improve_data.py:17-22 | step 1 leaves no `№` |
| ImproveData.RewriteAbbreviations | improve_data.py:25-46 | steps 2 and 3 bring no `№` back |
| ImproveData.Collapsed | improve_data.py:49-52 | after whitespace collapsing and stripping: no newline, no two whitespace characters in a row, trimmed |
| ImproveData.CollapseAndCut | improve_data.py:49-58 | steps 4-6 keep out `№` and double whitespace |
| ImproveData.BlockNumbers | improve_data.py:62-65 | step 7 keeps out `№` and double whitespace, and strips |
| ImproveData.NormalizeAddressText | improve_data.py:14-65 | the normalised text holds no `№` and no two whitespace characters in a row, and is trimmed |
| ImproveData.AdvancedAddressNormalization | improve_data.py:9-65 | NaN and the empty string are returned unchanged; any other input gives clean text |
| ImproveData.MarkersRemoveNumberSign | improve_data.py:17 | the marker deletions remove every `№` |
| ImproveData.NumberBlocksKeep | improve_data.py:62-65 | step 7 introduces no new character and no double whitespace |
| ImproveData.AbbreviationsKeepOut | improve_data.py:25-29 | the abbreviation rewrites introduce no character outside `ул. бл.жкп` |
| ImproveData.CollapsedKeepsOut | improve_data.py:49 | collapsing introduces nothing but spaces |
| ImproveData.CutAfterNumberKeeps | improve_data.py:56-58 | the landmark cut introduces nothing and keeps single spacing |
| ImproveData.NumberedKeeps | improve_data.py:62-63 | one block rewrite introduces nothing new, keeps single spacing, and keeps the first character |
| ImproveData.BlockTextClean | improve_data.py:62-63 | `бл. ` followed by digits is singly spaced |
| ImproveData.LandmarkStopsCut | improve_data.py:56-58 | the first number followed by whitespace and a landmark word is where the cut happens |
| ImproveData.CutAfterFound | improve_data.py:56-58 | with such a number the result is the text up to and including the number, stripped |
| ImproveData.LandmarkInHas | improve_data.py:56 | any word of the landmark list counts |
| ImproveData.FinalNumberKept | improve_data.py:56-58 | a trimmed address whose first number ends it is kept whole |
| ImproveData.MarkerDeletionRejoins | improve_data.py:17 | one pass of `replace('No', '')` can leave a `No` behind: `NNoo` becomes `No` |
| ImproveData.CutLeadingEach | improve_data.py:75-79 | removing the prefixes leaves a suffix of the input |
| ImproveData.CutLeadingEachDrops | improve_data.py:75-79 | when no earlier prefix matches and one matches up to position e, at least e characters go; when no later prefix matches what remains, the result is exactly the text from e |
| ImproveData.CityPrefixDropped | improve_data.py:75-79 | a leading `ГР.` removes at least 3 characters, `ГР`/`ГP` with whitespace 3, `С.` 2, `СЕЛО`/`СЕЛO` with whitespace 5 and `К.К.` 4, in any letter case |
| ImproveData.FirstKey | improve_data.py:95-97 | the first table key equal to the uppercased name; no earlier key equals it |
| ImproveData.MapByUpperFirst | improve_data.py:95-97 | the replacement loop yields the first matching value, or the name unchanged; later keys cannot match a replaced value |
| ImproveData.TitleIfShouted | improve_data.py:104-105 | an all-uppercase name longer than 2 is title-cased, and any other name is unchanged; the length and the positions of whitespace are kept |
| ImproveData.SpacingAndCase | improve_data.py:99-107 | the result is singly spaced and trimmed |
| ImproveData.ImproveCityName | improve_data.py:67-107 | NaN and the empty string are returned unchanged; any other name gives trimmed, singly spaced text |
| ImproveData.ShoutedCityTitled | improve_data.py:95-107 | a name that, after stripping and prefix removal, is one uppercase word longer than 2 and no table key comes back title-cased |
| ImproveData.ShoutedWordTitled | improve_data.py:100-107 | collapsing, title-casing and stripping one uppercase word longer than 2 gives its title case |
| ImproveData.CityValuesCapitalised | improve_data.py:82-93 | every replacement value is a capitalised Cyrillic word |
| ImproveData.CityTableApplies | improve_data.py:74-107 | a name equal, in upper case and after its prefix, to a table key becomes exactly that key's value |
| ImproveData.CityValuesShorter | improve_data.py:82-93 | every value is shorter than every key, so a replaced name matches no later key |
| ImproveData.CapitalisedKept | improve_data.py:99-107 | a capitalised value passes the spacing and title steps unchanged |
| ImproveData.CollapseWsNoSpace | improve_data.py:100 | collapsing whitespace leaves text without whitespace unchanged |
| ImproveData.BlockNumberAt | improve_data.py:115 | a `бл.`/`блок` match yields a number token after the marker |
| ImproveData.FirstBlockNumber | improve_data.py:115 | the leftmost `бл.`/`блок` match |
| ImproveData.FirstTrailingNumber | improve_data.py:120 | the leftmost trailing-number match |
| ImproveData.NumberText | improve_data.py:115-122 | the extracted text is a number token |
| ImproveData.ExtractBuildingNumber | improve_data.py:109-124 | NaN gives None, and any result is a number token |
| ImproveData.BlockNumberFirst | improve_data.py:115-117 | with a `бл.`/`блок` match, the number after the leftmost one is returned |
| ImproveData.BlockNumberLeftmost | improve_data.py:115 | no block match lies before the one used |
| ImproveData.TrailingNumberTaken | improve_data.py:119-122 | without a block match, the leftmost trailing number is returned |
| ImproveData.NoNumberNone | improve_data.py:123-124 | with neither kind of match the result is None |
| ImproveData.LeadingStreetMarker | improve_data.py:134 | the length removed: `ул.` or `пл.` plus the whitespace after it, `бул.` plus its whitespace, `жк` plus its whitespace, in any letter case; 0 exactly when none of them starts the address; what is left does not start with whitespace |
| ImproveData.StreetMarkersExclusive | improve_data.py:134 | at most one of the four markers starts a text, so the alternation's order does not matter |
| ImproveData.StreetNameText | improve_data.py:131-142 | the street name is trimmed |
| ImproveData.ExtractStreetNameClean | improve_data.py:126-142 | NaN gives None; text gives None exactly when the cleaned street name is empty, and otherwise that name, which is non-empty and trimmed |
| ImproveData.StreetNameWhole | improve_data.py:131-142 | for one-line text whose part after the marker has no whitespace-then-digit and no `бл.`, the street name is that part stripped |
| ImproveData.StreetNameHasNoNumber | improve_data.py:137 | the street name has no whitespace followed by a digit |
| Patterns.NoSpaceBeforeDigitInfix | improve_data.py:137-142 | cutting and stripping keep that property |
| Patterns.SpaceDigitCut | improve_data.py:137 | on one-line text, `\s+\d+.*$` cuts at the first whitespace run that a digit follows: the kept part has no whitespace followed by a digit and does not end in whitespace before the cut, and nothing is cut exactly when the text has no such run |
| Patterns.SpaceDigitCutAt | improve_data.py:137 | where the first match starts, the text has a whitespace run followed by a digit, and the character before is not whitespace |
| Patterns.CutTailNoSpacedWord | fix_addresses.py:48 | on one-line text, cutting `\s+<word>.*$` (any case) leaves no whitespace followed by the word |
| Patterns.CollapseNoSpacedWord | fix_addresses.py:51 | collapsing whitespace keeps "no whitespace followed by the word" |
| Patterns.StripNoSpacedWord | fix_addresses.py:51 | stripping keeps "no whitespace followed by the word" |
| ImproveData.UpperBlockMarkerKept | improve_data.py:140 | the `бл.` cut is case-sensitive: without a lower-case `бл.` nothing is cut |
| ImproveData.StandardizeHospitalName | improve_data.py:144-161 | NaN and the empty string are returned unchanged; any other name gives trimmed text with no `"`, no dotted `М.Б.А.Л.` (rewritten to `МБАЛ`) and no two whitespace characters in a row |
| ImproveData.HospitalNameClean | improve_data.py:152-161 | the standardised name has no `"`, no `М.Б.А.Л.`, no two whitespace characters in a row, and is trimmed |
| ImproveData.HospitalNameUndotted | improve_data.py:152-161 | no `М.Б.А.Л.` survives the rewrite, the whitespace collapse and the strip |
| ImproveData.DottedGone | improve_data.py:156 | `re.sub` of `М\.Б\.А\.Л\.` by `МБАЛ` leaves no occurrence, even one formed across a replacement |
| NormalizeOfficial.DropMarkers | normalize_official.py:25 | no `№` remains |
| NormalizeOfficial.CutTailKeepsOut | normalize_official.py:31 | cutting a tail introduces no character |
| NormalizeOfficial.DeleteKeepsOut | normalize_official.py:28-34 | deleting matches introduces no character |
| NormalizeOfficial.DropDetails | normalize_official.py:25-34 | step 1 leaves no `№` |
| NormalizeOfficial.GroundFloorRestored | normalize_official.py:31-48 | `ж.к.партер` passes the ground-floor cut unchanged, and the later `ж.к.` rewrite makes it `жк партер`, which that cut would match |
| NormalizeOfficial.TyposWellFormed | normalize_official.py:37-45 | the typo keys are non-empty |
| NormalizeOfficial.SpecificFixes | normalize_official.py:57-69 | four non-empty keys, the last turning `кв. Запад` into the city followed by ` център` |
| NormalizeOfficial.WestQuarterToCentre | normalize_official.py:66-73 | an address with `кв. Запад` and none of the earlier keys gets exactly that replacement and then contains `<city> център` |
| NormalizeOfficial.NoFixKeyUnchanged | normalize_official.py:71-73 | an address with none of the keys is unchanged |
| NormalizeOfficial.StreetWordEnd | normalize_official.py:78 | a `бул.`/`ул.` match ends within the text |
| NormalizeOfficial.SpaceStart | normalize_official.py:78 | the start of the whitespace run before a position |
| NormalizeOfficial.StreetHead | normalize_official.py:78 | the street word, the name and the whitespace before a digit, in order within the text |
| NormalizeOfficial.NumberTail | normalize_official.py:78 | the number and the keyword tail up to the end |
| NormalizeOfficial.DetailAt | normalize_official.py:78-79 | a match has its three groups in order, the number starting with a digit, and ends where `$` matches |
| NormalizeOfficial.DetailDropsRest | normalize_official.py:78-79 | a match is replaced by `\1 \2 \3` and everything after it is dropped except at most a final newline |
| NormalizeOfficial.QuarterBlockAt | normalize_official.py:83 | a match has the name before the block digits, and the digits are digits |
| NormalizeOfficial.QuarterExampleName | normalize_official.py:81-83 | in `жк Лазур бл. 158` the lazy name group ends before ` бл.` |
| NormalizeOfficial.QuarterExampleNumber | normalize_official.py:81-83 | the spacing and the three digits of the example |
| NormalizeOfficial.QuarterExampleMatch | normalize_official.py:83 | the example matches at its start |
| NormalizeOfficial.QuarterBlockExample | normalize_official.py:81-83 | `жк Лазур бл. 158` becomes `жк Лазур 158` |
| NormalizeOfficial.CommaSpacedCons | normalize_official.py:87 | prefixing a non-comma keeps every comma followed by exactly one space |
| NormalizeOfficial.CommaSpacedComma | normalize_official.py:87 | prefixing `, ` to text not starting with whitespace keeps that property |
| NormalizeOfficial.CommaFrom | normalize_official.py:86-87 | after `\s*,\s*` → `, ` every comma is followed by exactly one space, and text without whitespace pairs gets none |
| NormalizeOfficial.SepFrom | normalize_official.py:91 | after the letter-digit split no Cyrillic letter is directly followed by a digit |
| NormalizeOfficial.SepKeepsCommaSpacing | normalize_official.py:87-91 | the split keeps comma spacing |
| NormalizeOfficial.SepAfterComma | normalize_official.py:87-91 | the split keeps comma spacing at a comma |
| NormalizeOfficial.SepKeepsSingleSpaces | normalize_official.py:86-91 | the split keeps single spacing |
| NormalizeOfficial.FinalSpacing | normalize_official.py:85-91 | every comma is followed by exactly one space, no `[А-Яа-я]` letter is directly followed by a digit, and there is no double whitespace |
| NormalizeOfficial.NormalizeAddressAdvanced | normalize_official.py:16-93 | NaN or blank input is returned unchanged; otherwise a NaN city raises TypeError and any other city gives text with those three properties |
| NormalizeOfficial.CityPrefixesWellFormed | normalize_official.py:103 | the prefixes are non-empty |
| NormalizeOfficial.FirstContained | normalize_official.py:117-120 | the first mapping key contained in the uppercased name |
| NormalizeOfficial.FirstContainedMinimal | normalize_official.py:117-120 | no earlier key is contained |
| NormalizeOfficial.FixCityName | normalize_official.py:95-126 | NaN is returned unchanged, and text gives text |
| NormalizeOfficial.CityWithoutPrefixes | normalize_official.py:100-107 | the name after the prefix deletions is trimmed |
| NormalizeOfficial.LeadingPrefixRemoved | normalize_official.py:100-107 | a name made of one of the seven prefixes followed by text without dots comes out as exactly that text, trimmed |
| NormalizeOfficial.PrefixSurvives | normalize_official.py:103-105 | the single-pass deletions turn `КК.К..К.` into `К.К.`, so a prefix can remain |
| NormalizeOfficial.CityMappingApplies | normalize_official.py:110-120 | the first contained key decides the name, and no earlier key is contained |
| NormalizeOfficial.ShoutedCityTitled | normalize_official.py:110-124 | a name without a mapping key is title-cased exactly when it is `isupper()` and longer than 3 characters, and is kept as it is otherwise |
| NormalizeOfficial.ShoutedCyrillicCity | normalize_official.py:122-124 | a name of Cyrillic capitals longer than 3 with no mapping key keeps its first letter and has the others lowered |
| FixAddresses.BoulevardFixHoldsKey | fix_addresses.py:30 | the boulevard replacement contains its own key |
| FixAddresses.FixesWellFormed | fix_addresses.py:16-32 | the fix keys are non-empty and their values hold no `№` |
| FixAddresses.DropDetails | fix_addresses.py:40-48 | no `№` remains |
| FixAddresses.NormalizeAddress | fix_addresses.py:8-53 | NaN or blank input is returned unchanged; otherwise the text is trimmed, singly spaced, and has no `№` and no newline |
| FixAddresses.GroundFloorCut | fix_addresses.py:48-51 | for one-line non-blank input, no whitespace followed by `партер` (any case) is left in the normalised address |
| FixAddresses.DropDetailsGroundFloor | fix_addresses.py:40-48 | after the fixes and detail deletions no whitespace is followed by `партер` |
| FixAddresses.FloorDeletionRejoins | fix_addresses.py:46 | one pass of the floor deletion turns ` ет. ет. 5 5` into ` ет. 5`, which the pattern still matches |
| FixAddresses.FirstSixAbsent | fix_addresses.py:35-37 | without the first six keys only the last two fixes can apply |
| FixAddresses.BoulevardFixRepeats | fix_addresses.py:30-37 | `25-ти Септември` gains `бул. ` on every application: the result is longer and still holds the key, so the fix is not idempotent |
| FixAddresses.LastKeyAbsent | fix_addresses.py:31 | the last key needs a `Д` |
| FixAddresses.CityWithoutPrefixes | fix_addresses.py:60-64 | the name without prefixes is trimmed |
| FixAddresses.LeadingPrefixRemoved | fix_addresses.py:60-64 | a name made of `ГР.`, `С.` or `К.К.` followed by text without dots comes out as exactly that text, trimmed |
| FixAddresses.PrefixSurvives | fix_addresses.py:62-63 | the chained deletions turn `КК.К..К.` into `К.К.`, so a prefix can remain |
| FixAddresses.FixCityName | fix_addresses.py:55-72 | NaN is returned unchanged, and text gives trimmed text |
| FixAddresses.CityNameCases | fix_addresses.py:66-72 | `ОБРОЧИЩЕ` or `АЛБЕНА` gives `Албена`, checked before `ДОБРИЧ-ГРАД` gives `Добрич`; otherwise the name without prefixes |
| RefineMissing.MarkersWellFormed | refine_missing_aggressive.py:19-20 | the marker keys are non-empty and their values hold no `№` |
| RefineMissing.NormalizeAddr | refine_missing_aggressive.py:15-21 | NaN gives "", and the result is trimmed and has no `№` |
| RefineMissing.LeadingMarkerRemoved | refine_missing_aggressive.py:15-21 | an address made of one of the five markers followed by text without `к` and `.` loses exactly that marker, then `№`, then one pass of double spaces, then the ends |
| RefineMissing.StripIdempotent | refine_missing_aggressive.py:20 | stripping gives trimmed text |
| RefineMissing.DoubleSpaceSurvives | refine_missing_aggressive.py:20 | one pass of `replace('  ', ' ')` leaves two spaces out of three |
| RefineMissing.MarkersAbsentFrom | refine_missing_aggressive.py:19-20 | replacements whose keys are absent change nothing |
| RefineMissing.MarkersAbsent | refine_missing_aggressive.py:19-20 | an address without markers is unchanged by the marker step |
| RefineMissing.CityOf | refine_missing_aggressive.py:26 | the settlement, or the region when the settlement is missing or blank |
| RefineMissing.BoulevardTestIsPrefix | refine_missing_aggressive.py:47 | the boulevard test reduces to `бул` in the lowered address |
| RefineMissing.BuildVariants | refine_missing_aggressive.py:34-48 | the five base variants in order, then the three Albena variants exactly when the Albena test holds, then the three boulevard variants exactly when the boulevard test holds |
| RefineMissing.Clean | refine_missing_aggressive.py:53 | a cleaned variant is the collapsed variant with only commas and spaces cut from its two ends (CutFrom); it is singly spaced, its only whitespace is the space, its ends are neither commas nor whitespace, and it is empty exactly when the collapsed variant is all commas and spaces |
| RefineMissing.CollapsedPiece | refine_missing_aggressive.py:53 | stripping commas and spaces from collapsed text keeps it singly spaced, trimmed and with spaces only as whitespace, and leaves nothing exactly when the text is all commas and spaces |
| RefineMissing.StripCharsInfix | refine_missing_aggressive.py:53 | stripping leaves a contiguous piece of the text, everything cut before and after it is in the stripped set, and nothing is left exactly when every character is in the set |
| RefineMissing.StripCharsPiece | refine_missing_aggressive.py:53 | some start position cuts the text exactly as the strip does (CutFrom) |
| RefineMissing.CleanAll | refine_missing_aggressive.py:52-53 | each variant cleaned, in order |
| RefineMissing.Unique | refine_missing_aggressive.py:51-57 | no empty string and no repeat; every kept entry is a variant, and every non-empty variant is kept |
| RefineMissing.IndexOf | refine_missing_aggressive.py:54 | the first occurrence of a variant |
| RefineMissing.IndexOfPrefix | refine_missing_aggressive.py:54 | appending does not move a first occurrence |
| RefineMissing.UniqueOrder | refine_missing_aggressive.py:51-57 | kept entries appear in the order of their first occurrence |
| RefineMissing.UniqueAppend | refine_missing_aggressive.py:54-56 | appending a new variant keeps first-occurrence order |
| RefineMissing.Dedup | refine_missing_aggressive.py:50-57 | the loop over `tried` and `new_vars` gives exactly the unique cleaned variants |
| RefineMissing.FirstParsed | refine_missing_aggressive.py:63-72 | the free-text candidate taken has coordinates that parse |
| RefineMissing.FirstParsedSkips | refine_missing_aggressive.py:65-69 | every candidate before it fails to parse |
| RefineMissing.TryVariant | refine_missing_aggressive.py:59-92 | the first free-text candidate whose coordinates parse gives a FreeText hit with its coordinates and display; failing that, a located Overpass answer for a row with a name gives an Overpass hit; failing that, with an API key, a located Google answer gives a Google hit; nothing is found exactly when all three fail |
| RefineMissing.FirstHitIs | refine_missing_aggressive.py:59-92 | the search answers with the first variant that hits |
| RefineMissing.FirstHitNone | refine_missing_aggressive.py:59-92 | nothing is found exactly when no variant hits |
| RefineMissing.ScanCandidates | refine_missing_aggressive.py:63-72 | the candidate loop stops at exactly FirstParsed |
| RefineMissing.Search | refine_missing_aggressive.py:59-92 | the variant loop gives exactly the first hit in variant order |
| RefineMissing.AttemptFor | refine_missing_aggressive.py:94 | the record carries the row index and name, and `found` holds exactly when a result is recorded |
| RefineMissing.RefineRow | refine_missing_aggressive.py:24-94 | one loop pass appends exactly the current row's attempt, so the first `i + 1` records are those of the first `i + 1` rows |
| RefineMissing.RefineAll | refine_missing_aggressive.py:23-94 | one record per input row, in row order, each the row's attempt |

## Left out

- HTTP: `_nominatim_search`, `_nominatim_structured`, the Overpass POST, and the request and retry loop of `geocode_address`. Providers are oracles returning result lists. `geocode` records the requests it would send as a trace.
- `time.sleep` and rate limiting: these are timing only.
- Logging and printing, including the summaries each script prints.
- File I/O: JSON cache load and save, CSV read and write, backups. The loaded cache is a parameter. Whether the CSV is rewritten is a boolean of the outcome. A failing cache write is not modelled.
- The `main()` functions and the driver and report scripts. They loop over rows calling the modelled functions or unseen helpers.
- Floating point: coordinates are exact reals, so float rounding of the 0.0001 tolerance and of `float()` parsing is not modelled.
- Scoring.ScoreResult: the precision average is the exact half of the digit-count sum.
- Unicode: `lower`, `upper`, `title` and `isupper` act on ASCII and the basic Cyrillic block (U+0400-U+045F) only; other characters are left as they are.
- Unicode: `\d` is the ASCII digits; `\s` is Python's whitespace set (tab, newline, vertical tab, form feed, carriage return, space, U+001C-U+001F, U+0085, U+00A0, U+1680, U+2000-U+200A, U+2028, U+2029, U+202F, U+205F and U+3000); and `\w` the ASCII letters and digits, `_`, and Cyrillic block letters.
- `re` features the scripts do not use are not modelled. A numeric-typed CSV hint (a float house number) is not modelled; hints are strings, and "" means absent.
- Geocoder.UltimateGeocoder.Geocode: the `_lowconf` tag is decided by the score alone. In the source the "low_confidence" branch and the score test coincide, because the top candidate is the first one of score ≥ 50 whenever one exists.
- Geocoder.UltimateGeocoder.Geocode: the cache holds only entries this model writes. An entry whose `score` is missing reads as 50.
- CacheCleanup.CleanAndRerun: requires every cache value to be a JSON object, because `v.get` on anything else raises and ends the script.
- DuplicateReport.CollectGroups: by contrast, a non-object entry there is skipped, as its `try` does.
- CacheCleanup.RowsToFix: a row's index is its position in the table (the default index `read_csv` gives).
- CoordFix.FixAllCoords: a NaN `display` with an accepted answer is written as a missing cell. The display text compared is `display.lower()` when present and "" otherwise.
- NormalizeOfficial.NormalizeAddressAdvanced: the unused `name` parameter is left out.
- NormalizeOfficial.NormalizeAddressAdvanced: the result is not claimed to be free of `№`, because a `№` in the city comes back through `<city> център`.
- NormalizeOfficial.NormalizeAddressAdvanced: "exactly one space after `бул.`/`ул.`/`бл.`" is not stated, because later steps (6, 7 and the letter-digit split) can change that spacing.
- NormalizeOfficial.DetailAt: its contract does not restate that one of the keywords `корпус`/`блок`/`сграда`/`част` was found. The match is still computed with it.
- FixAddresses.NormalizeAddress: the unused `city` parameter is left out.
- FixAddresses.NormalizeAddress: its contract does not claim that no `ет.`, `вх.`, `No.`, `N.` or `ж.к.` detail is left. Each is one left-to-right pass, and a deletion can join the text around it into a new match: ` ет. ет. 5 5` becomes ` ет. 5` (FixAddresses.FloorDeletionRejoins), `NoN..` becomes `No.`, and deleting ` ет.5` from `ж. ет.5к.` forms `ж.к.`. The `партер` cut does hold to the end, for one-line input (FixAddresses.GroundFloorCut).
- NormalizeOfficial.NormalizeAddressAdvanced: its contract does not claim that the seven detail segments, `No.`, `N.` or `ж.к.` are gone. The deletions are single passes that can rejoin text, as above, and later steps write text back: step 3 turns `ж.к.партер`, which the ground-floor cut leaves alone, into `жк партер` (NormalizeOfficial.GroundFloorRestored), and step 5 inserts the city.
- NormalizeOfficial.FixCityName: its contract does not claim that no prefix remains. Each prefix is deleted in one left-to-right pass, and a deletion can join the text around it into a new prefix: `КК.К..К.` comes out as `К.К.` (NormalizeOfficial.PrefixSurvives). A single leading prefix before text without dots is removed exactly (NormalizeOfficial.LeadingPrefixRemoved).
- NormalizeOfficial.CityWithoutPrefixes: the same single-pass deletions; its contract states only that the result is trimmed.
- NormalizeOfficial.CityMappings: the key `ОБРОЧИЩЕ К.К.АЛБЕНА` is kept as written, though the lookup runs after `К.К.` has been deleted. It can match only where a deletion has rejoined a new `К.К.`, and `ОБРОЧИЩЕ АЛБЕНА` covers the usual spelling.
- FixAddresses.CityWithoutPrefixes: its contract does not claim that no `ГР.`, `С.` or `К.К.` remains, for the same reason: `КК.К..К.` comes out as `К.К.` (FixAddresses.PrefixSurvives). A single leading prefix before text without dots is removed exactly (FixAddresses.LeadingPrefixRemoved).
- RefineMissing.NormalizeAddr: its contract does not claim that the markers are gone or that no double space is left. Each marker is deleted in one pass, so `ж.ж.кк` becomes `ж.к`, and one pass of `replace('  ', ' ')` turns three spaces into two (RefineMissing.DoubleSpaceSurvives). A single leading marker before text without `к` and `.` is removed exactly (RefineMissing.LeadingMarkerRemoved).
- ImproveData.AdvancedAddressNormalization: the result is claimed free of `№` only. One pass of `replace('No', '')` can rejoin a `No` (ImproveData.MarkerDeletionRejoins), and the same holds for the other markers.
- ImproveData.AdvancedAddressNormalization: the lemmas about the landmark cut assume a text without newlines. The step runs after whitespace collapsing, which removes them.
- ImproveData.ImproveCityName: prefixes are removed in one pass each. A prefix recreated by a later removal stays; the contract does not claim that no prefix remains.
- ImproveData.CutLeadingEach: its own contract only says a suffix is left. How much each prefix removes is stated by ImproveData.CityPrefixDropped and ImproveData.CutLeadingEachDrops.
- ImproveData.ShoutedCityTitled: stated for a one-word name. A shouted name with whitespace is title-cased too (ImproveData.TitleIfShouted), but the lemma does not follow it through the whitespace collapse.
- Scoring.ExtractStreetName: "no whitespace followed by a digit" is claimed for one-line addresses only, because `.` stops at a newline and `$` also matches before a final newline.
- ImproveData.StreetNameHasNoNumber: requires an address without newlines, because `.` and `$` behave differently around a newline.
- ImproveData.ExtractStreetNameClean: the `re.IGNORECASE` passed as the count argument makes the `бл.` cut case-sensitive, with a count of 2. At most one match of `\s+бл\..*$` is possible anyway.
- RefineMissing.RefineAll: `found` keeps the Hit tuple. The `print` of each attempt is left out.
