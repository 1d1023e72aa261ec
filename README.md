# Public open data portals: statistics and merge scripts, in Dafny

This project models the three maintenance scripts of the public open data
portals registry, a CSV file `portals.csv` listing one open data portal per
row.

- `scripts/dataset_statistics.py` selects the registry rows that declare a
  CKAN version-3 API (`/api/3` in `has_api`) and builds a country to endpoint
  map. It harvests each catalog: the license list, the total package count,
  and one package count per license. It adds the result of the Cyprus scraper
  and drops the failed harvests. It then consolidates the license names into
  the append-only table `license_matches.csv`, which pairs a raw license name
  with its canonical name. Finally it writes `licenses.csv`, one row per
  country, and writes `portals.csv` back with fresh `total_datasets` and
  `last_updated` values.
- `scripts/license_statistics.py` is the older survey. It keeps every CKAN
  country, with no counts when its catalog fails, and keys the report columns
  by lower-case license name.
- `scripts/merge_with_dataportals_org.py` does three things:
  - It converts each registry portal with a usable URL into a dataportals.org
    row, with a slug name, tags and the English publisher name.
  - It merges those rows into the dataportals.org rows.
  - It sorts the result by name.

The model is split by module:
- `text.dfy` (`Text`): the Python string operations the scripts use.
- `ordering.dfy` (`Ordering`): Python's string order and `sorted` over a set.
- `dict.dfy` (`Dict`): a dictionary built from pairs, where a later pair wins.
- `catalog.dfy` (`Catalog`): registry rows, CSV records, catalog answers and
  per-license counting, shared by the two statistics scripts.
- One module per script.
- `script_agreement.dfy` (`ScriptAgreement`): the two statistics scripts read
  the same endpoints from the registry.

State is modelled as follows:
- The catalogs' answers are a value of type `Catalog.Network`: the license ids
  at a URL, and the package count of a search, each `None` on failure.
- The mapping table is a class, `DatasetStatistics.LicenseMatches`, whose
  method appends to it.
- The registry rewrite is a loop method.
- Everything else is functions and lemmas.

Behaviour of the code worth noting, which the model follows:
- A failed per-license count makes `get_ckan_package_counts` return `None`,
  so the country is dropped. It is not kept with an empty list. Only
  `license_statistics.py` keeps failed countries, with empty counts
  (`scripts/dataset_statistics.py:82-86`).
- `get_cyprus_counts` has no exception handler. A failing Cyprus scraper
  therefore ends the run, rather than yielding a null result. Its result is an
  input of the model and is always present
  (`scripts/dataset_statistics.py:90-117`).
- When two raw names share a canonical name, the report cell holds the count
  of the later one. It does not hold the sum of the two, because the cell is
  built by a dict comprehension (`scripts/dataset_statistics.py:144`).
- A harvest result is a triple `(country_code, total, per_license)`, without a
  separate license list (`scripts/dataset_statistics.py:87`).

## Model

| member | source | states |
|---|---|---|
| Text.Lower | scripts/dataset_statistics.py:126 | `str.lower`, folding the letters `A`-`Z` and keeping every other character |
| Text.StartsWith | scripts/merge_with_dataportals_org.py:30 | `str.startswith`: the prefix test |
| Text.Contains | scripts/dataset_statistics.py:110 | `sub in s`; stated by `ContainsAt` |
| Text.ContainsAt | scripts/dataset_statistics.py:110 | `sub in s` holds exactly when `sub` occurs at some index of `s` |
| Text.Partition | scripts/dataset_statistics.py:109 | `partition` splits at the first separator: the three parts concatenate to the input, the head has no separator, and a missing separator leaves the head equal to the whole input |
| Text.PartitionAt | scripts/dataset_statistics.py:109 | the head ends at the first separator and the tail starts right after it |
| Text.Replace | scripts/merge_with_dataportals_org.py:10 | `str.replace`, left to right and without overlaps; stated by `ReplaceChar`, `ReplaceSlashThree` and `NoVersionThreeLeft` |
| Text.NoVersionThreeLeft | scripts/dataset_statistics.py:68 | after `replace('/3', '/2')` no `/3` is left |
| Text.ReplaceSlashThree | scripts/dataset_statistics.py:68 | `replace('/3', '/2')` keeps the length and changes exactly the `3` of each `/3` into `2` |
| Text.ReplaceChar | scripts/license_statistics.py:39 | replacing one character by another keeps the length and changes exactly the matching positions |
| Text.Split | scripts/license_statistics.py:74 | `str.split` on one character; stated by `SplitHead` and `SplitJoin` |
| Text.Join | scripts/merge_with_dataportals_org.py:46 | `str.join` with one character; stated by `SplitJoin` |
| Text.SplitHead | scripts/license_statistics.py:74 | the first piece of `split(';')` is the head of `partition(';')` |
| Text.SplitJoin | scripts/merge_with_dataportals_org.py:46 | joining pieces that lack the separator and splitting again gives the pieces back |
| Ordering.StrLess | scripts/dataset_statistics.py:140 | Python's `<` on `str`, by code point with a prefix first; stated by `LessIsStrictTotal` |
| Ordering.LessIsStrictTotal | scripts/dataset_statistics.py:126 | code-point order and case-insensitive order are strict total orders |
| Ordering.SortSet | scripts/dataset_statistics.py:126 | `sorted` of a set holds every element once, in strictly increasing order |
| Ordering.LowerFormOrder | scripts/dataset_statistics.py:126 | case-insensitive order never puts a larger lower-case form before a smaller one |
| Ordering.CaseInsensitiveByLowerForm | scripts/dataset_statistics.py:126 | a case-insensitive sort puts the lower-case forms in non-decreasing order |
| Dict.LastWins | scripts/dataset_statistics.py:166 | the keys of a dictionary built from pairs are the keys of the pairs |
| Dict.LastWinsValue | scripts/dataset_statistics.py:166 | the value under a key is that of the last pair with the key |
| Dict.LastWinsEntry | scripts/dataset_statistics.py:167 | every stored key and value come from one pair |
| Dict.LastWinsConcat | scripts/dataset_statistics.py:129-133 | building a dictionary from a concatenation is the right-biased union of the two dictionaries |
| Catalog.IsCkanRow | scripts/dataset_statistics.py:110 | a registry row lists a CKAN version-3 API when `/api/3` occurs in `has_api` |
| Catalog.Lift | scripts/dataset_statistics.py:154-157 | a registry row written back unchanged; its cells are the row's text |
| Catalog.CkanCodes | scripts/dataset_statistics.py:115-116 | the countries in the dictionary order of the endpoint map, each once; stated by `CkanCodesListed` |
| Catalog.CkanCodesListed | scripts/dataset_statistics.py:109-110 | a country is listed exactly when some row with `/api/3` in `has_api` names it |
| Catalog.LicenseUsage | scripts/dataset_statistics.py:83-84 | the per-license gather succeeds exactly when every count succeeds, and then pairs every license, in order, with its count |
| Catalog.Successes | scripts/dataset_statistics.py:118 | `filter(None, ...)` keeps exactly the successful results |
| Catalog.LicenseRow | scripts/dataset_statistics.py:143-144 | a report row: the code, the date and the license columns; stated by `LicenseRowFields` |
| Catalog.LicenseRowFields | scripts/dataset_statistics.py:143-144 | a report row holds the country, the date and exactly the given license columns |
| DatasetStatistics.Endpoint | scripts/dataset_statistics.py:109 | the endpoint read from `has_api`; stated by `EndpointAfterFirstColon` |
| DatasetStatistics.EndpointMap | scripts/dataset_statistics.py:109-110 | `ckan_apis`: the endpoint of each country with a CKAN row; its keys and values are stated by `EndpointMapKeys` and `EndpointMapLastRow` |
| DatasetStatistics.EndpointAfterFirstColon | scripts/dataset_statistics.py:109 | the endpoint is the text after the first `:` before the first `;`, or empty when there is no such `:` |
| DatasetStatistics.EndpointMapKeys | scripts/dataset_statistics.py:109-110 | a country has an endpoint exactly when some row with `/api/3` in `has_api` names it |
| DatasetStatistics.EndpointMapLastRow | scripts/dataset_statistics.py:109-110 | a country's endpoint comes from its last CKAN row |
| DatasetStatistics.CkanCodesKeys | scripts/dataset_statistics.py:115-116 | the harvested countries are exactly the keys of the endpoint map |
| DatasetStatistics.LicenseListUrl | scripts/dataset_statistics.py:66-72 | the license-list URL: the legacy US URL, or `/action/license_list` after the endpoint; the US form is stated by `LegacyLicenseUrl` |
| DatasetStatistics.LegacyLicenseUrl | scripts/dataset_statistics.py:66-68 | the US URL is the endpoint with the `3` of every `/3` turned into `2` and every other character kept, followed by `/rest/licenses`; no `/3` is left |
| DatasetStatistics.CyprusStats | scripts/dataset_statistics.py:105 | the Cyprus result, `('CY', total, per_license)` |
| DatasetStatistics.PackageCounts | scripts/dataset_statistics.py:64-87 | a harvest result carries the country it was asked for |
| DatasetStatistics.PackageCountsOutcome | scripts/dataset_statistics.py:64-87 | a harvest fails exactly when the license list, the total or one per-license count fails; otherwise it holds the total and every license paired with its count |
| DatasetStatistics.Harvest | scripts/dataset_statistics.py:114-116 | one harvest outcome per CKAN country, in dictionary order; stated with `HarvestDicts` |
| DatasetStatistics.GatherCountryStats | scripts/dataset_statistics.py:108-118 | the successful harvests followed by Cyprus; its dictionaries are stated by `GatheredLicenses` and `GatheredTotals` |
| DatasetStatistics.ByCountry | scripts/dataset_statistics.py:166 | the license dictionary of `main`; stated by `ByCountrySnoc` and `GatheredLicenses` |
| DatasetStatistics.Totals | scripts/dataset_statistics.py:167 | the totals dictionary of `main`; stated by `TotalsSnoc` and `GatheredTotals` |
| DatasetStatistics.ByCountrySnoc | scripts/dataset_statistics.py:166 | a later result for a country replaces the earlier one in the license dictionary |
| DatasetStatistics.TotalsSnoc | scripts/dataset_statistics.py:167 | a later result for a country replaces the earlier one in the totals dictionary |
| DatasetStatistics.HarvestDicts | scripts/dataset_statistics.py:114-118 | a harvested country reaches both dictionaries exactly when its harvest succeeded, with what that harvest counted |
| DatasetStatistics.GatheredLicenses | scripts/dataset_statistics.py:166 | the license dictionary holds the successful CKAN countries, and the Cyprus result sets or overrides `CY` |
| DatasetStatistics.GatheredTotals | scripts/dataset_statistics.py:167 | the totals dictionary holds the successful CKAN countries, and the Cyprus total sets or overrides `CY` |
| DatasetStatistics.Vocabulary | scripts/dataset_statistics.py:122-125 | the set of licenses some country uses with a positive count |
| DatasetStatistics.NewEntries | scripts/dataset_statistics.py:126-131 | the rows appended to the table; stated by `NewEntriesSpec` and `NewEntriesByLowerForm` |
| DatasetStatistics.Unmatched | scripts/dataset_statistics.py:131 | the `(name, name.lower())` rows of the names outside the existing keys; stated by `UnmatchedSpec` |
| DatasetStatistics.UnmatchedRows | scripts/dataset_statistics.py:129-131 | the loop writing the appended rows yields exactly `Unmatched` of the sorted names and the existing keys |
| DatasetStatistics.UnmatchedSpec | scripts/dataset_statistics.py:131 | the appended rows are exactly the names outside the existing keys, paired with their lower-case form; when the names are strictly sorted case-insensitively, the rows keep that order |
| DatasetStatistics.NewEntriesSpec | scripts/dataset_statistics.py:122-131 | consolidation appends every license used with a positive count and missing from the table, once, as `(name, name.lower())`, sorted case-insensitively |
| DatasetStatistics.NewEntriesByLowerForm | scripts/dataset_statistics.py:126 | the appended names have their lower-case forms in non-decreasing order, which is what `key=str.lower` fixes |
| DatasetStatistics.NewEntriesIdempotent | scripts/dataset_statistics.py:128-131 | consolidating the same licenses a second time appends nothing |
| DatasetStatistics.KeysStayUnique | scripts/dataset_statistics.py:128-131 | a table with unique keys keeps them unique |
| DatasetStatistics.ReloadedMapping | scripts/dataset_statistics.py:129-133 | in the reloaded dictionary, existing names keep their canonical name, every used license has one, and a new name maps to its lower-case form |
| DatasetStatistics.LicenseMatches.constructor | scripts/dataset_statistics.py:128 | the table starts out as read from the file |
| DatasetStatistics.LicenseMatches.Consolidate | scripts/dataset_statistics.py:121-133 | the table gains exactly the new entries after its old rows, and the returned dictionary is the reloaded table |
| DatasetStatistics.ReportHeader | scripts/dataset_statistics.py:139-141 | `country_code`, the sorted canonical names, `last_updated`; stated with `ReportColumnsInHeader` |
| DatasetStatistics.CanonicalCounts | scripts/dataset_statistics.py:144 | a country's cells, or `None` for the KeyError; stated by `CanonicalCountsKeys` and `CanonicalCountsLastWins` |
| DatasetStatistics.CanonicalCountsKeys | scripts/dataset_statistics.py:144 | a country's cells are defined exactly when every used name is in the dictionary, and the columns are the canonical names of the used licenses |
| DatasetStatistics.CanonicalCountsLastWins | scripts/dataset_statistics.py:144 | a cell holds the count of the last used license mapped to its column, so counts are not added up |
| DatasetStatistics.ReportRows | scripts/dataset_statistics.py:143-145 | the licenses.csv rows in code order, or `None`; stated by `ReportDefined` and `ReportRowsShape` |
| DatasetStatistics.RowsForShape | scripts/dataset_statistics.py:143-145 | one row per listed country, in order, with that country's canonical counts |
| DatasetStatistics.ReportDefined | scripts/dataset_statistics.py:143-145 | the report is written exactly when every used license has a canonical name, and then every country's counts are defined |
| DatasetStatistics.ReportRowsShape | scripts/dataset_statistics.py:143-145 | a written report has one row per country in increasing code order, each with the country, the date and that country's canonical counts |
| DatasetStatistics.ReportColumnsInHeader | scripts/dataset_statistics.py:139-145 | every field of every report row is a column of the header |
| DatasetStatistics.ConsolidatedReportWritten | scripts/dataset_statistics.py:137-145 | after consolidation every used license has a canonical name, so no KeyError is raised |
| DatasetStatistics.CreateLicensesCsv | scripts/dataset_statistics.py:136-145 | the table gains the new entries, and the header and rows are those of the consolidated dictionary |
| DatasetStatistics.UpdatedRow | scripts/dataset_statistics.py:153-156 | a registry row refreshed when its country has a total; stated by `UpdatedRowFields` and `RegistryRefresh` |
| DatasetStatistics.UpdatedRowFields | scripts/dataset_statistics.py:153-156 | a refreshed row sets `total_datasets` and `last_updated` and keeps every other field |
| DatasetStatistics.UpdatePortalsCsv | scripts/dataset_statistics.py:148-157 | the registry is written back row for row, in order, each row refreshed or copied |
| DatasetStatistics.RegistryRefresh | scripts/dataset_statistics.py:160-167 | a CKAN country whose harvest failed keeps its rows unchanged; a successful one gets the total its harvest counted |
| DatasetStatistics.CollectStatistics | scripts/dataset_statistics.py:160-167 | one run consolidates the gathered licenses, writes the report of the consolidated dictionary, and refreshes each registry row from the gathered totals |
| LicenseStatistics.Endpoint | scripts/license_statistics.py:74 | the endpoint read from the first `split(';')` piece of `has_api` |
| LicenseStatistics.EndpointMap | scripts/license_statistics.py:74-75 | `ckan_apis` built with `split`; stated by `CkanCodesKeys` and `ScriptAgreement.EndpointMapsAgree` |
| LicenseStatistics.CkanCodesKeys | scripts/license_statistics.py:65-66 | the countries asked for are exactly the keys of the endpoint map |
| LicenseStatistics.LicenseListUrl | scripts/license_statistics.py:37-45 | the license-list URL; the US form is stated by `LegacyLicenseUrl` |
| LicenseStatistics.LegacyLicenseUrl | scripts/license_statistics.py:37-39 | the US URL is the endpoint with every `3` turned into `2`, character by character, followed by `/rest/licenses` |
| LicenseStatistics.CountryStatistics | scripts/license_statistics.py:34-59 | one country's `(code, counts)`; stated by `CountryStatisticsOutcome` |
| LicenseStatistics.CountryStatisticsOutcome | scripts/license_statistics.py:34-59 | a failed license list or count leaves the country with no counts; otherwise every license is paired with its count |
| LicenseStatistics.GatherCountries | scripts/license_statistics.py:62-66 | the dictionary of every country's counts; stated by `GatheredCountries` |
| LicenseStatistics.GatheredCountries | scripts/license_statistics.py:62-66 | every country asked for is in the result, failed or not, with what its own catalog answered |
| LicenseStatistics.LowerVocabulary | scripts/license_statistics.py:95-98 | the lower-case names some country uses with a positive count |
| LicenseStatistics.ReportHeader | scripts/license_statistics.py:100 | `country_code`, the sorted lower-case names, `last_updated`; stated with `ReportColumnsInHeader` |
| LicenseStatistics.LowerCounts | scripts/license_statistics.py:103 | a country's cells keyed by lower-case name; stated by `LowerCountsKeys` and `LowerCountsLastWins` |
| LicenseStatistics.LowerCountsKeys | scripts/license_statistics.py:103 | a country's columns are the lower-case names of the licenses it uses with a positive count |
| LicenseStatistics.LowerCountsLastWins | scripts/license_statistics.py:103 | of names differing only in case, the count of the last used one is kept |
| LicenseStatistics.ReportRows | scripts/license_statistics.py:102-104 | the survey rows in code order; stated by `ReportRowsShape` and `ReportColumnsInHeader` |
| LicenseStatistics.RowFields | scripts/license_statistics.py:102-103 | a row carries the country, the date and, for each lower-case name the country uses with a positive count, a column holding its count; it has no other column |
| LicenseStatistics.ReportRowsShape | scripts/license_statistics.py:102-104 | one row per country, in increasing code order, each with its code, the date, and exactly the columns and counts of the lower-case names it uses |
| LicenseStatistics.FailedCountryRow | scripts/license_statistics.py:50-52 | a country whose license list failed gets a row with only its code and the date |
| LicenseStatistics.ReportColumnsInHeader | scripts/license_statistics.py:95-104 | every field of every row is a column of the header |
| LicenseStatistics.LicenseReport | scripts/license_statistics.py:69-104 | the survey of one registry, header and rows; stated by `LicenseReportCountries` |
| LicenseStatistics.LicenseReportCountries | scripts/license_statistics.py:69-104 | the survey has one row per CKAN country of the registry, in code order, whether its catalog answered or not, each built from what that country's own catalog answered |
| ScriptAgreement.EndpointMapsAgree | scripts/license_statistics.py:74-75 | the `split`-based endpoint map equals the `partition`-based one of the other script, so its key and last-row properties hold here too |
| MergeWithDataportals.FormatName | scripts/merge_with_dataportals_org.py:9-10 | the slug of a host; stated by `FormatNameSpec` |
| MergeWithDataportals.FormatNameSpec | scripts/merge_with_dataportals_org.py:9-10 | the slug has no `.`; it is the host without `www.`, with each `.` turned into `-` in place |
| MergeWithDataportals.EuCountryCodes | scripts/merge_with_dataportals_org.py:13-16 | the 28 member-state codes, `GB` included |
| MergeWithDataportals.FormatTags | scripts/merge_with_dataportals_org.py:18-26 | the tags of an own portal; stated by the tag lemmas below |
| MergeWithDataportals.FormatTagsShape | scripts/merge_with_dataportals_org.py:18-20 | two to four tags; the first is the country name without spaces, lower-cased; the second is `level.global` exactly for `EU` |
| MergeWithDataportals.EuNotMember | scripts/merge_with_dataportals_org.py:13-16 | `EU` is not in the list of member states |
| MergeWithDataportals.EuOfficialTag | scripts/merge_with_dataportals_org.py:21-22 | after the first tag, `eu-official` appears exactly for a member state |
| MergeWithDataportals.PlatformTag | scripts/merge_with_dataportals_org.py:24-26 | the last tag is the lower-cased platform exactly when the part before the first `;` is CKAN, DKAN or udata |
| MergeWithDataportals.TagsWithoutSpaces | scripts/merge_with_dataportals_org.py:18-26 | no tag holds a space |
| MergeWithDataportals.TagsRoundTrip | scripts/merge_with_dataportals_org.py:46 | the space-joined `tags` field splits back into the tags |
| MergeWithDataportals.FormatPublisher | scripts/merge_with_dataportals_org.py:29-32 | the publisher of an own portal; stated by `FormatPublisherSpec` |
| MergeWithDataportals.FirstEnglish | scripts/merge_with_dataportals_org.py:30-31 | the first part starting with `en:`, or `""`; stated by `FirstEnglishSpec` |
| MergeWithDataportals.FirstEnglishSpec | scripts/merge_with_dataportals_org.py:30-31 | the first part starting with `en:` is chosen, or `""` when none does |
| MergeWithDataportals.FormatPublisherSpec | scripts/merge_with_dataportals_org.py:29-32 | the publisher is the first `;`-part starting with `en:` with every `en:` removed, or `""`; it never holds a `;` |
| MergeWithDataportals.Kept | scripts/merge_with_dataportals_org.py:37 | an own row is kept when its URL is non-empty and not `N/A` |
| MergeWithDataportals.KeptRows | scripts/merge_with_dataportals_org.py:36-37 | an own row is kept exactly when its URL is non-empty and not `N/A` |
| MergeWithDataportals.KeptRowsCount | scripts/merge_with_dataportals_org.py:36-37 | every copy of a kept row stays and every copy of another row is dropped |
| MergeWithDataportals.KeptRowsConcat | scripts/merge_with_dataportals_org.py:36-37 | the filter keeps order: filtering a concatenation concatenates the filtered parts |
| MergeWithDataportals.ConvertOwnRow | scripts/merge_with_dataportals_org.py:41-49 | a converted row has exactly the nine dataportals.org fields |
| MergeWithDataportals.ConvertAll | scripts/merge_with_dataportals_org.py:41-50 | the converted own rows, one per kept row, in order; stated by `ConvertOwnRow` |
| MergeWithDataportals.Chain | scripts/merge_with_dataportals_org.py:40-50 | the chain holds the dataportals.org rows and then the converted rows, all named |
| MergeWithDataportals.SortByName | scripts/merge_with_dataportals_org.py:40-50 | the sort is a permutation of its input |
| MergeWithDataportals.SortByNameSpec | scripts/merge_with_dataportals_org.py:40-50 | the sort orders rows by name and is stable: the rows of each name keep their input order |
| MergeWithDataportals.Merge | scripts/merge_with_dataportals_org.py:35-50 | the sorted chain of the dataportals.org rows and the converted own rows; stated by `MergeSpec` |
| MergeWithDataportals.MergeSpec | scripts/merge_with_dataportals_org.py:35-50 | the merge holds every dataportals.org row and every converted row, no others, sorted by name, with rows of equal name in chain order |

## Left out

- Network access, the `Getter` class, the semaphore, sessions, timeouts, HTTP status checks and JSON decoding are not modelled. A catalog's answers are the `Catalog.Network` functions, where `None` stands for any failure.
- Concurrency is not modelled. `asyncio.gather` results come in the order the requests were made, so the model evaluates the harvests one after another in that order.
- The two package-search variants are one count function: the `rows=0` parameter of `dataset_statistics.py` and the unbounded search of `license_statistics.py` report the same `count`.
- `get_cyprus_counts` (remote SQL on a scraper, an API key read from the environment) is not modelled. Its `(total, per_license)` result is an input.
- The operator pause and any hand edit of `license_matches.csv` before the reload are not modelled, because the edit cannot be known. The reloaded table is the old table followed by the appended rows. A later row for a key wins, as `dict` does.
- `DatasetStatistics.CreateLicensesCsv`: it models the KeyError of a license missing from the reloaded table, but only proves that it cannot happen without a hand edit.
- CSV reading, writing, quoting and `open` are not modelled. Rows are maps from column name to text. A header column a row does not have, and a row wider than its header, are not modelled.
- The `ValueError` of a `license_matches.csv` line that is not a pair is not modelled, because the table is a sequence of pairs.
- The printing of the survey by `license_statistics.py`, logging and `print` are not modelled.
- `urlparse(url).netloc` is a function parameter of `MergeWithDataportals.ConvertOwnRow`.
- `dt.date.today()` is the parameter `today`.
- `Text.Lower`, which stands for `str.lower`, folds only the ASCII letters `A`-`Z`. Other cased characters are left as they are.
- Counts are integers, so the `int(...)` conversion of a count a catalog returns as text is not modelled.
- The commented-out block of `scripts/license_statistics.py` (lines 78-93) is not modelled, because it is dead code.
- `scripts/utils.py` is not part of this model.
- `LicenseStatistics.ReportRowsShape`: it describes the row fields only when no license a country uses with a positive count lower-cases to `country_code` or `last_updated`. Such a license would overwrite that fixed column.
- `LicenseStatistics.RowFields`: the same hypothesis, for the same reason.
- `Catalog.LicenseRowFields`: it describes a row only when no license column is named `country_code` or `last_updated`, because such a column would overwrite that fixed field.
- `DatasetStatistics.NewEntriesSpec`: `sorted(all_licenses, key=str.lower)` sorts a set, so names equal up to case keep the set's iteration order, which depends on string hashing. The model breaks such ties by code point instead, so the strict order it states holds of the model only. What the script guarantees is stated by `DatasetStatistics.NewEntriesByLowerForm`.
