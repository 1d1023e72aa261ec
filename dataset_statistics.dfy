/**
 * scripts/dataset_statistics.py: the CKAN endpoints read from the portal
 * registry, the harvest results with failures dropped, the append-only license
 * mapping table, the license report and the refreshed portal registry.
 */
module DatasetStatistics {
  import opened Text
  import opened Ordering
  import opened Dict
  import opened Catalog

  /** `(country_code, total, per_license)`: what a successful harvest returns. */
  datatype CountryStats = CountryStats(code: string, total: int, perLicense: seq<Usage>)

  // ---------------------------------------------------------------------------
  // The endpoint map of gather_country_stats

  /** `has_api.partition(';')[0].partition(':')[-1]` */
  function Endpoint(hasApi: string): string {
    Partition(Partition(hasApi, ';').0, ':').2
  }

  /**
   * With `i` the index of the first `;` (or the length), the endpoint is what
   * follows the first `:` before `i`, or empty when there is none.
   */
  lemma EndpointAfterFirstColon(hasApi: string, i: nat)
    requires i <= |hasApi| && ';' !in hasApi[..i] && (i == |hasApi| || hasApi[i] == ';')
    ensures ':' !in hasApi[..i] ==> Endpoint(hasApi) == []
    ensures forall j :: 0 <= j < i && hasApi[j] == ':' && ':' !in hasApi[..j] ==>
              Endpoint(hasApi) == hasApi[j + 1..i]
  {
    PartitionAt(hasApi, ';', i);
    var head := hasApi[..i];
    forall j | 0 <= j < i && hasApi[j] == ':' && ':' !in hasApi[..j]
      ensures Endpoint(hasApi) == hasApi[j + 1..i]
    {
      assert head[..j] == hasApi[..j];
      PartitionAt(head, ':', j);
      assert head[j + 1..] == hasApi[j + 1..i];
    }
  }

  /**
   * `{r['country_code']: Endpoint(r['has_api']) for r in rows if '/api/3' in r['has_api']}`,
   * evaluated row by row, so the last CKAN row of a country decides its endpoint.
   */
  function EndpointMap(rows: seq<Row>): map<string, string>
    requires RegistryRows(rows)
    decreases |rows|
  {
    if rows == [] then map[]
    else
      var r := rows[|rows| - 1];
      var m := EndpointMap(rows[..|rows| - 1]);
      if IsCkanRow(r) then m[r["country_code"] := Endpoint(r["has_api"])] else m
  }

  /** A country has an endpoint exactly when some CKAN row names it. */
  lemma EndpointMapKeys(rows: seq<Row>, c: string)
    requires RegistryRows(rows)
    ensures c in EndpointMap(rows) <==> exists i :: ListsCountry(rows, i, c)
  {
    CkanCodesKeys(rows);
    CkanCodesListed(rows, c);
  }

  /** The endpoint of a country comes from its last CKAN row. */
  lemma {:induction false} EndpointMapLastRow(rows: seq<Row>, i: int)
    requires RegistryRows(rows) && 0 <= i < |rows| && IsCkanRow(rows[i])
    requires forall k :: i < k < |rows| ==> !ListsCountry(rows, k, rows[i]["country_code"])
    ensures rows[i]["country_code"] in EndpointMap(rows)
    ensures EndpointMap(rows)[rows[i]["country_code"]] == Endpoint(rows[i]["has_api"])
    decreases |rows|
  {
    var front := rows[..|rows| - 1];
    if i < |front| {
      forall k | i < k < |front| ensures !ListsCountry(front, k, rows[i]["country_code"]) {
        assert !ListsCountry(rows, k, rows[i]["country_code"]);
      }
      EndpointMapLastRow(front, i);
      assert !ListsCountry(rows, |rows| - 1, rows[i]["country_code"]);
    }
  }

  /** The harvested countries, in dictionary order, are exactly the keys of the endpoint map. */
  lemma {:induction false} CkanCodesKeys(rows: seq<Row>)
    requires RegistryRows(rows)
    ensures forall c :: c in CkanCodes(rows) <==> c in EndpointMap(rows)
    decreases |rows|
  {
    if rows != [] {
      CkanCodesKeys(rows[..|rows| - 1]);
    }
  }

  // ---------------------------------------------------------------------------
  // get_ckan_package_counts

  /**
   * The license list of an endpoint: the US catalog lacks `license_list`, so its
   * endpoint has every `/3` rewritten to `/2` and the legacy `/rest/licenses` appended.
   */
  function LicenseListUrl(code: string, endpoint: string): string {
    if code == "US" then Replace(endpoint, "/3", "/2") + "/rest/licenses"
    else endpoint + "/action/license_list"
  }

  /**
   * The US URL is the endpoint with the `3` of every `/3` turned into `2`, and
   * every other character kept, followed by `/rest/licenses`; no `/3` is left.
   */
  lemma LegacyLicenseUrl(endpoint: string)
    ensures |LicenseListUrl("US", endpoint)| == |endpoint| + |"/rest/licenses"|
    ensures var url := LicenseListUrl("US", endpoint);
            forall i :: 0 <= i < |endpoint| ==>
              url[i] == if 0 < i && endpoint[i - 1] == '/' && endpoint[i] == '3' then '2' else endpoint[i]
    ensures !Contains(LicenseListUrl("US", endpoint)[..|endpoint|], "/3")
    ensures LicenseListUrl("US", endpoint)[|endpoint|..] == "/rest/licenses"
  {
    var rewritten := Replace(endpoint, "/3", "/2");
    ReplaceSlashThree(endpoint);
    NoVersionThreeLeft(endpoint);
    assert LicenseListUrl("US", endpoint)[..|endpoint|] == rewritten;
  }

  /**
   * One CKAN harvest: the license list, the total package count, then one count
   * per license. Any failure, also of a single per-license count, yields `None`.
   */
  function PackageCounts(code: string, endpoint: string, net: Network): (r: Option<CountryStats>)
    ensures r.Some? ==> r.value.code == code
  {
    var ids := net.licenseIds(LicenseListUrl(code, endpoint));
    var total := net.packageCount(endpoint + PackageSearch, None);
    if ids.None? || total.None? then None
    else
      match LicenseUsage(endpoint, ids.value, net)
      case None => None
      case Some(usage) => Some(CountryStats(code, total.value, usage))
  }

  /**
   * A harvest fails when the license list, the total or any per-license count
   * fails; otherwise it pairs every listed license, in order, with its count.
   */
  lemma PackageCountsOutcome(code: string, endpoint: string, net: Network)
    ensures var ids := net.licenseIds(LicenseListUrl(code, endpoint));
            var total := net.packageCount(endpoint + PackageSearch, None);
            PackageCounts(code, endpoint, net).None? <==>
              ids.None? || total.None? ||
              exists i :: 0 <= i < |ids.value| && net.packageCount(endpoint + PackageSearch, Some(ids.value[i])).None?
    ensures var ids := net.licenseIds(LicenseListUrl(code, endpoint));
            var r := PackageCounts(code, endpoint, net);
            r.Some? ==>
              r.value.total == net.packageCount(endpoint + PackageSearch, None).value &&
              |r.value.perLicense| == |ids.value| &&
              forall i :: 0 <= i < |ids.value| ==>
                r.value.perLicense[i] == (ids.value[i], net.packageCount(endpoint + PackageSearch, Some(ids.value[i])).value)
  {
  }

  // ---------------------------------------------------------------------------
  // gather_country_stats and the dictionaries of main

  /** `asyncio.gather` of one harvest per country, in the order of `codes`. */
  function Harvest(codes: seq<string>, endpoints: map<string, string>, net: Network): seq<Option<CountryStats>>
    requires forall c :: c in codes ==> c in endpoints
    decreases |codes|
  {
    if codes == [] then []
    else
      var c := codes[|codes| - 1];
      Harvest(codes[..|codes| - 1], endpoints, net) + [PackageCounts(c, endpoints[c], net)]
  }

  /** The scraper's `('CY', total, per_license)`. */
  function CyprusStats(cyprus: (int, seq<Usage>)): CountryStats {
    CountryStats("CY", cyprus.0, cyprus.1)
  }

  /** The CKAN harvests followed by the Cyprus result, with the failed ones dropped. */
  function GatherCountryStats(rows: seq<Row>, net: Network, cyprus: (int, seq<Usage>)): seq<CountryStats>
    requires RegistryRows(rows)
  {
    CkanCodesKeys(rows);
    Successes(Harvest(CkanCodes(rows), EndpointMap(rows), net) + [Some(CyprusStats(cyprus))])
  }

  function LicensePairs(stats: seq<CountryStats>): seq<(string, seq<Usage>)>
    decreases |stats|
  {
    if stats == [] then []
    else
      var s := stats[|stats| - 1];
      LicensePairs(stats[..|stats| - 1]) + [(s.code, s.perLicense)]
  }

  function TotalPairs(stats: seq<CountryStats>): seq<(string, int)>
    decreases |stats|
  {
    if stats == [] then []
    else
      var s := stats[|stats| - 1];
      TotalPairs(stats[..|stats| - 1]) + [(s.code, s.total)]
  }

  /** `{c: l for c, _, l in country_stats}` */
  function ByCountry(stats: seq<CountryStats>): map<string, seq<Usage>> {
    LastWins(LicensePairs(stats))
  }

  /** `{c: t for c, t, _ in country_stats}` */
  function Totals(stats: seq<CountryStats>): map<string, int> {
    LastWins(TotalPairs(stats))
  }

  lemma ByCountrySnoc(stats: seq<CountryStats>, s: CountryStats)
    ensures ByCountry(stats + [s]) == ByCountry(stats)[s.code := s.perLicense]
  {
    assert (stats + [s])[..|stats|] == stats;
    LastWinsSnoc(LicensePairs(stats), (s.code, s.perLicense));
  }

  lemma TotalsSnoc(stats: seq<CountryStats>, s: CountryStats)
    ensures Totals(stats + [s]) == Totals(stats)[s.code := s.total]
  {
    assert (stats + [s])[..|stats|] == stats;
    LastWinsSnoc(TotalPairs(stats), (s.code, s.total));
  }

  /** The registry lists a CKAN endpoint for `c`, and harvesting it succeeded. */
  predicate Harvested(rows: seq<Row>, net: Network, c: string)
    requires RegistryRows(rows)
  {
    c in EndpointMap(rows) && PackageCounts(c, EndpointMap(rows)[c], net).Some?
  }

  /** What the successful harvest of `c` counted. */
  function HarvestOf(rows: seq<Row>, net: Network, c: string): CountryStats
    requires RegistryRows(rows) && Harvested(rows, net, c)
  {
    PackageCounts(c, EndpointMap(rows)[c], net).value
  }

  /**
   * Harvesting distinct countries: a country reaches the dictionaries exactly
   * when its harvest succeeded, with what that harvest counted.
   */
  lemma {:induction false} HarvestDicts(codes: seq<string>, eps: map<string, string>, net: Network)
    requires Distinct(codes) && forall c :: c in codes ==> c in eps
    ensures var stats := Successes(Harvest(codes, eps, net));
            forall c :: c in ByCountry(stats) <==> c in codes && PackageCounts(c, eps[c], net).Some?
    ensures var stats := Successes(Harvest(codes, eps, net));
            forall c :: c in Totals(stats) <==> c in codes && PackageCounts(c, eps[c], net).Some?
    ensures var stats := Successes(Harvest(codes, eps, net));
            forall c :: c in ByCountry(stats) ==> ByCountry(stats)[c] == PackageCounts(c, eps[c], net).value.perLicense
    ensures var stats := Successes(Harvest(codes, eps, net));
            forall c :: c in Totals(stats) ==> Totals(stats)[c] == PackageCounts(c, eps[c], net).value.total
    decreases |codes|
  {
    if codes != [] {
      var front := codes[..|codes| - 1];
      var c := codes[|codes| - 1];
      HarvestDicts(front, eps, net);
      var o := PackageCounts(c, eps[c], net);
      var xs := Harvest(front, eps, net);
      var stats := Successes(xs);
      assert Harvest(codes, eps, net) == xs + [o];
      SuccessesSnoc(xs, o);
      assert c !in front;
      assert forall d :: d in codes <==> d in front || d == c;
      if o.Some? {
        ByCountrySnoc(stats, o.value);
        TotalsSnoc(stats, o.value);
      } else {
        assert stats + [] == stats;
      }
    }
  }

  /**
   * Only successful harvests reach the license dictionary: a CKAN country is
   * present exactly when its harvest succeeded, and the Cyprus scraper, gathered
   * last, sets or overrides the entry for `CY`.
   */
  lemma GatheredLicenses(rows: seq<Row>, net: Network, cyprus: (int, seq<Usage>))
    requires RegistryRows(rows)
    ensures var m := ByCountry(GatherCountryStats(rows, net, cyprus));
            (forall c :: c in m <==> c == "CY" || Harvested(rows, net, c)) && m["CY"] == cyprus.1 &&
            forall c :: c in m && c != "CY" ==> m[c] == HarvestOf(rows, net, c).perLicense
  {
    var codes := CkanCodes(rows);
    CkanCodesKeys(rows);
    var xs := Harvest(codes, EndpointMap(rows), net);
    var cy := CyprusStats(cyprus);
    var stats := Successes(xs);
    SuccessesSnoc(xs, Some(cy));
    assert GatherCountryStats(rows, net, cyprus) == stats + [cy];
    ByCountrySnoc(stats, cy);
    HarvestDicts(codes, EndpointMap(rows), net);
  }

  /** The same for the dictionary of total package counts. */
  lemma GatheredTotals(rows: seq<Row>, net: Network, cyprus: (int, seq<Usage>))
    requires RegistryRows(rows)
    ensures var m := Totals(GatherCountryStats(rows, net, cyprus));
            (forall c :: c in m <==> c == "CY" || Harvested(rows, net, c)) && m["CY"] == cyprus.0 &&
            forall c :: c in m && c != "CY" ==> m[c] == HarvestOf(rows, net, c).total
  {
    var codes := CkanCodes(rows);
    CkanCodesKeys(rows);
    var xs := Harvest(codes, EndpointMap(rows), net);
    var cy := CyprusStats(cyprus);
    var stats := Successes(xs);
    SuccessesSnoc(xs, Some(cy));
    assert GatherCountryStats(rows, net, cyprus) == stats + [cy];
    TotalsSnoc(stats, cy);
    HarvestDicts(codes, EndpointMap(rows), net);
  }

  // ---------------------------------------------------------------------------
  // consolidate_licenses: the append-only table license_matches.csv

  /** Every license some country uses for at least one package. */
  function Vocabulary(byCountry: map<string, seq<Usage>>): set<string> {
    set c, i | c in byCountry && 0 <= i < |byCountry[c]| && UsedAt(byCountry, c, i) :: byCountry[c][i].0
  }

  /** `(n, n.lower())` for the names not among `keys`, in the order of `names`. */
  function Unmatched(names: seq<string>, keys: set<string>): seq<(string, string)>
    decreases |names|
  {
    if names == [] then []
    else
      var n := names[|names| - 1];
      Unmatched(names[..|names| - 1], keys) + (if n in keys then [] else [(n, Lower(n))])
  }

  lemma UnmatchedPrefix(names: seq<string>, keys: set<string>, i: int)
    requires 0 <= i < |names|
    ensures Unmatched(names[..i + 1], keys) ==
              Unmatched(names[..i], keys) + (if names[i] in keys then [] else [(names[i], Lower(names[i]))])
  {
    assert names[..i + 1][..i] == names[..i];
  }

  /** `writer.writerows((a, b) for a, b in all_licenses if a not in existing_keys)`, one row at a time. */
  method UnmatchedRows(names: seq<string>, keys: set<string>) returns (added: seq<(string, string)>)
    ensures added == Unmatched(names, keys)
  {
    added := [];
    for i := 0 to |names|
      invariant added == Unmatched(names[..i], keys)
    {
      UnmatchedPrefix(names, keys, i);
      if names[i] !in keys {
        added := added + [(names[i], Lower(names[i]))];
      }
    }
    assert names[..|names|] == names;
  }

  /** The rows consolidation appends to `table` for the licenses in `vocab`. */
  function NewEntries(vocab: set<string>, table: seq<(string, string)>): seq<(string, string)> {
    Unmatched(SortSet(CaseInsensitive, vocab), Keys(table))
  }

  /** Unmatched keeps exactly the names outside `keys`, paired with their lower-case form, in order. */
  lemma {:induction false} UnmatchedSpec(names: seq<string>, keys: set<string>)
    ensures forall p :: p in Unmatched(names, keys) <==> p.0 in names && p.0 !in keys && p.1 == Lower(p.0)
    ensures StrictlySorted(CaseInsensitive, names) ==>
              forall i, j :: 0 <= i < j < |Unmatched(names, keys)| ==>
                Less(CaseInsensitive, Unmatched(names, keys)[i].0, Unmatched(names, keys)[j].0)
    decreases |names|
  {
    if names != [] {
      var front := names[..|names| - 1];
      var n := names[|names| - 1];
      UnmatchedSpec(front, keys);
      assert forall x :: x in names <==> x in front || x == n;
      if StrictlySorted(CaseInsensitive, names) {
        assert StrictlySorted(CaseInsensitive, front);
        forall p | p in Unmatched(front, keys) ensures Less(CaseInsensitive, p.0, n) {
          var k :| 0 <= k < |front| && front[k] == p.0;
          assert Less(CaseInsensitive, names[k], names[|names| - 1]);
        }
      }
    }
  }

  /**
   * Consolidation appends every used license missing from the table, once, as
   * `(name, name.lower())`, sorted case-insensitively.
   */
  lemma NewEntriesSpec(vocab: set<string>, table: seq<(string, string)>)
    ensures forall p :: p in NewEntries(vocab, table) <==> p.0 in vocab && p.0 !in Keys(table) && p.1 == Lower(p.0)
    ensures forall i, j :: 0 <= i < j < |NewEntries(vocab, table)| ==>
              Less(CaseInsensitive, NewEntries(vocab, table)[i].0, NewEntries(vocab, table)[j].0)
    ensures UniqueKeys(NewEntries(vocab, table))
  {
    UnmatchedSpec(SortSet(CaseInsensitive, vocab), Keys(table));
    LessIsStrictTotal(CaseInsensitive);
  }

  /**
   * The appended names come with their lower-case forms in non-decreasing
   * order, which is all that `sorted(..., key=str.lower)` fixes about them.
   */
  lemma NewEntriesByLowerForm(vocab: set<string>, table: seq<(string, string)>)
    ensures var added := NewEntries(vocab, table);
            forall i, j :: 0 <= i < j < |added| ==> !StrLess(Lower(added[j].0), Lower(added[i].0))
  {
    var added := NewEntries(vocab, table);
    NewEntriesSpec(vocab, table);
    forall i, j | 0 <= i < j < |added| ensures !StrLess(Lower(added[j].0), Lower(added[i].0)) {
      LowerFormOrder(added[i].0, added[j].0);
    }
  }

  /** The keys of the table after an append. */
  lemma KeysConcat<K, V>(ps: seq<(K, V)>, qs: seq<(K, V)>)
    ensures Keys(ps + qs) == Keys(ps) + Keys(qs)
  {
    var all := ps + qs;
    forall k | k in Keys(all) ensures k in Keys(ps) + Keys(qs) {
      var i :| 0 <= i < |all| && all[i].0 == k;
      if i >= |ps| { assert qs[i - |ps|].0 == k; }
    }
    forall k | k in Keys(ps) + Keys(qs) ensures k in Keys(all) {
      if k in Keys(ps) {
        var i :| 0 <= i < |ps| && ps[i].0 == k;
        assert all[i].0 == k;
      } else {
        var i :| 0 <= i < |qs| && qs[i].0 == k;
        assert all[|ps| + i].0 == k;
      }
    }
  }

  lemma {:induction false} UnmatchedAllKnown(names: seq<string>, keys: set<string>)
    requires forall i :: 0 <= i < |names| ==> names[i] in keys
    ensures Unmatched(names, keys) == []
    decreases |names|
  {
    if names != [] {
      UnmatchedAllKnown(names[..|names| - 1], keys);
    }
  }

  /** Consolidating the same licenses a second time appends nothing. */
  lemma NewEntriesIdempotent(vocab: set<string>, table: seq<(string, string)>)
    ensures NewEntries(vocab, table + NewEntries(vocab, table)) == []
  {
    var added := NewEntries(vocab, table);
    NewEntriesSpec(vocab, table);
    KeysConcat(table, added);
    forall n | n in vocab ensures n in Keys(table + added) {
      if n !in Keys(table) {
        assert (n, Lower(n)) in added;
        var i :| 0 <= i < |added| && added[i] == (n, Lower(n));
        assert added[i].0 == n;
      }
    }
    UnmatchedAllKnown(SortSet(CaseInsensitive, vocab), Keys(table + added));
  }

  /** The keys of a table with unique keys are never repeated by consolidation. */
  lemma KeysStayUnique(vocab: set<string>, table: seq<(string, string)>)
    requires UniqueKeys(table)
    ensures UniqueKeys(table + NewEntries(vocab, table))
  {
    var added := NewEntries(vocab, table);
    NewEntriesSpec(vocab, table);
    var all := table + added;
    forall i, j | 0 <= i < j < |all| ensures all[i].0 != all[j].0 {
      if i < |table| && j >= |table| {
        assert added[j - |table|] in added;
        assert all[i].0 in Keys(table);
      }
    }
  }

  /** The appended rows, read as a dictionary: the new names, each mapped to its lower-case form. */
  lemma AppendedMapping(vocab: set<string>, table: seq<(string, string)>)
    ensures var added := NewEntries(vocab, table);
            forall n :: n in LastWins(added) <==> n in vocab && n !in Keys(table)
    ensures var added := NewEntries(vocab, table);
            forall n :: n in LastWins(added) ==> LastWins(added)[n] == Lower(n)
  {
    var added := NewEntries(vocab, table);
    NewEntriesSpec(vocab, table);
    forall n ensures n in Keys(added) <==> n in vocab && n !in Keys(table) {
      if n in Keys(added) {
        var i :| 0 <= i < |added| && added[i].0 == n;
        assert added[i] in added;
      }
      if n in vocab && n !in Keys(table) {
        assert (n, Lower(n)) in added;
        var i :| 0 <= i < |added| && added[i] == (n, Lower(n));
        assert added[i].0 == n;
      }
    }
    forall n | n in LastWins(added) ensures LastWins(added)[n] == Lower(n) {
      LastWinsEntry(added, n);
      var j :| 0 <= j < |added| && added[j].0 == n && added[j].1 == LastWins(added)[n];
      assert added[j] in added;
    }
  }

  /**
   * The dictionary reloaded after the append: names already in the table keep
   * their canonical name, every used license has one, and a new name maps to
   * its lower-case form.
   */
  lemma ReloadedMapping(vocab: set<string>, table: seq<(string, string)>)
    ensures var m := LastWins(table + NewEntries(vocab, table));
            forall k :: k in Keys(table) ==> k in m && m[k] == LastWins(table)[k]
    ensures var m := LastWins(table + NewEntries(vocab, table));
            forall n :: n in vocab ==> n in m
    ensures var m := LastWins(table + NewEntries(vocab, table));
            forall n :: n in vocab && n !in Keys(table) ==> m[n] == Lower(n)
  {
    var added := NewEntries(vocab, table);
    LastWinsConcat(table, added);
    AppendedMapping(vocab, table);
  }

  /**
   * license_matches.csv, the table pairing every license name met so far with
   * its canonical name. Consolidation only appends to it; the dictionary
   * reloaded from it is where a later row for a key overrides an earlier one.
   */
  class LicenseMatches {
    var entries: seq<(string, string)>

    constructor (initial: seq<(string, string)>)
      ensures entries == initial
    {
      entries := initial;
    }

    /**
     * Appends `(name, name.lower())` for each used license missing from the
     * table, in case-insensitive order, and returns the reloaded dictionary.
     */
    method Consolidate(byCountry: map<string, seq<Usage>>) returns (mapping: map<string, string>)
      modifies this
      ensures entries == old(entries) + NewEntries(Vocabulary(byCountry), old(entries))
      ensures mapping == LastWins(entries)
    {
      var names := SortSet(CaseInsensitive, Vocabulary(byCountry));
      var added := UnmatchedRows(names, Keys(entries));
      entries := entries + added;
      mapping := LastWins(entries);
    }
  }

  // ---------------------------------------------------------------------------
  // create_licenses_csv

  /** `('country_code', *sorted(set(mapping.values())), 'last_updated')` */
  function ReportHeader(mapping: map<string, string>): seq<string> {
    ["country_code"] + SortSet(Codepoint, mapping.Values) + ["last_updated"]
  }

  /**
   * `{mapping[n]: c for n, c in usages if c > 0}`: `None` is the KeyError of a
   * used license the dictionary lacks; when two names share a canonical name
   * the later count replaces the earlier one.
   */
  function CanonicalCounts(mapping: map<string, string>, usages: seq<Usage>): Option<map<string, int>>
    decreases |usages|
  {
    if usages == [] then Some(map[])
    else
      var u := usages[|usages| - 1];
      match CanonicalCounts(mapping, usages[..|usages| - 1])
      case None => None
      case Some(m) =>
        if u.1 <= 0 then Some(m)
        else if u.0 in mapping then Some(m[mapping[u.0] := u.1])
        else None
  }

  /** The `j`-th usage has a positive count and its name has the canonical name `k`. */
  predicate CountsFor(mapping: map<string, string>, usages: seq<Usage>, j: int, k: string) {
    0 <= j < |usages| && usages[j].1 > 0 && usages[j].0 in mapping && mapping[usages[j].0] == k
  }

  /**
   * The counts are defined exactly when every used name is in the dictionary;
   * then the columns are the canonical names of the used licenses.
   */
  lemma {:induction false} CanonicalCountsKeys(mapping: map<string, string>, usages: seq<Usage>)
    ensures CanonicalCounts(mapping, usages).Some? <==>
              forall j :: 0 <= j < |usages| && usages[j].1 > 0 ==> usages[j].0 in mapping
    ensures CanonicalCounts(mapping, usages).Some? ==>
              forall k :: k in CanonicalCounts(mapping, usages).value <==> exists j :: CountsFor(mapping, usages, j, k)
    decreases |usages|
  {
    if usages != [] {
      var front := usages[..|usages| - 1];
      var last := |usages| - 1;
      CanonicalCountsKeys(mapping, front);
      var r := CanonicalCounts(mapping, usages);
      if r.Some? {
        forall k ensures k in r.value <==> exists j :: CountsFor(mapping, usages, j, k) {
          if exists j :: CountsFor(mapping, front, j, k) {
            var j :| CountsFor(mapping, front, j, k);
            assert CountsFor(mapping, usages, j, k);
          }
          if exists j :: CountsFor(mapping, usages, j, k) {
            var j :| CountsFor(mapping, usages, j, k);
            if j < last { assert CountsFor(mapping, front, j, k); }
          }
          if usages[last].1 > 0 && mapping[usages[last].0] == k {
            assert CountsFor(mapping, usages, last, k);
          }
        }
      }
      if forall j :: 0 <= j < |usages| && usages[j].1 > 0 ==> usages[j].0 in mapping {
        assert forall j :: 0 <= j < |front| && front[j].1 > 0 ==> front[j].0 in mapping by {
          forall j | 0 <= j < |front| && front[j].1 > 0 ensures front[j].0 in mapping {
            assert front[j] == usages[j];
          }
        }
      }
    }
  }

  /**
   * The count in a column is the one of the last used license mapped to it:
   * counts of names sharing a canonical name are not added up.
   */
  lemma {:induction false} CanonicalCountsLastWins(mapping: map<string, string>, usages: seq<Usage>, j: int, k: string)
    requires CanonicalCounts(mapping, usages).Some?
    requires CountsFor(mapping, usages, j, k)
    requires forall i :: j < i < |usages| ==> !CountsFor(mapping, usages, i, k)
    ensures k in CanonicalCounts(mapping, usages).value
    ensures CanonicalCounts(mapping, usages).value[k] == usages[j].1
    decreases |usages|
  {
    var front := usages[..|usages| - 1];
    if j < |front| {
      assert front[j] == usages[j];
      forall i | j < i < |front| ensures !CountsFor(mapping, front, i, k) {
        assert front[i] == usages[i];
        assert !CountsFor(mapping, usages, i, k);
      }
      CanonicalCountsLastWins(mapping, front, j, k);
      assert !CountsFor(mapping, usages, |usages| - 1, k);
    }
  }

  /** One report row per country of `codes`, or `None` when one of them fails. */
  function RowsFor(codes: seq<string>, mapping: map<string, string>, byCountry: map<string, seq<Usage>>, today: string): Option<seq<Record>>
    requires forall c :: c in codes ==> c in byCountry
    decreases |codes|
  {
    if codes == [] then Some([])
    else
      var c := codes[|codes| - 1];
      match RowsFor(codes[..|codes| - 1], mapping, byCountry, today)
      case None => None
      case Some(rows) =>
        match CanonicalCounts(mapping, byCountry[c])
        case None => None
        case Some(counts) => Some(rows + [LicenseRow(c, today, counts)])
  }

  /** The rows of licenses.csv, one per country in code order. */
  function ReportRows(mapping: map<string, string>, byCountry: map<string, seq<Usage>>, today: string): Option<seq<Record>> {
    RowsFor(SortSet(Codepoint, byCountry.Keys), mapping, byCountry, today)
  }

  lemma {:induction false} RowsForShape(codes: seq<string>, mapping: map<string, string>, byCountry: map<string, seq<Usage>>, today: string)
    requires forall c :: c in codes ==> c in byCountry
    ensures RowsFor(codes, mapping, byCountry, today).Some? <==>
              forall i :: 0 <= i < |codes| ==> CanonicalCounts(mapping, byCountry[codes[i]]).Some?
    ensures var r := RowsFor(codes, mapping, byCountry, today);
            r.Some? ==> (|r.value| == |codes| &&
              forall i :: 0 <= i < |codes| ==>
                r.value[i] == LicenseRow(codes[i], today, CanonicalCounts(mapping, byCountry[codes[i]]).value))
    decreases |codes|
  {
    if codes != [] {
      var front := codes[..|codes| - 1];
      var c := codes[|codes| - 1];
      RowsForShape(front, mapping, byCountry, today);
      assert forall i :: 0 <= i < |front| ==> front[i] == codes[i];
      var r := RowsFor(front, mapping, byCountry, today);
      var counts := CanonicalCounts(mapping, byCountry[c]);
      if r.Some? && counts.Some? {
        var rows := r.value + [LicenseRow(c, today, counts.value)];
        assert RowsFor(codes, mapping, byCountry, today) == Some(rows);
        forall i | 0 <= i < |codes|
          ensures rows[i] == LicenseRow(codes[i], today, CanonicalCounts(mapping, byCountry[codes[i]]).value)
        {
          if i < |front| { assert rows[i] == r.value[i]; }
        }
      } else {
        assert RowsFor(codes, mapping, byCountry, today).None?;
      }
    }
  }

  /** Every license some country uses has an entry in `mapping`. */
  predicate AllMapped(mapping: map<string, string>, byCountry: map<string, seq<Usage>>) {
    forall c, j :: c in byCountry && 0 <= j < |byCountry[c]| && byCountry[c][j].1 > 0 ==> byCountry[c][j].0 in mapping
  }

  /** Every country's counts are defined exactly when every used license is mapped. */
  lemma CountsDefined(mapping: map<string, string>, byCountry: map<string, seq<Usage>>)
    ensures AllMapped(mapping, byCountry) <==> forall c :: c in byCountry ==> CanonicalCounts(mapping, byCountry[c]).Some?
  {
    forall c | c in byCountry
      ensures CanonicalCounts(mapping, byCountry[c]).Some? <==>
              forall j :: 0 <= j < |byCountry[c]| && byCountry[c][j].1 > 0 ==> byCountry[c][j].0 in mapping
    {
      CanonicalCountsKeys(mapping, byCountry[c]);
    }
  }

  /**
   * The report is written exactly when every used license has a canonical
   * name, and then every country's counts are defined.
   */
  lemma ReportDefined(mapping: map<string, string>, byCountry: map<string, seq<Usage>>, today: string)
    ensures ReportRows(mapping, byCountry, today).Some? <==> AllMapped(mapping, byCountry)
    ensures ReportRows(mapping, byCountry, today).Some? ==>
              forall c :: c in byCountry ==> CanonicalCounts(mapping, byCountry[c]).Some?
  {
    var codes := SortSet(Codepoint, byCountry.Keys);
    RowsForShape(codes, mapping, byCountry, today);
    CountsDefined(mapping, byCountry);
    if forall i :: 0 <= i < |codes| ==> CanonicalCounts(mapping, byCountry[codes[i]]).Some? {
      forall c | c in byCountry ensures CanonicalCounts(mapping, byCountry[c]).Some? {
        var i :| 0 <= i < |codes| && codes[i] == c;
      }
    }
  }

  /**
   * A written report has one row per country, in increasing code order,
   * carrying the country, the date and the canonical counts of that country.
   */
  lemma ReportRowsShape(mapping: map<string, string>, byCountry: map<string, seq<Usage>>, today: string)
    ensures var r := ReportRows(mapping, byCountry, today);
            var codes := SortSet(Codepoint, byCountry.Keys);
            r.Some? ==> (|r.value| == |byCountry| && StrictlySorted(Codepoint, codes) &&
              forall i :: 0 <= i < |codes| ==>
                CanonicalCounts(mapping, byCountry[codes[i]]).Some? &&
                r.value[i] == LicenseRow(codes[i], today, CanonicalCounts(mapping, byCountry[codes[i]]).value))
  {
    var codes := SortSet(Codepoint, byCountry.Keys);
    RowsForShape(codes, mapping, byCountry, today);
  }

  /** Every field of every report row is a column of the header, so the writer accepts all rows. */
  lemma ReportColumnsInHeader(mapping: map<string, string>, byCountry: map<string, seq<Usage>>, today: string)
    ensures var r := ReportRows(mapping, byCountry, today);
            r.Some? ==> forall i, k :: 0 <= i < |r.value| && k in r.value[i] ==> k in ReportHeader(mapping)
  {
    var codes := SortSet(Codepoint, byCountry.Keys);
    RowsForShape(codes, mapping, byCountry, today);
    var r := ReportRows(mapping, byCountry, today);
    if r.Some? {
      forall i, k | 0 <= i < |r.value| && k in r.value[i] ensures k in ReportHeader(mapping) {
        var usages := byCountry[codes[i]];
        var counts := CanonicalCounts(mapping, usages).value;
        CanonicalCountsKeys(mapping, usages);
        if k in counts {
          var j :| CountsFor(mapping, usages, j, k);
          assert k in mapping.Values;
          assert k in SortSet(Codepoint, mapping.Values);
        }
      }
    }
  }

  /** After consolidation every used license has a canonical name, so the report is written. */
  lemma ConsolidatedReportWritten(table: seq<(string, string)>, byCountry: map<string, seq<Usage>>, today: string)
    ensures ReportRows(LastWins(table + NewEntries(Vocabulary(byCountry), table)), byCountry, today).Some?
  {
    var mapping := LastWins(table + NewEntries(Vocabulary(byCountry), table));
    ReloadedMapping(Vocabulary(byCountry), table);
    ReportDefined(mapping, byCountry, today);
    forall c, j | c in byCountry && 0 <= j < |byCountry[c]| && byCountry[c][j].1 > 0
      ensures byCountry[c][j].0 in mapping
    {
      assert UsedAt(byCountry, c, j);
    }
  }

  /**
   * Consolidates the licenses, then produces licenses.csv: its header and its
   * rows, or `None` for the KeyError of a used license missing from the reloaded
   * table.
   */
  method CreateLicensesCsv(matches: LicenseMatches, byCountry: map<string, seq<Usage>>, today: string)
    returns (header: seq<string>, report: Option<seq<Record>>)
    modifies matches
    ensures matches.entries == old(matches.entries) + NewEntries(Vocabulary(byCountry), old(matches.entries))
    ensures header == ReportHeader(LastWins(matches.entries))
    ensures report == ReportRows(LastWins(matches.entries), byCountry, today)
    ensures report.Some?
  {
    var mapping := matches.Consolidate(byCountry);
    ConsolidatedReportWritten(old(matches.entries), byCountry, today);
    header := ReportHeader(mapping);
    report := ReportRows(mapping, byCountry, today);
  }

  // ---------------------------------------------------------------------------
  // update_portals_csv

  /**
   * A registry row as written back: a country with a total gets its
   * `total_datasets` and `last_updated` refreshed; every other row is unchanged.
   */
  function UpdatedRow(row: Row, totals: map<string, int>, today: string): Record
    requires "country_code" in row
  {
    var c := row["country_code"];
    if c in totals then Lift(row)["total_datasets" := Int(totals[c])]["last_updated" := Str(today)]
    else Lift(row)
  }

  /** A refreshed row keeps every other field and gains no field besides the two it sets. */
  lemma UpdatedRowFields(row: Row, totals: map<string, int>, today: string)
    requires "country_code" in row
    ensures var r := UpdatedRow(row, totals, today);
            r.Keys == row.Keys + (if row["country_code"] in totals then {"total_datasets", "last_updated"} else {})
    ensures var r := UpdatedRow(row, totals, today);
            forall k :: k in row && (row["country_code"] !in totals || k !in {"total_datasets", "last_updated"}) ==>
              r[k] == Str(row[k])
    ensures var r := UpdatedRow(row, totals, today);
            row["country_code"] in totals ==>
              r["total_datasets"] == Int(totals[row["country_code"]]) && r["last_updated"] == Str(today)
  {
  }

  /** The registry as written back: every row refreshed or copied, in order. */
  method UpdatePortalsCsv(rows: seq<Row>, totals: map<string, int>, today: string) returns (written: seq<Record>)
    requires forall r :: r in rows ==> "country_code" in r
    ensures |written| == |rows|
    ensures forall i :: 0 <= i < |rows| ==> written[i] == UpdatedRow(rows[i], totals, today)
  {
    written := [];
    for i := 0 to |rows|
      invariant |written| == i
      invariant forall k :: 0 <= k < i ==> written[k] == UpdatedRow(rows[k], totals, today)
    {
      var row := rows[i];
      var out := Lift(row);
      if row["country_code"] in totals {
        out := out["total_datasets" := Int(totals[row["country_code"]])]["last_updated" := Str(today)];
      }
      written := written + [out];
    }
  }

  /**
   * A CKAN country whose harvest failed keeps its registry rows as they were;
   * a country whose harvest succeeded gets the total that harvest counted.
   */
  lemma RegistryRefresh(rows: seq<Row>, net: Network, cyprus: (int, seq<Usage>), row: Row, today: string)
    requires RegistryRows(rows) && "country_code" in row && row["country_code"] != "CY"
    ensures var totals := Totals(GatherCountryStats(rows, net, cyprus));
            !Harvested(rows, net, row["country_code"]) ==> UpdatedRow(row, totals, today) == Lift(row)
    ensures var totals := Totals(GatherCountryStats(rows, net, cyprus));
            Harvested(rows, net, row["country_code"]) ==>
              UpdatedRow(row, totals, today) ==
                Lift(row)["total_datasets" := Int(HarvestOf(rows, net, row["country_code"]).total)]["last_updated" := Str(today)]
  {
    var totals := Totals(GatherCountryStats(rows, net, cyprus));
    var c := row["country_code"];
    GatheredTotals(rows, net, cyprus);
    assert c in totals <==> Harvested(rows, net, c);
    if c in totals {
      assert totals[c] == HarvestOf(rows, net, c).total;
    }
  }

  // ---------------------------------------------------------------------------
  // main

  /**
   * One run: harvest the registry's CKAN portals and Cyprus, consolidate the
   * licenses into `matches`, and produce licenses.csv and the new portals.csv.
   */
  method CollectStatistics(rows: seq<Row>, net: Network, cyprus: (int, seq<Usage>), today: string, matches: LicenseMatches)
    returns (header: seq<string>, report: Option<seq<Record>>, portals: seq<Record>)
    requires RegistryRows(rows) && forall r :: r in rows ==> "country_code" in r
    modifies matches
    ensures var byCountry := ByCountry(GatherCountryStats(rows, net, cyprus));
            matches.entries == old(matches.entries) + NewEntries(Vocabulary(byCountry), old(matches.entries)) &&
            header == ReportHeader(LastWins(matches.entries)) &&
            report == ReportRows(LastWins(matches.entries), byCountry, today)
    ensures report.Some?
    ensures |portals| == |rows|
    ensures forall i :: 0 <= i < |rows| ==>
              portals[i] == UpdatedRow(rows[i], Totals(GatherCountryStats(rows, net, cyprus)), today)
  {
    var stats := GatherCountryStats(rows, net, cyprus);
    header, report := CreateLicensesCsv(matches, ByCountry(stats), today);
    portals := UpdatePortalsCsv(rows, Totals(stats), today);
  }
}
