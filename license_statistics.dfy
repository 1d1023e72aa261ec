/**
 * scripts/license_statistics.py, the older license survey: every CKAN country
 * of the registry is kept, with no counts when its catalog fails, and licenses
 * are told apart by their lower-case names only.
 */
module LicenseStatistics {
  import opened Text
  import opened Ordering
  import opened Dict
  import opened Catalog

  // ---------------------------------------------------------------------------
  // The endpoint map of main

  /** `has_api.split(';')[0].partition(':')[-1]` */
  function Endpoint(hasApi: string): string {
    Partition(Split(hasApi, ';')[0], ':').2
  }

  /** `{r['country_code']: Endpoint(r['has_api']) for r in rows if '/api/3' in r['has_api']}` */
  function EndpointMap(rows: seq<Row>): map<string, string>
    requires RegistryRows(rows)
    decreases |rows|
  {
    if rows == [] then map[]
    else
      var r := rows[|rows| - 1];
      var m := EndpointMap(rows[..|rows| - 1]);
      if IsCkanRow(r) then m[r["country_code"] := Endpoint(r["has_api"])] else m
  }

  /** The countries asked for, in dictionary order, are exactly the keys of the endpoint map. */
  lemma {:induction false} CkanCodesKeys(rows: seq<Row>)
    requires RegistryRows(rows)
    ensures forall c :: c in CkanCodes(rows) <==> c in EndpointMap(rows)
    decreases |rows|
  {
    if rows != [] {
      CkanCodesKeys(rows[..|rows| - 1]);
    }
  }

  // ---------------------------------------------------------------------------
  // gather_country_statistics and gather_countries

  /**
   * The license list of an endpoint; for the US every `3` of the endpoint, not
   * only the one of the API version, becomes `2` before `/rest/licenses` is appended.
   */
  function LicenseListUrl(code: string, endpoint: string): string {
    if code == "US" then Replace(endpoint, "3", "2") + "/rest/licenses"
    else endpoint + "/action/license_list"
  }

  /** The US URL is the endpoint with each `3` turned into `2`, character by character, then `/rest/licenses`. */
  lemma LegacyLicenseUrl(endpoint: string)
    ensures var url := LicenseListUrl("US", endpoint);
            |url| == |endpoint| + |"/rest/licenses"| && url[|endpoint|..] == "/rest/licenses"
    ensures var url := LicenseListUrl("US", endpoint);
            forall i :: 0 <= i < |endpoint| ==> url[i] == if endpoint[i] == '3' then '2' else endpoint[i]
    ensures '3' !in LicenseListUrl("US", endpoint)[..|endpoint|]
  {
    ReplaceChar(endpoint, '3', '2');
    var rewritten := Replace(endpoint, "3", "2");
    assert LicenseListUrl("US", endpoint)[..|endpoint|] == rewritten;
  }

  /**
   * `(country_code, counts)`: the per-license counts of one catalog, or no
   * counts at all when the license list or any single count fails.
   */
  function CountryStatistics(code: string, endpoint: string, net: Network): (string, seq<Usage>) {
    var ids := net.licenseIds(LicenseListUrl(code, endpoint));
    if ids.None? then (code, [])
    else
      match LicenseUsage(endpoint, ids.value, net)
      case None => (code, [])
      case Some(usage) => (code, usage)
  }

  /**
   * A failure leaves the country with an empty count sequence instead of
   * dropping it; otherwise every listed license is paired with its count.
   */
  lemma CountryStatisticsOutcome(code: string, endpoint: string, net: Network)
    ensures CountryStatistics(code, endpoint, net).0 == code
    ensures var ids := net.licenseIds(LicenseListUrl(code, endpoint));
            var counts := CountryStatistics(code, endpoint, net).1;
            (ids.None? || exists i :: 0 <= i < |ids.value| && net.packageCount(endpoint + PackageSearch, Some(ids.value[i])).None?) ==>
              counts == []
    ensures var ids := net.licenseIds(LicenseListUrl(code, endpoint));
            var counts := CountryStatistics(code, endpoint, net).1;
            ids.Some? && (forall i :: 0 <= i < |ids.value| ==> net.packageCount(endpoint + PackageSearch, Some(ids.value[i])).Some?) ==>
              |counts| == |ids.value| &&
              forall i :: 0 <= i < |ids.value| ==>
                counts[i] == (ids.value[i], net.packageCount(endpoint + PackageSearch, Some(ids.value[i])).value)
  {
  }

  /** One `(code, counts)` pair per entry of `apis`, in dictionary order. */
  function CountryPairs(codes: seq<string>, apis: map<string, string>, net: Network): seq<(string, seq<Usage>)>
    requires forall c :: c in codes ==> c in apis
    decreases |codes|
  {
    if codes == [] then []
    else
      var c := codes[|codes| - 1];
      CountryPairs(codes[..|codes| - 1], apis, net) + [CountryStatistics(c, apis[c], net)]
  }

  /** `dict(await asyncio.gather(...))` over the countries `codes` of `apis`. */
  function GatherCountries(codes: seq<string>, apis: map<string, string>, net: Network): map<string, seq<Usage>>
    requires forall c :: c in codes ==> c in apis
  {
    LastWins(CountryPairs(codes, apis, net))
  }

  /** Every country asked for is in the result, failed or not, with what its own catalog answered. */
  lemma {:induction false} GatheredCountries(codes: seq<string>, apis: map<string, string>, net: Network)
    requires forall c :: c in codes ==> c in apis
    ensures forall c :: c in GatherCountries(codes, apis, net) <==> c in codes
    ensures forall c :: c in codes ==> GatherCountries(codes, apis, net)[c] == CountryStatistics(c, apis[c], net).1
    decreases |codes|
  {
    if codes != [] {
      var front := codes[..|codes| - 1];
      var c := codes[|codes| - 1];
      GatheredCountries(front, apis, net);
      LastWinsSnoc(CountryPairs(front, apis, net), CountryStatistics(c, apis[c], net));
      assert forall d :: d in codes <==> d in front || d == c;
    }
  }

  // ---------------------------------------------------------------------------
  // The license report of main

  /** The lower-case names of the licenses some country uses for at least one package. */
  function LowerVocabulary(licenses: map<string, seq<Usage>>): set<string> {
    set c, i | c in licenses && 0 <= i < |licenses[c]| && UsedAt(licenses, c, i) :: Lower(licenses[c][i].0)
  }

  /** `('country_code', *sorted(vocabulary), 'last_updated')` */
  function ReportHeader(licenses: map<string, seq<Usage>>): seq<string> {
    ["country_code"] + SortSet(Codepoint, LowerVocabulary(licenses)) + ["last_updated"]
  }

  /** `{n.lower(): c for n, c in usages if int(c) > 0}` */
  function LowerCounts(usages: seq<Usage>): map<string, int>
    decreases |usages|
  {
    if usages == [] then map[]
    else
      var u := usages[|usages| - 1];
      var m := LowerCounts(usages[..|usages| - 1]);
      if u.1 > 0 then m[Lower(u.0) := u.1] else m
  }

  /** The `j`-th usage has a positive count and the lower-case name `k`. */
  predicate CountsFor(usages: seq<Usage>, j: int, k: string) {
    0 <= j < |usages| && usages[j].1 > 0 && Lower(usages[j].0) == k
  }

  /** The columns of a country are the lower-case names of the licenses it uses. */
  lemma {:induction false} LowerCountsKeys(usages: seq<Usage>)
    ensures forall k :: k in LowerCounts(usages) <==> exists j :: CountsFor(usages, j, k)
    decreases |usages|
  {
    if usages != [] {
      var front := usages[..|usages| - 1];
      var last := |usages| - 1;
      LowerCountsKeys(front);
      forall k ensures k in LowerCounts(usages) <==> exists j :: CountsFor(usages, j, k) {
        if exists j :: CountsFor(front, j, k) {
          var j :| CountsFor(front, j, k);
          assert CountsFor(usages, j, k);
        }
        if exists j :: CountsFor(usages, j, k) {
          var j :| CountsFor(usages, j, k);
          if j < last { assert CountsFor(front, j, k); }
        }
        if usages[last].1 > 0 && Lower(usages[last].0) == k {
          assert CountsFor(usages, last, k);
        }
      }
    }
  }

  /** Of names differing only in case, the count of the last used one is kept. */
  lemma {:induction false} LowerCountsLastWins(usages: seq<Usage>, j: int, k: string)
    requires CountsFor(usages, j, k)
    requires forall i :: j < i < |usages| ==> !CountsFor(usages, i, k)
    ensures k in LowerCounts(usages) && LowerCounts(usages)[k] == usages[j].1
    decreases |usages|
  {
    var front := usages[..|usages| - 1];
    if j < |front| {
      assert front[j] == usages[j];
      forall i | j < i < |front| ensures !CountsFor(front, i, k) {
        assert front[i] == usages[i];
        assert !CountsFor(usages, i, k);
      }
      LowerCountsLastWins(front, j, k);
      assert !CountsFor(usages, |usages| - 1, k);
    }
  }

  /** The report rows, one per country in increasing code order. */
  function ReportRows(licenses: map<string, seq<Usage>>, today: string): seq<Record> {
    var codes := SortSet(Codepoint, licenses.Keys);
    seq(|codes|, i requires 0 <= i < |codes| => LicenseRow(codes[i], today, LowerCounts(licenses[codes[i]])))
  }

  /** No license the country uses lower-cases to the name of a fixed column. */
  predicate NoFixedName(usages: seq<Usage>) {
    forall j :: 0 <= j < |usages| && usages[j].1 > 0 ==>
      Lower(usages[j].0) != "country_code" && Lower(usages[j].0) != "last_updated"
  }

  /**
   * A row carries the country, the date and, for each lower-case name the
   * country uses, a column holding its count; it has no other column.
   */
  lemma RowFields(code: string, today: string, usages: seq<Usage>)
    requires NoFixedName(usages)
    ensures var row := LicenseRow(code, today, LowerCounts(usages));
            row["country_code"] == Str(code) && row["last_updated"] == Str(today)
    ensures var row := LicenseRow(code, today, LowerCounts(usages));
            forall k :: k in row && k != "country_code" && k != "last_updated" ==> exists j :: CountsFor(usages, j, k)
    ensures var row := LicenseRow(code, today, LowerCounts(usages));
            forall j :: 0 <= j < |usages| && usages[j].1 > 0 ==> Lower(usages[j].0) in row
    ensures var row := LicenseRow(code, today, LowerCounts(usages));
            forall k :: k in LowerCounts(usages) ==> row[k] == Int(LowerCounts(usages)[k])
  {
    var counts := LowerCounts(usages);
    LowerCountsKeys(usages);
    forall k | k in counts ensures k != "country_code" && k != "last_updated" {
      var j :| CountsFor(usages, j, k);
    }
    forall j | 0 <= j < |usages| && usages[j].1 > 0 ensures Lower(usages[j].0) in counts {
      assert CountsFor(usages, j, Lower(usages[j].0));
    }
    LicenseRowFields(code, today, counts);
  }

  /**
   * One row per country in increasing code order; a row carries the country,
   * the date and, for each lower-case name the country uses, a column holding
   * its count, and no other column.
   */
  lemma ReportRowsShape(licenses: map<string, seq<Usage>>, today: string)
    requires forall c :: c in licenses ==> NoFixedName(licenses[c])
    ensures var rows := ReportRows(licenses, today);
            var codes := SortSet(Codepoint, licenses.Keys);
            |rows| == |licenses| && StrictlySorted(Codepoint, codes) &&
            forall i :: 0 <= i < |rows| ==>
              rows[i]["country_code"] == Str(codes[i]) && rows[i]["last_updated"] == Str(today)
    ensures var rows := ReportRows(licenses, today);
            var codes := SortSet(Codepoint, licenses.Keys);
            forall i :: 0 <= i < |rows| ==>
              (forall k :: k in rows[i] && k != "country_code" && k != "last_updated" ==>
                 exists j :: CountsFor(licenses[codes[i]], j, k)) &&
              (forall j :: 0 <= j < |licenses[codes[i]]| && licenses[codes[i]][j].1 > 0 ==>
                 Lower(licenses[codes[i]][j].0) in rows[i]) &&
              (forall k :: k in LowerCounts(licenses[codes[i]]) ==>
                 rows[i][k] == Int(LowerCounts(licenses[codes[i]])[k]))
  {
    var rows := ReportRows(licenses, today);
    var codes := SortSet(Codepoint, licenses.Keys);
    forall i | 0 <= i < |rows|
      ensures rows[i]["country_code"] == Str(codes[i]) && rows[i]["last_updated"] == Str(today)
      ensures forall k :: k in rows[i] && k != "country_code" && k != "last_updated" ==>
                exists j :: CountsFor(licenses[codes[i]], j, k)
      ensures forall j :: 0 <= j < |licenses[codes[i]]| && licenses[codes[i]][j].1 > 0 ==>
                Lower(licenses[codes[i]][j].0) in rows[i]
      ensures forall k :: k in LowerCounts(licenses[codes[i]]) ==>
                rows[i][k] == Int(LowerCounts(licenses[codes[i]])[k])
    {
      RowFields(codes[i], today, licenses[codes[i]]);
    }
  }

  /** A country whose catalog failed gets a row with nothing but its code and the date. */
  lemma FailedCountryRow(code: string, endpoint: string, net: Network, today: string)
    requires net.licenseIds(LicenseListUrl(code, endpoint)).None?
    ensures LicenseRow(code, today, LowerCounts(CountryStatistics(code, endpoint, net).1)).Keys ==
              {"country_code", "last_updated"}
  {
  }

  /** Every field of every row is a column of the header. */
  lemma ReportColumnsInHeader(licenses: map<string, seq<Usage>>, today: string)
    ensures var rows := ReportRows(licenses, today);
            forall i, k :: 0 <= i < |rows| && k in rows[i] ==> k in ReportHeader(licenses)
  {
    var rows := ReportRows(licenses, today);
    var codes := SortSet(Codepoint, licenses.Keys);
    forall i, k | 0 <= i < |rows| && k in rows[i] ensures k in ReportHeader(licenses) {
      var usages := licenses[codes[i]];
      LowerCountsKeys(usages);
      if k in LowerCounts(usages) {
        var j :| CountsFor(usages, j, k);
        assert UsedAt(licenses, codes[i], j);
        assert k in LowerVocabulary(licenses);
        assert k in SortSet(Codepoint, LowerVocabulary(licenses));
      }
    }
  }

  /** The survey of one registry: the header and the rows printed as CSV. */
  function LicenseReport(rows: seq<Row>, net: Network, today: string): (seq<string>, seq<Record>)
    requires RegistryRows(rows)
  {
    var apis := EndpointMap(rows);
    CkanCodesKeys(rows);
    var licenses := GatherCountries(CkanCodes(rows), apis, net);
    (ReportHeader(licenses), ReportRows(licenses, today))
  }

  /**
   * The survey has one row per country with a CKAN row in the registry, in
   * code order, whether its catalog answered or not: the row of each country
   * is built from what its own catalog answered.
   */
  lemma LicenseReportCountries(rows: seq<Row>, net: Network, today: string)
    requires RegistryRows(rows)
    ensures var apis := EndpointMap(rows);
            |LicenseReport(rows, net, today).1| == |apis|
    ensures var apis := EndpointMap(rows);
            var codes := SortSet(Codepoint, apis.Keys);
            var report := LicenseReport(rows, net, today).1;
            forall i :: 0 <= i < |codes| ==>
              report[i] == LicenseRow(codes[i], today, LowerCounts(CountryStatistics(codes[i], apis[codes[i]], net).1))
  {
    var apis := EndpointMap(rows);
    var codes := CkanCodes(rows);
    CkanCodesKeys(rows);
    GatheredCountries(codes, apis, net);
    var licenses := GatherCountries(codes, apis, net);
    assert licenses.Keys == apis.Keys;
  }
}
