/**
 * What the two statistics scripts share: the rows of the portal registry,
 * the records handed to the CSV writers, catalog answers, and the CKAN
 * package-search requests that count packages per license.
 */
module Catalog {
  import opened Text
  import opened Dict

  datatype Option<T> = None | Some(value: T)

  /** A row read from a CSV file with a header: column name to text. */
  type Row = map<string, string>

  /** A value handed to a CSV writer: text, or a count (written with `str`). */
  datatype Cell = Str(s: string) | Int(n: int)

  /** A row handed to a `csv.DictWriter`. */
  type Record = map<string, Cell>

  /** A row read from a file, written back as it is. */
  function Lift(row: Row): (r: Record)
    ensures r.Keys == row.Keys
  {
    map k | k in row :: Str(row[k])
  }

  /** (license id, number of packages using it) as one catalog reports it. */
  type Usage = (string, int)

  /**
   * The answers of the catalogs, standing in for the HTTP requests: the license
   * ids listed at a license-list URL, and the `result.count` of a package search
   * at a URL, optionally filtered by `q=license_id:<id>`. `None` is any failure
   * of the request (timeout, HTTP status other than 200, undecodable JSON, a
   * missing key).
   */
  datatype Network = Network(
    licenseIds: string -> Option<seq<string>>,
    packageCount: (string, Option<string>) -> Option<int>)

  const PackageSearch: string := "/action/package_search"

  /** The row registers a CKAN version-3 API. */
  predicate IsCkanRow(r: Row)
    requires "has_api" in r
  {
    Contains(r["has_api"], "/api/3")
  }

  /** What building the endpoint map reads of every registry row. */
  predicate RegistryRows(rows: seq<Row>) {
    forall r :: r in rows ==> "has_api" in r && (IsCkanRow(r) ==> "country_code" in r)
  }

  /** Row `i` registers a CKAN version-3 API for country `c`. */
  predicate ListsCountry(rows: seq<Row>, i: int, c: string)
    requires RegistryRows(rows)
  {
    0 <= i < |rows| && IsCkanRow(rows[i]) && rows[i]["country_code"] == c
  }

  /**
   * The keys of an endpoint map built from `rows`, in dictionary order: each
   * country once, where its first CKAN row stands.
   */
  function CkanCodes(rows: seq<Row>): (codes: seq<string>)
    requires RegistryRows(rows)
    ensures Distinct(codes)
    decreases |rows|
  {
    if rows == [] then []
    else
      var r := rows[|rows| - 1];
      var codes := CkanCodes(rows[..|rows| - 1]);
      if IsCkanRow(r) && r["country_code"] !in codes then codes + [r["country_code"]] else codes
  }

  /** A country is listed exactly when some CKAN row names it. */
  lemma {:induction false} CkanCodesListed(rows: seq<Row>, c: string)
    requires RegistryRows(rows)
    ensures c in CkanCodes(rows) <==> exists i :: ListsCountry(rows, i, c)
    decreases |rows|
  {
    if rows != [] {
      var front := rows[..|rows| - 1];
      CkanCodesListed(front, c);
      if exists i :: ListsCountry(rows, i, c) {
        var i :| ListsCountry(rows, i, c);
        if i < |front| { assert ListsCountry(front, i, c); }
      }
      if exists i :: ListsCountry(front, i, c) {
        var i :| ListsCountry(front, i, c);
        assert ListsCountry(rows, i, c);
      }
      var r := rows[|rows| - 1];
      if IsCkanRow(r) && r["country_code"] == c {
        assert ListsCountry(rows, |rows| - 1, c);
      }
    }
  }

  /** A license with a positive count in `byCountry[c]`, at index `i`. */
  predicate UsedAt(byCountry: map<string, seq<Usage>>, c: string, i: int) {
    c in byCountry && 0 <= i < |byCountry[c]| && byCountry[c][i].1 > 0
  }

  /**
   * The concurrent per-license package searches of one endpoint, in the order of
   * `ids`; the gather fails as a whole when one search fails.
   */
  function LicenseUsage(endpoint: string, ids: seq<string>, net: Network): (r: Option<seq<Usage>>)
    ensures r.Some? <==> forall i :: 0 <= i < |ids| ==> net.packageCount(endpoint + PackageSearch, Some(ids[i])).Some?
    ensures r.Some? ==> |r.value| == |ids|
    ensures r.Some? ==> forall i :: 0 <= i < |ids| ==>
              r.value[i] == (ids[i], net.packageCount(endpoint + PackageSearch, Some(ids[i])).value)
    decreases |ids|
  {
    if ids == [] then Some([])
    else
      match net.packageCount(endpoint + PackageSearch, Some(ids[0]))
      case None => None
      case Some(n) =>
        match LicenseUsage(endpoint, ids[1..], net)
        case None => None
        case Some(rest) => Some([(ids[0], n)] + rest)
  }

  /** `filter(None, xs)`: the successful results, in order. */
  function Successes<T(==, !new)>(xs: seq<Option<T>>): (r: seq<T>)
    ensures forall y :: y in r <==> Some(y) in xs
    ensures |r| <= |xs|
    decreases |xs|
  {
    if xs == [] then []
    else
      var front := xs[..|xs| - 1];
      assert forall o :: o in xs <==> o in front || o == xs[|xs| - 1];
      Successes(front) + (match xs[|xs| - 1] case Some(y) => [y] case None => [])
  }

  lemma SuccessesSnoc<T(!new)>(xs: seq<Option<T>>, o: Option<T>)
    ensures Successes(xs + [o]) == Successes(xs) + (match o case Some(y) => [y] case None => [])
  {
    assert (xs + [o])[..|xs|] == xs;
  }

  /**
   * A row of a license report: `{'country_code': code, 'last_updated': today, **counts}`;
   * a license column named like one of the two fixed columns replaces it.
   */
  function LicenseRow(code: string, today: string, counts: map<string, int>): Record {
    map["country_code" := Str(code), "last_updated" := Str(today)] + map n | n in counts :: Int(counts[n])
  }

  /** A report row holds the country, the date and exactly the given license columns. */
  lemma LicenseRowFields(code: string, today: string, counts: map<string, int>)
    requires "country_code" !in counts && "last_updated" !in counts
    ensures LicenseRow(code, today, counts).Keys == {"country_code", "last_updated"} + counts.Keys
    ensures LicenseRow(code, today, counts)["country_code"] == Str(code)
    ensures LicenseRow(code, today, counts)["last_updated"] == Str(today)
    ensures forall n :: n in counts ==> LicenseRow(code, today, counts)[n] == Int(counts[n])
  {
  }
}
