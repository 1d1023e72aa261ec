/**
 * The two license surveys read the registry's endpoints the same way: one
 * takes the first `split(';')` piece of `has_api`, the other its
 * `partition(';')` head, and both keep what follows the first `:`.
 */
module ScriptAgreement {
  import opened Text
  import opened Catalog
  import DatasetStatistics
  import LicenseStatistics

  /**
   * The endpoint maps of the two scripts are equal, so what is proved of the
   * newer one (a country is present exactly when one of its rows lists `/api/3`,
   * and its last such row decides its endpoint) holds of the older one too.
   */
  lemma {:induction false} EndpointMapsAgree(rows: seq<Row>)
    requires RegistryRows(rows)
    ensures LicenseStatistics.EndpointMap(rows) == DatasetStatistics.EndpointMap(rows)
    decreases |rows|
  {
    if rows != [] {
      var r := rows[|rows| - 1];
      EndpointMapsAgree(rows[..|rows| - 1]);
      SplitHead(r["has_api"], ';');
    }
  }
}
