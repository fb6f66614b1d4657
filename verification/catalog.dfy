/** `get_catalog_info` of the version-4 client: fetch the catalog's
    description and, when the server refuses, explain why. */
module Catalog {
  import opened Wrappers
  import opened Values
  import opened Text
  import opened Settings
  import opened Query
  import opened Pagination

  /** Exactly `n` ASCII digits at the start of `s`, then three ASCII capitals. */
  predicate MatchesAt(s: string, n: nat) {
    && n + 3 <= |s|
    && (forall i | 0 <= i < n :: IsAsciiDigit(s[i]))
    && (forall i | n <= i < n + 3 :: IsAsciiUpper(s[i]))
  }

  /** `re.match(r"\d{5,6}[A-Z]{3}", s)` succeeds: some prefix of five or six
      digits is followed by three capitals (anything may come after). */
  predicate LooksLikeDataset(s: string) {
    MatchesAt(s, 5) || MatchesAt(s, 6)
  }

  /** A second, executable formulation of `LooksLikeDataset`, nothing else
      in the model depends on it: the regular-expression engine's way of
      deciding the match, which takes as many digits as allowed (at most
      six), then gives them back one at a time, down to five, until three
      capitals follow. */
  method MatchDatasetId(s: string) returns (matched: bool)
    ensures matched <==> LooksLikeDataset(s)
  {
    var n := 0;
    while n < 6 && n < |s| && IsAsciiDigit(s[n])
      invariant n <= 6 && n <= |s|
      invariant forall i | 0 <= i < n :: IsAsciiDigit(s[i])
    {
      n := n + 1;
    }
    // A longer digit run than the greedy one cannot match.
    assert forall m: nat | n < m <= 6 :: !MatchesAt(s, m);
    matched := false;
    while !matched && n >= 5
      invariant n <= 6
      invariant forall i | 0 <= i < n && i < |s| :: IsAsciiDigit(s[i])
      invariant forall m: nat | n < m <= 6 :: !MatchesAt(s, m)
      invariant matched ==> LooksLikeDataset(s)
      decreases n + (if matched then 0 else 1)
    {
      if n + 3 <= |s| && IsAsciiUpper(s[n]) && IsAsciiUpper(s[n + 1]) && IsAsciiUpper(s[n + 2]) {
        assert MatchesAt(s, n);
        matched := true;
      } else {
        n := n - 1;
      }
    }
  }

  /** `get_catalog_info`: the catalog's description; an HTTP error becomes
      "seems to be a dataset identifier" when the name is shaped like one,
      else "not found" on a 404, and passes through otherwise. */
  function GetCatalogInfo(server: Server, opts: Options4, catalog: string, fuel: nat): (r: Result<Value, Error>)
    ensures var fetched := Request4(server, CatalogInfoUrl(opts, catalog), Str("Singleton"), map[], true, fuel);
            && (fetched.Success? ==> r == fetched)
            && (fetched.Failure? && fetched.error.RemoteFetchError? ==>
                  r == if LooksLikeDataset(catalog) then Failure(CatalogIsDataset(catalog))
                       else if fetched.error.status == 404 then Failure(CatalogNotFound(catalog))
                       else fetched)
            && (fetched.Failure? && !fetched.error.RemoteFetchError? ==> r == fetched)
    ensures r.Success? ==> r.value.Obj? && "@odata.context" !in r.value.fields
  {
    var fetched := Request4(server, CatalogInfoUrl(opts, catalog), Str("Singleton"), map[], true, fuel);
    match fetched
    case Success(_) => fetched
    case Failure(RemoteFetchError(_, status)) =>
      if LooksLikeDataset(catalog) then Failure(CatalogIsDataset(catalog))
      else if status == 404 then Failure(CatalogNotFound(catalog))
      else fetched
    case Failure(_) => fetched
  }

  /** A name shaped like a dataset identifier is always reported as such,
      whatever the server answered; any other name keeps the server's error,
      turned into "not found" for a 404. */
  lemma CatalogErrorClassification(server: Server, opts: Options4, catalog: string, fuel: nat, status: int)
    requires fuel > 0
    requires server(Request(CatalogInfoUrl(opts, catalog), map[])) == Failed(status)
    ensures GetCatalogInfo(server, opts, catalog, fuel)
         == if LooksLikeDataset(catalog) then Failure(CatalogIsDataset(catalog))
            else if status == 404 then Failure(CatalogNotFound(catalog))
            else Failure(RemoteFetchError(CatalogInfoUrl(opts, catalog), status))
  {
  }

  /** Two names as examples: a dataset identifier with a suffix, and the
      default catalog. */
  lemma DatasetShapes()
    ensures LooksLikeDataset("83765NEDx")
    ensures !LooksLikeDataset("CBS")
    ensures !LooksLikeDataset("8376NED")
  {
    assert MatchesAt("83765NEDx", 5);
  }
}
