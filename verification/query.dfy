/** Query parameters and URLs the clients build before any request is sent. */
module Query {
  import opened Wrappers
  import opened Values
  import opened Text
  import opened Settings

  /** The loosely typed `select` argument: absent, a list of column names, or
      a ready-made expression string. */
  datatype Selection = NoSelection | Columns(names: seq<string>) | Expression(text: string)

  /** Python truthiness of the `select` argument. */
  predicate Selects(s: Selection) {
    match s
    case NoSelection => false
    case Columns(names) => names != []
    case Expression(text) => text != ""
  }

  /** `_select` of the version-3 and legacy clients: a list is joined with
      commas, a string is passed through, `None` stays `None`. */
  function Select(s: Selection): (r: Option<string>)
    ensures s.NoSelection? <==> r.None?
    ensures s.Expression? ==> r == Some(s.text)
    ensures s.Columns? && |s.names| > 0 && (forall x <- s.names :: ',' !in x) ==>
              r.Some? && Split(r.value, ',') == s.names
  {
    match s
    case NoSelection => None
    case Columns(names) =>
      if |names| > 0 && forall x <- names :: ',' !in x then SplitJoin(names, ','); Some(Join(names, ','))
      else Some(Join(names, ','))
    case Expression(text) => Some(text)
  }

  /** A list of names and the comma-joined string select the same columns. */
  lemma SelectNormalizes(names: seq<string>)
    ensures Select(Columns(names)) == Select(Expression(Join(names, ',')))
  {
  }

  /** `_select` of the early client (`cbsodata/_cbsodata.py`): a parameter
      mapping holding `$select` exactly when the subset is truthy. */
  function SelectParams(subset: Selection): (r: Params)
    ensures "$select" in r <==> Selects(subset)
    ensures r.Keys <= {"$select"}
    ensures "$select" in r ==> r["$select"] == Str(Select(subset).value)
  {
    if Selects(subset) then map["$select" := Str(Select(subset).value)] else map[]
  }

  /** The parameters of the first request of `_download_metadata` (version-3
      and legacy clients): `$format=json` always, `$select` and `$filter` only
      for truthy arguments, the filter passed through verbatim. An empty
      filter string stands for Python's `None`. */
  function MetadataParams(select: Selection, filters: string): (r: Params)
    ensures "$format" in r && r["$format"] == Str("json")
    ensures "$select" in r <==> Selects(select)
    ensures "$select" in r ==> r["$select"] == Str(Select(select).value)
    ensures "$filter" in r <==> filters != ""
    ensures "$filter" in r ==> r["$filter"] == Str(filters)
    ensures r.Keys <= {"$format", "$select", "$filter"}
  {
    var withFormat := map["$format" := Str("json")];
    var withSelect := if Selects(select) then withFormat["$select" := Str(Select(select).value)] else withFormat;
    if filters != "" then withSelect["$filter" := Str(filters)] else withSelect
  }

  /** The payload of `get_observations` (version-4 client). */
  function ObservationsPayload(filter: string, top: Option<int>, skip: Option<int>): (r: Params)
    ensures "$filter" in r <==> filter != ""
    ensures "$filter" in r ==> r["$filter"] == Str(filter)
    ensures "$top" in r <==> top.Some?
    ensures "$top" in r ==> r["$top"] == Num(top.value)
    ensures "$skip" in r <==> skip.Some?
    ensures "$skip" in r ==> r["$skip"] == Num(skip.value)
    ensures r.Keys <= {"$filter", "$top", "$skip"}
  {
    var payload := if filter != "" then map["$filter" := Str(filter)] else map[];
    var withTop := if top.Some? then payload["$top" := Num(top.value)] else payload;
    if skip.Some? then withTop["$skip" := Num(skip.value)] else withTop
  }

  const Bulk := "ODataFeed/odata"

  function Scheme(useHttps: bool): string {
    if useHttps then "https://" else "http://"
  }

  /** `_get_table_url` of the version-3 client: an explicit catalog URL
      overrides the option. */
  function TableUrl(opts: Options3, tableId: string, catalogUrl: Option<string>): string
  {
    Scheme(opts.useHttps) + catalogUrl.GetOr(opts.catalogUrl) + "/" + Bulk + "/" + tableId + "/"
  }

  /** Passing a catalog URL explicitly is the same as setting the option. */
  lemma ExplicitCatalogOverrides(opts: Options3, tableId: string, catalogUrl: string)
    ensures TableUrl(opts, tableId, Some(catalogUrl)) == TableUrl(opts.(catalogUrl := catalogUrl), tableId, None)
  {
  }

  /** The scheme is HTTPS exactly when the option asks for it. */
  lemma TableUrlScheme(opts: Options3, tableId: string, catalogUrl: Option<string>)
    ensures var u := TableUrl(opts, tableId, catalogUrl);
            |u| >= 8 && (u[..8] == "https://" <==> opts.useHttps)
  {
    var rest := catalogUrl.GetOr(opts.catalogUrl) + "/" + Bulk + "/" + tableId + "/";
    assert TableUrl(opts, tableId, catalogUrl) == Scheme(opts.useHttps) + rest;
    SchemePrefix(opts.useHttps, rest);
  }

  /** Whatever follows the scheme, the first eight characters tell it. */
  lemma SchemePrefix(useHttps: bool, rest: string)
    requires rest != ""
    ensures var u := Scheme(useHttps) + rest;
            |u| >= 8 && (u[..8] == "https://" <==> useHttps)
  {
    var u := Scheme(useHttps) + rest;
    if useHttps {
      assert u[..8] == Scheme(true);
    } else {
      assert u[..7] == "http://";
      assert u[4] == ':';
    }
  }

  /** Distinct tables of one catalog get distinct URLs. */
  lemma TableUrlInjective(opts: Options3, a: string, b: string, catalogUrl: Option<string>)
    requires TableUrl(opts, a, catalogUrl) == TableUrl(opts, b, catalogUrl)
    ensures a == b
  {
    var p := Scheme(opts.useHttps) + catalogUrl.GetOr(opts.catalogUrl) + "/" + Bulk + "/";
    assert TableUrl(opts, a, catalogUrl) == p + (a + "/");
    assert TableUrl(opts, b, catalogUrl) == p + (b + "/");
    PrefixCancel(p, a + "/", b + "/");
    SuffixCancel(a, b, "/");
  }

  /** The fixed base of the legacy and early clients. */
  const LegacyBase := "http://opendata.cbs.nl"

  /** `_get_table_url` of `cbsodata.py` and `cbsodata/_cbsodata.py`. */
  function LegacyTableUrl(tableId: string): (r: string)
    ensures r == TableUrl(Options3(false, "opendata.cbs.nl"), tableId, None)
  {
    LegacyBase + "/" + Bulk + "/" + tableId + "/"
  }

  /** The dataset URL of the version-4 client; `None` selects the catalog option. */
  function DatasetUrl(opts: Options4, catalog: Option<string>, datasetId: string): string {
    opts.odataUrl + "/" + catalog.GetOr(opts.catalog) + "/" + datasetId + "/"
  }

  /** Two datasets of one catalog never share a URL. */
  lemma DatasetUrlInjective(opts: Options4, catalog: Option<string>, a: string, b: string)
    requires DatasetUrl(opts, catalog, a) == DatasetUrl(opts, catalog, b)
    ensures a == b
  {
    var p := opts.odataUrl + "/" + catalog.GetOr(opts.catalog) + "/";
    assert DatasetUrl(opts, catalog, a) == p + (a + "/");
    assert DatasetUrl(opts, catalog, b) == p + (b + "/");
    PrefixCancel(p, a + "/", b + "/");
    SuffixCancel(a, b, "/");
  }

  /** The observations of a dataset live under its URL; `None` selects the
      catalog option, exactly as in the dataset URL. */
  function ObservationsUrl(opts: Options4, catalog: Option<string>, datasetId: string): (r: string)
    ensures r == DatasetUrl(opts, Some(catalog.GetOr(opts.catalog)), datasetId) + "Observations"
  {
    opts.odataUrl + "/" + catalog.GetOr(opts.catalog) + "/" + datasetId + "/Observations"
  }

  function CatalogInfoUrl(opts: Options4, catalog: string): string {
    opts.odataUrl + "/Catalogs/" + catalog
  }
}
