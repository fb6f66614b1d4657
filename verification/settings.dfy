/** The process-wide options objects, made explicit values, and the
    `catalog` context managers that override one option for a block. */
module Settings {
  import opened Wrappers
  import opened Values

  /** Options of the version-3 client (`cbsodata/cbsodata3.py`). The proxy
      settings only reach the transport, which is not modelled. */
  datatype Options3 = Options3(useHttps: bool, catalogUrl: string)

  const DefaultOptions3 := Options3(true, "opendata.cbs.nl")

  /** Options of the version-4 client (`cbsodata4.py`). */
  datatype Options4 = Options4(odataUrl: string, catalog: string)

  const DefaultOptions4 := Options4("http://beta.opendata.cbs.nl/OData4", "CBS")

  /** What a `with` block does: it sees the options and may change them, and
      it either finishes normally or raises. */
  type Block3<T> = Options3 -> (Options3, Result<T, Error>)
  type Block4<T> = Options4 -> (Options4, Result<T, Error>)

  /** `with catalog(url, use_https):` of the version-3 client. The generator
      has no try/finally, so an exception inside the block leaves the
      override in place; `use_https` is accepted and ignored. */
  function WithCatalogUrl<T>(opts: Options3, catalogUrl: string, useHttps: bool, block: Block3<T>)
    : (r: (Options3, Result<T, Error>))
    ensures r.1 == block(opts.(catalogUrl := catalogUrl)).1
    ensures r.0.useHttps == block(opts.(catalogUrl := catalogUrl)).0.useHttps
    ensures r.1.Success? ==> r.0.catalogUrl == opts.catalogUrl
    ensures r.1.Failure? ==> r.0.catalogUrl == block(opts.(catalogUrl := catalogUrl)).0.catalogUrl
  {
    var (after, outcome) := block(opts.(catalogUrl := catalogUrl));
    if outcome.Success? then (after.(catalogUrl := opts.catalogUrl), outcome)
    else (after, outcome)
  }

  /** `with catalog(name):` of the version-4 client, with the same
      restore-on-normal-exit-only behaviour. */
  function WithCatalog<T>(opts: Options4, catalog: string, block: Block4<T>)
    : (r: (Options4, Result<T, Error>))
    ensures r.1 == block(opts.(catalog := catalog)).1
    ensures r.0.odataUrl == block(opts.(catalog := catalog)).0.odataUrl
    ensures r.1.Success? ==> r.0.catalog == opts.catalog
    ensures r.1.Failure? ==> r.0.catalog == block(opts.(catalog := catalog)).0.catalog
  {
    var (after, outcome) := block(opts.(catalog := catalog));
    if outcome.Success? then (after.(catalog := opts.catalog), outcome)
    else (after, outcome)
  }

  /** A block that only reads the options and finishes normally leaves them
      exactly as they were, whatever catalog it was run under. */
  lemma ReadOnlyBlockRestores<T>(opts: Options4, catalog: string, block: Block4<T>)
    requires forall o :: block(o).0 == o && block(o).1.Success?
    ensures WithCatalog(opts, catalog, block).0 == opts
  {
  }
}
