/** The metadata assemblers: which resources of a dataset are downloaded and
    under which names they are returned. */
module Metadata {
  import opened Wrappers
  import opened Values
  import opened Text
  import opened Settings
  import opened Query
  import opened Pagination

  /** `v[key]` on a decoded JSON value. */
  function Field(v: Value, key: string): (r: Result<Value, Error>)
    ensures r.Success? <==> v.Obj? && key in v.fields
    ensures r.Success? ==> r.value == v.fields[key]
  {
    match v
    case Obj(m) => if key in m then Success(m[key]) else Failure(KeyError(key))
    case _ => Failure(TypeError)
  }

  // ---------------------------------------------------------------------
  // Version 4: get_metadata

  /** The resources `get_metadata` downloads. */
  predicate IsMetadataResource(name: string) {
    EndsWith(name, "Groups") || EndsWith(name, "Codes") || name == "Dimensions" || name == "Properties"
  }

  /** `metadata_object['name']`, which must be a string since `endswith` is called on it. */
  function EntryName(entry: Value): Result<string, Error> {
    var name :- Field(entry, "name");
    if name.Str? then Success(name.s) else Failure(TypeError)
  }

  /** Download the resource an index entry points to, with the kind it declares. */
  function EntryTable(server: Server, datasetUrl: string, entry: Value, fuel: nat): Result<Value, Error> {
    var url :- Field(entry, "url");
    if !url.Str? then Failure(TypeError)
    else
      var kind :- Field(entry, "kind");
      Request4(server, datasetUrl + url.s, kind, map[], true, fuel)
  }

  /** The names the index declares that `get_metadata` keeps. */
  ghost function ResourceNames(index: seq<Value>): set<string> {
    set i | 0 <= i < |index| && EntryName(index[i]).Success? && IsMetadataResource(EntryName(index[i]).value)
      :: EntryName(index[i]).value
  }

  /** The loop of `get_metadata` over the index entries: each kept resource
      is downloaded and stored under its name; a later entry with the same
      name replaces an earlier one. */
  function Assemble(server: Server, datasetUrl: string, index: seq<Value>, fuel: nat)
    : (r: Result<map<string, Value>, Error>)
    ensures r.Success? ==> r.value.Keys == ResourceNames(index)
    ensures r.Success? ==> forall i | 0 <= i < |index| :: EntryName(index[i]).Success?
    decreases |index|
  {
    if index == [] then Success(map[])
    else
      var prefix := index[..|index| - 1];
      var acc :- Assemble(server, datasetUrl, prefix, fuel);
      var entry := index[|index| - 1];
      var name :- EntryName(entry);
      assert forall i | 0 <= i < |prefix| :: index[i] == prefix[i];
      ResourceNamesSnoc(index);
      if !IsMetadataResource(name) then
        Success(acc)
      else
        var table :- EntryTable(server, datasetUrl, entry, fuel);
        Success(acc[name := table])
  }

  /** The names an index keeps: those of all but its last entry, and the
      last entry's when that one is kept. */
  lemma ResourceNamesSnoc(index: seq<Value>)
    requires |index| > 0
    ensures var last := EntryName(index[|index| - 1]);
            ResourceNames(index)
              == ResourceNames(index[..|index| - 1])
                 + if last.Success? && IsMetadataResource(last.value) then {last.value} else {}
  {
    var prefix := index[..|index| - 1];
    var last := EntryName(index[|index| - 1]);
    var extra: set<string> := if last.Success? && IsMetadataResource(last.value) then {last.value} else {};
    forall x | x in ResourceNames(index) ensures x in ResourceNames(prefix) + extra {
      var i :| 0 <= i < |index| && EntryName(index[i]).Success? && IsMetadataResource(EntryName(index[i]).value)
               && EntryName(index[i]).value == x;
      if i < |prefix| {
        assert index[i] == prefix[i];
      }
    }
    forall x | x in ResourceNames(prefix) + extra ensures x in ResourceNames(index) {
      if x in ResourceNames(prefix) {
        var i :| 0 <= i < |prefix| && EntryName(prefix[i]).Success? && IsMetadataResource(EntryName(prefix[i]).value)
                 && EntryName(prefix[i]).value == x;
        assert index[i] == prefix[i];
      }
    }
  }

  /** No entry after `i` carries the same name. */
  ghost predicate LastNamed(index: seq<Value>, i: nat)
    requires i < |index|
  {
    forall j | i < j < |index| :: EntryName(index[j]) != EntryName(index[i])
  }

  /** Each returned table is the download of the last index entry with its name. */
  lemma {:induction false} AssembleTables(server: Server, datasetUrl: string, index: seq<Value>, fuel: nat, i: nat)
    requires Assemble(server, datasetUrl, index, fuel).Success?
    requires i < |index| && LastNamed(index, i)
    requires EntryName(index[i]).Success? && IsMetadataResource(EntryName(index[i]).value)
    ensures EntryTable(server, datasetUrl, index[i], fuel).Success?
    ensures Assemble(server, datasetUrl, index, fuel).value[EntryName(index[i]).value]
         == EntryTable(server, datasetUrl, index[i], fuel).value
    decreases |index|
  {
    var prefix := index[..|index| - 1];
    if i < |index| - 1 {
      assert forall k | 0 <= k < |prefix| :: index[k] == prefix[k];
      assert LastNamed(prefix, i);
      AssembleTables(server, datasetUrl, prefix, fuel, i);
    }
  }

  /** `get_metadata`: download the dataset's index, then every kept resource. */
  function GetMetadata(server: Server, opts: Options4, catalog: Option<string>, datasetId: string, fuel: nat)
    : (r: Result<map<string, Value>, Error>)
    ensures fuel > 0 && server(Request(DatasetUrl(opts, catalog, datasetId), map[])).Failed? ==>
              r == Failure(RemoteFetchError(DatasetUrl(opts, catalog, datasetId),
                                            server(Request(DatasetUrl(opts, catalog, datasetId), map[])).status))
    ensures r.Success? ==> exists index :: r.value.Keys == ResourceNames(index)
  {
    var url := DatasetUrl(opts, catalog, datasetId);
    var index :- Request4(server, url, Str("EntitySet"), map[], true, fuel);
    if !index.Arr? then Failure(TypeError)
    else Assemble(server, url, index.items, fuel)
  }

  /** `get_observations`: one EntitySet download with the observation payload.
      A failed first request fails with its URL and status. */
  function GetObservations(server: Server, opts: Options4, datasetId: string, catalog: Option<string>,
                           filter: string, top: Option<int>, skip: Option<int>, fuel: nat): (r: Result<Value, Error>)
    ensures var url := ObservationsUrl(opts, Some(catalog.GetOr(opts.catalog)), datasetId);
            var first := Request(url, ObservationsPayload(filter, top, skip));
            fuel > 0 && server(first).Failed? ==> r == Failure(RemoteFetchError(url, server(first).status))
  {
    Request4(server, ObservationsUrl(opts, catalog, datasetId), Str("EntitySet"),
             ObservationsPayload(filter, top, skip), true, fuel)
  }

  /** When the server answers the observation request with a finite chain
      of pages, each re-sending the payload, `get_observations` returns the
      rows of every page in order. The chain is addressed with the catalog
      spelled out, so `catalog=None` reads the catalog option. */
  lemma GetObservationsFollowsChain(server: Server, opts: Options4, datasetId: string, catalog: Option<string>,
                                    filter: string, top: Option<int>, skip: Option<int>, pages: seq<Page>, fuel: nat)
    requires var payload := ObservationsPayload(filter, top, skip);
             IsChain(server, EntitySetPage, Request(ObservationsUrl(opts, Some(catalog.GetOr(opts.catalog)), datasetId), payload),
                     payload, pages)
    requires |pages| <= fuel
    ensures GetObservations(server, opts, datasetId, catalog, filter, top, skip, fuel) == Success(Arr(Rows(pages)))
  {
    Request4FollowsChain(server, ObservationsUrl(opts, catalog, datasetId), ObservationsPayload(filter, top, skip), pages, fuel);
  }

  // ---------------------------------------------------------------------
  // Version 3, legacy and early clients: download_data and get_info

  /** Which copy of the version-3 client: `cbsodata/cbsodata3.py` (with its
      options and optional catalog URL), `cbsodata.py`, or `cbsodata/_cbsodata.py`. */
  datatype Client = V3(opts: Options3, catalogUrl: Option<string>) | Legacy | Early

  function BaseUrl(client: Client, tableId: string): string {
    match client
    case V3(opts, catalogUrl) => TableUrl(opts, tableId, catalogUrl)
    case _ => LegacyTableUrl(tableId)
  }

  /** `_download_metadata`: the version-3 client clears the parameters once it
      follows a link, the older copies send the same parameters every time. */
  function DownloadMetadata(client: Client, server: Server, tableId: string, name: string,
                            select: Selection, filters: string, fuel: nat): (r: Run)
    ensures |r.sent| > 0 ==> r.sent[0] == Request(BaseUrl(client, tableId) + name, MetadataParams(select, filters))
    ensures forall i | 1 <= i < |r.sent| ::
              r.sent[i].params == if client.V3? then map[] else MetadataParams(select, filters)
  {
    var params := MetadataParams(select, filters);
    Paginate(server, Request(BaseUrl(client, tableId) + name, params), if client.V3? then map[] else params, fuel)
  }

  const TypedDataSet := "TypedDataSet"
  const UntypedDataSet := "UntypedDataSet"

  predicate IsDataSetTable(name: string) {
    name == TypedDataSet || name == UntypedDataSet
  }

  /** `typed_or_not_str`: the table name `download_data` removes from the list. */
  function DataSetName(typed: bool): string {
    if typed then TypedDataSet else UntypedDataSet
  }

  /** `list.remove(x)`: drop the first occurrence, or fail when there is none. */
  function RemoveFirst(xs: seq<string>, x: string): (r: Result<seq<string>, Error>)
    ensures x !in xs <==> r == Failure(RemoveMissing(x))
    ensures x in xs ==> r == Success(xs[..IndexOf(xs, x)] + xs[IndexOf(xs, x) + 1..])
    decreases |xs|
  {
    if xs == [] then Failure(RemoveMissing(x))
    else if xs[0] == x then
      assert IndexOf(xs, x) == 0;
      assert xs[..0] + xs[1..] == xs[1..];
      Success(xs[1..])
    else
      var rest :- RemoveFirst(xs[1..], x);
      RemoveFirstCons(xs, x);
      Success([xs[0]] + rest)
  }

  /** Removing from behind a head that differs keeps the head. */
  lemma RemoveFirstCons(xs: seq<string>, x: string)
    requires xs != [] && xs[0] != x && x in xs[1..]
    ensures x in xs && IndexOf(xs, x) == IndexOf(xs[1..], x) + 1
    ensures var k := IndexOf(xs[1..], x);
            [xs[0]] + (xs[1..][..k] + xs[1..][k + 1..]) == xs[..k + 1] + xs[k + 2..]
  {
    var k := IndexOf(xs[1..], x);
    assert xs[..k + 1] == [xs[0]] + xs[1..][..k];
    assert xs[k + 2..] == xs[1..][k + 1..];
  }

  /** Removing drops exactly one occurrence and keeps every other element. */
  lemma RemoveFirstCount(xs: seq<string>, x: string)
    requires x in xs
    ensures multiset(RemoveFirst(xs, x).value) + multiset{x} == multiset(xs)
  {
    var k := IndexOf(xs, x);
    assert xs == xs[..k] + [x] + xs[k + 1..];
  }

  /** `[table['name'] for table in metadata_tables]`. */
  function TableNames(index: seq<Value>): (r: Result<seq<string>, Error>)
    ensures r.Success? ==> |r.value| == |index|
    ensures r.Success? ==> forall i | 0 <= i < |index| :: Field(index[i], "name") == Success(Str(r.value[i]))
    decreases |index|
  {
    if index == [] then Success([])
    else
      var name :- Field(index[0], "name");
      if !name.Str? then Failure(TypeError)
      else
        var rest :- TableNames(index[1..]);
        Success([name.s] + rest)
  }

  /** One table of `download_data`; only the two data-set tables get the
      caller's select and filter. */
  function DownloadTable(client: Client, server: Server, tableId: string, name: string,
                         select: Selection, filters: string, fuel: nat): (r: Run)
    ensures forall req <- r.sent :: ("$select" in req.params || "$filter" in req.params) ==> IsDataSetTable(name)
  {
    if IsDataSetTable(name) then DownloadMetadata(client, server, tableId, name, select, filters, fuel)
    else DownloadMetadata(client, server, tableId, name, NoSelection, "", fuel)
  }

  /** The download loop of `download_data`: every listed table, stored under its name. */
  function DownloadTables(client: Client, server: Server, tableId: string, names: seq<string>,
                          select: Selection, filters: string, fuel: nat): (r: Result<map<string, seq<Value>>, Error>)
    ensures r.Success? ==> r.value.Keys == set n <- names
    ensures r.Success? ==> forall n <- names ::
              DownloadTable(client, server, tableId, n, select, filters, fuel).result == Success(r.value[n])
    decreases |names|
  {
    if names == [] then Success(map[])
    else
      var prefix := names[..|names| - 1];
      SplitLast(names);
      var acc :- DownloadTables(client, server, tableId, prefix, select, filters, fuel);
      var name := names[|names| - 1];
      var rows :- DownloadTable(client, server, tableId, name, select, filters, fuel).result;
      StoreLast(prefix, name, acc, rows, (n: string) => DownloadTable(client, server, tableId, n, select, filters, fuel).result);
      Success(acc[name := rows])
  }

  /** Storing one more name's table after all earlier ones: every name
      maps to its own table. */
  lemma StoreLast<T>(prefix: seq<string>, name: string, acc: map<string, T>, last: T, table: string -> Result<T, Error>)
    requires acc.Keys == set n <- prefix
    requires forall n <- prefix :: table(n) == Success(acc[n])
    requires table(name) == Success(last)
    ensures acc[name := last].Keys == set n <- prefix + [name]
    ensures forall n <- prefix + [name] :: table(n) == Success(acc[name := last][n])
  {
    assert forall n <- prefix + [name] :: n == name || n in prefix;
  }

  /** `download_data`: read the table index, drop the name `typed` selects,
      download every other table. */
  function DownloadData(client: Client, server: Server, tableId: string, typed: bool,
                        select: Selection, filters: string, fuel: nat): (r: Result<map<string, seq<Value>>, Error>)
    ensures var index := DownloadMetadata(client, server, tableId, "", NoSelection, "", fuel).result;
            && (index.Failure? ==> r == Failure(index.error))
            && (index.Success? && TableNames(index.value).Success? && DataSetName(typed) !in TableNames(index.value).value
                ==> r == Failure(RemoveMissing(DataSetName(typed))))
    ensures r.Success? ==> forall n <- r.value ::
              DownloadTable(client, server, tableId, n, select, filters, fuel).result == Success(r.value[n])
  {
    var index :- DownloadMetadata(client, server, tableId, "", NoSelection, "", fuel).result;
    var names :- TableNames(index);
    var kept :- RemoveFirst(names, DataSetName(typed));
    DownloadTables(client, server, tableId, kept, select, filters, fuel)
  }

  /** The names `download_data` downloads: the index names minus one
      occurrence of the name `typed` selects. With `typed = false` that is
      "UntypedDataSet", so an index listing each data-set table once yields
      the typed table and not the untyped one. */
  lemma DownloadedNames(client: Client, server: Server, tableId: string, typed: bool,
                        select: Selection, filters: string, fuel: nat)
    requires DownloadData(client, server, tableId, typed, select, filters, fuel).Success?
    ensures var index := DownloadMetadata(client, server, tableId, "", NoSelection, "", fuel).result.value;
            var names := TableNames(index).value;
            && DataSetName(typed) in names
            && DownloadData(client, server, tableId, typed, select, filters, fuel).value.Keys
               == (set n <- RemoveFirst(names, DataSetName(typed)).value)
            && multiset(RemoveFirst(names, DataSetName(typed)).value) + multiset{DataSetName(typed)} == multiset(names)
  {
    var index := DownloadMetadata(client, server, tableId, "", NoSelection, "", fuel).result.value;
    RemoveFirstCount(TableNames(index).value, DataSetName(typed));
  }

  /** When the index names each data-set table exactly once, the table
      `typed` names is not downloaded and the other one is. */
  lemma TypedFlagDropsNamedTable(names: seq<string>, typed: bool)
    requires multiset(names)[DataSetName(typed)] == 1
    requires DataSetName(!typed) in names
    ensures RemoveFirst(names, DataSetName(typed)).Success?
    ensures DataSetName(typed) !in RemoveFirst(names, DataSetName(typed)).value
    ensures DataSetName(!typed) in RemoveFirst(names, DataSetName(typed)).value
  {
    var kept := RemoveFirst(names, DataSetName(typed)).value;
    RemoveFirstCount(names, DataSetName(typed));
    assert multiset(kept) + multiset{DataSetName(typed)} == multiset(names);
    assert multiset(kept)[DataSetName(typed)] == 0;
    assert multiset(kept)[DataSetName(!typed)] == multiset(names)[DataSetName(!typed)];
  }

  /** `get_info`: the first TableInfos row, or `None` when there is none. */
  function GetInfo(client: Client, server: Server, tableId: string, fuel: nat): (r: Result<Option<Value>, Error>)
    ensures var rows := DownloadMetadata(client, server, tableId, "TableInfos", NoSelection, "", fuel).result;
            && (r.Success? <==> rows.Success?)
            && (r.Success? ==> (r.value.None? <==> rows.value == []))
            && (r.Success? && r.value.Some? ==> r.value.value == rows.value[0])
  {
    var rows :- DownloadMetadata(client, server, tableId, "TableInfos", NoSelection, "", fuel).result;
    Success(if |rows| > 0 then Some(rows[0]) else None)
  }
}
