/** `get_data` of the version-4 client: download the observations, then the
    metadata, then enrich the observations with it. */
module Data4 {
  import opened Wrappers
  import opened Values
  import opened Settings
  import opened Pagination
  import opened Metadata
  import opened Enricher

  /** The downloaded observations as rows; anything but a list of objects is
      a `TypeError`. */
  function ToRows(v: Value): (r: Result<seq<Row>, Error>)
    ensures r.Success? <==> v.Arr? && forall x <- v.items :: x.Obj?
    ensures r.Success? ==> |r.value| == |v.items| && forall i | 0 <= i < |v.items| :: v.items[i] == Obj(r.value[i])
  {
    if v.Arr? && forall x <- v.items :: x.Obj? then
      Success(seq(|v.items|, i requires 0 <= i < |v.items| => v.items[i].fields))
    else Failure(TypeError)
  }

  /** A resource a `for` loop walks without touching an element: an empty
      object or an empty string. */
  predicate EmptyIterable(v: Value) {
    v == Obj(map[]) || v == Str("")
  }

  /** The resources the joins can iterate: a list of objects gives its
      rows, and an empty object or empty string gives no row, as iterating
      it in Python visits nothing. */
  function ToTables(meta: map<string, Value>): (r: Tables)
    ensures r.Keys <= meta.Keys
    ensures forall name <- meta :: name in r <==> ToRows(meta[name]).Success? || EmptyIterable(meta[name])
    ensures forall name <- r :: if EmptyIterable(meta[name]) then r[name] == [] else ToRows(meta[name]) == Success(r[name])
  {
    map name | name in meta && (ToRows(meta[name]).Success? || EmptyIterable(meta[name])) ::
      if EmptyIterable(meta[name]) then [] else ToRows(meta[name]).value
  }

  /** `get_data`: observations first, then metadata, then the joins; a join
      that raises fails the whole call. */
  function GetData4(server: Server, opts: Options4, datasetId: string, catalog: Option<string>,
                    filter: string, top: Option<int>, skip: Option<int>, cfg: Config, fuel: nat)
    : (r: Result<seq<Row>, Error>)
    ensures var obs := GetObservations(server, opts, datasetId, catalog, filter, top, skip, fuel);
            obs.Failure? ==> r == Failure(obs.error)
    ensures var obs := GetObservations(server, opts, datasetId, catalog, filter, top, skip, fuel);
            r.Success? ==> obs.Success? && obs.value.Arr? && |r.value| == |obs.value.items|
    ensures var obs := GetObservations(server, opts, datasetId, catalog, filter, top, skip, fuel);
            var meta := GetMetadata(server, opts, catalog, datasetId, fuel);
            obs.Success? && meta.Failure? ==> r == Failure(meta.error)
    ensures var obs := GetObservations(server, opts, datasetId, catalog, filter, top, skip, fuel);
            var meta := GetMetadata(server, opts, catalog, datasetId, fuel);
            obs.Success? && meta.Success? && ToRows(obs.value).Failure? ==> r == Failure(TypeError)
    ensures var obs := GetObservations(server, opts, datasetId, catalog, filter, top, skip, fuel);
            var meta := GetMetadata(server, opts, catalog, datasetId, fuel);
            obs.Success? && meta.Success? && ToRows(obs.value).Success? ==>
              var rows := ToRows(obs.value).value;
              var tables := ToTables(meta.value);
              && (r.Success? <==> EnrichOk(rows, tables, cfg))
              && (r.Success? ==> r.value == Enrich(rows, tables, cfg))
              && (r.Failure? ==> r.error == JoinFailed)
  {
    var observations :- GetObservations(server, opts, datasetId, catalog, filter, top, skip, fuel);
    var meta :- GetMetadata(server, opts, catalog, datasetId, fuel);
    var obs :- ToRows(observations);
    var tables := ToTables(meta);
    if EnrichOk(obs, tables, cfg) then Success(Enrich(obs, tables, cfg)) else Failure(JoinFailed)
  }
}
