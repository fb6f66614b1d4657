/** Decoded JSON values, the rows the service returns, and the errors the
    client raises. */
module Values {

  /** A decoded JSON value. Numbers are integers; see README for floats. */
  datatype Value =
    | Null
    | Bool(b: bool)
    | Num(n: int)
    | Str(s: string)
    | Arr(items: seq<Value>)
    | Obj(fields: map<string, Value>)

  /** One record of a resource: a Python dict with string keys. */
  type Row = map<string, Value>

  /** A code table keyed by its identifier. */
  type Lookup = map<Value, Row>

  /** Query parameters of one GET request. */
  type Params = map<string, Value>

  /** Python truthiness of a decoded JSON value. */
  predicate Truthy(v: Value) {
    match v
    case Null => false
    case Bool(b) => b
    case Num(n) => n != 0
    case Str(s) => s != ""
    case Arr(xs) => xs != []
    case Obj(m) => m != map[]
  }

  /** `{d[field]: d for d in rows}`, used for every code table: a later row with the same key replaces an earlier one. */
  function IndexBy(rows: seq<Row>, field: string): (r: Lookup)
    requires forall d <- rows :: field in d
    ensures r.Keys == set d <- rows :: d[field]
    ensures forall id <- r :: r[id] in rows && r[id][field] == id
    decreases |rows|
  {
    if rows == [] then map[]
    else
      var n := |rows| - 1;
      var rest := IndexBy(rows[..n], field);
      assert rows == rows[..n] + [rows[n]];
      rest[rows[n][field] := rows[n]]
  }

  /** The row an identifier selects is the last row carrying it. */
  lemma {:induction false} IndexByLast(rows: seq<Row>, field: string, i: nat)
    requires forall d <- rows :: field in d
    requires i < |rows|
    requires forall j | i < j < |rows| :: rows[j][field] != rows[i][field]
    ensures IndexBy(rows, field)[rows[i][field]] == rows[i]
    decreases |rows|
  {
    var n := |rows| - 1;
    var prefix := rows[..n];
    assert rows == prefix + [rows[n]];
    assert IndexBy(rows, field) == IndexBy(prefix, field)[rows[n][field] := rows[n]];
    if i < n {
      assert prefix[i] == rows[i];
      assert forall j | i < j < n :: prefix[j] == rows[j];
      IndexByLast(prefix, field, i);
    }
  }

  /** The exceptions the client lets escape, one constructor per cause. */
  datatype Error =
    | RemoteFetchError(url: string, status: int)  // raise_for_status on a failed GET
    | KeyError(key: string)                       // a JSON object lacks a field the code indexes
    | TypeError                                   // a JSON value has the wrong shape for the code using it
    | InvalidLink(link: Value)                    // a continuation link that is no URL
    | UnknownKind(kind: Value)                    // a resource kind other than EntitySet/Singleton
    | RemoveMissing(name: string)                 // list.remove of an absent element
    | KeyErrorInJoin                              // the label substitution looked up an absent field, code or title
    | JoinFailed                                  // the enricher raised KeyError or TypeError
    | CatalogIsDataset(catalog: string)           // catalog name shaped like a dataset identifier
    | CatalogNotFound(catalog: string)            // catalog lookup answered 404
    | LinkChainTooLong                            // the continuation chain outlived the fuel bound
}
