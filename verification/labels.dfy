/** The label substitution of `get_data` in the version-3, legacy and early
    clients: every coded cell of the data set is replaced by the title of its
    code, looked up in the code table named after the column. */
module Labels {
  import opened Wrappers
  import opened Values
  import opened Metadata
  import Pagination
  import Query

  /** The downloaded tables that are not code tables. */
  const Excluded: set<string> := {"TableInfos", "TypedDataSet", "UntypedDataSet", "DataProperties", "CategoryGroups"}

  /** `set(metadata.keys()) - set(exclude)`: the columns that are looked up. */
  function NormColumns(meta: map<string, seq<Value>>): (r: set<string>)
    ensures forall c :: c in r <==> c in meta && c !in Excluded
  {
    meta.Keys - Excluded
  }

  /** Every row of a code table is an object with a `Key`. */
  predicate CodeTableOk(rows: seq<Value>) {
    forall v <- rows :: v.Obj? && "Key" in v.fields
  }

  function Fields(rows: seq<Value>): (r: seq<Row>)
    requires forall v <- rows :: v.Obj?
    ensures |r| == |rows| && forall i | 0 <= i < |rows| :: rows[i] == Obj(r[i])
  {
    seq(|rows|, i requires 0 <= i < |rows| => rows[i].fields)
  }

  /** The code tables, each keyed by `Key` (a later row wins a duplicate key). */
  type Indexes = map<string, Lookup>

  /** `{r["Key"]: r for r in rows}`. */
  function CodeIndex(rows: seq<Value>): (r: Lookup)
    requires CodeTableOk(rows)
    ensures r.Keys == set v <- rows :: v.fields["Key"]
    ensures forall key <- r :: Obj(r[key]) in rows && r[key]["Key"] == key
  {
    var fields := Fields(rows);
    assert forall d <- fields :: "Key" in d by {
      forall d <- fields ensures "Key" in d {
        var i :| 0 <= i < |fields| && fields[i] == d;
        assert rows[i] in rows;
      }
    }
    assert (set d <- fields :: d["Key"]) == set v <- rows :: v.fields["Key"] by {
      forall v <- rows ensures v.fields in fields {
        var i :| 0 <= i < |rows| && rows[i] == v;
        assert fields[i] == v.fields;
      }
    }
    var index := IndexBy(fields, "Key");
    assert forall key <- index :: Obj(index[key]) in rows by {
      forall key <- index ensures Obj(index[key]) in rows {
        var i :| 0 <= i < |fields| && fields[i] == index[key];
        assert rows[i] == Obj(fields[i]);
      }
    }
    index
  }

  function CodeIndexes(meta: map<string, seq<Value>>, cols: set<string>): (r: Indexes)
    requires forall c <- cols :: c in meta && CodeTableOk(meta[c])
    ensures r.Keys == cols
    ensures forall c <- cols :: r[c] == CodeIndex(meta[c])
  {
    map c | c in cols :: CodeIndex(meta[c])
  }

  /** The title a cell would be replaced by, if there is one. */
  predicate HasTitle(row: Row, col: string, idx: Indexes) {
    col in row && col in idx && row[col] in idx[col] && "Title" in idx[col][row[col]]
  }

  /** One `try` block: replace the cell by its code's title, or leave the row
      as it is when the column, the code or the title is missing. */
  function LabelCell(row: Row, col: string, idx: Indexes): (r: Row)
    ensures r.Keys == row.Keys
    ensures HasTitle(row, col, idx) ==> r[col] == idx[col][row[col]]["Title"]
    ensures forall k <- row | k != col || !HasTitle(row, col, idx) :: r[k] == row[k]
  {
    if HasTitle(row, col, idx) then row[col := idx[col][row[col]]["Title"]] else row
  }

  /** The inner loop of `get_data` over the columns, in the order given. */
  function LabelRowIn(row: Row, cols: seq<string>, idx: Indexes): Row
    decreases |cols|
  {
    if cols == [] then row else LabelRowIn(LabelCell(row, cols[0], idx), cols[1..], idx)
  }

  /** The labelled row, with no order: each cell of a looked-up column that
      has a title becomes that title, every other cell stays. */
  function Labelled(row: Row, cols: set<string>, idx: Indexes): (r: Row)
    ensures r.Keys == row.Keys
  {
    map k | k in row :: if k in cols && HasTitle(row, k, idx) then idx[k][row[k]]["Title"] else row[k]
  }

  /** Looking up one column only changes that column. */
  lemma LabelCellOthers(row: Row, col: string, cols: set<string>, idx: Indexes)
    requires col !in cols
    ensures Labelled(LabelCell(row, col, idx), cols, idx) == LabelCell(Labelled(row, cols, idx), col, idx)
  {
    var a := Labelled(LabelCell(row, col, idx), cols, idx);
    var b := LabelCell(Labelled(row, cols, idx), col, idx);
    forall k | k in row ensures a[k] == b[k] {
      if k == col {
        assert HasTitle(Labelled(row, cols, idx), col, idx) <==> HasTitle(row, col, idx);
      } else {
        assert HasTitle(LabelCell(row, col, idx), k, idx) <==> HasTitle(row, k, idx);
      }
    }
  }

  /** Whatever order the set of columns is enumerated in, the inner loop
      gives the same row: each column rewrites only its own cell. */
  lemma {:induction false} LabelRowInAnyOrder(row: Row, cols: seq<string>, idx: Indexes)
    requires forall i, j | 0 <= i < j < |cols| :: cols[i] != cols[j]
    ensures LabelRowIn(row, cols, idx) == Labelled(row, (set c <- cols), idx)
    decreases |cols|
  {
    if cols == [] {
      assert Labelled(row, {}, idx) == row;
    } else {
      var c := cols[0];
      var rest := set x <- cols[1..];
      assert c !in rest;
      assert (set x <- cols) == rest + {c} by {
        assert cols == [c] + cols[1..];
      }
      LabelRowInAnyOrder(LabelCell(row, c, idx), cols[1..], idx);
      LabelCellOthers(row, c, rest, idx);
      LabelCellAdds(row, c, rest, idx);
    }
  }

  /** Looking up one more column labels that column too. */
  lemma LabelCellAdds(row: Row, c: string, rest: set<string>, idx: Indexes)
    requires c !in rest
    ensures LabelCell(Labelled(row, rest, idx), c, idx) == Labelled(row, rest + {c}, idx)
  {
    var a := LabelCell(Labelled(row, rest, idx), c, idx);
    var b := Labelled(row, rest + {c}, idx);
    forall k | k in row ensures a[k] == b[k] {
      if k == c {
        assert HasTitle(Labelled(row, rest, idx), c, idx) <==> HasTitle(row, c, idx);
      }
    }
  }

  // ---------------------------------------------------------------------
  // get_data

  /** The data set `get_data` labels: the typed one when it was downloaded,
      else the untyped one. */
  function DataSet(meta: map<string, seq<Value>>): (r: Result<seq<Value>, Error>)
    ensures r.Success? <==> TypedDataSet in meta || UntypedDataSet in meta
    ensures TypedDataSet in meta ==> r == Success(meta[TypedDataSet])
    ensures TypedDataSet !in meta && UntypedDataSet in meta ==> r == Success(meta[UntypedDataSet])
    ensures r.Failure? ==> r.error == KeyError(UntypedDataSet)
  {
    if TypedDataSet in meta then Success(meta[TypedDataSet])
    else if UntypedDataSet in meta then Success(meta[UntypedDataSet])
    else Failure(KeyError(UntypedDataSet))
  }

  /** The outer loop of `get_data`: every row labelled. */
  function LabelRows(data: seq<Value>, cols: set<string>, idx: Indexes): (r: seq<Value>)
    requires forall v <- data :: v.Obj?
    ensures |r| == |data| && forall i | 0 <= i < |data| :: r[i] == Obj(Labelled(data[i].fields, cols, idx))
  {
    seq(|data|, i requires 0 <= i < |data| => Obj(Labelled(data[i].fields, cols, idx)))
  }

  /** Every looked-up table can be indexed by `Key`. */
  predicate TablesOk(meta: map<string, seq<Value>>) {
    forall c <- NormColumns(meta) :: CodeTableOk(meta[c])
  }

  /** The label substitution of the version-3 and legacy `get_data`, on the
      downloaded tables. A row lacking a column, a code missing from its
      table, or a code without a title leaves the cell alone; a row that is
      not an object fails as soon as there is a column to look up. */
  function LabelData(meta: map<string, seq<Value>>): (r: Result<seq<Value>, Error>)
    ensures r.Success? <==> DataSet(meta).Success? && TablesOk(meta)
                            && (NormColumns(meta) == {} || forall v <- DataSet(meta).value :: v.Obj?)
    ensures r.Success? ==> |r.value| == |DataSet(meta).value|
    ensures r.Success? && NormColumns(meta) == {} ==> r.value == DataSet(meta).value
    ensures r.Success? ==> forall i | 0 <= i < |r.value| :: DataSet(meta).value[i].Obj? ==>
              && r.value[i].Obj?
              && r.value[i].fields.Keys == DataSet(meta).value[i].fields.Keys
              && forall k <- r.value[i].fields | k !in NormColumns(meta) ::
                   r.value[i].fields[k] == DataSet(meta).value[i].fields[k]
  {
    var data :- DataSet(meta);
    var cols := NormColumns(meta);
    if !TablesOk(meta) then Failure(KeyError("Key"))
    else if cols == {} then Success(data)
    else if !(forall v <- data :: v.Obj?) then Failure(TypeError)
    else
      Success(LabelRows(data, cols, CodeIndexes(meta, cols)))
  }

  /** Whatever order `list(set(...))` yields, the rows `get_data` returns are
      the ones its nested loops compute in that order. */
  lemma LabelDataAnyOrder(meta: map<string, seq<Value>>, order: seq<string>, i: nat)
    requires LabelData(meta).Success?
    requires forall a, b | 0 <= a < b < |order| :: order[a] != order[b]
    requires (set c <- order) == NormColumns(meta)
    requires i < |LabelData(meta).value|
    ensures var row := DataSet(meta).value[i];
            row.Obj? ==> LabelData(meta).value[i] == Obj(LabelRowIn(row.fields, order, CodeIndexes(meta, NormColumns(meta))))
  {
    var row := DataSet(meta).value[i];
    var cols := NormColumns(meta);
    if row.Obj? {
      var idx := CodeIndexes(meta, cols);
      LabelRowInAnyOrder(row.fields, order, idx);
      LabelDataRow(meta, i);
    }
  }

  /** Row `i` of a successful labelling: the data row itself when nothing
      is looked up, else the row with every looked-up column labelled. */
  lemma LabelDataRow(meta: map<string, seq<Value>>, i: nat)
    requires LabelData(meta).Success? && i < |LabelData(meta).value|
    ensures var row := DataSet(meta).value[i];
            var cols := NormColumns(meta);
            && (cols == {} ==> LabelData(meta).value[i] == row)
            && (cols != {} ==> row.Obj? && LabelData(meta).value[i] == Obj(Labelled(row.fields, cols, CodeIndexes(meta, cols))))
  {
  }

  /** Row `j` is the last row of a code table whose `Key` is `key`. */
  predicate LastCode(rows: seq<Value>, j: int, key: Value) {
    && CodeTableOk(rows)
    && 0 <= j < |rows|
    && rows[j].fields["Key"] == key
    && forall l | j < l < |rows| :: rows[l].fields["Key"] != key
  }

  /** The dictionary `{r["Key"]: r for r in rows}` maps a key to the last row
      carrying it. */
  lemma CodeIndexLast(rows: seq<Value>, j: int, key: Value)
    requires LastCode(rows, j, key)
    ensures key in CodeIndex(rows) && CodeIndex(rows)[key] == rows[j].fields
  {
    var fields := Fields(rows);
    assert forall d <- fields :: "Key" in d by {
      forall d <- fields ensures "Key" in d {
        var i :| 0 <= i < |fields| && fields[i] == d;
        assert rows[i] in rows;
      }
    }
    assert CodeIndex(rows) == IndexBy(fields, "Key");
    assert forall l | j < l < |fields| :: fields[l]["Key"] != fields[j]["Key"];
    IndexByLast(fields, "Key", j);
  }

  /** One cell of a successful labelling, in terms of the downloaded tables:
      a column that is excluded or has no table of its own is never changed;
      a column with a table takes the `Title` of the last code row whose
      `Key` is the cell, and keeps the cell when no code row matches or the
      matching row has no `Title`. */
  lemma LabelDataCell(meta: map<string, seq<Value>>, i: nat, k: string)
    requires LabelData(meta).Success? && i < |LabelData(meta).value|
    requires DataSet(meta).value[i].Obj? && k in DataSet(meta).value[i].fields
    ensures var row := DataSet(meta).value[i].fields;
            var out := LabelData(meta).value[i];
            && out.Obj? && k in out.fields
            && (k !in meta || k in Excluded ==> out.fields[k] == row[k])
            && (k in meta && k !in Excluded ==>
                  && CodeTableOk(meta[k])
                  && ((forall v <- meta[k] :: v.fields["Key"] != row[k]) ==> out.fields[k] == row[k])
                  && forall j | LastCode(meta[k], j, row[k]) ::
                       out.fields[k] == if "Title" in meta[k][j].fields then meta[k][j].fields["Title"] else row[k])
  {
    var row := DataSet(meta).value[i].fields;
    var cols := NormColumns(meta);
    LabelDataRow(meta, i);
    if k in meta && k !in Excluded {
      var idx := CodeIndexes(meta, cols);
      assert idx[k] == CodeIndex(meta[k]);
      forall j | LastCode(meta[k], j, row[k])
        ensures LabelData(meta).value[i].fields[k] == if "Title" in meta[k][j].fields then meta[k][j].fields["Title"] else row[k]
      {
        CodeIndexLast(meta[k], j, row[k]);
      }
    }
  }

  /** `get_data` of `cbsodata/cbsodata3.py` and of `cbsodata.py`. */
  function GetData(client: Client, server: Pagination.Server, tableId: string, typed: bool,
                   select: Query.Selection, filters: string, fuel: nat): (r: Result<seq<Value>, Error>)
    requires !client.Early?
    ensures var meta := DownloadData(client, server, tableId, typed, select, filters, fuel);
            && (meta.Failure? ==> r == Failure(meta.error))
            && (meta.Success? ==> r == LabelData(meta.value))
  {
    var meta :- DownloadData(client, server, tableId, typed, select, filters, fuel);
    LabelData(meta)
  }

  /** Every row holds every looked-up column, and every code has a title:
      what the early `get_data`, which has no `try`, needs to return. */
  predicate Complete(data: seq<Value>, cols: set<string>, idx: Indexes) {
    forall v <- data :: v.Obj? && forall c <- cols :: HasTitle(v.fields, c, idx)
  }

  /** The label substitution of the early client: any gap raises. */
  function LabelDataStrict(meta: map<string, seq<Value>>): (r: Result<seq<Value>, Error>)
    ensures r.Success? ==> DataSet(meta).Success? && TablesOk(meta) && |r.value| == |DataSet(meta).value|
    ensures r.Success? && NormColumns(meta) != {} ==>
              Complete(DataSet(meta).value, NormColumns(meta), CodeIndexes(meta, NormColumns(meta)))
    ensures DataSet(meta).Success? && TablesOk(meta)
            && (NormColumns(meta) != {} ==> Complete(DataSet(meta).value, NormColumns(meta), CodeIndexes(meta, NormColumns(meta))))
            ==> r.Success?
    ensures DataSet(meta).Failure? ==> r == Failure(DataSet(meta).error)
    ensures DataSet(meta).Success? && !TablesOk(meta) ==> r == Failure(KeyError("Key"))
    ensures DataSet(meta).Success? && TablesOk(meta) && NormColumns(meta) != {} ==>
              ((exists v <- DataSet(meta).value :: !v.Obj?) ==> r == Failure(TypeError))
              && ((forall v <- DataSet(meta).value :: v.Obj?)
                  && !Complete(DataSet(meta).value, NormColumns(meta), CodeIndexes(meta, NormColumns(meta)))
                  ==> r == Failure(KeyErrorInJoin))
  {
    var data :- DataSet(meta);
    var cols := NormColumns(meta);
    if !TablesOk(meta) then Failure(KeyError("Key"))
    else if cols == {} then Success(data)
    else if !(forall v <- data :: v.Obj?) then Failure(TypeError)
    else
      var idx := CodeIndexes(meta, cols);
      if !Complete(data, cols, idx) then Failure(KeyErrorInJoin)
      else Success(LabelRows(data, cols, idx))
  }

  /** Where the early client succeeds it agrees with the guarded one, and
      every looked-up cell has become its code's title. */
  lemma StrictAgreesWithGuarded(meta: map<string, seq<Value>>)
    requires LabelDataStrict(meta).Success?
    ensures LabelData(meta) == LabelDataStrict(meta)
    ensures var idx := CodeIndexes(meta, NormColumns(meta));
            forall i, c | 0 <= i < |DataSet(meta).value| && c in NormColumns(meta) ::
              LabelDataStrict(meta).value[i].fields[c] == idx[c][DataSet(meta).value[i].fields[c]]["Title"]
  {
    var data := DataSet(meta).value;
    var cols := NormColumns(meta);
    if cols != {} {
      var idx := CodeIndexes(meta, cols);
      var rows := LabelRows(data, cols, idx);
      assert LabelDataStrict(meta) == Success(rows) && LabelData(meta) == Success(rows);
      forall i, c | 0 <= i < |data| && c in cols ensures rows[i].fields[c] == idx[c][data[i].fields[c]]["Title"] {
        assert data[i] in data;
      }
    }
  }

  /** `get_data` of `cbsodata/_cbsodata.py`. */
  function GetDataEarly(server: Pagination.Server, tableId: string, typed: bool, fuel: nat): (r: Result<seq<Value>, Error>)
    ensures var meta := DownloadData(Early, server, tableId, typed, Query.NoSelection, "", fuel);
            && (meta.Failure? ==> r == Failure(meta.error))
            && (meta.Success? ==> r == LabelDataStrict(meta.value))
  {
    var meta :- DownloadData(Early, server, tableId, typed, Query.NoSelection, "", fuel);
    LabelDataStrict(meta)
  }
}
