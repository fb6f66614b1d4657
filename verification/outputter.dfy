/** The command-line outputters: `json_outputter` writes one JSON document
    per row, `text_outputter` lays the rows out as a table with one column per
    key. Printing is replaced by returning the lines. */
module Outputter {
  import opened Wrappers
  import opened Text

  // ---------------------------------------------------------------------
  // Truncation and JSON lines

  function Min(a: int, b: int): int { if a < b then a else b }
  function Max(a: int, b: int): int { if a < b then b else a }

  /** `rows[0:max_rows]` when `max_rows` is an integer, all rows otherwise. */
  function Truncate<T>(rows: seq<T>, maxRows: Option<int>): (r: seq<T>)
    ensures |r| <= |rows| && forall i | 0 <= i < |r| :: r[i] == rows[i]
    ensures maxRows.None? ==> r == rows
    ensures maxRows.Some? && maxRows.value >= 0 ==> |r| == Min(maxRows.value, |rows|)
    ensures maxRows.Some? && maxRows.value < 0 ==> |r| == Max(|rows| + maxRows.value, 0)
  {
    match maxRows
    case None => rows
    case Some(m) =>
      if m >= 0 then rows[..Min(m, |rows|)]
      else rows[..Max(|rows| + m, 0)]
  }

  /** `json_outputter`: one line per kept row; `dumps` stands for `json.dumps`. */
  function JsonOutputter<T>(rows: seq<T>, maxRows: Option<int>, dumps: T -> string): (lines: seq<string>)
    ensures |lines| == |Truncate(rows, maxRows)|
    ensures forall i | 0 <= i < |lines| :: lines[i] == dumps(rows[i])
  {
    var kept := Truncate(rows, maxRows);
    seq(|kept|, i requires 0 <= i < |kept| => dumps(kept[i]))
  }

  /** Cutting at `max_rows` prints a prefix of the uncut output. */
  lemma JsonOutputterPrefix<T>(rows: seq<T>, maxRows: Option<int>, dumps: T -> string)
    ensures var all := JsonOutputter(rows, None, dumps);
            var cut := JsonOutputter(rows, maxRows, dumps);
            |cut| <= |all| && cut == all[..|cut|]
  {
  }

  /** Rows are printed one per line and independently of each other: the
      uncut output of two batches is the output of the first, then of the
      second. */
  lemma JsonOutputterAppend<T>(a: seq<T>, b: seq<T>, dumps: T -> string)
    ensures JsonOutputter(a + b, None, dumps) == JsonOutputter(a, None, dumps) + JsonOutputter(b, None, dumps)
  {
  }

  // ---------------------------------------------------------------------
  // Columns and widths

  /** One row as `text_outputter` sees it: each key with its value already
      rendered by `str`, in the row's own order. */
  type Cells = seq<(string, string)>

  /** A Python dict has each key once. */
  predicate DistinctKeys(row: Cells) {
    forall i, j | 0 <= i < j < |row| :: row[i].0 != row[j].0
  }

  /** All cells of all rows, row after row. */
  function AllCells(rows: seq<Cells>): (r: Cells)
    decreases |rows|
  {
    if rows == [] then [] else AllCells(rows[..|rows| - 1]) + rows[|rows| - 1]
  }

  lemma AllCellsContain(rows: seq<Cells>, k: nat, cell: (string, string))
    requires k < |rows| && cell in rows[k]
    ensures cell in AllCells(rows)
    decreases |rows|
  {
    if k < |rows| - 1 {
      AllCellsContain(rows[..|rows| - 1], k, cell);
    }
  }

  function Keys(cells: Cells): (r: seq<string>)
    ensures |r| == |cells| && forall i | 0 <= i < |cells| :: r[i] == cells[i].0
  {
    seq(|cells|, i requires 0 <= i < |cells| => cells[i].0)
  }

  /** Each element once, at the place it is first seen. */
  function Dedup(xs: seq<string>): seq<string>
    decreases |xs|
  {
    if xs == [] then []
    else
      var d := Dedup(xs[..|xs| - 1]);
      var x := xs[|xs| - 1];
      if x in d then d else d + [x]
  }

  /** `Dedup` holds each element of its input exactly once. */
  lemma {:induction false} DedupIsSet(xs: seq<string>)
    ensures forall i, j | 0 <= i < j < |Dedup(xs)| :: Dedup(xs)[i] != Dedup(xs)[j]
    ensures forall x :: x in Dedup(xs) <==> x in xs
    decreases |xs|
  {
    if xs != [] {
      var prefix := xs[..|xs| - 1];
      assert xs == prefix + [xs[|xs| - 1]];
      DedupIsSet(prefix);
    }
  }

  /** `Dedup` keeps first-seen order: of two kept elements, the one listed
      first occurs first in the input. */
  lemma {:induction false} DedupFirstSeen(xs: seq<string>, i: nat, j: nat)
    requires i < j < |Dedup(xs)|
    ensures Dedup(xs)[i] in xs && Dedup(xs)[j] in xs
    ensures IndexOf(xs, Dedup(xs)[i]) < IndexOf(xs, Dedup(xs)[j])
    decreases |xs|
  {
    var n := |xs| - 1;
    var prefix := xs[..n];
    var d := Dedup(prefix);
    assert xs == prefix + [xs[n]];
    DedupIsSet(xs);
    DedupIsSet(prefix);
    IndexOfPrefix(prefix, xs[n], Dedup(xs)[i]);
    if j < |d| {
      IndexOfPrefix(prefix, xs[n], Dedup(xs)[j]);
      DedupFirstSeen(prefix, i, j);
    } else {
      assert Dedup(xs)[j] == xs[n] && xs[n] !in prefix;
      assert IndexOf(xs, xs[n]) == n by {
        IndexOfLast(prefix, xs[n]);
      }
    }
  }

  lemma IndexOfPrefix(prefix: seq<string>, last: string, x: string)
    requires x in prefix
    ensures x in prefix + [last] && IndexOf(prefix + [last], x) == IndexOf(prefix, x)
    decreases |prefix|
  {
    if prefix[0] != x {
      assert (prefix + [last])[1..] == prefix[1..] + [last];
      IndexOfPrefix(prefix[1..], last, x);
    }
  }

  lemma IndexOfLast(prefix: seq<string>, x: string)
    requires x !in prefix
    ensures IndexOf(prefix + [x], x) == |prefix|
    decreases |prefix|
  {
    if prefix != [] {
      assert (prefix + [x])[1..] == prefix[1..] + [x];
      IndexOfLast(prefix[1..], x);
    }
  }

  /** `value_max_len.keys()`: every key of every row, in first-seen order. */
  function Columns(rows: seq<Cells>): seq<string> {
    Dedup(Keys(AllCells(rows)))
  }

  /** The longest value under `col` among `cells` (0 when there is none). */
  function MaxLen(cells: Cells, col: string): nat
    decreases |cells|
  {
    if cells == [] then 0
    else
      var rest := MaxLen(cells[..|cells| - 1], col);
      var last := cells[|cells| - 1];
      if last.0 == col && |last.1| > rest then |last.1| else rest
  }

  /** `MaxLen` bounds every value under the column and is one of them. */
  lemma {:induction false} MaxLenIsMaximum(cells: Cells, col: string)
    ensures forall cell <- cells | cell.0 == col :: |cell.1| <= MaxLen(cells, col)
    ensures MaxLen(cells, col) == 0 || exists cell <- cells :: cell.0 == col && |cell.1| == MaxLen(cells, col)
    decreases |cells|
  {
    if cells != [] {
      var prefix := cells[..|cells| - 1];
      assert cells == prefix + [cells[|cells| - 1]];
      MaxLenIsMaximum(prefix, col);
    }
  }

  /** A column's width: its longest value, or its name if that is longer. */
  function Width(rows: seq<Cells>, col: string): nat {
    Max(|col|, MaxLen(AllCells(rows), col))
  }

  /** The width of a column is the largest of its name's length and its
      values' lengths: at least each of them, and equal to one of them. */
  lemma WidthIsMaximum(rows: seq<Cells>, col: string)
    ensures |col| <= Width(rows, col)
    ensures forall k, cell | 0 <= k < |rows| && cell in rows[k] && cell.0 == col :: |cell.1| <= Width(rows, col)
    ensures Width(rows, col) == |col| ||
            exists k, cell | 0 <= k < |rows| && cell in rows[k] :: cell.0 == col && |cell.1| == Width(rows, col)
  {
    MaxLenIsMaximum(AllCells(rows), col);
    forall k, cell | 0 <= k < |rows| && cell in rows[k] && cell.0 == col
      ensures |cell.1| <= Width(rows, col)
    {
      AllCellsContain(rows, k, cell);
    }
    if Width(rows, col) != |col| {
      var cell :| cell in AllCells(rows) && cell.0 == col && |cell.1| == Width(rows, col);
      AllCellsFrom(rows, cell);
    }
  }

  lemma AllCellsFrom(rows: seq<Cells>, cell: (string, string))
    requires cell in AllCells(rows)
    ensures exists k | 0 <= k < |rows| :: cell in rows[k]
    decreases |rows|
  {
    var n := |rows| - 1;
    if cell !in rows[n] {
      AllCellsFrom(rows[..n], cell);
      var k :| 0 <= k < n && cell in rows[..n][k];
      assert rows[k] == rows[..n][k];
    }
  }

  lemma DedupSnoc(xs: seq<string>, x: string)
    ensures Dedup(xs + [x]) == if x in Dedup(xs) then Dedup(xs) else Dedup(xs) + [x]
  {
    assert (xs + [x])[..|xs|] == xs;
  }

  lemma MaxLenSnoc(cells: Cells, cell: (string, string), col: string)
    ensures MaxLen(cells + [cell], col)
         == if cell.0 == col && |cell.1| > MaxLen(cells, col) then |cell.1| else MaxLen(cells, col)
  {
    assert (cells + [cell])[..|cells|] == cells;
  }

  /** The state of the first loop of `text_outputter` after `cells`: the
      keys seen, in first-seen order, and the longest value of each. */
  ghost predicate Measured(cells: Cells, columns: seq<string>, longest: map<string, nat>) {
    && columns == Dedup(Keys(cells))
    && (forall c :: c in longest <==> c in columns)
    && (forall c <- longest :: longest[c] == MaxLen(cells, c))
  }

  lemma KeysSnoc(cells: Cells, cell: (string, string))
    ensures Keys(cells + [cell]) == Keys(cells) + [cell.0]
  {
  }

  /** One more cell under a key already seen keeps the longer value. */
  lemma MeasuredSeen(cells: Cells, cell: (string, string), columns: seq<string>, longest: map<string, nat>)
    requires Measured(cells, columns, longest) && cell.0 in longest
    ensures Measured(cells + [cell], columns,
                     if |cell.1| > longest[cell.0] then longest[cell.0 := |cell.1|] else longest)
  {
    KeysSnoc(cells, cell);
    DedupSnoc(Keys(cells), cell.0);
    forall c ensures MaxLen(cells + [cell], c)
                  == if cell.0 == c && |cell.1| > MaxLen(cells, c) then |cell.1| else MaxLen(cells, c) {
      MaxLenSnoc(cells, cell, c);
    }
  }

  /** One more cell under a new key adds the key with its value's length. */
  lemma MeasuredNew(cells: Cells, cell: (string, string), columns: seq<string>, longest: map<string, nat>)
    requires Measured(cells, columns, longest) && cell.0 !in longest
    ensures Measured(cells + [cell], columns + [cell.0], longest[cell.0 := |cell.1|])
  {
    KeysSnoc(cells, cell);
    DedupSnoc(Keys(cells), cell.0);
    DedupIsSet(Keys(cells));
    MaxLenAbsent(cells, cell.0);
    forall c ensures MaxLen(cells + [cell], c)
                  == if cell.0 == c && |cell.1| > MaxLen(cells, c) then |cell.1| else MaxLen(cells, c) {
      MaxLenSnoc(cells, cell, c);
    }
  }

  /** A column no cell names has no longest value. */
  lemma {:induction false} MaxLenAbsent(cells: Cells, col: string)
    requires col !in Keys(cells)
    ensures MaxLen(cells, col) == 0
    decreases |cells|
  {
    if cells != [] {
      var prefix := cells[..|cells| - 1];
      assert Keys(prefix) == Keys(cells)[..|cells| - 1];
      MaxLenAbsent(prefix, col);
    }
  }

  /** The first loop of `text_outputter`: one pass over every cell keeps
      the longest value per key, keys in insertion order. */
  method LongestValues(cells: Cells) returns (columns: seq<string>, longest: map<string, nat>)
    ensures columns == Dedup(Keys(cells))
    ensures forall c :: c in longest <==> c in columns
    ensures forall c <- longest :: longest[c] == MaxLen(cells, c)
  {
    longest := map[];
    columns := [];
    var i := 0;
    assert Keys(cells[..0]) == [];
    while i < |cells|
      invariant i <= |cells|
      invariant Measured(cells[..i], columns, longest)
    {
      var key, value := cells[i].0, cells[i].1;
      assert cells[..i + 1] == cells[..i] + [(key, value)];
      if key in longest {
        MeasuredSeen(cells[..i], (key, value), columns, longest);
        if |value| > longest[key] {
          longest := longest[key := |value|];
        }
      } else {
        MeasuredNew(cells[..i], (key, value), columns, longest);
        longest := longest[key := |value|];
        columns := columns + [key];
      }
      i := i + 1;
    }
    assert cells[..i] == cells;
  }

  /** The first loops of `text_outputter`: the longest value per column,
      then each column widened to its name. */
  method MeasureColumns(rows: seq<Cells>) returns (columns: seq<string>, widths: map<string, nat>)
    ensures columns == Columns(rows)
    ensures forall c :: c in widths <==> c in columns
    ensures forall c <- columns :: widths[c] == Width(rows, c)
  {
    var cells := AllCells(rows);
    columns, widths := LongestValues(cells);
    DedupIsSet(Keys(cells));
    var j := 0;
    while j < |columns|
      invariant j <= |columns|
      invariant columns == Dedup(Keys(cells))
      invariant forall c :: c in widths <==> c in columns
      invariant forall k | 0 <= k < j :: widths[columns[k]] == Width(rows, columns[k])
      invariant forall k | j <= k < |columns| :: widths[columns[k]] == MaxLen(cells, columns[k])
    {
      var col := columns[j];
      widths := widths[col := Max(|col|, widths[col])];
      forall k | 0 <= k < |columns| && k != j ensures columns[k] != col {
      }
      j := j + 1;
    }
  }

  // ---------------------------------------------------------------------
  // Lines

  /** The value a row holds under `col`, if any: that of its first cell
      with the key. */
  function Lookup(row: Cells, col: string): Option<string>
    decreases |row|
  {
    if row == [] then None
    else if row[0].0 == col then Some(row[0].1)
    else Lookup(row[1..], col)
  }

  /** `Lookup` finds a value exactly when some cell carries the key, and
      the value it finds is one the row holds under the key. */
  lemma {:induction false} LookupFinds(row: Cells, col: string)
    ensures Lookup(row, col).Some? <==> exists cell <- row :: cell.0 == col
    ensures Lookup(row, col).Some? ==> (col, Lookup(row, col).value) in row
    decreases |row|
  {
    if row != [] && row[0].0 != col {
      LookupFinds(row[1..], col);
      assert forall cell <- row[1..] :: cell in row;
      forall cell <- row | cell.0 == col ensures cell in row[1..] {
        var k :| 0 <= k < |row| && row[k] == cell;
        assert row[1..][k - 1] == cell;
      }
    }
  }

  /** For a row that is a Python dict, `Lookup` is `d[col]`: it finds
      exactly the value the row holds under `col`. */
  lemma {:induction false} LookupDict(row: Cells, col: string, v: string)
    requires DistinctKeys(row)
    ensures Lookup(row, col) == Some(v) <==> (col, v) in row
    decreases |row|
  {
    if row != [] {
      if row[0].0 == col {
        forall k | 0 <= k < |row| && row[k] == (col, v) ensures v == row[0].1 {
          assert k == 0;
        }
      } else {
        assert DistinctKeys(row[1..]) by {
          forall i, j | 0 <= i < j < |row[1..]| ensures row[1..][i].0 != row[1..][j].0 {
            assert row[1..][i] == row[i + 1] && row[1..][j] == row[j + 1];
          }
        }
        LookupDict(row[1..], col, v);
        assert (col, v) in row <==> (col, v) in row[1..] by {
          assert row == [row[0]] + row[1..];
        }
      }
    }
  }

  /** Where column `i` starts when every earlier column takes its width plus two. */
  function Offset(widths: seq<nat>, i: nat): nat
    requires i <= |widths|
  {
    if i == 0 then 0 else widths[0] + 2 + Offset(widths[1..], i - 1)
  }

  /** Every text but the last left-justified to its width plus two; the last as it is. */
  function PadJoin(texts: seq<string>, widths: seq<nat>): string
    requires |texts| == |widths|
    decreases |texts|
  {
    if |texts| == 0 then ""
    else if |texts| == 1 then texts[0]
    else LJust(texts[0], widths[0] + 2) + PadJoin(texts[1..], widths[1..])
  }

  /** Column `i` sits at `Offset(widths, i)` in the line and spans exactly
      its width plus two. */
  predicate ColumnAt(texts: seq<string>, widths: seq<nat>, i: nat)
    requires |texts| == |widths| && i < |texts|
  {
    && Offset(widths, i) + widths[i] + 2 <= |PadJoin(texts, widths)|
    && PadJoin(texts, widths)[Offset(widths, i)..Offset(widths, i) + widths[i] + 2] == LJust(texts[i], widths[i] + 2)
  }

  /** Each padded text that fits its width sits where `ColumnAt` says. */
  lemma {:induction false} PadJoinAligned(texts: seq<string>, widths: seq<nat>, i: nat)
    requires |texts| == |widths| && Fits(texts, widths)
    requires i < |texts| - 1
    ensures ColumnAt(texts, widths, i)
    decreases |texts|
  {
    FitsTail(texts, widths);
    if i > 0 {
      PadJoinAligned(texts[1..], widths[1..], i - 1);
      PadJoinAlignedStep(texts, widths, i);
    } else {
      PadJoinAlignedFirst(texts, widths);
    }
  }

  lemma PadJoinAlignedFirst(texts: seq<string>, widths: seq<nat>)
    requires |texts| == |widths| > 1 && |texts[0]| <= widths[0]
    ensures ColumnAt(texts, widths, 0)
  {
    var head := LJust(texts[0], widths[0] + 2);
    var rest := PadJoin(texts[1..], widths[1..]);
    assert PadJoin(texts, widths) == head + rest;
    SliceAfter(head, rest, 0, 0, []);
  }

  /** Column `i` of the tail, shifted past the first padded column. */
  lemma PadJoinAlignedStep(texts: seq<string>, widths: seq<nat>, i: nat)
    requires |texts| == |widths| && 0 < i < |texts| - 1 && |texts[0]| <= widths[0]
    requires ColumnAt(texts[1..], widths[1..], i - 1)
    ensures ColumnAt(texts, widths, i)
  {
    var o := Offset(widths[1..], i - 1);
    assert texts[1..][i - 1] == texts[i] && widths[1..][i - 1] == widths[i];
    PadJoinCons(texts, widths);
    assert |LJust(texts[0], widths[0] + 2)| == widths[0] + 2;
    assert Offset(widths, i) == widths[0] + 2 + o;
    ShiftedColumn(PadJoin(texts, widths), LJust(texts[0], widths[0] + 2), PadJoin(texts[1..], widths[1..]),
                  Offset(widths, i), o, widths[i] + 2, LJust(texts[i], widths[i] + 2));
  }

  lemma PadJoinCons(texts: seq<string>, widths: seq<nat>)
    requires |texts| == |widths| > 1
    ensures PadJoin(texts, widths) == LJust(texts[0], widths[0] + 2) + PadJoin(texts[1..], widths[1..])
  {
  }

  /** A piece of the tail sits past the head. */
  lemma ShiftedColumn(line: string, head: string, rest: string, start: nat, o: nat, n: nat, piece: string)
    requires line == head + rest && start == |head| + o
    requires o + n <= |rest| && rest[o..o + n] == piece
    ensures start + n <= |line| && line[start..start + n] == piece
  {
    SliceAfter(head, rest, o, n, piece);
  }

  /** Every text but the last is no longer than its width. */
  predicate Fits(texts: seq<string>, widths: seq<nat>)
    requires |texts| == |widths|
  {
    forall k | 0 <= k < |texts| - 1 :: |texts[k]| <= widths[k]
  }

  lemma FitsTail(texts: seq<string>, widths: seq<nat>)
    requires |texts| == |widths| > 0 && Fits(texts, widths)
    ensures Fits(texts[1..], widths[1..]) && (|texts| > 1 ==> |texts[0]| <= widths[0])
  {
    forall k | 0 <= k < |texts[1..]| - 1 ensures |texts[1..][k]| <= widths[1..][k] {
      assert texts[1..][k] == texts[k + 1];
    }
  }

  /** A slice of the tail, shifted past the head. */
  lemma SliceAfter(head: string, rest: string, o: nat, n: nat, piece: string)
    requires o + n <= |rest| && rest[o..o + n] == piece
    ensures |head| + o + n <= |head + rest|
    ensures (head + rest)[|head| + o..|head| + o + n] == piece
    ensures (head + rest)[..|head|] == head
  {
  }

  /** The last column starts after every padded one. */
  lemma {:induction false} PadJoinLength(texts: seq<string>, widths: seq<nat>)
    requires |texts| == |widths| > 0
    requires forall k | 0 <= k < |texts| - 1 :: |texts[k]| <= widths[k]
    ensures |PadJoin(texts, widths)| == Offset(widths, |texts| - 1) + |texts[|texts| - 1]|
    decreases |texts|
  {
    if |texts| > 1 {
      PadJoinLength(texts[1..], widths[1..]);
    }
  }

  function ColumnWidths(rows: seq<Cells>, columns: seq<string>): (ws: seq<nat>)
    ensures |ws| == |columns| && forall i | 0 <= i < |columns| :: ws[i] == Width(rows, columns[i])
  {
    seq(|columns|, i requires 0 <= i < |columns| => Width(rows, columns[i]))
  }

  function Names(columns: seq<string>): (names: seq<string>)
    ensures |names| == |columns| && forall i | 0 <= i < |columns| :: names[i] == Upper(columns[i])
  {
    seq(|columns|, i requires 0 <= i < |columns| => Upper(columns[i]))
  }

  /** The column line: names upper-cased, padded but for the last. */
  function Header(columns: seq<string>, widths: seq<nat>): string
    requires |columns| == |widths|
  {
    PadJoin(Names(columns), widths)
  }

  /** A cell's text, empty when the row lacks the column. */
  function CellText(row: Cells, col: string): string {
    Lookup(row, col).GetOr("")
  }

  /** A data line: each cell padded but for the last; a missing cell is
      blank space of its column's width. */
  function DataLine(row: Cells, columns: seq<string>, widths: seq<nat>): string
    requires |columns| == |widths|
  {
    PadJoin(Texts(row, columns), widths)
  }

  function Texts(row: Cells, columns: seq<string>): (texts: seq<string>)
    ensures |texts| == |columns| && forall i | 0 <= i < |columns| :: texts[i] == CellText(row, columns[i])
  {
    seq(|columns|, i requires 0 <= i < |columns| => CellText(row, columns[i]))
  }

  /** `text_outputter`: the column line, then one line per kept row, built
      by the data-line loop as written. The column line is the aligned one. */
  function TextOutputter(rows: seq<Cells>, maxRows: Option<int>): (lines: seq<string>)
    ensures |lines| == |Truncate(rows, maxRows)| + 1
    ensures lines[0] == Table(Truncate(rows, maxRows))[0]
  {
    TableAsWritten(Truncate(rows, maxRows))
  }

  /** The lines `text_outputter` prints for the rows that are kept. */
  function TableAsWritten(rows: seq<Cells>): (lines: seq<string>)
    ensures |lines| == |rows| + 1
    ensures lines[0] == Table(rows)[0]
  {
    var columns := Columns(rows);
    var widths := ColumnWidths(rows, columns);
    [Header(columns, widths)] + DataLinesAsWritten(rows, columns, widths)
  }

  function DataLinesAsWritten(rows: seq<Cells>, columns: seq<string>, widths: seq<nat>): (lines: seq<string>)
    requires |columns| == |widths|
    ensures |lines| == |rows| && forall n | 0 <= n < |rows| :: lines[n] == DataLineAsWritten(rows[n], columns, widths)
  {
    seq(|rows|, n requires 0 <= n < |rows| => DataLineAsWritten(rows[n], columns, widths))
  }

  /** The corrected layout: the same column line, and data lines in which a
      missing cell is blank space of its column's width. */
  function Table(rows: seq<Cells>): (lines: seq<string>)
    ensures |lines| == |rows| + 1
  {
    var columns := Columns(rows);
    var widths := ColumnWidths(rows, columns);
    [Header(columns, widths)] + DataLines(rows, columns, widths)
  }

  function DataLines(rows: seq<Cells>, columns: seq<string>, widths: seq<nat>): (lines: seq<string>)
    requires |columns| == |widths|
    ensures |lines| == |rows| && forall n | 0 <= n < |rows| :: lines[n] == DataLine(rows[n], columns, widths)
  {
    seq(|rows|, n requires 0 <= n < |rows| => DataLine(rows[n], columns, widths))
  }

  /** A name fits its column. */
  lemma NameFits(rows: seq<Cells>, col: string)
    ensures |Upper(col)| <= Width(rows, col)
  {
    WidthIsMaximum(rows, col);
  }

  /** A value fits its column. */
  lemma CellFits(rows: seq<Cells>, n: nat, col: string)
    requires n < |rows|
    ensures |CellText(rows[n], col)| <= Width(rows, col)
  {
    WidthIsMaximum(rows, col);
    LookupFinds(rows[n], col);
    if Lookup(rows[n], col).Some? {
      assert (col, CellText(rows[n], col)) in rows[n];
    }
  }

  /** The column line places column `i` at its offset, padded to its width. */
  lemma HeaderAligned(rows: seq<Cells>, i: nat)
    requires i < |Columns(rows)| - 1
    ensures var columns := Columns(rows);
            var widths := ColumnWidths(rows, columns);
            var o := Offset(widths, i);
            && o + widths[i] + 2 <= |Header(columns, widths)|
            && Header(columns, widths)[o..o + widths[i] + 2] == LJust(Upper(columns[i]), widths[i] + 2)
  {
    NamesFit(rows);
    PadJoinAligned(Names(Columns(rows)), ColumnWidths(rows, Columns(rows)), i);
  }

  /** Every column's name fits its width. */
  lemma NamesFit(rows: seq<Cells>)
    ensures var columns := Columns(rows);
            var widths := ColumnWidths(rows, columns);
            forall k | 0 <= k < |columns| :: |Names(columns)[k]| <= widths[k]
  {
    var columns := Columns(rows);
    forall k | 0 <= k < |columns| ensures |Names(columns)[k]| <= ColumnWidths(rows, columns)[k] {
      NameFits(rows, columns[k]);
    }
  }

  /** Data line `n` places column `i` at the same offset, padded to the same width. */
  lemma DataLineAligned(rows: seq<Cells>, n: nat, i: nat)
    requires n < |rows| && i < |Columns(rows)| - 1
    ensures var columns := Columns(rows);
            var widths := ColumnWidths(rows, columns);
            var o := Offset(widths, i);
            && o + widths[i] + 2 <= |DataLine(rows[n], columns, widths)|
            && DataLine(rows[n], columns, widths)[o..o + widths[i] + 2] == LJust(CellText(rows[n], columns[i]), widths[i] + 2)
  {
    TextsFit(rows, n);
    PadJoinAligned(Texts(rows[n], Columns(rows)), ColumnWidths(rows, Columns(rows)), i);
  }

  /** Every cell of row `n` fits its column's width. */
  lemma TextsFit(rows: seq<Cells>, n: nat)
    requires n < |rows|
    ensures var columns := Columns(rows);
            var widths := ColumnWidths(rows, columns);
            forall k | 0 <= k < |columns| :: |Texts(rows[n], columns)[k]| <= widths[k]
  {
    var columns := Columns(rows);
    forall k | 0 <= k < |columns| ensures |Texts(rows[n], columns)[k]| <= ColumnWidths(rows, columns)[k] {
      CellFits(rows, n, columns[k]);
    }
  }

  /** The column line of the table puts column `i` (any but the last) at
      `Offset(widths, i)`, its upper-cased name padded to the column width. */
  lemma TableHeaderAligned(rows: seq<Cells>, i: nat)
    requires i < |Columns(rows)| - 1
    ensures var columns := Columns(rows);
            var widths := ColumnWidths(rows, columns);
            var o := Offset(widths, i);
            && o + widths[i] + 2 <= |Table(rows)[0]|
            && Table(rows)[0][o..o + widths[i] + 2] == LJust(Upper(columns[i]), widths[i] + 2)
  {
    HeaderAligned(rows, i);
  }

  /** Line `n + 1` of the table puts column `i` (any but the last) at the
      same offset as the column line, row `n`'s value padded to the same
      width: every line lines up under the header. */
  lemma TableRowAligned(rows: seq<Cells>, n: nat, i: nat)
    requires n < |rows| && i < |Columns(rows)| - 1
    ensures var columns := Columns(rows);
            var widths := ColumnWidths(rows, columns);
            var o := Offset(widths, i);
            && o + widths[i] + 2 <= |Table(rows)[n + 1]|
            && Table(rows)[n + 1][o..o + widths[i] + 2] == LJust(CellText(rows[n], columns[i]), widths[i] + 2)
  {
    var columns := Columns(rows);
    var widths := ColumnWidths(rows, columns);
    assert Table(rows)[n + 1] == DataLines(rows, columns, widths)[n];
    DataLineAligned(rows, n, i);
  }

  // ---------------------------------------------------------------------
  // The data line as the source builds it

  /** The data-line loop as written: a missing cell before the last column
      replaces the whole line so far by blank space of its width, and a
      missing last cell adds nothing. */
  function DataLineAsWritten(row: Cells, columns: seq<string>, widths: seq<nat>): string
    requires |columns| == |widths|
  {
    WrittenFrom(row, columns, widths, 0, "")
  }

  function WrittenFrom(row: Cells, columns: seq<string>, widths: seq<nat>, i: nat, line: string): string
    requires |columns| == |widths| && i <= |columns|
    decreases |columns| - i
  {
    if i == |columns| then line
    else
      var cell := Lookup(row, columns[i]);
      if i != |columns| - 1 then
        var next := if cell.Some? then line + LJust(cell.value, widths[i] + 2) else Spaces(widths[i] + 2);
        WrittenFrom(row, columns, widths, i + 1, next)
      else if cell.Some? then line + cell.value
      else line
  }

  /** A row that holds every column before the last gets the same line from
      the loop as written and from the corrected one. */
  lemma {:induction false} AsWrittenAgreesWhenComplete(row: Cells, columns: seq<string>, widths: seq<nat>)
    requires |columns| == |widths|
    requires forall k | 0 <= k < |columns| - 1 :: Lookup(row, columns[k]).Some?
    ensures DataLineAsWritten(row, columns, widths) == DataLine(row, columns, widths)
  {
    var texts := Texts(row, columns);
    WrittenFromPadJoin(row, columns, widths, texts, 0, "");
  }

  lemma {:induction false} WrittenFromPadJoin(row: Cells, columns: seq<string>, widths: seq<nat>, texts: seq<string>,
                                              i: nat, line: string)
    requires |columns| == |widths| == |texts| && i <= |columns|
    requires forall k | 0 <= k < |columns| :: texts[k] == CellText(row, columns[k])
    requires forall k | i <= k < |columns| - 1 :: Lookup(row, columns[k]).Some?
    ensures WrittenFrom(row, columns, widths, i, line) == line + PadJoin(texts[i..], widths[i..])
    decreases |columns| - i
  {
    if i == |columns| {
      assert texts[i..] == [];
    } else if i != |columns| - 1 {
      var padded := LJust(texts[i], widths[i] + 2);
      assert texts[i] == CellText(row, columns[i]) && Lookup(row, columns[i]).Some?;
      WrittenFromPadJoin(row, columns, widths, texts, i + 1, line + padded);
      WrittenFromStep(row, columns, widths, texts, i, line);
    } else {
      WrittenFromLast(row, columns, widths, texts, line);
    }
  }

  /** A present cell before the last column is appended, padded. */
  lemma WrittenFromStep(row: Cells, columns: seq<string>, widths: seq<nat>, texts: seq<string>, i: nat, line: string)
    requires |columns| == |widths| == |texts| && i < |columns| - 1
    requires texts[i] == CellText(row, columns[i]) && Lookup(row, columns[i]).Some?
    requires var padded := LJust(texts[i], widths[i] + 2);
             WrittenFrom(row, columns, widths, i + 1, line + padded) == line + padded + PadJoin(texts[i + 1..], widths[i + 1..])
    ensures WrittenFrom(row, columns, widths, i, line) == line + PadJoin(texts[i..], widths[i..])
  {
    var padded := LJust(texts[i], widths[i] + 2);
    var rest := PadJoin(texts[i + 1..], widths[i + 1..]);
    WrittenFromPresent(row, columns, widths, i, line);
    PadJoinFrom(texts, widths, i);
    ConcatAssoc(line, padded, rest);
  }

  lemma ConcatAssoc(a: string, b: string, c: string)
    ensures a + b + c == a + (b + c)
  {
  }

  /** A present cell before the last column is padded onto the line. */
  lemma WrittenFromPresent(row: Cells, columns: seq<string>, widths: seq<nat>, i: nat, line: string)
    requires |columns| == |widths| && i < |columns| - 1 && Lookup(row, columns[i]).Some?
    ensures WrittenFrom(row, columns, widths, i, line)
         == WrittenFrom(row, columns, widths, i + 1, line + LJust(CellText(row, columns[i]), widths[i] + 2))
  {
  }

  /** From column `i` on, with a later column to come, the line is column
      `i` padded, then the rest. */
  lemma PadJoinFrom(texts: seq<string>, widths: seq<nat>, i: nat)
    requires |texts| == |widths| && i < |texts| - 1
    ensures PadJoin(texts[i..], widths[i..]) == LJust(texts[i], widths[i] + 2) + PadJoin(texts[i + 1..], widths[i + 1..])
  {
    assert texts[i..][1..] == texts[i + 1..] && widths[i..][1..] == widths[i + 1..];
  }

  /** The last column's cell, if present, ends the line unpadded. */
  lemma WrittenFromLast(row: Cells, columns: seq<string>, widths: seq<nat>, texts: seq<string>, line: string)
    requires |columns| == |widths| == |texts| > 0
    requires texts[|columns| - 1] == CellText(row, columns[|columns| - 1])
    ensures WrittenFrom(row, columns, widths, |columns| - 1, line)
         == line + PadJoin(texts[|columns| - 1..], widths[|columns| - 1..])
  {
    var i := |columns| - 1;
    assert texts[i..] == [texts[i]];
    if Lookup(row, columns[i]).None? {
      assert line + "" == line;
    }
  }

  /** A missing cell in column `j` (any but the last) throws away whatever
      the loop built before it: the line restarts as blank space. */
  lemma {:induction false} ResetForgets(row: Cells, columns: seq<string>, widths: seq<nat>, i: nat, line: string, j: nat)
    requires |columns| == |widths| && i <= j < |columns| - 1
    requires Lookup(row, columns[j]).None?
    ensures WrittenFrom(row, columns, widths, i, line) == WrittenFrom(row, columns, widths, j + 1, Spaces(widths[j] + 2))
    decreases j - i
  {
    if i < j {
      var cell := Lookup(row, columns[i]);
      var next := if cell.Some? then line + LJust(cell.value, widths[i] + 2) else Spaces(widths[i] + 2);
      ResetForgets(row, columns, widths, i + 1, next, j);
    }
  }

  /** Line `n + 1` printed for a row that lacks column `j` (any but the
      last) is what the loop builds from column `j + 1` on, starting from
      blank space: nothing of the columns before `j` survives. */
  lemma TextLineResets(rows: seq<Cells>, n: nat, j: nat)
    requires n < |rows| && j < |Columns(rows)| - 1
    requires Lookup(rows[n], Columns(rows)[j]).None?
    ensures var columns := Columns(rows);
            var widths := ColumnWidths(rows, columns);
            TableAsWritten(rows)[n + 1] == WrittenFrom(rows[n], columns, widths, j + 1, Spaces(widths[j] + 2))
  {
    AsWrittenLine(rows, n);
    LineResets(rows[n], Columns(rows), ColumnWidths(rows, Columns(rows)), j);
  }

  /** Line `n + 1` of the printed table is row `n`'s line from the loop as written. */
  lemma AsWrittenLine(rows: seq<Cells>, n: nat)
    requires n < |rows|
    ensures TableAsWritten(rows)[n + 1] == DataLineAsWritten(rows[n], Columns(rows), ColumnWidths(rows, Columns(rows)))
  {
    var columns := Columns(rows);
    var widths := ColumnWidths(rows, columns);
    assert TableAsWritten(rows)[n + 1] == DataLinesAsWritten(rows, columns, widths)[n];
  }

  /** Line `n + 1` of the corrected table is row `n`'s corrected line. */
  lemma CorrectedLine(rows: seq<Cells>, n: nat)
    requires n < |rows|
    ensures Table(rows)[n + 1] == DataLine(rows[n], Columns(rows), ColumnWidths(rows, Columns(rows)))
  {
    var columns := Columns(rows);
    var widths := ColumnWidths(rows, columns);
    assert Table(rows)[n + 1] == DataLines(rows, columns, widths)[n];
  }

  lemma LineResets(row: Cells, columns: seq<string>, widths: seq<nat>, j: nat)
    requires |columns| == |widths| && j < |columns| - 1
    requires Lookup(row, columns[j]).None?
    ensures DataLineAsWritten(row, columns, widths) == WrittenFrom(row, columns, widths, j + 1, Spaces(widths[j] + 2))
  {
    ResetForgets(row, columns, widths, 0, "", j);
  }

  /** A row that holds every column before the last is printed as the
      corrected layout prints it. */
  lemma TextLineAgreesWhenComplete(rows: seq<Cells>, n: nat)
    requires n < |rows|
    requires forall k | 0 <= k < |Columns(rows)| - 1 :: Lookup(rows[n], Columns(rows)[k]).Some?
    ensures TableAsWritten(rows)[n + 1] == Table(rows)[n + 1]
  {
    AsWrittenLine(rows, n);
    CorrectedLine(rows, n);
    AsWrittenAgreesWhenComplete(rows[n], Columns(rows), ColumnWidths(rows, Columns(rows)));
  }

  /** Such a row's line puts column `i` (any but the last) under its name
      in the column line, its value padded to the column width. */
  lemma TextRowAlignedWhenComplete(rows: seq<Cells>, n: nat, i: nat)
    requires n < |rows| && i < |Columns(rows)| - 1
    requires forall k | 0 <= k < |Columns(rows)| - 1 :: Lookup(rows[n], Columns(rows)[k]).Some?
    ensures var columns := Columns(rows);
            var widths := ColumnWidths(rows, columns);
            var o := Offset(widths, i);
            && o + widths[i] + 2 <= |TableAsWritten(rows)[n + 1]|
            && TableAsWritten(rows)[n + 1][o..o + widths[i] + 2] == LJust(CellText(rows[n], columns[i]), widths[i] + 2)
  {
    TextLineAgreesWhenComplete(rows, n);
    TableRowAligned(rows, n, i);
  }

  const ResetRows: seq<Cells> := [[("a", "1"), ("b", "2"), ("c", "3")], [("a", "1"), ("c", "3")]]

  lemma ResetRowsCells()
    ensures Keys(AllCells(ResetRows)) == ["a", "b", "c", "a", "c"]
  {
    assert AllCells(ResetRows[..1]) == ResetRows[0] by {
      assert ResetRows[..1][..0] == [];
    }
    var cells := AllCells(ResetRows);
    assert cells == [("a", "1"), ("b", "2"), ("c", "3"), ("a", "1"), ("c", "3")];
    var keys := Keys(cells);
    assert |keys| == 5 && keys[0] == "a" && keys[1] == "b" && keys[2] == "c" && keys[3] == "a" && keys[4] == "c";
  }

  lemma ResetRowsColumns()
    ensures Columns(ResetRows) == ["a", "b", "c"]
  {
    ResetRowsCells();
    ResetKeysDedup();
  }

  lemma ResetKeysDedup()
    ensures Dedup(["a", "b", "c", "a", "c"]) == ["a", "b", "c"]
  {
    DedupRepeats("a", "b", "c");
  }

  lemma DedupRepeats(a: string, b: string, c: string)
    requires a != b && b != c && a != c
    ensures Dedup([a, b, c, a, c]) == [a, b, c]
  {
    DedupDistinct(a, b, c);
    DedupSeen([a, b, c], a, [a, b, c]);
    assert [a, b, c] + [a] == [a, b, c, a];
    DedupSeen([a, b, c, a], c, [a, b, c]);
    assert [a, b, c, a] + [c] == [a, b, c, a, c];
  }

  /** Three distinct keys are kept in order. */
  lemma DedupDistinct(a: string, b: string, c: string)
    requires a != b && b != c && a != c
    ensures Dedup([a, b, c]) == [a, b, c]
  {
    DedupOne(a);
    DedupFresh([a], b, [a]);
    assert [a] + [b] == [a, b];
    DedupFresh([a, b], c, [a, b]);
    assert [a, b] + [c] == [a, b, c];
  }

  /** A key not seen before is appended. */
  lemma DedupFresh(xs: seq<string>, x: string, d: seq<string>)
    requires Dedup(xs) == d && x !in d
    ensures Dedup(xs + [x]) == d + [x]
  {
    DedupSnoc(xs, x);
  }

  /** A key seen before adds nothing. */
  lemma DedupSeen(xs: seq<string>, x: string, d: seq<string>)
    requires Dedup(xs) == d && x in d
    ensures Dedup(xs + [x]) == d
  {
    DedupSnoc(xs, x);
  }

  lemma DedupOne(x: string)
    ensures Dedup([x]) == [x]
  {
    assert [x][..0] == [];
  }

  lemma ResetRowsWidths()
    ensures ColumnWidths(ResetRows, ["a", "b", "c"]) == [1, 1, 1]
  {
    var cells := AllCells(ResetRows);
    assert cells == ResetRows[0] + ResetRows[1] by {
      assert AllCells(ResetRows[..1]) == ResetRows[0] by {
        assert ResetRows[..1][..0] == [];
      }
    }
    forall col <- ["a", "b", "c"] ensures MaxLen(cells, col) == 1 {
      MaxLenIsMaximum(cells, col);
    }
  }

  lemma ResetLineAsWritten()
    ensures DataLineAsWritten(ResetRows[1], ["a", "b", "c"], [1, 1, 1]) == "   3"
  {
    assert Lookup(ResetRows[1], "b") == None;
    assert LJust("1", 3) == "1  ";
    assert Spaces(3) == "   ";
  }

  lemma ResetLineCorrected()
    ensures DataLine(ResetRows[1], ["a", "b", "c"], [1, 1, 1]) == "1     3"
  {
    assert Lookup(ResetRows[1], "b") == None;
    assert Texts(ResetRows[1], ["a", "b", "c"]) == ["1", "", "3"];
    assert LJust("1", 3) == "1  ";
    assert LJust("", 3) == "   ";
  }

  /** The reset in action: columns a, b, c of width 1, a second row without
      b. As written the line loses the value of a; corrected it keeps it. */
  lemma ResetDropsEarlierCells()
    ensures var columns := Columns(ResetRows);
            var widths := ColumnWidths(ResetRows, columns);
            && columns == ["a", "b", "c"]
            && widths == [1, 1, 1]
            && DataLineAsWritten(ResetRows[1], columns, widths) == "   3"
            && DataLine(ResetRows[1], columns, widths) == "1     3"
  {
    ResetRowsColumns();
    ResetRowsWidths();
    ResetLineAsWritten();
    ResetLineCorrected();
  }
}
