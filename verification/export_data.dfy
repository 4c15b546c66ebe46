/**
 * The extracted data of one document as the exporters read it, and the grouping of table
 * cells by row that the Excel, PDF and Word exporters share.
 *
 * A document's data is a dictionary that may hold `fields` (template extraction) and/or
 * `cells` (table detection) and, for tables, `rows`, `cols` and `headers`. Every `.get(key,
 * default)` on a cell or a field is resolved into the record below: a missing `row`/`col` is
 * 0, a missing `text`/`name`/`value` is "", a missing `confidence` is 0.
 */
module ExportData {
  import opened Options
  import opened Dicts
  import opened Sorting

  datatype ExportCell = ExportCell(row: nat, col: nat, text: string)

  datatype FieldEntry = FieldEntry(name: string, value: string, confidence: real)

  /** `fields`/`cells` are None when the key is absent from the dictionary. */
  datatype DocData = DocData(fields: Option<seq<FieldEntry>>, cells: Option<seq<ExportCell>>,
                             rows: int, cols: int, headers: Dict<string>)

  /** `row_data`: row index to (column index to text). */
  type RowMap = map<nat, map<nat, string>>

  /** The row dictionary after the loop has seen every cell of `cells`: each cell is stored
      under its row and column, overwriting an earlier cell at the same position. */
  function Grouped(cells: seq<ExportCell>): RowMap {
    if cells == [] then map[]
    else
      var g, c := Grouped(cells[..|cells| - 1]), cells[|cells| - 1];
      g[c.row := (if c.row in g then g[c.row] else map[])[c.col := c.text]]
  }

  /** The text of the last cell at (r, c), if any. */
  function LastAt(cells: seq<ExportCell>, r: nat, c: nat): Option<string> {
    if cells == [] then None
    else
      var last := cells[|cells| - 1];
      if last.row == r && last.col == c then Some(last.text) else LastAt(cells[..|cells| - 1], r, c)
  }

  /** The position a grouped row dictionary holds for (r, c). */
  function Entry(g: RowMap, r: nat, c: nat): Option<string> {
    if r in g && c in g[r] then Some(g[r][c]) else None
  }

  /** `.get(key, '')` on a lookup result. */
  function OrEmpty(o: Option<string>): string {
    if o.Some? then o.value else ""
  }

  /** A new table row of `n` cells, each holding the empty text. */
  function Blanks(n: nat): (r: seq<string>)
    ensures |r| == n && forall i :: 0 <= i < n ==> r[i] == ""
  {
    seq(n, _ => "")
  }

  /** The grouping loop: `row_data.setdefault(row, {})[col] = text` for every cell in order. */
  method GroupByRow(cells: seq<ExportCell>) returns (rowData: RowMap)
    ensures rowData == Grouped(cells)
  {
    rowData := map[];
    for i := 0 to |cells|
      invariant rowData == Grouped(cells[..i])
    {
      assert cells[..i + 1][..i] == cells[..i];
      var c := cells[i];
      if c.row !in rowData {
        var empty: map<nat, string> := map[];
        rowData := rowData[c.row := empty];
      }
      var inner: map<nat, string> := rowData[c.row];
      rowData := rowData[c.row := inner[c.col := c.text]];
    }
    assert cells[..|cells|] == cells;
  }

  /** Later cells win: the grouped dictionary holds at (r, c) exactly the text of the last cell
      at that position, and has a row exactly when some cell has that row index. */
  lemma {:induction false} GroupedIsLast(cells: seq<ExportCell>, r: nat, c: nat)
    ensures Entry(Grouped(cells), r, c) == LastAt(cells, r, c)
    ensures r in Grouped(cells) <==> exists k :: 0 <= k < |cells| && cells[k].row == r
    decreases |cells|
  {
    if cells != [] {
      var init := cells[..|cells| - 1];
      GroupedIsLast(init, r, c);
      forall k | 0 <= k < |init| ensures init[k] == cells[k] { }
    }
  }

  /** The last cell at a position is found exactly when some cell is at that position, and no
      later cell is. */
  lemma {:induction false} LastAtIsLast(cells: seq<ExportCell>, r: nat, c: nat)
    ensures LastAt(cells, r, c).None? <==> forall k :: 0 <= k < |cells| ==> !(cells[k].row == r && cells[k].col == c)
    ensures LastAt(cells, r, c).Some? ==>
      exists k :: 0 <= k < |cells| && cells[k] == ExportCell(r, c, LastAt(cells, r, c).value) &&
        forall l :: k < l < |cells| ==> !(cells[l].row == r && cells[l].col == c)
    decreases |cells|
  {
    if cells != [] {
      var n := |cells| - 1;
      var init, last := cells[..n], cells[n];
      LastAtIsLast(init, r, c);
      assert forall k :: 0 <= k < n ==> init[k] == cells[k];
      if last.row == r && last.col == c {
        assert cells[n] == ExportCell(r, c, last.text);
      } else if LastAt(init, r, c).Some? {
        var k :| 0 <= k < n && init[k] == ExportCell(r, c, LastAt(init, r, c).value) &&
          forall l :: k < l < n ==> !(init[l].row == r && init[l].col == c);
        assert cells[k] == init[k];
      }
    }
  }

  function RowsOf(cells: seq<ExportCell>): (r: seq<int>)
    ensures |r| == |cells| && forall k :: 0 <= k < |cells| ==> r[k] == cells[k].row
  {
    seq(|cells|, k requires 0 <= k < |cells| => cells[k].row as int)
  }

  /** The positive entries of an ascending list, in order. */
  function Positives(xs: seq<int>): (r: seq<nat>)
    requires StrictlyIncreasing(xs)
    ensures StrictlyIncreasing(r)
    ensures forall x :: x in r <==> x in xs && x > 0
  {
    if xs == [] then []
    else
      var rest := Positives(xs[1..]);
      if xs[0] > 0 then
        assert forall k :: 0 <= k < |rest| ==> xs[0] < rest[k] by {
          forall k | 0 <= k < |rest| ensures xs[0] < rest[k] {
            assert rest[k] in xs[1..];
          }
        }
        [xs[0] as nat] + rest
      else rest
  }

  /** `[r for r in sorted(row_data.keys()) if r > 0]`: the data rows, ascending. */
  function DataRows(cells: seq<ExportCell>): (r: seq<nat>)
    ensures StrictlyIncreasing(r)
    ensures forall x :: x in r <==> x > 0 && exists k :: 0 <= k < |cells| && cells[k].row == x
  {
    var rs := RowsOf(cells);
    var r := Positives(SortedUnique(rs));
    assert forall x :: x in rs <==> exists k :: 0 <= k < |cells| && cells[k].row == x by {
      forall x ensures x in rs <==> exists k :: 0 <= k < |cells| && cells[k].row == x {
        if x in rs {
          var k :| 0 <= k < |rs| && rs[k] == x;
        }
        if exists k :: 0 <= k < |cells| && cells[k].row == x {
          var k :| 0 <= k < |cells| && cells[k].row == x;
          assert rs[k] == x;
        }
      }
    }
    r
  }

  /** The data rows are exactly the positive row keys of the grouped dictionary. */
  lemma DataRowsAreKeys(cells: seq<ExportCell>, x: nat)
    ensures x in DataRows(cells) <==> x > 0 && x in Grouped(cells)
  {
    GroupedIsLast(cells, x, 0);
  }

  /** The columns of the cells in row r, in cell order. */
  function ColsIn(cells: seq<ExportCell>, r: nat): (cs: seq<int>)
    ensures forall x :: x in cs <==> exists k :: 0 <= k < |cells| && cells[k].row == r && cells[k].col == x
    ensures forall x :: x in cs ==> x >= 0
  {
    if cells == [] then []
    else
      var init, c := cells[..|cells| - 1], cells[|cells| - 1];
      assert forall k :: 0 <= k < |init| ==> init[k] == cells[k];
      ColsIn(init, r) + (if c.row == r then [c.col as int] else [])
  }

  /** `sorted(row_data[r].keys())` */
  function RowCols(cells: seq<ExportCell>, r: nat): (cs: seq<nat>)
    ensures StrictlyIncreasing(cs)
    ensures forall x :: x in cs <==> exists k :: 0 <= k < |cells| && cells[k].row == r && cells[k].col == x
  {
    var s := SortedUnique(ColsIn(cells, r));
    assert forall i :: 0 <= i < |s| ==> s[i] >= 0 by {
      forall i | 0 <= i < |s| ensures s[i] >= 0 {
        assert s[i] in s;
      }
    }
    var cs: seq<nat> := seq(|s|, i requires 0 <= i < |s| => s[i] as nat);
    assert forall x :: x in cs <==> x in s by {
      forall x ensures x in cs <==> x in s {
        if x in s {
          var i :| 0 <= i < |s| && s[i] == x;
          assert cs[i] == x;
        }
      }
    }
    cs
  }

  /** The sorted columns of a row are exactly the column keys of that row's dictionary. */
  lemma RowColsAreKeys(cells: seq<ExportCell>, r: nat, x: nat)
    requires r in Grouped(cells)
    ensures x in RowCols(cells, r) <==> x in Grouped(cells)[r]
  {
    GroupedIsLast(cells, r, x);
    LastAtIsLast(cells, r, x);
    if x in RowCols(cells, r) {
      var k :| 0 <= k < |cells| && cells[k].row == r && cells[k].col == x;
    }
  }
}
