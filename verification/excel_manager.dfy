/**
 * Row and column placement of `ExcelTemplateManager`: filling a template, appending a
 * document, and the consolidated multi-document export.
 *
 * A worksheet is the map from 1-based (row, column) positions to the text stored there, plus
 * openpyxl's `max_row` and `max_column`. Styling and saving are not modelled.
 */
module ExcelManager {
  import opened Options
  import opened Strs
  import opened ExportData

  /** Occupied worksheet positions, (row, column), both 1-based. */
  type Grid = map<(nat, nat), string>

  function Max(a: nat, b: nat): nat { if a < b then b else a }

  /** Every occupied position lies within the first `rows` rows and `cols` columns. */
  ghost predicate InBounds(m: Grid, rows: nat, cols: nat) {
    forall k :: k in m ==> 1 <= k.0 <= rows && 1 <= k.1 <= cols
  }

  /** What a position holds, None when it is empty. */
  function At(m: Grid, r: nat, c: nat): Option<string> {
    if (r, c) in m then Some(m[(r, c)]) else None
  }

  /** From (m0, rows0, cols0) to (m, rows, cols) the sheet only grew: every occupied position
      stays occupied, and each dimension either kept its old value or reached a row (column) that
      is now occupied, as openpyxl's `max_row` and `max_column` do. */
  ghost predicate Grown(m0: Grid, rows0: nat, cols0: nat, m: Grid, rows: nat, cols: nat) {
    && m0.Keys <= m.Keys && rows0 <= rows && cols0 <= cols
    && (rows == rows0 || exists c :: (rows, c) in m)
    && (cols == cols0 || exists r :: (r, cols) in m)
  }

  lemma GrownTrans(m0: Grid, r0: nat, c0: nat, m1: Grid, r1: nat, c1: nat, m2: Grid, r2: nat, c2: nat)
    requires Grown(m0, r0, c0, m1, r1, c1) && Grown(m1, r1, c1, m2, r2, c2)
    ensures Grown(m0, r0, c0, m2, r2, c2)
  {
    if r2 == r1 && r1 != r0 {
      var c :| (r1, c) in m1;
      assert (r2, c) in m2;
    }
    if c2 == c1 && c1 != c0 {
      var r :| (r, c1) in m1;
      assert (r, c2) in m2;
    }
  }

  /** A grown sheet whose cells lie within its dimensions has the smallest dimensions that
      cover both the old ones and every occupied position: `max_row` and `max_column` are
      pinned down by what was written. */
  lemma GrownIsLeast(m0: Grid, rows0: nat, cols0: nat, m: Grid, rows: nat, cols: nat, rows': nat, cols': nat)
    requires Grown(m0, rows0, cols0, m, rows, cols) && InBounds(m, rows, cols)
    requires rows0 <= rows' && cols0 <= cols' && InBounds(m, rows', cols')
    ensures rows <= rows' && cols <= cols'
  {
    if rows != rows0 {
      var c :| (rows, c) in m;
    }
    if cols != cols0 {
      var r :| (r, cols) in m;
    }
  }

  class Sheet {
    var cells: Grid
    var maxRow: nat
    var maxCol: nat

    ghost predicate Valid()
      reads this
    {
      1 <= maxRow && 1 <= maxCol && InBounds(cells, maxRow, maxCol)
    }

    /** `Workbook().active`: an empty sheet reports one row and one column. */
    constructor ()
      ensures Valid() && cells == map[] && maxRow == 1 && maxCol == 1
    {
      cells := map[];
      maxRow := 1;
      maxCol := 1;
    }

    /** `load_workbook(path).active` */
    constructor Load(contents: Grid, rows: nat, cols: nat)
      requires 1 <= rows && 1 <= cols && InBounds(contents, rows, cols)
      ensures Valid() && cells == contents && maxRow == rows && maxCol == cols
    {
      cells := contents;
      maxRow := rows;
      maxCol := cols;
    }

    /** `ws.cell(row=r, column=c, value=v)` */
    method Put(r: nat, c: nat, v: string)
      requires Valid() && 1 <= r && 1 <= c
      modifies this
      ensures Valid()
      ensures cells == old(cells)[(r, c) := v]
      ensures maxRow == Max(old(maxRow), r) && maxCol == Max(old(maxCol), c)
      ensures Grown(old(cells), old(maxRow), old(maxCol), cells, maxRow, maxCol)
    {
      cells := cells[(r, c) := v];
      maxRow := Max(maxRow, r);
      maxCol := Max(maxCol, c);
    }

    /** The `while` loop of `fill_template_with_document_data`: the first row from 2 on whose
        first column is empty. */
    method FirstEmptyRow() returns (next: nat)
      requires Valid()
      ensures next >= 2 && (next, 1) !in cells
      ensures forall r :: 2 <= r < next ==> (r, 1) in cells
    {
      next := 2;
      while (next, 1) in cells
        invariant 2 <= next
        invariant forall r :: 2 <= r < next ==> (r, 1) in cells
        decreases maxRow + 1 - next
      {
        next := next + 1;
      }
    }

    /** Writes `values[i]` at (row, i + 1), left to right. */
    method PutValues(row: nat, values: seq<string>)
      requires Valid() && row >= 1
      modifies this
      ensures Valid() && cells == RowOf(old(cells), row, values)
      ensures Grown(old(cells), old(maxRow), old(maxCol), cells, maxRow, maxCol)
    {
      for i := 0 to |values|
        invariant Valid() && cells == RowOf(old(cells), row, values[..i])
        invariant Grown(old(cells), old(maxRow), old(maxCol), cells, maxRow, maxCol)
      {
        RowOfSnoc(old(cells), row, values, i);
        ghost var m1, r1, c1 := cells, maxRow, maxCol;
        Put(row, i + 1, values[i]);
        GrownTrans(old(cells), old(maxRow), old(maxCol), m1, r1, c1, cells, maxRow, maxCol);
      }
      assert values[..|values|] == values;
    }

    /** The inner loop over `sorted(row_data[r].keys())`, skipping columns past `bound`. */
    method PutRowCells(row: nat, inner: map<nat, string>, cols: seq<nat>, bound: Option<nat>)
      requires Valid() && row >= 1
      modifies this
      ensures Valid() && cells == PutRow(old(cells), row, inner, cols, bound)
      ensures Grown(old(cells), old(maxRow), old(maxCol), cells, maxRow, maxCol)
    {
      for j := 0 to |cols|
        invariant Valid() && cells == PutRow(old(cells), row, inner, cols[..j], bound)
        invariant Grown(old(cells), old(maxRow), old(maxCol), cells, maxRow, maxCol)
      {
        assert cols[..j + 1][..j] == cols[..j];
        var c := cols[j];
        if c in inner && Allowed(c, bound) {
          ghost var m1, r1, c1 := cells, maxRow, maxCol;
          Put(row, c + 1, inner[c]);
          GrownTrans(old(cells), old(maxRow), old(maxCol), m1, r1, c1, cells, maxRow, maxCol);
        }
      }
      assert cols[..|cols|] == cols;
    }

    /** One pass of the loop over data rows: table row rows[j] goes to sheet row start + j. */
    method PutTableRow(ghost m: Grid, tableCells: seq<ExportCell>, rowData: RowMap, rows: seq<nat>,
                       j: nat, start: nat, bound: Option<nat>)
      requires Valid() && start >= 1 && j < |rows| && rowData == Grouped(tableCells)
      requires cells == PutRows(m, tableCells, rows[..j], start, bound)
      modifies this
      ensures Valid() && cells == PutRows(m, tableCells, rows[..j + 1], start, bound)
      ensures Grown(old(cells), old(maxRow), old(maxCol), cells, maxRow, maxCol)
    {
      PutRowsStep(m, tableCells, rows, j, start, bound);
      var r := rows[j];
      if r in rowData {
        PutRowCells(start + j, rowData[r], RowCols(tableCells, r), bound);
      }
    }

    /** The loop over the data rows of a table: one sheet row each, from `start` on. */
    method PutTableRows(tableCells: seq<ExportCell>, start: nat, bound: Option<nat>) returns (next: nat)
      requires Valid() && start >= 1
      modifies this
      ensures Valid() && cells == PutRows(old(cells), tableCells, DataRows(tableCells), start, bound)
      ensures next == start + |DataRows(tableCells)|
      ensures Grown(old(cells), old(maxRow), old(maxCol), cells, maxRow, maxCol)
    {
      var rowData := GroupByRow(tableCells);
      var rows := DataRows(tableCells);
      next := start;
      for j := 0 to |rows|
        invariant Valid() && next == start + j
        invariant cells == PutRows(old(cells), tableCells, rows[..j], start, bound)
        invariant Grown(old(cells), old(maxRow), old(maxCol), cells, maxRow, maxCol)
      {
        ghost var m1, r1, c1 := cells, maxRow, maxCol;
        PutTableRow(old(cells), tableCells, rowData, rows, j, start, bound);
        GrownTrans(old(cells), old(maxRow), old(maxCol), m1, r1, c1, cells, maxRow, maxCol);
        next := next + 1;
      }
      assert rows[..|rows|] == rows;
    }

    /** The `cells` branch of the template fill. */
    method PutTemplateCells(cs: seq<ExportCell>)
      requires Valid()
      modifies this
      ensures Valid() && cells == TemplateCells(old(cells), cs)
      ensures Grown(old(cells), old(maxRow), old(maxCol), cells, maxRow, maxCol)
    {
      for i := 0 to |cs|
        invariant Valid() && cells == TemplateCells(old(cells), cs[..i])
        invariant Grown(old(cells), old(maxRow), old(maxCol), cells, maxRow, maxCol)
      {
        assert cs[..i + 1][..i] == cs[..i];
        var row, col := cs[i].row + 1, cs[i].col + 1;
        if row > 1 {
          ghost var m1, r1, c1 := cells, maxRow, maxCol;
          Put(row + 1, col, cs[i].text);
          GrownTrans(old(cells), old(maxRow), old(maxCol), m1, r1, c1, cells, maxRow, maxCol);
        }
      }
      assert cs[..|cs|] == cs;
    }

    /** `fill_template_with_document_data` on the loaded template sheet; returns the row it
        filled. */
    method FillTemplate(doc: DocData) returns (next: nat)
      requires Valid()
      modifies this
      ensures Valid()
      ensures next >= 2 && (next, 1) !in old(cells)
      ensures forall r :: 2 <= r < next ==> (r, 1) in old(cells)
      ensures cells == FilledTemplate(old(cells), next, doc)
      ensures Grown(old(cells), old(maxRow), old(maxCol), cells, maxRow, maxCol)
    {
      next := FirstEmptyRow();
      if doc.fields.Some? {
        PutValues(next, FieldValues(doc.fields.value));
      } else if doc.cells.Some? {
        PutTemplateCells(doc.cells.value);
      }
    }

    /** `append_document_to_excel`; `fileExists` is whether the file is there. A missing file
        raises and leaves the sheet as it was. */
    method AppendDocument(fileExists: bool, doc: DocData) returns (ok: bool)
      requires Valid()
      modifies this
      ensures Valid() && ok == fileExists
      ensures !fileExists ==> cells == old(cells) && maxRow == old(maxRow) && maxCol == old(maxCol)
      ensures fileExists ==> cells == Appended(old(cells), old(maxRow) + 1, doc)
      ensures Grown(old(cells), old(maxRow), old(maxCol), cells, maxRow, maxCol)
    {
      if !fileExists {
        return false;
      }
      ok := true;
      var next := maxRow + 1;
      if doc.fields.Some? {
        PutValues(next, FieldValues(doc.fields.value));
      } else if doc.cells.Some? {
        var _ := PutTableRows(doc.cells.value, next, None);
      }
    }

    /** One pass of the document loop of `create_multi_document_export`: a `fields` document
        fills the current row, a table writes its data rows from it within the header columns,
        and a document with neither key only moves the row on. */
    method PutDocument(current: nat, headers: seq<string>, doc: DocData) returns (next: nat)
      requires Valid() && current >= 1
      modifies this
      ensures Valid() && next >= 1 && (cells, next) == DocStep(old(cells), current, headers, doc)
      ensures Grown(old(cells), old(maxRow), old(maxCol), cells, maxRow, maxCol)
    {
      next := current;
      if doc.fields.Some? {
        PutValues(current, FieldValues(doc.fields.value));
      } else if doc.cells.Some? {
        next := PutTableRows(doc.cells.value, current, Some(|headers|));
      } else {
        next := current + 1;
      }
    }

    /** The nested loops of the column auto-sizing: one width per column 1..max_column. */
    method ColumnWidths() returns (widths: seq<nat>)
      requires Valid()
      ensures widths == Widths(cells, maxRow, maxCol)
    {
      widths := [];
      for col := 1 to maxCol + 1
        invariant widths == Widths(cells, maxRow, col - 1)
      {
        var longest := 0;
        for r := 1 to maxRow + 1
          invariant longest == Longest(cells, col, r - 1)
        {
          if (r, col) in cells && |cells[(r, col)]| > longest {
            longest := |cells[(r, col)]|;
          }
        }
        widths := widths + [WidthFor(longest)];
      }
    }
  }

  // ---------------------------------------------------------------- what the writes produce

  function FieldValues(fields: seq<FieldEntry>): (r: seq<string>)
    ensures |r| == |fields| && forall i :: 0 <= i < |fields| ==> r[i] == fields[i].value
  {
    seq(|fields|, i requires 0 <= i < |fields| => fields[i].value)
  }

  /** The grid after `values[i]` is written at (row, i + 1) for every i. */
  function RowOf(m: Grid, row: nat, values: seq<string>): Grid {
    if values == [] then m
    else RowOf(m, row, values[..|values| - 1])[(row, |values|) := values[|values| - 1]]
  }

  lemma RowOfSnoc(m: Grid, row: nat, values: seq<string>, i: nat)
    requires i < |values|
    ensures RowOf(m, row, values[..i + 1]) == RowOf(m, row, values[..i])[(row, i + 1) := values[i]]
  {
    assert values[..i + 1][..i] == values[..i];
  }

  lemma RowOfOne(m: Grid, row: nat, v: string)
    ensures RowOf(m, row, [v]) == m[(row, 1) := v]
  {
    assert [v][..0] == [];
  }

  /** One row of values occupies columns 1..|values| of its row and changes nothing else. */
  lemma {:induction false} RowOfAt(m: Grid, row: nat, values: seq<string>, r: nat, c: nat)
    ensures At(RowOf(m, row, values), r, c) ==
            if r == row && 1 <= c <= |values| then Some(values[c - 1]) else At(m, r, c)
    decreases |values|
  {
    if values != [] {
      RowOfAt(m, row, values[..|values| - 1], r, c);
    }
  }

  /** The `cells` branch of the template fill: table row r goes to sheet row r + 2, column c to
      column c + 1, and row-0 cells are skipped. */
  function TemplateCells(m: Grid, cs: seq<ExportCell>): Grid {
    if cs == [] then m
    else
      var prev, c := TemplateCells(m, cs[..|cs| - 1]), cs[|cs| - 1];
      if c.row + 1 > 1 then prev[(c.row + 2, c.col + 1) := c.text] else prev
  }

  /** A template row below the header holds the text of the last cell placed there; no cell
      of table row 0 is ever written, and sheet rows 1 and 2 keep what they had. */
  lemma {:induction false} TemplateCellsAt(m: Grid, cs: seq<ExportCell>, r: nat, c: nat)
    ensures At(TemplateCells(m, cs), r, c) ==
            if r >= 3 && c >= 1 && LastAt(cs, r - 2, c - 1).Some? then LastAt(cs, r - 2, c - 1) else At(m, r, c)
    decreases |cs|
  {
    if cs != [] {
      TemplateCellsAt(m, cs[..|cs| - 1], r, c);
    }
  }

  function FilledTemplate(m: Grid, next: nat, doc: DocData): Grid {
    if doc.fields.Some? then RowOf(m, next, FieldValues(doc.fields.value))
    else if doc.cells.Some? then TemplateCells(m, doc.cells.value)
    else m
  }

  predicate Allowed(c: nat, bound: Option<nat>) {
    bound.None? || c + 1 <= bound.value
  }

  /** The grid after the columns `cols` of one table row are written to sheet row `row`. */
  function PutRow(m: Grid, row: nat, inner: map<nat, string>, cols: seq<nat>, bound: Option<nat>): Grid {
    if cols == [] then m
    else
      var prev, c := PutRow(m, row, inner, cols[..|cols| - 1], bound), cols[|cols| - 1];
      if c in inner && Allowed(c, bound) then prev[(row, c + 1) := inner[c]] else prev
  }

  lemma {:induction false} PutRowAt(m: Grid, row: nat, inner: map<nat, string>, cols: seq<nat>,
                                    bound: Option<nat>, r: nat, c: nat)
    ensures At(PutRow(m, row, inner, cols, bound), r, c) ==
            if r == row && c >= 1 && (c - 1) in cols && (c - 1) in inner && Allowed(c - 1, bound)
            then Some(inner[c - 1]) else At(m, r, c)
    decreases |cols|
  {
    if cols != [] {
      var init := cols[..|cols| - 1];
      PutRowAt(m, row, inner, init, bound, r, c);
      assert forall x :: x in cols <==> x in init || x == cols[|cols| - 1];
    }
  }

  /** The grid after table rows `rows` are written to consecutive sheet rows from `start`. */
  function PutRows(m: Grid, cs: seq<ExportCell>, rows: seq<nat>, start: nat, bound: Option<nat>): Grid {
    if rows == [] then m
    else
      var g, r := Grouped(cs), rows[|rows| - 1];
      var prev := PutRows(m, cs, rows[..|rows| - 1], start, bound);
      if r in g then PutRow(prev, start + |rows| - 1, g[r], RowCols(cs, r), bound) else prev
  }

  /** One more table row on top of the rows before it. */
  lemma PutRowsStep(m: Grid, cs: seq<ExportCell>, rows: seq<nat>, j: nat, start: nat, bound: Option<nat>)
    requires j < |rows|
    ensures PutRows(m, cs, rows[..j + 1], start, bound) ==
            var prev := PutRows(m, cs, rows[..j], start, bound);
            if rows[j] in Grouped(cs) then PutRow(prev, start + j, Grouped(cs)[rows[j]], RowCols(cs, rows[j]), bound) else prev
  {
    assert rows[..j + 1][..j] == rows[..j];
  }

  /** Sheet row start + j holds table row rows[j]: at column c + 1 the text of the last cell at
      (rows[j], c), for the columns `bound` admits; every other position is unchanged. */
  lemma {:induction false} PutRowsAt(m: Grid, cs: seq<ExportCell>, rows: seq<nat>, start: nat,
                                     bound: Option<nat>, r: nat, c: nat)
    ensures At(PutRows(m, cs, rows, start, bound), r, c) ==
            if start <= r < start + |rows| && c >= 1 && Allowed(c - 1, bound) &&
               LastAt(cs, rows[r - start], c - 1).Some?
            then LastAt(cs, rows[r - start], c - 1) else At(m, r, c)
    decreases |rows|
  {
    if rows != [] {
      var n := |rows| - 1;
      var init, last := rows[..n], rows[n];
      var g := Grouped(cs);
      PutRowsAt(m, cs, init, start, bound, r, c);
      var prev := PutRows(m, cs, init, start, bound);
      if c >= 1 {
        GroupedIsLast(cs, last, c - 1);
        if last in g {
          PutRowAt(prev, start + n, g[last], RowCols(cs, last), bound, r, c);
          RowColsAreKeys(cs, last, c - 1);
        }
      } else if last in g {
        PutRowAt(prev, start + n, g[last], RowCols(cs, last), bound, r, c);
      }
      if start <= r < start + n {
        assert rows[r - start] == init[r - start];
      }
    }
  }

  function Appended(m: Grid, start: nat, doc: DocData): Grid {
    if doc.fields.Some? then RowOf(m, start, FieldValues(doc.fields.value))
    else if doc.cells.Some? then PutRows(m, doc.cells.value, DataRows(doc.cells.value), start, None)
    else m
  }

  /** Appending a table packs its data rows below the last used row: the k-th data row (in
      ascending order, whatever the gaps between row indices) goes to sheet row
      `max_row + 1 + k`, column c + 1 holding the last text at (row, c). */
  lemma AppendPlacement(m: Grid, maxRow: nat, cs: seq<ExportCell>, k: nat, c: nat)
    requires k < |DataRows(cs)|
    ensures var doc := DocData(None, Some(cs), 0, 0, []);
            At(Appended(m, maxRow + 1, doc), maxRow + 1 + k, c + 1) ==
            if LastAt(cs, DataRows(cs)[k], c).Some? then LastAt(cs, DataRows(cs)[k], c) else At(m, maxRow + 1 + k, c + 1)
  {
    PutRowsAt(m, cs, DataRows(cs), maxRow + 1, None, maxRow + 1 + k, c + 1);
  }

  // ---------------------------------------------------------------- multi-document export

  /** `name[:31] if len(name) <= 31 else name[:28] + "..."` */
  function SheetTitle(name: string): (t: string)
    ensures |t| <= 31
    ensures |name| <= 31 ==> t == name
    ensures |name| > 31 ==> t == name[..28] + "..."
  {
    if |name| <= 31 then Truncate(name, 31) else Truncate(name, 28) + "..."
  }

  /** Characters openpyxl refuses in a sheet title. */
  const TitleForbidden: set<char> := {'\\', '*', '?', ':', '/', '[', ']'}

  /** openpyxl's `title` setter accepts a title exactly when it is non-empty and holds none of
      the forbidden characters; otherwise it raises ValueError. */
  predicate TitleAccepted(t: string) {
    t != [] && forall i :: 0 <= i < |t| ==> t[i] !in TitleForbidden
  }

  /** The shortened title is refused exactly for an empty name or a forbidden character among
      the name's characters that the title keeps: a forbidden character past the cut is harmless. */
  lemma {:induction false} SheetTitleAccepted(name: string)
    ensures var kept := if |name| <= 31 then name else name[..28];
      TitleAccepted(SheetTitle(name)) <==>
        name != [] && forall i :: 0 <= i < |kept| ==> kept[i] !in TitleForbidden
  {
    var kept := if |name| <= 31 then name else name[..28];
    var t := SheetTitle(name);
    assert t == kept || t == kept + "...";
    assert forall i :: |kept| <= i < |t| ==> t[i] == '.';
    assert forall i :: 0 <= i < |kept| ==> t[i] == kept[i];
  }

  /** An unnamed template and one whose name holds a slash make the export fail; a plain name
      does not. */
  lemma RefusedTitles()
    ensures !TitleAccepted(SheetTitle(""))
    ensures !TitleAccepted(SheetTitle("Invoice 2024/25"))
    ensures TitleAccepted(SheetTitle("Invoice"))
  {
    assert SheetTitle("Invoice 2024/25")[12] == '/';
  }

  /** One document of the export: its writes and the row the next document starts on. */
  function DocStep(m: Grid, current: nat, headers: seq<string>, doc: DocData): (Grid, nat) {
    if doc.fields.Some? then (RowOf(m, current, FieldValues(doc.fields.value)), current)
    else if doc.cells.Some? then
      var cs := doc.cells.value;
      (PutRows(m, cs, DataRows(cs), current, Some(|headers|)), current + |DataRows(cs)|)
    else (m, current + 1)
  }

  function DocsFrom(m: Grid, current: nat, headers: seq<string>, docs: seq<DocData>): (Grid, nat) {
    if docs == [] then (m, current)
    else
      var prev := DocsFrom(m, current, headers, docs[..|docs| - 1]);
      DocStep(prev.0, prev.1, headers, docs[|docs| - 1])
  }

  /** The row counter: a table advances one row per data row, a document with neither key one
      row, and a `fields` document not at all, so the next document writes into the same row. */
  lemma DocStepAdvance(m: Grid, current: nat, headers: seq<string>, doc: DocData)
    ensures DocStep(m, current, headers, doc).1 ==
            if doc.fields.Some? then current
            else if doc.cells.Some? then current + |DataRows(doc.cells.value)|
            else current + 1
  {
  }

  /** A table document writes only into its own rows and only into the header columns. */
  lemma TableStaysInHeaderColumns(m: Grid, current: nat, headers: seq<string>, doc: DocData, r: nat, c: nat)
    requires doc.fields.None? && doc.cells.Some?
    requires c > |headers| || r < current || r >= DocStep(m, current, headers, doc).1
    ensures At(DocStep(m, current, headers, doc).0, r, c) == At(m, r, c)
  {
    var cs := doc.cells.value;
    PutRowsAt(m, cs, DataRows(cs), current, Some(|headers|), r, c);
  }

  /** Width of a column whose longest text has length `longest`: `min(longest + 2, 50)`. */
  function WidthFor(longest: nat): (w: nat)
    ensures 2 <= w <= 50
    ensures longest <= 48 ==> w == longest + 2
  {
    if longest + 2 < 50 then longest + 2 else 50
  }

  /** The length of the longest text in column `col` among rows 1..n. */
  function Longest(m: Grid, col: nat, n: nat): (l: nat)
    ensures forall r :: 1 <= r <= n && (r, col) in m ==> |m[(r, col)]| <= l
  {
    if n == 0 then 0
    else
      var prev := Longest(m, col, n - 1);
      if (n, col) in m && |m[(n, col)]| > prev then |m[(n, col)]| else prev
  }

  function Widths(m: Grid, rows: nat, cols: nat): (ws: seq<nat>)
    ensures |ws| == cols
    ensures forall j :: 0 <= j < cols ==> ws[j] == WidthFor(Longest(m, j + 1, rows))
  {
    if cols == 0 then [] else Widths(m, rows, cols - 1) + [WidthFor(Longest(m, cols, rows))]
  }

  /** Every column is between 2 and 50 wide, and wide enough for each of its texts unless the
      cap of 50 cuts in. */
  lemma WidthsFit(m: Grid, rows: nat, cols: nat, j: nat, r: nat)
    requires j < cols && 1 <= r <= rows && (r, j + 1) in m
    ensures 2 <= Widths(m, rows, cols)[j] <= 50
    ensures Widths(m, rows, cols)[j] == 50 || |m[(r, j + 1)]| + 2 <= Widths(m, rows, cols)[j]
  {
  }

  /** `user_filename` with ".xlsx" appended unless it already ends so. */
  function XlsxName(name: string): (r: string)
    ensures EndsWith(r, ".xlsx")
  {
    if EndsWith(name, ".xlsx") then name else name + ".xlsx"
  }

  lemma XlsxNameIdempotent(name: string)
    ensures XlsxName(XlsxName(name)) == XlsxName(name)
    ensures EndsWith(name, ".xlsx") ==> XlsxName(name) == name
  {
  }

  /** `os.path.dirname` on POSIX. */
  function Dirname(p: string): string {
    var head := p[..LastIndexOf(p, '/') + 1];
    if head != [] && exists i :: 0 <= i < |head| && head[i] != '/' then RStripSlashes(head) else head
  }

  function RStripSlashes(s: string): (r: string)
    ensures |r| <= |s| && r == s[..|r|]
  {
    if s != [] && s[|s| - 1] == '/' then RStripSlashes(s[..|s| - 1]) else s
  }

  /** `os.path.join(a, b)` on POSIX, for two components. */
  function PathJoin(a: string, b: string): (r: string)
    ensures EndsWith(r, b)
  {
    if b != [] && b[0] == '/' then b
    else if a == [] || a[|a| - 1] == '/' then a + b
    else a + "/" + b
  }

  /** The saved path: the output path itself, or the user's name, made to end in ".xlsx", next
      to it. An empty user name counts as none. */
  function FinalPath(outputPath: string, userFilename: string): (r: string)
    ensures userFilename == [] ==> r == outputPath
    ensures userFilename != [] ==> EndsWith(r, XlsxName(userFilename)) && EndsWith(r, ".xlsx")
  {
    if userFilename == [] then outputPath
    else
      var r := PathJoin(Dirname(outputPath), XlsxName(userFilename));
      EndsWithTrans(r, XlsxName(userFilename), ".xlsx");
      r
  }

  lemma EndsWithTrans(s: string, t: string, u: string)
    requires EndsWith(s, t) && EndsWith(t, u)
    ensures EndsWith(s, u)
  {
    assert s[|s| - |u|..] == t[|t| - |u|..];
  }

  datatype Workbook = Workbook(title: string, cells: Grid, maxRow: nat, maxCol: nat, widths: seq<nat>, path: string)

  /** The grid the export writes: the header row, then every document from row 2 on. */
  function ExportGrid(headers: seq<string>, docs: seq<DocData>): Grid {
    DocsFrom(RowOf(map[], 1, headers), 2, headers, docs).0
  }

  /** `create_multi_document_export`: None when openpyxl refuses the shortened title or the
      template has no field names (both raise ValueError, passed on as an Exception). */
  method CreateMultiDocumentExport(name: string, headers: seq<string>, docs: seq<DocData>,
                                   outputPath: string, userFilename: string) returns (r: Option<Workbook>)
    ensures r.None? <==> !TitleAccepted(SheetTitle(name)) || headers == []
    ensures r.Some? ==>
      && r.value.title == SheetTitle(name)
      && r.value.cells == ExportGrid(headers, docs)
      && InBounds(r.value.cells, r.value.maxRow, r.value.maxCol)
      && Grown(map[], 1, 1, r.value.cells, r.value.maxRow, r.value.maxCol)
      && r.value.widths == Widths(r.value.cells, r.value.maxRow, r.value.maxCol)
      && r.value.path == FinalPath(outputPath, userFilename)
  {
    var title := SheetTitle(name);
    if !TitleAccepted(title) || headers == [] {
      return None;
    }
    var ws := new Sheet();
    ws.PutValues(1, headers);
    var current := 2;
    for i := 0 to |docs|
      invariant ws.Valid() && current >= 1
      invariant Grown(map[], 1, 1, ws.cells, ws.maxRow, ws.maxCol)
      invariant (ws.cells, current) == DocsFrom(RowOf(map[], 1, headers), 2, headers, docs[..i])
    {
      assert docs[..i + 1][..i] == docs[..i];
      ghost var m1, r1, c1 := ws.cells, ws.maxRow, ws.maxCol;
      current := ws.PutDocument(current, headers, docs[i]);
      GrownTrans(map[], 1, 1, m1, r1, c1, ws.cells, ws.maxRow, ws.maxCol);
    }
    assert docs[..|docs|] == docs;
    var widths := ws.ColumnWidths();
    r := Some(Workbook(title, ws.cells, ws.maxRow, ws.maxCol, widths, FinalPath(outputPath, userFilename)));
  }

  /** The headers fill row 1, columns 1..n, in order. */
  lemma HeaderRow(headers: seq<string>, c: nat)
    requires 1 <= c <= |headers|
    ensures At(RowOf(map[], 1, headers), 1, c) == Some(headers[c - 1])
  {
    RowOfAt(map[], 1, headers, 1, c);
  }

  /** Two one-field documents appended to a new sheet land on rows 2 and 3: the first append
      raises `max_row` to 2, so the second does not overwrite it. */
  method AppendTwice(v1: string, v2: string) returns (ws: Sheet)
    ensures ws.cells == map[(2, 1) := v1, (3, 1) := v2]
    ensures ws.maxRow == 3 && ws.maxCol == 1
  {
    ws := new Sheet();
    var _ := ws.AppendDocument(true, DocData(Some([FieldEntry("a", v1, 0.0)]), None, 0, 0, []));
    RowOfOne(map[], 2, v1);
    assert FieldValues([FieldEntry("a", v1, 0.0)]) == [v1];
    GrownIsLeast(map[], 1, 1, ws.cells, ws.maxRow, ws.maxCol, 2, 1);
    var _ := ws.AppendDocument(true, DocData(Some([FieldEntry("b", v2, 0.0)]), None, 0, 0, []));
    RowOfOne(map[(2, 1) := v1], 3, v2);
    assert FieldValues([FieldEntry("b", v2, 0.0)]) == [v2];
    assert (3, 1) in ws.cells;
  }

  /** An export with three field names and no documents has one row and three columns, so it
      sizes exactly three columns. */
  method HeaderOnlyExport(a: string, b: string, c: string) returns (r: Option<Workbook>)
    ensures r.Some? && r.value.maxRow == 1 && r.value.maxCol == 3 && |r.value.widths| == 3
  {
    r := CreateMultiDocumentExport("Invoice", [a, b, c], [], "/out/x.xlsx", "");
    RefusedTitles();
    var w := r.value;
    assert [a, b, c][..2] == [a, b] && [a, b][..1] == [a] && [a][..0] == [];
    assert RowOf(map[], 1, [a]) == map[(1, 1) := a];
    assert RowOf(map[], 1, [a, b]) == map[(1, 1) := a, (1, 2) := b];
    assert ExportGrid([a, b, c], []) == map[(1, 1) := a, (1, 2) := b, (1, 3) := c];
    assert (1, 3) in w.cells;
    GrownIsLeast(map[], 1, 1, w.cells, w.maxRow, w.maxCol, 1, 3);
  }
}
