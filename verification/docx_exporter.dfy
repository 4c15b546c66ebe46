/**
 * The Word exporter: the paragraphs a plain-text export writes, the "Fields Extracted" count
 * and the tables of a template export, and the consolidated table of a multi-document export.
 *
 * A Word table is modelled as its rows, each a sequence of cell texts; a row the exporter
 * adds with `add_row()` starts as blank cells that it then fills one position at a time.
 */
module DocxExporter {
  import opened Options
  import opened Strs
  import opened Dicts
  import opened ExportData

  type Table = seq<seq<string>>

  // ---------------------------------------------------------------- text export

  /** Blank-line separated paragraphs when the text has a blank line, otherwise one paragraph
      per line. */
  function ParagraphSep(text: string): string {
    if Contains(text, "\n\n") then "\n\n" else "\n"
  }

  function Parts(text: string): seq<string> {
    SplitOn(text, ParagraphSep(text))
  }

  /** The strings of `xs` that are not empty, in order. */
  function NonEmpty(xs: seq<string>): seq<string> {
    if xs == [] then []
    else
      var last := xs[|xs| - 1];
      NonEmpty(xs[..|xs| - 1]) + (if last != [] then [last] else [])
  }

  function StripAll(parts: seq<string>): (r: seq<string>)
    ensures |r| == |parts| && forall i :: 0 <= i < |parts| ==> r[i] == Strip(parts[i])
  {
    seq(|parts|, i requires 0 <= i < |parts| => Strip(parts[i]))
  }

  /** The paragraphs written: the stripped text of every part whose stripped text is not
      empty, in order. */
  function Kept(parts: seq<string>): seq<string> {
    NonEmpty(StripAll(parts))
  }

  /** The paragraph loop of the plain-text export. */
  method ParagraphTexts(text: string) returns (paras: seq<string>)
    ensures paras == Kept(Parts(text))
  {
    var parts := Parts(text);
    ghost var stripped := StripAll(parts);
    paras := [];
    for i := 0 to |parts|
      invariant paras == NonEmpty(stripped[..i])
    {
      NonEmptySnoc(stripped, i);
      var p := Strip(parts[i]);
      if p != [] {
        paras := paras + [p];
      }
    }
    assert stripped[..|parts|] == stripped;
  }

  /** One more string filtered: it is kept exactly when it is not empty. */
  lemma NonEmptySnoc(xs: seq<string>, i: nat)
    requires i < |xs|
    ensures NonEmpty(xs[..i + 1]) == NonEmpty(xs[..i]) + (if xs[i] != [] then [xs[i]] else [])
  {
    assert xs[..i + 1][..i] == xs[..i];
  }

  /** The parts put back together with the chosen separator give the text, and no part holds
      the separator. */
  lemma ParagraphParts(text: string)
    ensures Join(Parts(text), ParagraphSep(text)) == text
    ensures forall k :: 0 <= k < |Parts(text)| ==> !Contains(Parts(text)[k], ParagraphSep(text))
  {
    SplitJoin(text, ParagraphSep(text));
    SplitPiecesLackSep(text, ParagraphSep(text));
  }

  /** Filtering keeps only non-empty strings of the input and never lengthens it. */
  lemma {:induction false} NonEmptyFrom(xs: seq<string>)
    ensures |NonEmpty(xs)| <= |xs|
    ensures forall k :: 0 <= k < |NonEmpty(xs)| ==> NonEmpty(xs)[k] != [] && NonEmpty(xs)[k] in xs
  {
    if xs != [] {
      var init := xs[..|xs| - 1];
      NonEmptyFrom(init);
      forall k | 0 <= k < |NonEmpty(xs)| ensures NonEmpty(xs)[k] in xs {
        if k < |NonEmpty(init)| {
          var x := NonEmpty(init)[k];
          assert x in init;
          var j :| 0 <= j < |init| && init[j] == x;
          assert xs[j] == x;
        } else {
          assert NonEmpty(xs)[k] == xs[|xs| - 1];
        }
      }
    }
  }

  /** Filtering keeps every non-empty string of the input. */
  lemma {:induction false} NonEmptyHas(xs: seq<string>, j: nat)
    requires j < |xs| && xs[j] != []
    ensures xs[j] in NonEmpty(xs)
  {
    var n := |xs| - 1;
    var init := xs[..n];
    if j < n {
      assert init[j] == xs[j];
      NonEmptyHas(init, j);
      var k :| 0 <= k < |NonEmpty(init)| && NonEmpty(init)[k] == xs[j];
      assert NonEmpty(xs)[k] == xs[j];
    } else {
      assert NonEmpty(xs)[|NonEmpty(xs)| - 1] == xs[j];
    }
  }

  /** Filtering leaves nothing exactly when every string is empty. */
  lemma {:induction false} NonEmptyNone(xs: seq<string>)
    ensures NonEmpty(xs) == [] <==> forall j :: 0 <= j < |xs| ==> xs[j] == []
  {
    if xs != [] {
      var n := |xs| - 1;
      NonEmptyNone(xs[..n]);
      assert forall j :: 0 <= j < n ==> xs[..n][j] == xs[j];
    }
  }

  /** Every written paragraph is non-empty, starts and ends with a non-space character and is
      the stripped text of some part; there are no more paragraphs than parts. */
  lemma KeptShape(parts: seq<string>)
    ensures |Kept(parts)| <= |parts|
    ensures forall k :: 0 <= k < |Kept(parts)| ==>
      Kept(parts)[k] != [] && !IsSpace(Kept(parts)[k][0]) && !IsSpace(Kept(parts)[k][|Kept(parts)[k]| - 1])
    ensures forall k :: 0 <= k < |Kept(parts)| ==> exists j :: 0 <= j < |parts| && Kept(parts)[k] == Strip(parts[j])
  {
    var stripped := StripAll(parts);
    var kept := Kept(parts);
    NonEmptyFrom(stripped);
    forall k | 0 <= k < |kept|
      ensures kept[k] != [] && !IsSpace(kept[k][0]) && !IsSpace(kept[k][|kept[k]| - 1])
      ensures exists j :: 0 <= j < |parts| && kept[k] == Strip(parts[j])
    {
      var j :| 0 <= j < |stripped| && stripped[j] == kept[k];
      assert kept[k] == Strip(parts[j]);
    }
  }

  /** Every part that is not blank is written, stripped; nothing is written exactly when every
      part is blank. */
  lemma KeptNonBlank(parts: seq<string>)
    ensures forall j :: 0 <= j < |parts| && !IsBlank(parts[j]) ==> Strip(parts[j]) in Kept(parts)
    ensures Kept(parts) == [] <==> forall j :: 0 <= j < |parts| ==> IsBlank(parts[j])
  {
    var stripped := StripAll(parts);
    forall j | 0 <= j < |parts| ensures Strip(parts[j]) == [] <==> IsBlank(parts[j]) {
      StripEmptyIffBlank(parts[j]);
    }
    forall j | 0 <= j < |parts| && !IsBlank(parts[j]) ensures Strip(parts[j]) in Kept(parts) {
      NonEmptyHas(stripped, j);
    }
    NonEmptyNone(stripped);
  }

  // ---------------------------------------------------------------- template export

  /** `len(fields or []) or len(cells or [])` */
  function FieldCount(doc: DocData): (n: nat)
    ensures doc.fields.Some? && doc.fields.value != [] ==> n == |doc.fields.value|
    ensures doc.fields.None? || doc.fields.value == [] ==>
      n == (if doc.cells.Some? then |doc.cells.value| else 0)
    ensures n == 0 <==>
      (doc.fields.None? || doc.fields.value == []) && (doc.cells.None? || doc.cells.value == [])
  {
    var f := if doc.fields.Some? then |doc.fields.value| else 0;
    if f != 0 then f else if doc.cells.Some? then |doc.cells.value| else 0
  }

  /** The confidence column: the value as a percentage when it is non-zero, "N/A" otherwise.
      `percent` renders a number with one decimal and a percent sign. */
  function ConfidenceText(confidence: real, percent: real -> string): string {
    if confidence != 0.0 then percent(confidence) else "N/A"
  }

  const FieldsHeader: seq<string> := ["Field Name", "Value", "Confidence"]

  /** The fields table: a header row, then one row per field. */
  method FieldsTable(fields: seq<FieldEntry>, percent: real -> string) returns (t: Table)
    ensures |t| == |fields| + 1 && t[0] == FieldsHeader
    ensures forall i :: 0 <= i < |fields| ==>
      t[i + 1] == [fields[i].name, fields[i].value, ConfidenceText(fields[i].confidence, percent)]
  {
    t := [FieldsHeader];
    for i := 0 to |fields|
      invariant |t| == i + 1 && t[0] == FieldsHeader
      invariant forall j :: 0 <= j < i ==>
        t[j + 1] == [fields[j].name, fields[j].value, ConfidenceText(fields[j].confidence, percent)]
    {
      var f := fields[i];
      var row := Blanks(3);
      row := row[0 := f.name];
      row := row[1 := f.value];
      row := row[2 := ConfidenceText(f.confidence, percent)];
      t := t + [row];
    }
  }

  /** `headers.get(str(c), f"Column {c + 1}")` */
  function HeaderText(headers: Dict<string>, c: nat): string {
    var h := Lookup(headers, NatToString(c));
    if h.Some? then h.value else "Column " + NatToString(c + 1)
  }

  /** A header given for a column is used; a column without one is named by its position,
      counted from one. */
  lemma HeaderTextFrom(headers: Dict<string>, c: nat)
    ensures (forall i :: 0 <= i < |headers| ==> headers[i].0 != NatToString(c)) ==>
      HeaderText(headers, c) == "Column " + NatToString(c + 1)
    ensures forall i :: 0 <= i < |headers| && DistinctKeys(headers) && headers[i].0 == NatToString(c) ==>
      HeaderText(headers, c) == headers[i].1
  {
    forall i | 0 <= i < |headers| && DistinctKeys(headers) && headers[i].0 == NatToString(c)
      ensures HeaderText(headers, c) == headers[i].1
    {
      LookupDistinct(headers, i);
    }
  }

  /** The header row of the cells table. */
  method HeaderRow(headers: Dict<string>, cols: nat) returns (row: seq<string>)
    ensures |row| == cols && forall c :: 0 <= c < cols ==> row[c] == HeaderText(headers, c)
  {
    row := Blanks(cols);
    for c := 0 to cols
      invariant |row| == cols
      invariant forall j :: 0 <= j < c ==> row[j] == HeaderText(headers, j)
    {
      row := row[c := HeaderText(headers, c)];
    }
  }

  /** One data row of the cells table: `row_data[r].get(c, '')` for every column. */
  method DataRow(g: RowMap, r: nat, cols: nat) returns (row: seq<string>)
    requires r in g
    ensures |row| == cols && forall c :: 0 <= c < cols ==> row[c] == OrEmpty(Entry(g, r, c))
  {
    row := Blanks(cols);
    for c := 0 to cols
      invariant |row| == cols
      invariant forall j :: 0 <= j < c ==> row[j] == OrEmpty(Entry(g, r, j))
    {
      var inner := g[r];
      var text := if c in inner then inner[c] else "";
      row := row[c := text];
    }
  }

  /** Row `k + 1` of the cells table holds, in each of its `cols` columns, the text of the last
      cell at that position of the `k`-th data row. */
  ghost predicate CellsRowOk(t: Table, cells: seq<ExportCell>, rows: seq<nat>, cols: nat, k: nat)
    requires k < |rows| && k + 1 < |t|
  {
    |t[k + 1]| == cols && forall c :: 0 <= c < cols ==> t[k + 1][c] == OrEmpty(LastAt(cells, rows[k], c))
  }

  /** The cells table: the header row, then one row per data row (rows above 0), ascending;
      cells outside the first `cols` columns are not shown. */
  method CellsTable(cells: seq<ExportCell>, headers: Dict<string>, cols: nat) returns (t: Table)
    ensures |t| == |DataRows(cells)| + 1
    ensures |t[0]| == cols && forall c :: 0 <= c < cols ==> t[0][c] == HeaderText(headers, c)
    ensures forall k :: 0 <= k < |DataRows(cells)| ==> CellsRowOk(t, cells, DataRows(cells), cols, k)
  {
    var g := GroupByRow(cells);
    var header := HeaderRow(headers, cols);
    var rows := DataRows(cells);
    t := [header];
    for k := 0 to |rows|
      invariant |t| == k + 1 && t[0] == header
      invariant forall j :: 0 <= j < k ==> CellsRowOk(t, cells, rows, cols, j)
    {
      var r := rows[k];
      DataRowsAreKeys(cells, r);
      var row := DataRow(g, r, cols);
      forall c | 0 <= c < cols ensures row[c] == OrEmpty(LastAt(cells, r, c)) {
        GroupedIsLast(cells, r, c);
      }
      ghost var prev := t;
      t := t + [row];
      forall j | 0 <= j < k ensures CellsRowOk(t, cells, rows, cols, j) {
        assert t[j + 1] == prev[j + 1];
        assert CellsRowOk(prev, cells, rows, cols, j);
      }
      assert CellsRowOk(t, cells, rows, cols, k);
    }
  }

  /** The extracted-fields section of a template export: a fields table when the data has a
      non-empty `fields` entry; with no `fields` entry, a cells table when `cells` is non-empty
      and `cols` is positive; otherwise no table. */
  method TemplateTable(doc: DocData, percent: real -> string) returns (t: Option<Table>)
    ensures doc.fields.Some? ==> (t.None? <==> doc.fields.value == [])
    ensures doc.fields.Some? && t.Some? ==>
      |t.value| == |doc.fields.value| + 1 && t.value[0] == FieldsHeader
    ensures doc.fields.Some? && t.Some? ==>
      forall i :: 0 <= i < |doc.fields.value| ==>
        var f := doc.fields.value[i];
        t.value[i + 1] == [f.name, f.value, ConfidenceText(f.confidence, percent)]
    ensures doc.fields.None? && doc.cells.Some? ==> (t.None? <==> doc.cells.value == [] || doc.cols <= 0)
    ensures doc.fields.None? && doc.cells.Some? && t.Some? ==>
      |t.value| == |DataRows(doc.cells.value)| + 1 &&
      |t.value[0]| == doc.cols &&
      (forall c :: 0 <= c < doc.cols ==> t.value[0][c] == HeaderText(doc.headers, c)) &&
      forall k :: 0 <= k < |DataRows(doc.cells.value)| ==>
        CellsRowOk(t.value, doc.cells.value, DataRows(doc.cells.value), doc.cols, k)
    ensures doc.fields.None? && doc.cells.None? ==> t.None?
  {
    if doc.fields.Some? {
      if doc.fields.value != [] {
        var ft := FieldsTable(doc.fields.value, percent);
        t := Some(ft);
      } else {
        t := None;
      }
    } else if doc.cells.Some? {
      if doc.cells.value != [] && doc.cols > 0 {
        var ct := CellsTable(doc.cells.value, doc.headers, doc.cols);
        t := Some(ct);
      } else {
        t := None;
      }
    } else {
      t := None;
    }
  }

  // ---------------------------------------------------------------- multi-document export

  /** The row-1 dictionary a document's cells give: `{col: text}` over the cells of row 1,
      later cells overwriting earlier ones. */
  function FirstRowMap(cells: seq<ExportCell>): map<nat, string> {
    if cells == [] then map[]
    else
      var m, c := FirstRowMap(cells[..|cells| - 1]), cells[|cells| - 1];
      if c.row == 1 then m[c.col := c.text] else m
  }

  /** The row-1 dictionary holds a column exactly when some cell of row 1 is in it, with the
      text of the last such cell. */
  lemma {:induction false} FirstRowMapIsLast(cells: seq<ExportCell>, c: nat)
    ensures c in FirstRowMap(cells) ==> LastAt(cells, 1, c) == Some(FirstRowMap(cells)[c])
    ensures c !in FirstRowMap(cells) ==> LastAt(cells, 1, c).None?
    decreases |cells|
  {
    if cells != [] {
      FirstRowMapIsLast(cells[..|cells| - 1], c);
    }
  }

  /** The loop that collects the row-1 dictionary. */
  method FirstRow(cells: seq<ExportCell>) returns (rowData: map<nat, string>)
    ensures rowData == FirstRowMap(cells)
  {
    rowData := map[];
    for i := 0 to |cells|
      invariant rowData == FirstRowMap(cells[..i])
    {
      assert cells[..i + 1][..i] == cells[..i];
      var cell := cells[i];
      if cell.row == 1 {
        rowData := rowData[cell.col := cell.text];
      }
    }
    assert cells[..|cells|] == cells;
  }

  /** What a document shows under the `c`-th field name: with a `fields` entry, the value of
      its `c`-th field (blank past the end of the list); otherwise, with a `cells` entry, the
      text of the last cell at row 1, column `c`; otherwise blank. */
  function DocValue(d: DocData, c: nat): string {
    if d.fields.Some? then
      if c < |d.fields.value| then d.fields.value[c].value else ""
    else if d.cells.Some? then OrEmpty(LastAt(d.cells.value, 1, c))
    else ""
  }

  /** With cells and no fields, a document's consolidated row is the first data row of its own
      cells table: the grouped dictionary at row 1. */
  lemma DocValueIsFirstDataRow(d: DocData, c: nat)
    requires d.fields.None? && d.cells.Some?
    ensures DocValue(d, c) == OrEmpty(Entry(Grouped(d.cells.value), 1, c))
  {
    GroupedIsLast(d.cells.value, 1, c);
  }

  /** The consolidated row of the `i`-th document (counted from one) under `n` field names. */
  ghost predicate DocRowOk(row: seq<string>, i: nat, d: DocData, n: nat) {
    |row| == n + 1 && row[0] == "Doc " + NatToString(i) &&
    forall c :: 1 <= c <= n ==> row[c] == DocValue(d, c - 1)
  }

  /** Fills the blank cells after the label from a document's fields, in order, dropping the
      fields that have no column. */
  method FillFromFields(row0: seq<string>, fields: seq<FieldEntry>) returns (row: seq<string>)
    requires |row0| >= 1 && forall c :: 1 <= c < |row0| ==> row0[c] == ""
    ensures |row| == |row0| && row[0] == row0[0]
    ensures forall c :: 1 <= c < |row0| ==> row[c] == if c <= |fields| then fields[c - 1].value else ""
  {
    row := row0;
    for idx := 0 to |fields|
      invariant |row| == |row0| && row[0] == row0[0]
      invariant forall c :: 1 <= c < |row0| ==> row[c] == if c <= idx then fields[c - 1].value else ""
    {
      if idx + 1 < |row| {
        row := row[idx + 1 := fields[idx].value];
      }
    }
  }

  /** Fills the blank cells after the label from the row-1 cells of a document, visiting their
      columns in ascending order and dropping the columns that have no place in the row. */
  method FillFromCells(row0: seq<string>, cells: seq<ExportCell>) returns (row: seq<string>)
    requires |row0| >= 1 && forall c :: 1 <= c < |row0| ==> row0[c] == ""
    ensures |row| == |row0| && row[0] == row0[0]
    ensures forall c :: 1 <= c < |row0| ==> row[c] == OrEmpty(LastAt(cells, 1, c - 1))
  {
    var rowData := FirstRow(cells);
    var keys := RowCols(cells, 1);
    row := row0;
    for j := 0 to |keys|
      invariant |row| == |row0| && row[0] == row0[0]
      invariant forall c :: 1 <= c < |row0| ==>
        row[c] == if c - 1 in keys[..j] then OrEmpty(LastAt(cells, 1, c - 1)) else ""
    {
      var col := keys[j];
      assert col in keys;
      LastAtIsLast(cells, 1, col);
      FirstRowMapIsLast(cells, col);
      assert keys[..j + 1] == keys[..j] + [col];
      if col + 1 < |row| {
        row := row[col + 1 := rowData[col]];
      }
    }
    assert keys[..|keys|] == keys;
    forall c | 1 <= c < |row0| ensures row[c] == OrEmpty(LastAt(cells, 1, c - 1)) {
      LastAtIsLast(cells, 1, c - 1);
    }
  }

  /** One document's row of the consolidated table. */
  method DocumentRow(i: nat, d: DocData, n: nat) returns (row: seq<string>)
    ensures DocRowOk(row, i, d, n)
  {
    row := ["Doc " + NatToString(i)] + Blanks(n);
    assert forall c :: 1 <= c < |row| ==> row[c] == Blanks(n)[c - 1];
    if d.fields.Some? {
      row := FillFromFields(row, d.fields.value);
    } else if d.cells.Some? {
      row := FillFromCells(row, d.cells.value);
    }
  }

  /** The consolidated table: none without field names; otherwise a header row "Document"
      followed by the field names, then one row per document. */
  method MultiDocumentTable(fieldNames: seq<string>, docs: seq<DocData>) returns (t: Option<Table>)
    ensures t.None? <==> fieldNames == []
    ensures t.Some? ==> |t.value| == |docs| + 1 && t.value[0] == ["Document"] + fieldNames
    ensures t.Some? ==> forall i :: 0 <= i < |docs| ==> DocRowOk(t.value[i + 1], i + 1, docs[i], |fieldNames|)
  {
    if fieldNames == [] {
      return None;
    }
    var table: Table := [["Document"] + fieldNames];
    for i := 0 to |docs|
      invariant |table| == i + 1 && table[0] == ["Document"] + fieldNames
      invariant forall j :: 0 <= j < i ==> DocRowOk(table[j + 1], j + 1, docs[j], |fieldNames|)
    {
      var row := DocumentRow(i + 1, docs[i], |fieldNames|);
      table := table + [row];
    }
    t := Some(table);
  }
}
