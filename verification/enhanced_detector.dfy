/**
 * The multi-strategy detector of `enhanced_table_detector.py`. Five candidate builders
 * (morphology, contours, Hough, text blocks and a hybrid of them) each propose a table
 * structure, every proposal gets a confidence score, and the arbiter keeps the proposal with
 * the highest score.
 *
 * The pixel steps are replaced by what they produce: the bounding rectangles of line contours,
 * the contours found after thresholding with their areas, the Hough segments, and Tesseract's
 * word boxes. A step that raises is an `Attempt` that is `Raised`.
 */
module EnhancedDetector {
  import opened Options
  import opened Strs
  import opened Sorting
  import opened TableDetector
  import OcrCore

  /** `DetectionStrategy`: the record kept for every successful strategy. */
  datatype DetectionStrategy = DetectionStrategy(name: string, confidence: real, cellsFound: nat, tag: string)

  /** What a step that may raise gives back: the exception, or its value. */
  datatype Attempt<T> = Raised | Done(value: T)

  /** A box that becomes one cell: `(x, y, w, h)` of a contour, with no text, or
      `(x, y, w, h, text)` of a text block. */
  datatype Block = Block(x: int, y: int, w: int, h: int, text: string)

  // ---------------------------------------------------------------- sort orders

  /** `key=lambda c: (c[1], c[0])` */
  function ByYX(a: Block, b: Block): bool { a.y < b.y || (a.y == b.y && a.x <= b.x) }

  /** `key=lambda b: b[1]` */
  function ByY(a: Block, b: Block): bool { a.y <= b.y }

  /** `key=lambda c: c[0]` */
  function ByX(a: Block, b: Block): bool { a.x <= b.x }

  lemma SortOrders()
    ensures TotalPreorder(ByYX) && TotalPreorder(ByY) && TotalPreorder(ByX)
  {
  }

  // ---------------------------------------------------------------- row clustering

  /** The groups concatenated in order. */
  function Flatten(gs: seq<seq<Block>>): seq<Block> {
    if gs == [] then [] else Flatten(gs[..|gs| - 1]) + gs[|gs| - 1]
  }

  lemma FlattenSnoc(gs: seq<seq<Block>>, g: seq<Block>)
    ensures Flatten(gs + [g]) == Flatten(gs) + g
  {
    assert (gs + [g])[..|gs|] == gs;
  }

  /** One step of the clustering loop: box b joins the last row when its y is less than `tol`
      away from the y of that row's first box, and opens a new row otherwise. */
  function AddToRows(prev: seq<seq<Block>>, b: Block, tol: int): (g: seq<seq<Block>>)
    requires forall k :: 0 <= k < |prev| ==> |prev[k]| > 0
    ensures forall k :: 0 <= k < |g| ==> |g[k]| > 0
  {
    if prev != [] && Abs(b.y - prev[|prev| - 1][0].y) < tol then
      prev[..|prev| - 1] + [prev[|prev| - 1] + [b]]
    else
      prev + [[b]]
  }

  lemma AppendAssoc(a: seq<Block>, b: seq<Block>, c: seq<Block>)
    ensures a + (b + c) == (a + b) + c
  {
  }

  lemma AddToRowsFlatten(prev: seq<seq<Block>>, b: Block, tol: int)
    requires forall k :: 0 <= k < |prev| ==> |prev[k]| > 0
    ensures Flatten(AddToRows(prev, b, tol)) == Flatten(prev) + [b]
  {
    var g := AddToRows(prev, b, tol);
    if prev != [] && Abs(b.y - prev[|prev| - 1][0].y) < tol {
      var n := |prev| - 1;
      var init, last := prev[..n], prev[n];
      assert g == init + [last + [b]];
      assert prev == init + [last];
      FlattenSnoc(init, last);
      FlattenSnoc(init, last + [b]);
      AppendAssoc(Flatten(init), last, [b]);
    } else {
      FlattenSnoc(prev, [b]);
    }
  }

  /** The rows the clustering loop forms over boxes in sorted order. */
  function Groups(s: seq<Block>, tol: int): (g: seq<seq<Block>>)
    ensures forall k :: 0 <= k < |g| ==> |g[k]| > 0
  {
    if s == [] then [] else AddToRows(Groups(s[..|s| - 1], tol), s[|s| - 1], tol)
  }

  /** Every box lands in exactly one row and the order is kept. */
  lemma {:induction false} GroupsFlatten(s: seq<Block>, tol: int)
    ensures Flatten(Groups(s, tol)) == s
    decreases |s|
  {
    if s != [] {
      GroupsFlatten(s[..|s| - 1], tol);
      AddToRowsFlatten(Groups(s[..|s| - 1], tol), s[|s| - 1], tol);
      assert s == s[..|s| - 1] + [s[|s| - 1]];
    }
  }

  /** Within a row every later box is less than `tol` away from the row's first box, and each
      row after the first starts with a box at least `tol` away from the previous row's first
      box: the rows are the ones the anchored tolerance rule forms. */
  ghost predicate Anchored(g: seq<seq<Block>>, tol: int) {
    && (forall k :: 0 <= k < |g| ==> |g[k]| > 0)
    && (forall k, j :: 0 <= k < |g| && 0 < j < |g[k]| ==> Abs(g[k][j].y - g[k][0].y) < tol)
    && (forall k :: 0 < k < |g| ==> Abs(g[k][0].y - g[k - 1][0].y) >= tol)
  }

  lemma AddToRowsAnchored(prev: seq<seq<Block>>, b: Block, tol: int)
    requires forall k :: 0 <= k < |prev| ==> |prev[k]| > 0
    requires Anchored(prev, tol)
    ensures Anchored(AddToRows(prev, b, tol), tol)
  {
    var n := |prev| - 1;
    if prev != [] && Abs(b.y - prev[n][0].y) < tol {
      JoinAnchored(prev, b, tol);
    } else {
      OpenAnchored(prev, b, tol);
    }
  }

  lemma JoinAnchored(prev: seq<seq<Block>>, b: Block, tol: int)
    requires prev != [] && Anchored(prev, tol)
    requires Abs(b.y - prev[|prev| - 1][0].y) < tol
    ensures Anchored(prev[..|prev| - 1] + [prev[|prev| - 1] + [b]], tol)
  {
    var n := |prev| - 1;
    var g: seq<seq<Block>> := prev[..n] + [prev[n] + [b]];
    forall k, j | 0 <= k < |g| && 0 < j < |g[k]| ensures Abs(g[k][j].y - g[k][0].y) < tol {
      if k < n {
        assert g[k] == prev[k];
      } else if j < |prev[n]| {
        assert g[k][j] == prev[n][j] && g[k][0] == prev[n][0];
      } else {
        assert g[k][j] == b && g[k][0] == prev[n][0];
      }
    }
    forall k | 0 < k < |g| ensures Abs(g[k][0].y - g[k - 1][0].y) >= tol {
      assert g[k - 1] == prev[k - 1] && g[k][0] == prev[k][0];
    }
  }

  lemma OpenAnchored(prev: seq<seq<Block>>, b: Block, tol: int)
    requires Anchored(prev, tol)
    requires prev != [] ==> Abs(b.y - prev[|prev| - 1][0].y) >= tol
    ensures Anchored(prev + [[b]], tol)
  {
    var g: seq<seq<Block>> := prev + [[b]];
    var n := |prev| - 1;
    forall k, j | 0 <= k < |g| && 0 < j < |g[k]| ensures Abs(g[k][j].y - g[k][0].y) < tol {
      assert g[k] == prev[k];
    }
    forall k | 0 < k < |g| ensures Abs(g[k][0].y - g[k - 1][0].y) >= tol {
      if k <= n {
        assert g[k] == prev[k] && g[k - 1] == prev[k - 1];
      } else {
        assert g[k] == [b] && g[k - 1] == prev[n];
      }
    }
  }

  lemma {:induction false} GroupsAnchored(s: seq<Block>, tol: int)
    ensures Anchored(Groups(s, tol), tol)
    decreases |s|
  {
    if s != [] {
      GroupsAnchored(s[..|s| - 1], tol);
      AddToRowsAnchored(Groups(s[..|s| - 1], tol), s[|s| - 1], tol);
    }
  }

  /** Each row sorted by x: `rows.append(sorted(current_row, key=lambda c: c[0]))`. */
  function SortRows(gs: seq<seq<Block>>): (rows: seq<seq<Block>>)
    ensures |rows| == |gs|
    ensures forall k {:trigger rows[k]} :: 0 <= k < |gs| ==> rows[k] == SortBy(gs[k], ByX)
  {
    seq(|gs|, k requires 0 <= k < |gs| => SortBy(gs[k], ByX))
  }

  function Rows(sorted: seq<Block>, tol: int): seq<seq<Block>> {
    SortRows(Groups(sorted, tol))
  }

  lemma SortRowsSnoc(gs: seq<seq<Block>>, g: seq<Block>)
    ensures SortRows(gs + [g]) == SortRows(gs) + [SortBy(g, ByX)]
  {
  }

  lemma GroupsSnoc(s: seq<Block>, i: nat, tol: int)
    requires i < |s|
    ensures Groups(s[..i + 1], tol) == AddToRows(Groups(s[..i], tol), s[i], tol)
  {
    assert s[..i + 1][..i] == s[..i];
  }

  /** The step as the loop takes it: the rows closed so far, and the open row. */
  lemma AddToOpenRow(closed: seq<seq<Block>>, open: seq<Block>, b: Block, tol: int)
    requires forall k :: 0 <= k < |closed| ==> |closed[k]| > 0
    requires |open| == 0 ==> |closed| == 0
    ensures var prev := closed + (if |open| == 0 then [] else [open]);
      && (|open| == 0 ==> AddToRows(prev, b, tol) == [[b]])
      && (|open| > 0 && Abs(b.y - open[0].y) < tol ==> AddToRows(prev, b, tol) == closed + [open + [b]])
      && (|open| > 0 && Abs(b.y - open[0].y) >= tol ==> AddToRows(prev, b, tol) == closed + [open] + [[b]])
  {
    var prev := closed + (if |open| == 0 then [] else [open]);
    if |open| > 0 {
      assert prev[..|prev| - 1] == closed && prev[|prev| - 1] == open;
    }
  }

  /** The row-clustering loop, with its `current_row` and `current_y` state. */
  method ClusterRows(sorted: seq<Block>, tol: int) returns (rows: seq<seq<Block>>)
    requires sorted != []
    ensures rows == Rows(sorted, tol)
  {
    rows := [];
    var currentRow: seq<Block> := [];
    var currentY := sorted[0].y;
    ghost var closed: seq<seq<Block>> := [];
    for i := 0 to |sorted|
      invariant rows == SortRows(closed)
      invariant forall k :: 0 <= k < |closed| ==> |closed[k]| > 0
      invariant Groups(sorted[..i], tol) == closed + (if |currentRow| == 0 then [] else [currentRow])
      invariant |currentRow| == 0 <==> i == 0
      invariant |currentRow| == 0 ==> |closed| == 0 && currentY == sorted[0].y
      invariant |currentRow| > 0 ==> currentY == currentRow[0].y
    {
      var b := sorted[i];
      GroupsSnoc(sorted, i, tol);
      ghost var prev := closed + (if |currentRow| == 0 then [] else [currentRow]);
      AddToOpenRow(closed, currentRow, b, tol);
      if Abs(b.y - currentY) < tol {
        if |currentRow| == 0 {
          assert currentRow + [b] == [b];
        }
        currentRow := currentRow + [b];
      } else {
        if |currentRow| > 0 {
          SortRowsSnoc(closed, currentRow);
          rows := rows + [SortBy(currentRow, ByX)];
          closed := closed + [currentRow];
        }
        currentRow := [b];
        currentY := b.y;
      }
    }
    assert sorted[..|sorted|] == sorted;
    if |currentRow| > 0 {
      SortRowsSnoc(closed, currentRow);
      rows := rows + [SortBy(currentRow, ByX)];
      closed := closed + [currentRow];
    }
  }

  // ---------------------------------------------------------------- cells from rows

  /** The cell of the box in row r, column c. */
  function BlockCell(b: Block, r: nat, c: nat): CellInfo {
    CellInfo(r, c, b.x, b.y, b.w, b.h, b.text, 0.0, r == 0)
  }

  function RowToCells(row: seq<Block>, r: nat): (cells: seq<CellInfo>)
    ensures |cells| == |row|
    ensures forall c {:trigger cells[c]} :: 0 <= c < |row| ==> cells[c] == BlockCell(row[c], r, c)
  {
    seq(|row|, c requires 0 <= c < |row| => BlockCell(row[c], r, c))
  }

  /** `for row_idx, row in enumerate(rows): for col_idx, box in enumerate(row)` */
  function CellsOf(rows: seq<seq<Block>>): (cells: seq<CellInfo>)
    ensures |cells| == |Flatten(rows)|
  {
    if rows == [] then [] else CellsOf(rows[..|rows| - 1]) + RowToCells(rows[|rows| - 1], |rows| - 1)
  }

  /** Cell c is the cell of the box at its own row and column, and those are in range. */
  ghost predicate CellAt(rows: seq<seq<Block>>, c: CellInfo) {
    c.row < |rows| && c.col < |rows[c.row]| && c == BlockCell(rows[c.row][c.col], c.row, c.col)
  }

  lemma {:induction false} CellsOfLayout(rows: seq<seq<Block>>)
    ensures forall k :: 0 <= k < |CellsOf(rows)| ==> CellAt(rows, CellsOf(rows)[k])
    decreases |rows|
  {
    if rows != [] {
      var n := |rows| - 1;
      var init := rows[..n];
      CellsOfLayout(init);
      var prev, last := CellsOf(init), RowToCells(rows[n], n);
      var cells := CellsOf(rows);
      assert cells == prev + last;
      forall k | 0 <= k < |cells| ensures CellAt(rows, cells[k]) {
        if k < |prev| {
          assert cells[k] == prev[k];
          assert CellAt(init, prev[k]);
          assert init[prev[k].row] == rows[prev[k].row];
        } else {
          assert cells[k] == last[k - |prev|];
        }
      }
    }
  }

  lemma CellBlocksAppend(a: seq<CellInfo>, b: seq<CellInfo>)
    ensures CellBlocks(a + b) == CellBlocks(a) + CellBlocks(b)
  {
  }

  lemma CellBlocksRow(row: seq<Block>, r: nat)
    ensures CellBlocks(RowToCells(row, r)) == row
  {
  }

  /** `max(len(row) for row in rows) if rows else 0` */
  function MaxLen(rows: seq<seq<Block>>): (m: nat)
    ensures forall k :: 0 <= k < |rows| ==> |rows[k]| <= m
    ensures rows != [] ==> exists k :: 0 <= k < |rows| && |rows[k]| == m
    ensures rows == [] ==> m == 0
  {
    if rows == [] then 0
    else
      var m := MaxLen(rows[..|rows| - 1]);
      assert forall k :: 0 <= k < |rows| - 1 ==> rows[..|rows| - 1][k] == rows[k];
      if |rows[|rows| - 1]| > m then |rows[|rows| - 1]| else m
  }

  /** The two nested loops that number the cells row by row. */
  method CellsFromRows(rows: seq<seq<Block>>) returns (cells: seq<CellInfo>)
    ensures cells == CellsOf(rows)
  {
    cells := [];
    for r := 0 to |rows|
      invariant cells == CellsOf(rows[..r])
    {
      assert rows[..r + 1][..r] == rows[..r];
      var row := rows[r];
      for c := 0 to |row|
        invariant cells == CellsOf(rows[..r]) + RowToCells(row, r)[..c]
      {
        var b := row[c];
        cells := cells + [CellInfo(r, c, b.x, b.y, b.w, b.h, b.text, 0.0, r == 0)];
      }
      assert RowToCells(row, r)[..|row|] == RowToCells(row, r);
    }
    assert rows[..|rows|] == rows;
  }

  /** The box a cell was made from. */
  function CellBlocks(cells: seq<CellInfo>): (r: seq<Block>)
    ensures |r| == |cells|
    ensures forall k {:trigger r[k]} :: 0 <= k < |cells| ==>
              r[k] == Block(cells[k].x, cells[k].y, cells[k].width, cells[k].height, cells[k].text)
  {
    seq(|cells|, k requires 0 <= k < |cells| =>
      Block(cells[k].x, cells[k].y, cells[k].width, cells[k].height, cells[k].text))
  }

  /** Reading the boxes back from the cells gives the rows concatenated. */
  lemma {:induction false} CellsOfBlocks(rows: seq<seq<Block>>)
    ensures CellBlocks(CellsOf(rows)) == Flatten(rows)
    decreases |rows|
  {
    if rows != [] {
      var n := |rows| - 1;
      CellsOfBlocks(rows[..n]);
      CellBlocksAppend(CellsOf(rows[..n]), RowToCells(rows[n], n));
      CellBlocksRow(rows[n], n);
    }
  }

  /** Sorting each row does not change which boxes there are. */
  lemma {:induction false} SortRowsPermutes(gs: seq<seq<Block>>)
    ensures multiset(Flatten(SortRows(gs))) == multiset(Flatten(gs))
    decreases |gs|
  {
    if gs != [] {
      var n := |gs| - 1;
      SortRowsPermutes(gs[..n]);
      var rows := SortRows(gs);
      assert rows[..n] == SortRows(gs[..n]);
      assert Flatten(rows) == Flatten(rows[..n]) + rows[n];
    }
  }

  /** The structure the clustering builds from boxes in sorted order. */
  function ClusterStructure(sorted: seq<Block>, tol: int, gridConfidence: real): TableStructure {
    var rows := Rows(sorted, tol);
    TableStructure(|rows|, MaxLen(rows), CellsOf(rows), [], gridConfidence)
  }

  /** Every box becomes exactly one cell: the cells' boxes are the input boxes, rearranged. */
  lemma ClusterKeepsBoxes(sorted: seq<Block>, tol: int, gridConfidence: real)
    ensures var t := ClusterStructure(sorted, tol, gridConfidence);
      && |t.cells| == |sorted|
      && multiset(CellBlocks(t.cells)) == multiset(sorted)
      && t.rows == |Groups(sorted, tol)|
  {
    var gs := Groups(sorted, tol);
    var rows := Rows(sorted, tol);
    CellsOfBlocks(rows);
    SortRowsPermutes(gs);
    GroupsFlatten(sorted, tol);
    assert |Flatten(rows)| == |multiset(Flatten(rows))|;
  }

  /** Every cell has row < rows and col < cols, and exactly the cells of row 0 are headers. */
  lemma ClusterInRange(sorted: seq<Block>, tol: int, gridConfidence: real)
    ensures var t := ClusterStructure(sorted, tol, gridConfidence);
      forall k :: 0 <= k < |t.cells| ==>
        t.cells[k].row < t.rows && t.cells[k].col < t.cols && (t.cells[k].isHeader <==> t.cells[k].row == 0)
  {
    var rows := Rows(sorted, tol);
    var cells := CellsOf(rows);
    CellsOfLayout(rows);
    forall k | 0 <= k < |cells|
      ensures cells[k].row < |rows| && cells[k].col < MaxLen(rows) && (cells[k].isHeader <==> cells[k].row == 0)
    {
      assert CellAt(rows, cells[k]);
      assert |rows[cells[k].row]| <= MaxLen(rows);
    }
  }

  /** Each row is ordered by x. */
  lemma ClusterRowsByX(sorted: seq<Block>, tol: int)
    ensures forall k :: 0 <= k < |Rows(sorted, tol)| ==> Sorted(Rows(sorted, tol)[k], ByX)
  {
    var gs := Groups(sorted, tol);
    var rows := Rows(sorted, tol);
    SortOrders();
    forall k | 0 <= k < |rows| ensures Sorted(rows[k], ByX) {
      SortBySorted(gs[k], ByX);
    }
  }

  // ---------------------------------------------------------------- strategy 1: morphology

  /** What the morphology strategy sees: the image size and the bounding rectangles of the
      contours left after opening with the 50 x 1 and 1 x 50 kernels. */
  datatype MorphScan = MorphScan(width: nat, height: nat, hRects: seq<Rect>, vRects: seq<Rect>)

  /** A horizontal contour counts when it is wider than 30% of the image. */
  predicate SpansWidth(width: nat, r: Rect) {
    r.w as real > width as real * 0.3
  }

  /** A vertical contour counts when it is taller than 30% of the image. */
  predicate SpansHeight(height: nat, r: Rect) {
    r.h as real > height as real * 0.3
  }

  /** The middle row `y + h // 2` of every wide contour, in contour order. */
  function MorphYs(width: nat, rects: seq<Rect>): (r: seq<int>)
    ensures |r| <= |rects|
    ensures forall y :: y in r <==> exists i :: 0 <= i < |rects| && SpansWidth(width, rects[i]) && rects[i].y + rects[i].h / 2 == y
  {
    if rects == [] then []
    else
      var init, c := rects[..|rects| - 1], rects[|rects| - 1];
      assert forall i :: 0 <= i < |init| ==> init[i] == rects[i];
      MorphYs(width, init) + (if SpansWidth(width, c) then [c.y + c.h / 2] else [])
  }

  /** The middle column `x + w // 2` of every tall contour, in contour order. */
  function MorphXs(height: nat, rects: seq<Rect>): (r: seq<int>)
    ensures |r| <= |rects|
    ensures forall x :: x in r <==> exists i :: 0 <= i < |rects| && SpansHeight(height, rects[i]) && rects[i].x + rects[i].w / 2 == x
  {
    if rects == [] then []
    else
      var init, c := rects[..|rects| - 1], rects[|rects| - 1];
      assert forall i :: 0 <= i < |init| ==> init[i] == rects[i];
      MorphXs(height, init) + (if SpansHeight(height, c) then [c.x + c.w / 2] else [])
  }

  /** The structure a grid of lines gives, with no headers; `h` and `v` are non-empty. */
  function LineTable(h: seq<int>, v: seq<int>, gridConfidence: real): (t: TableStructure)
    requires |h| > 0 && |v| > 0
    ensures t.rows == |h| - 1 && t.cols == |v| - 1 && t.headers == []
    ensures |t.cells| == t.rows * t.cols
    ensures t.gridConfidence == gridConfidence
  {
    GridCells(h, v);
    TableStructure(|h| - 1, |v| - 1, Grid(h, v), [], gridConfidence)
  }

  /** `_detect_morphology` after the pixel steps. The "fewer than two lines" test is made on the
      midpoint lists before `sorted(set(...))` removes repeats. */
  function Morphology(scan: MorphScan): Option<TableStructure> {
    var hs, vs := MorphYs(scan.width, scan.hRects), MorphXs(scan.height, scan.vRects);
    if |hs| < 2 || |vs| < 2 then None
    else
      var h, v := SortedUnique(hs), SortedUnique(vs);
      assert hs[0] in h && vs[0] in v;
      Some(LineTable(h, v, 0.8))
  }

  /** The midpoints of the wide contours, gathered in contour order. */
  method WideMidpoints(width: nat, rects: seq<Rect>) returns (hs: seq<int>)
    ensures hs == MorphYs(width, rects)
  {
    hs := [];
    for i := 0 to |rects|
      invariant hs == MorphYs(width, rects[..i])
    {
      assert rects[..i + 1][..i] == rects[..i];
      var c := rects[i];
      if c.w as real > width as real * 0.3 {
        hs := hs + [c.y + c.h / 2];
      }
    }
    assert rects[..|rects|] == rects;
  }

  /** The midpoints of the tall contours, gathered in contour order. */
  method TallMidpoints(height: nat, rects: seq<Rect>) returns (vs: seq<int>)
    ensures vs == MorphXs(height, rects)
  {
    vs := [];
    for i := 0 to |rects|
      invariant vs == MorphXs(height, rects[..i])
    {
      assert rects[..i + 1][..i] == rects[..i];
      var c := rects[i];
      if c.h as real > height as real * 0.3 {
        vs := vs + [c.x + c.w / 2];
      }
    }
    assert rects[..|rects|] == rects;
  }

  method DetectMorphology(scan: MorphScan) returns (r: Option<TableStructure>)
    ensures r == Morphology(scan)
  {
    var hs := WideMidpoints(scan.width, scan.hRects);
    var vs := TallMidpoints(scan.height, scan.vRects);
    if |hs| < 2 || |vs| < 2 {
      return None;
    }
    var h, v := SortedUnique(hs), SortedUnique(vs);
    assert hs[0] in h && vs[0] in v;
    var cells := BuildGrid(h, v);
    r := Some(TableStructure(|h| - 1, |v| - 1, cells, [], 0.8));
  }

  /** The strategy succeeds exactly when at least two wide and two tall contours are found;
      with pairwise different midpoints the table has one row fewer than there are wide
      contours and one column fewer than there are tall ones, at confidence 0.8. */
  lemma MorphologyLines(scan: MorphScan)
    ensures var hs, vs := MorphYs(scan.width, scan.hRects), MorphXs(scan.height, scan.vRects);
      && (Morphology(scan).Some? <==> |hs| >= 2 && |vs| >= 2)
      && (Morphology(scan).Some? ==>
            var t := Morphology(scan).value;
            && t.rows == |SortedUnique(hs)| - 1 && t.cols == |SortedUnique(vs)| - 1
            && t.headers == [] && t.gridConfidence == 0.8
            && |t.cells| == t.rows * t.cols)
    ensures var hs, vs := MorphYs(scan.width, scan.hRects), MorphXs(scan.height, scan.vRects);
      (forall i, j :: 0 <= i < j < |hs| ==> hs[i] != hs[j]) &&
      (forall i, j :: 0 <= i < j < |vs| ==> vs[i] != vs[j]) &&
      |hs| >= 2 && |vs| >= 2 ==>
        Morphology(scan).value.rows == |hs| - 1 && Morphology(scan).value.cols == |vs| - 1
  {
    var hs, vs := MorphYs(scan.width, scan.hRects), MorphXs(scan.height, scan.vRects);
    if (forall i, j :: 0 <= i < j < |hs| ==> hs[i] != hs[j]) && (forall i, j :: 0 <= i < j < |vs| ==> vs[i] != vs[j]) {
      SortedUniqueDistinct(hs);
      SortedUniqueDistinct(vs);
    }
  }

  /** Two wide contours with the same midpoint pass the "two lines" test, but collapse into one
      line: the strategy then reports a table of zero rows and no cells. */
  lemma MorphologyCollapsedLines()
    ensures var tall := [Rect(0, 0, 2, 100), Rect(50, 0, 2, 100)];
      Morphology(MorphScan(100, 100, [Rect(0, 10, 100, 2), Rect(0, 11, 100, 1)], tall)) ==
        Some(TableStructure(0, 1, [], [], 0.8))
  {
    var hs := MorphYs(100, [Rect(0, 10, 100, 2), Rect(0, 11, 100, 1)]);
    var vs := MorphXs(100, [Rect(0, 0, 2, 100), Rect(50, 0, 2, 100)]);
    assert hs == [11, 11];
    assert vs == [1, 51];
    var h := SortedUnique(hs);
    assert h == [11] by {
      assert forall y :: y in h <==> y == 11;
    }
    var v := SortedUnique(vs);
    assert |v| == 2 by { SortedUniqueDistinct(vs); }
  }

  // ---------------------------------------------------------------- strategy 3: Hough lines

  /** `_detect_hough_lines`: any exception inside gives None. */
  function Hough(segs: Attempt<seq<Segment>>): Option<TableStructure> {
    match segs
    case Raised => None
    case Done(s) =>
      var h, v := SortedUnique(HoughYs(s)), SortedUnique(HoughXs(s));
      if |h| < 2 || |v| < 2 then None else Some(LineTable(h, v, 0.7))
  }

  method DetectHoughLines(segs: Attempt<seq<Segment>>) returns (r: Option<TableStructure>)
    ensures r == Hough(segs)
  {
    if segs.Raised? {
      return None;
    }
    var h, v := DetectGridWithHough(segs.value);
    if |h| < 2 || |v| < 2 {
      return None;
    }
    var cells := BuildGrid(h, v);
    r := Some(TableStructure(|h| - 1, |v| - 1, cells, [], 0.7));
  }

  /** The Hough strategy succeeds exactly when two distinct horizontal and two distinct vertical
      positions are found; its lines are those positions in increasing order, so every cell
      has a positive width and height. */
  lemma HoughLines(segs: seq<Segment>)
    ensures var h, v := SortedUnique(HoughYs(segs)), SortedUnique(HoughXs(segs));
      && (Hough(Done(segs)).Some? <==> |h| >= 2 && |v| >= 2)
      && (Hough(Done(segs)).Some? ==>
            var t := Hough(Done(segs)).value;
            && t.rows == |h| - 1 && t.cols == |v| - 1 && t.gridConfidence == 0.7
            && (forall k :: 0 <= k < |t.cells| ==> t.cells[k].width > 0 && t.cells[k].height > 0))
  {
    GridCells(SortedUnique(HoughYs(segs)), SortedUnique(HoughXs(segs)));
  }

  // ---------------------------------------------------------------- strategy 2: contours

  /** A contour found after Otsu thresholding: its area and its bounding rectangle. */
  datatype Contour = Contour(area: real, box: Rect)

  /** A possible cell: area above 500 and a width-to-height ratio strictly between 0.1 and 10
      (a zero height gives the ratio 0, which fails). */
  predicate KeepContour(c: Contour) {
    c.area > 500.0 && c.box.h > 0 && 0.1 < c.box.w as real / c.box.h as real < 10.0
  }

  function ContourBlock(c: Contour): Block {
    Block(c.box.x, c.box.y, c.box.w, c.box.h, "")
  }

  /** The boxes of the kept contours, in contour order. */
  function ContourBlocks(cs: seq<Contour>): (r: seq<Block>)
    ensures |r| <= |cs|
    ensures forall b :: b in r <==> exists i :: 0 <= i < |cs| && KeepContour(cs[i]) && b == ContourBlock(cs[i])
  {
    if cs == [] then []
    else
      var init, c := cs[..|cs| - 1], cs[|cs| - 1];
      assert forall i :: 0 <= i < |init| ==> init[i] == cs[i];
      ContourBlocks(init) + (if KeepContour(c) then [ContourBlock(c)] else [])
  }

  /** `_detect_contours` after the pixel steps: fewer than five possible cells give None;
      otherwise the boxes are sorted by (y, x) and clustered into rows 20 pixels tall. */
  function Contours(cs: seq<Contour>): Option<TableStructure> {
    BlockTable(ContourBlocks(cs), ByYX, 20, 0.75)
  }

  /** The thresholding and contour search can raise; nothing in the method catches it. */
  function ContoursOutcome(cs: Attempt<seq<Contour>>): Attempt<Option<TableStructure>> {
    match cs
    case Raised => Raised
    case Done(c) => Done(Contours(c))
  }

  method DetectContours(cs: seq<Contour>) returns (r: Option<TableStructure>)
    ensures r == Contours(cs)
  {
    var blocks: seq<Block> := [];
    for i := 0 to |cs|
      invariant blocks == ContourBlocks(cs[..i])
    {
      assert cs[..i + 1][..i] == cs[..i];
      var c := cs[i];
      if c.area > 500.0 && c.box.h > 0 && 0.1 < c.box.w as real / c.box.h as real < 10.0 {
        blocks := blocks + [Block(c.box.x, c.box.y, c.box.w, c.box.h, "")];
      }
    }
    assert cs[..|cs|] == cs;
    if |blocks| < 5 {
      return None;
    }
    var sorted := SortBy(blocks, ByYX);
    var rows := ClusterRows(sorted, 20);
    var cells := CellsFromRows(rows);
    r := Some(TableStructure(|rows|, MaxLen(rows), cells, [], 0.75));
  }

  /** The common tail of the contour and text-block strategies: fewer than five boxes give
      None, otherwise the boxes are sorted and clustered into rows. */
  function BlockTable(blocks: seq<Block>, le: (Block, Block) -> bool, tol: int, gridConfidence: real): Option<TableStructure> {
    if |blocks| < 5 then None else Some(ClusterStructure(SortBy(blocks, le), tol, gridConfidence))
  }

  /** Sorting and clustering five boxes or more gives one cell per box, each cell carries the
      box it came from, and every cell is in range. */
  lemma BlockTableCells(blocks: seq<Block>, le: (Block, Block) -> bool, tol: int, gridConfidence: real)
    ensures BlockTable(blocks, le, tol, gridConfidence).Some? <==> |blocks| >= 5
    ensures BlockTable(blocks, le, tol, gridConfidence).Some? ==>
      var t := BlockTable(blocks, le, tol, gridConfidence).value;
      && multiset(CellBlocks(t.cells)) == multiset(blocks)
      && t.gridConfidence == gridConfidence && t.headers == []
      && forall k :: 0 <= k < |t.cells| ==>
           CellBlocks(t.cells)[k] in blocks && t.cells[k].row < t.rows && t.cells[k].col < t.cols
  {
    if |blocks| >= 5 {
      var sorted := SortBy(blocks, le);
      ClusterKeepsBoxes(sorted, tol, gridConfidence);
      ClusterInRange(sorted, tol, gridConfidence);
      var t := ClusterStructure(sorted, tol, gridConfidence);
      forall k | 0 <= k < |t.cells| ensures CellBlocks(t.cells)[k] in blocks {
        assert CellBlocks(t.cells)[k] in multiset(blocks);
      }
    }
  }

  /** Every kept contour becomes one cell with no text, and nothing else does. */
  lemma ContourCells(cs: seq<Contour>)
    ensures Contours(cs).Some? <==> |ContourBlocks(cs)| >= 5
    ensures Contours(cs).Some? ==>
      var t := Contours(cs).value;
      && multiset(CellBlocks(t.cells)) == multiset(ContourBlocks(cs))
      && t.gridConfidence == 0.75 && t.headers == []
      && forall k :: 0 <= k < |t.cells| ==> t.cells[k].text == "" && t.cells[k].row < t.rows && t.cells[k].col < t.cols
  {
    BlockTableCells(ContourBlocks(cs), ByYX, 20, 0.75);
  }

  // ---------------------------------------------------------------- strategy 4: text blocks

  /** One entry of Tesseract's `image_to_data`: text, confidence and box. */
  datatype WordBox = WordBox(text: string, conf: real, left: int, top: int, width: int, height: int)

  /** A word counts when `int(conf) > 50` and its stripped text is not empty. */
  predicate KeepWord(w: WordBox) {
    OcrCore.PyInt(w.conf) > 50 && Strip(w.text) != ""
  }

  function WordBlock(w: WordBox): Block {
    Block(w.left, w.top, w.width, w.height, Strip(w.text))
  }

  /** The boxes of the kept words, with their stripped text, in Tesseract's order. */
  function WordBlocks(ws: seq<WordBox>): (r: seq<Block>)
    ensures |r| <= |ws|
  {
    if ws == [] then [] else WordBlocks(ws[..|ws| - 1]) + (if KeepWord(ws[|ws| - 1]) then [WordBlock(ws[|ws| - 1])] else [])
  }

  /** The kept boxes are exactly those of the words that pass the filter. */
  lemma {:induction false} WordBlocksKept(ws: seq<WordBox>)
    ensures forall b :: b in WordBlocks(ws) <==> exists i :: 0 <= i < |ws| && KeepWord(ws[i]) && b == WordBlock(ws[i])
    decreases |ws|
  {
    if ws != [] {
      var init := ws[..|ws| - 1];
      WordBlocksKept(init);
      assert forall i :: 0 <= i < |init| ==> init[i] == ws[i];
    }
  }

  /** `_detect_text_blocks`: an exception from Tesseract gives None, as do fewer than five
      words; otherwise the words are sorted by y alone and clustered into rows 30 pixels tall. */
  function TextBlocks(ws: Attempt<seq<WordBox>>): Option<TableStructure> {
    match ws
    case Raised => None
    case Done(w) =>
      BlockTable(WordBlocks(w), ByY, 30, 0.65)
  }

  /** The boxes of the confident, non-blank words, gathered in word order. */
  method CollectBlocks(words: seq<WordBox>) returns (blocks: seq<Block>)
    ensures blocks == WordBlocks(words)
  {
    blocks := [];
    for i := 0 to |words|
      invariant blocks == WordBlocks(words[..i])
    {
      assert words[..i + 1][..i] == words[..i];
      var w := words[i];
      if OcrCore.PyInt(w.conf) > 50 {
        var text := Strip(w.text);
        if text != "" {
          blocks := blocks + [Block(w.left, w.top, w.width, w.height, text)];
        }
      }
    }
    assert words[..|words|] == words;
  }

  method DetectTextBlocks(ws: Attempt<seq<WordBox>>) returns (r: Option<TableStructure>)
    ensures r == TextBlocks(ws)
  {
    if ws.Raised? {
      return None;
    }
    var blocks := CollectBlocks(ws.value);
    if |blocks| < 5 {
      return None;
    }
    var sorted := SortBy(blocks, ByY);
    var rows := ClusterRows(sorted, 30);
    var cells := CellsFromRows(rows);
    r := Some(TableStructure(|rows|, MaxLen(rows), cells, [], 0.65));
  }

  /** Every kept word becomes one cell carrying its stripped, non-empty text. */
  lemma TextBlockCells(ws: seq<WordBox>)
    ensures TextBlocks(Done(ws)).Some? <==> |WordBlocks(ws)| >= 5
    ensures TextBlocks(Done(ws)).Some? ==>
      var t := TextBlocks(Done(ws)).value;
      && multiset(CellBlocks(t.cells)) == multiset(WordBlocks(ws))
      && t.gridConfidence == 0.65 && t.headers == []
      && forall k :: 0 <= k < |t.cells| ==> t.cells[k].text != "" && t.cells[k].row < t.rows && t.cells[k].col < t.cols
  {
    var blocks := WordBlocks(ws);
    BlockTableCells(blocks, ByY, 30, 0.65);
    WordBlocksHaveText(ws);
    if |blocks| >= 5 {
      var t := BlockTable(blocks, ByY, 30, 0.65).value;
      forall k | 0 <= k < |t.cells| ensures t.cells[k].text != "" {
        assert CellBlocks(t.cells)[k] in blocks;
      }
    }
  }

  lemma {:induction false} WordBlocksHaveText(ws: seq<WordBox>)
    ensures forall b :: b in WordBlocks(ws) ==> b.text != ""
    decreases |ws|
  {
    if ws != [] {
      WordBlocksHaveText(ws[..|ws| - 1]);
    }
  }

  // ---------------------------------------------------------------- strategy 5: hybrid

  /** What the five strategies see of one preprocessed image, together with the image's quality
      score. Each pixel step may raise. */
  datatype Scan = Scan(
    quality: real,
    morph: Attempt<MorphScan>,
    contours: Attempt<seq<Contour>>,
    hough: Attempt<seq<Segment>>,
    words: Attempt<seq<WordBox>>)

  /** Nothing inside `_detect_morphology` catches an exception. */
  function MorphologyOutcome(m: Attempt<MorphScan>): Attempt<Option<TableStructure>> {
    match m
    case Raised => Raised
    case Done(s) => Done(Morphology(s))
  }

  /** The centre `(x + width // 2, y + height // 2)` of text cell `t` lies in the closed box of
      `cell`. */
  predicate CentreInside(cell: CellInfo, t: CellInfo) {
    var cx, cy := t.x + t.width / 2, t.y + t.height / 2;
    cell.x <= cx <= cell.x + cell.width && cell.y <= cy <= cell.y + cell.height
  }

  /** The text of the first text cell, from index i on, whose centre lies in `cell`. */
  function FirstInsideFrom(cell: CellInfo, texts: seq<CellInfo>, i: nat): Option<string>
    requires i <= |texts|
    decreases |texts| - i
  {
    if i == |texts| then None
    else if CentreInside(cell, texts[i]) then Some(texts[i].text)
    else FirstInsideFrom(cell, texts, i + 1)
  }

  /** The search finds nothing exactly when no centre lies inside, and otherwise finds the text
      of the first text cell whose centre does. */
  lemma {:induction false} FirstInsideFromIsFirst(cell: CellInfo, texts: seq<CellInfo>, i: nat)
    requires i <= |texts|
    ensures FirstInsideFrom(cell, texts, i).None? <==> forall j :: i <= j < |texts| ==> !CentreInside(cell, texts[j])
    ensures FirstInsideFrom(cell, texts, i).Some? ==>
      exists j :: i <= j < |texts| && CentreInside(cell, texts[j]) && FirstInsideFrom(cell, texts, i).value == texts[j].text &&
        forall l :: i <= l < j ==> !CentreInside(cell, texts[l])
    decreases |texts| - i
  {
    if i < |texts| {
      if CentreInside(cell, texts[i]) {
        assert FirstInsideFrom(cell, texts, i) == Some(texts[i].text);
      } else {
        var rest := FirstInsideFrom(cell, texts, i + 1);
        assert FirstInsideFrom(cell, texts, i) == rest;
        FirstInsideFromIsFirst(cell, texts, i + 1);
        if rest.Some? {
          var j :| i + 1 <= j < |texts| && CentreInside(cell, texts[j]) && rest.value == texts[j].text &&
            forall l :: i + 1 <= l < j ==> !CentreInside(cell, texts[l]);
          assert forall l :: i <= l < j ==> !CentreInside(cell, texts[l]);
        }
      }
    }
  }

  /** A cell adopts the text of the first text cell centred in it, if any. */
  function MergedCell(cell: CellInfo, texts: seq<CellInfo>): CellInfo {
    match FirstInsideFrom(cell, texts, 0)
    case None => cell
    case Some(text) => cell.(text := text)
  }

  function MergeCells(cells: seq<CellInfo>, texts: seq<CellInfo>): (r: seq<CellInfo>)
    ensures |r| == |cells|
    ensures forall k {:trigger r[k]} :: 0 <= k < |cells| ==> r[k] == MergedCell(cells[k], texts)
  {
    seq(|cells|, k requires 0 <= k < |cells| => MergedCell(cells[k], texts))
  }

  /** The geometry with the text merged in and `grid_confidence` raised to 0.85. */
  function Merge(structure: TableStructure, texts: seq<CellInfo>): TableStructure {
    structure.(cells := MergeCells(structure.cells, texts), gridConfidence := 0.85)
  }

  /** The loop over the grid cells with its inner search that stops at the first match. */
  method MergeText(cells: seq<CellInfo>, texts: seq<CellInfo>) returns (merged: seq<CellInfo>)
    ensures merged == MergeCells(cells, texts)
  {
    merged := cells;
    for k := 0 to |cells|
      invariant |merged| == |cells|
      invariant forall j :: 0 <= j < k ==> merged[j] == MergedCell(cells[j], texts)
      invariant forall j :: k <= j < |cells| ==> merged[j] == cells[j]
    {
      var cell := cells[k];
      var t := 0;
      while t < |texts|
        invariant t <= |texts|
        invariant FirstInsideFrom(cell, texts, t) == FirstInsideFrom(cell, texts, 0)
      {
        var text := texts[t];
        if cell.x <= text.x + text.width / 2 <= cell.x + cell.width && cell.y <= text.y + text.height / 2 <= cell.y + cell.height {
          merged := merged[k := cell.(text := text.text)];
          break;
        }
        t := t + 1;
      }
    }
  }

  /** Merging keeps the layout: the same rows, columns and cells, each cell changed at most in
      its text. A cell with a text centre inside takes the text of the first one; any other cell
      keeps its text. */
  lemma MergeKeepsLayout(structure: TableStructure, texts: seq<CellInfo>)
    ensures var m := Merge(structure, texts);
      && m.rows == structure.rows && m.cols == structure.cols && m.headers == structure.headers
      && |m.cells| == |structure.cells| && m.gridConfidence == 0.85
      && forall k :: 0 <= k < |m.cells| ==>
           && m.cells[k] == structure.cells[k].(text := m.cells[k].text)
           && ((forall j :: 0 <= j < |texts| ==> !CentreInside(structure.cells[k], texts[j])) ==>
                 m.cells[k].text == structure.cells[k].text)
           && ((exists j :: 0 <= j < |texts| && CentreInside(structure.cells[k], texts[j])) ==>
                 exists j :: 0 <= j < |texts| && CentreInside(structure.cells[k], texts[j]) && m.cells[k].text == texts[j].text &&
                   forall l :: 0 <= l < j ==> !CentreInside(structure.cells[k], texts[l]))
  {
    var m := Merge(structure, texts);
    forall k | 0 <= k < |m.cells|
      ensures m.cells[k] == structure.cells[k].(text := m.cells[k].text)
      ensures (forall j :: 0 <= j < |texts| ==> !CentreInside(structure.cells[k], texts[j])) ==>
                m.cells[k].text == structure.cells[k].text
      ensures (exists j :: 0 <= j < |texts| && CentreInside(structure.cells[k], texts[j])) ==>
                exists j :: 0 <= j < |texts| && CentreInside(structure.cells[k], texts[j]) && m.cells[k].text == texts[j].text &&
                  forall l :: 0 <= l < j ==> !CentreInside(structure.cells[k], texts[l])
    {
      FirstInsideFromIsFirst(structure.cells[k], texts, 0);
    }
  }

  /** `_detect_hybrid`: the geometry of morphology, else of Hough; with neither, the contour
      result as it is; with no text blocks, the geometry as it is; otherwise the merge. */
  function Hybrid(scan: Scan): Attempt<Option<TableStructure>> {
    match MorphologyOutcome(scan.morph)
    case Raised => Raised
    case Done(m) =>
      var structure := if m.Some? then m else Hough(scan.hough);
      if structure.None? then ContoursOutcome(scan.contours)
      else match TextBlocks(scan.words)
        case None => Done(structure)
        case Some(text) => Done(Some(Merge(structure.value, text.cells)))
  }

  method RunMorphology(m: Attempt<MorphScan>) returns (r: Attempt<Option<TableStructure>>)
    ensures r == MorphologyOutcome(m)
  {
    if m.Raised? {
      return Raised;
    }
    var t := DetectMorphology(m.value);
    r := Done(t);
  }

  method RunContours(cs: Attempt<seq<Contour>>) returns (r: Attempt<Option<TableStructure>>)
    ensures r == ContoursOutcome(cs)
  {
    if cs.Raised? {
      return Raised;
    }
    var t := DetectContours(cs.value);
    r := Done(t);
  }

  method DetectHybrid(scan: Scan) returns (r: Attempt<Option<TableStructure>>)
    ensures r == Hybrid(scan)
  {
    var morph := RunMorphology(scan.morph);
    if morph.Raised? {
      return Raised;
    }
    var structure := morph.value;
    if structure.None? {
      structure := DetectHoughLines(scan.hough);
    }
    if structure.None? {
      r := RunContours(scan.contours);
      return;
    }
    var text := DetectTextBlocks(scan.words);
    if text.None? {
      return Done(structure);
    }
    var cells := MergeText(structure.value.cells, text.value.cells);
    r := Done(Some(structure.value.(cells := cells, gridConfidence := 0.85)));
  }

  /** With grid lines found, the hybrid succeeds whether or not any text is found, and keeps
      the grid's rows, columns and cell count; without grid lines it is the contour strategy. */
  lemma HybridSources(scan: Scan, ms: MorphScan)
    requires scan.morph == Done(ms)
    ensures var geometry := if Morphology(ms).Some? then Morphology(ms) else Hough(scan.hough);
      && (geometry.None? ==> Hybrid(scan) == ContoursOutcome(scan.contours))
      && (geometry.Some? && TextBlocks(scan.words).None? ==> Hybrid(scan) == Done(geometry))
      && (geometry.Some? ==>
            && Hybrid(scan).Done? && Hybrid(scan).value.Some?
            && Hybrid(scan).value.value.rows == geometry.value.rows
            && Hybrid(scan).value.value.cols == geometry.value.cols
            && |Hybrid(scan).value.value.cells| == |geometry.value.cells|)
  {
    var geometry := if Morphology(ms).Some? then Morphology(ms) else Hough(scan.hough);
    if geometry.Some? && TextBlocks(scan.words).Some? {
      MergeKeepsLayout(geometry.value, TextBlocks(scan.words).value.cells);
    }
  }

  // ---------------------------------------------------------------- confidence

  /** 100 for 20 to 200 cells, 30 below 5, 70 below 20, and 80 above 200. */
  function CellScore(n: nat): real {
    if 20 <= n <= 200 then 100.0 else if n < 5 then 30.0 else if n < 20 then 70.0 else 80.0
  }

  /** `_calculate_confidence`: no result scores 0; otherwise the weighted mix of
      `grid_confidence` (as a percentage), the cell-count score and the image quality score,
      capped at 100. */
  function CalculateConfidence(result: Option<TableStructure>, quality: real): real {
    match result
    case None => 0.0
    case Some(t) =>
      var c := t.gridConfidence * 100.0 * 0.4 + CellScore(|t.cells|) * 0.3 + quality * 0.3;
      if c < 100.0 then c else 100.0
  }

  /** The score never exceeds 100; with a non-negative grid confidence and quality score it is
      at least 9 for any result and 0 only for none. */
  lemma ConfidenceBounds(result: Option<TableStructure>, quality: real)
    ensures CalculateConfidence(result, quality) <= 100.0
    ensures result.None? ==> CalculateConfidence(result, quality) == 0.0
    ensures result.Some? && result.value.gridConfidence >= 0.0 && quality >= 0.0 ==>
              CalculateConfidence(result, quality) >= 9.0
  {
  }

  /** The score does not decrease when the grid confidence or the quality score grows and the
      number of cells stays the same. */
  lemma ConfidenceMonotone(t: TableStructure, u: TableStructure, q: real, r: real)
    requires |t.cells| == |u.cells| && t.gridConfidence <= u.gridConfidence && q <= r
    ensures CalculateConfidence(Some(t), q) <= CalculateConfidence(Some(u), r)
  {
  }

  /** The hybrid scores at least as much as the grid it was built on (morphology at 0.8 or
      Hough at 0.7): merging keeps the cell count and raises the grid confidence to 0.85. */
  lemma HybridAtLeastGeometry(geometry: TableStructure, texts: seq<CellInfo>, quality: real)
    requires geometry.gridConfidence <= 0.85
    ensures CalculateConfidence(Some(Merge(geometry, texts)), quality) >= CalculateConfidence(Some(geometry), quality)
  {
    ConfidenceMonotone(geometry, Merge(geometry, texts), quality, quality);
  }

  /** The hybrid need not score as much as the text blocks it took its text from: a grid of
      fewer than 5 cells merged with 20 to 200 text cells scores 13 points less, whatever the
      quality score up to 100. */
  lemma HybridBelowTextBlocks(geometry: TableStructure, text: TableStructure, quality: real)
    requires |geometry.cells| < 5 && 20 <= |text.cells| <= 200 && text.gridConfidence == 0.65
    requires quality <= 100.0
    ensures CalculateConfidence(Some(Merge(geometry, text.cells)), quality) + 13.0 ==
            CalculateConfidence(Some(text), quality)
  {
  }

  // ---------------------------------------------------------------- arbiter

  /** A successful strategy's table together with its record. */
  datatype Candidate = Candidate(result: TableStructure, strategy: DetectionStrategy)

  /** The entry a strategy adds to `results`: one when it returned a table, none when it returned
      None or raised. */
  function Entry(outcome: Attempt<Option<TableStructure>>, name: string, tag: string, quality: real): (r: seq<Candidate>)
    ensures |r| <= 1
  {
    match outcome
    case Done(Some(t)) => [Candidate(t, DetectionStrategy(name, CalculateConfidence(Some(t), quality), |t.cells|, tag))]
    case _ => []
  }

  /** The successful strategies in the order they are tried. */
  function Results(scan: Scan): seq<Candidate> {
    Entry(MorphologyOutcome(scan.morph), "Morphology", "morphology", scan.quality) +
    Entry(ContoursOutcome(scan.contours), "Contours", "contours", scan.quality) +
    Entry(Done(Hough(scan.hough)), "Hough Lines", "hough", scan.quality) +
    Entry(Done(TextBlocks(scan.words)), "Text Blocks", "textblocks", scan.quality) +
    Entry(Hybrid(scan), "Hybrid", "hybrid", scan.quality)
  }

  /** `key=confidence, reverse=True`: Python's sort stays stable when reversed. */
  function ByConfidenceDesc(a: Candidate, b: Candidate): bool {
    a.strategy.confidence >= b.strategy.confidence
  }

  const NoStrategy := DetectionStrategy("None", 0.0, 0, "none")

  /** The outcome of a detection call: the image could not be loaded (a `ValueError`), or the
      best table, if any, with its strategy record. */
  datatype Detection = CouldNotLoad | Detected(best: Option<TableStructure>, strategy: DetectionStrategy)

  /** The choice among the successful strategies: none, or the head of the sorted list. */
  function Pick(results: seq<Candidate>): Detection {
    if results == [] then Detected(None, NoStrategy)
    else
      var winner := SortBy(results, ByConfidenceDesc)[0];
      Detected(Some(winner.result), winner.strategy)
  }

  function Decide(image: Option<Scan>): Detection {
    match image
    case None => CouldNotLoad
    case Some(scan) => Pick(Results(scan))
  }

  function StrategiesOf(cs: seq<Candidate>): (r: seq<DetectionStrategy>)
    ensures |r| == |cs|
    ensures forall k {:trigger r[k]} :: 0 <= k < |cs| ==> r[k] == cs[k].strategy
  {
    seq(|cs|, k requires 0 <= k < |cs| => cs[k].strategy)
  }

  class EnhancedTableDetector {
    /** The records of the last call's successful strategies, best first. */
    var strategies: seq<DetectionStrategy>

    constructor()
      ensures strategies == []
    {
      strategies := [];
    }

    /** `detect_with_multiple_strategies`: each strategy in turn, every one of them in its own
        `try`, then the stable sort by descending confidence. */
    method DetectWithMultipleStrategies(image: Option<Scan>) returns (d: Detection)
      modifies this
      ensures d == Decide(image)
      ensures image.None? || Results(image.value) == [] ==> strategies == old(strategies)
      ensures image.Some? && Results(image.value) != [] ==>
                strategies == StrategiesOf(SortBy(Results(image.value), ByConfidenceDesc))
    {
      if image.None? {
        return CouldNotLoad;
      }
      var results := RunStrategies(image.value);
      if results == [] {
        return Detected(None, NoStrategy);
      }
      var sorted := SortBy(results, ByConfidenceDesc);
      strategies := StrategiesOf(sorted);
      d := Detected(Some(sorted[0].result), sorted[0].strategy);
    }
  }

  /** The five strategies in turn, each result kept when the strategy returned a table. */
  method RunStrategies(scan: Scan) returns (results: seq<Candidate>)
    ensures results == Results(scan)
  {
    results := [];
    var morph := RunMorphology(scan.morph);
    results := Record(results, morph, "Morphology", "morphology", scan.quality);
    assert results == Entry(morph, "Morphology", "morphology", scan.quality);
    var contours := RunContours(scan.contours);
    results := Record(results, contours, "Contours", "contours", scan.quality);
    var hough := DetectHoughLines(scan.hough);
    results := Record(results, Done(hough), "Hough Lines", "hough", scan.quality);
    var text := DetectTextBlocks(scan.words);
    results := Record(results, Done(text), "Text Blocks", "textblocks", scan.quality);
    var hybrid := DetectHybrid(scan);
    results := Record(results, hybrid, "Hybrid", "hybrid", scan.quality);
  }

  /** Appends a strategy's entry, if it succeeded, to the results so far. */
  method Record(results: seq<Candidate>, outcome: Attempt<Option<TableStructure>>, name: string, tag: string, quality: real)
    returns (r: seq<Candidate>)
    ensures r == results + Entry(outcome, name, tag, quality)
  {
    r := results;
    if outcome.Done? && outcome.value.Some? {
      var t := outcome.value.value;
      r := r + [Candidate(t, DetectionStrategy(name, CalculateConfidence(outcome.value, quality), |t.cells|, tag))];
    }
  }

  /** The winner has the highest confidence of all successful strategies, and among those of
      highest confidence it is the one tried first. */
  lemma ArbiterPicksBest(results: seq<Candidate>)
    requires results != []
    ensures Pick(results).best.Some?
    ensures exists i ::
              && 0 <= i < |results|
              && Pick(results) == Detected(Some(results[i].result), results[i].strategy)
              && (forall j :: 0 <= j < |results| ==> results[j].strategy.confidence <= results[i].strategy.confidence)
              && (forall j :: 0 <= j < i ==> results[j].strategy.confidence < results[i].strategy.confidence)
  {
    assert TotalPreorder(ByConfidenceDesc);
    SortByHead(results, ByConfidenceDesc);
    FirstLeastIsLeast(results, ByConfidenceDesc);
    var i := FirstLeast(results, ByConfidenceDesc);
    assert forall j :: 0 <= j < |results| ==> ByConfidenceDesc(results[i], results[j]);
  }

  /** The strategy records are kept best first. */
  lemma StrategiesBestFirst(results: seq<Candidate>)
    ensures var s := StrategiesOf(SortBy(results, ByConfidenceDesc));
      && |s| == |results|
      && forall i, j :: 0 <= i < j < |s| ==> s[i].confidence >= s[j].confidence
  {
    assert TotalPreorder(ByConfidenceDesc);
    SortBySorted(results, ByConfidenceDesc);
  }

  /** An image on which every strategy fails or raises gives no table and the "None" record,
      without raising. */
  lemma NothingDetected(scan: Scan)
    requires MorphologyOutcome(scan.morph) != Done(None) ==> scan.morph.Raised?
    requires ContoursOutcome(scan.contours) != Done(None) ==> scan.contours.Raised?
    requires Hough(scan.hough).None? && TextBlocks(scan.words).None?
    ensures Decide(Some(scan)) == Detected(None, DetectionStrategy("None", 0.0, 0, "none"))
  {
  }

  /** A borderless table: no lines, no usable contours, and at least five readable words. The
      text-block strategy is then the only one that succeeds, and it wins. */
  lemma BorderlessPicksTextBlocks(scan: Scan)
    requires scan.morph.Done? && Morphology(scan.morph.value).None?
    requires scan.contours.Done? && Contours(scan.contours.value).None?
    requires Hough(scan.hough).None?
    requires scan.words.Done? && |WordBlocks(scan.words.value)| >= 5
    ensures Decide(Some(scan)).Detected? && Decide(Some(scan)).best == TextBlocks(scan.words)
    ensures Decide(Some(scan)).strategy.name == "Text Blocks"
  {
    var results := Results(scan);
    assert Hybrid(scan) == Done(None);
    assert results == Entry(Done(TextBlocks(scan.words)), "Text Blocks", "textblocks", scan.quality);
    assert |results| == 1;
  }
}
