/**
 * Grid-based table detection (OCR/ocr_processing/table_detector.py): line coordinates become a
 * row-major grid of cells, each cell is read through a padded crop window, the first row gives
 * the headers, and the structure is flattened into a JSON record.
 *
 * Pixel work is replaced by its results: the bounding rectangles of the line contours, the
 * Hough segments, the image size, and what OCR reports on each crop window.
 */
module TableDetector {
  import opened Strs
  import opened Sorting
  import opened Numbers
  import opened Options
  import opened Dicts
  import opened JsonValues
  import OcrCore

  /** `cv2.boundingRect`: left, top, width and height. */
  datatype Rect = Rect(x: int, y: int, w: int, h: int)

  /** A Hough segment from (x1, y1) to (x2, y2). */
  datatype Segment = Segment(x1: int, y1: int, x2: int, y2: int)

  datatype CellInfo = CellInfo(
    row: nat, col: nat,
    x: int, y: int, width: int, height: int,
    text: string, confidence: real, isHeader: bool)

  /** `headers` maps `str(col)` to the header text, in insertion order. */
  datatype TableStructure = TableStructure(
    rows: nat, cols: nat, cells: seq<CellInfo>, headers: Dict<string>, gridConfidence: real)

  // ---------------------------------------------------------------- line finding

  /** The y of every horizontal contour wider than 50 pixels. */
  function HorizontalYs(contours: seq<Rect>): (r: seq<int>)
    ensures forall y :: y in r <==> exists i :: 0 <= i < |contours| && contours[i].w > 50 && contours[i].y == y
  {
    if contours == [] then []
    else
      var init, c := contours[..|contours| - 1], contours[|contours| - 1];
      assert forall i :: 0 <= i < |init| ==> init[i] == contours[i];
      HorizontalYs(init) + (if c.w > 50 then [c.y] else [])
  }

  /** The x of every vertical contour taller than 50 pixels. */
  function VerticalXs(contours: seq<Rect>): (r: seq<int>)
    ensures forall x :: x in r <==> exists i :: 0 <= i < |contours| && contours[i].h > 50 && contours[i].x == x
  {
    if contours == [] then []
    else
      var init, c := contours[..|contours| - 1], contours[|contours| - 1];
      assert forall i :: 0 <= i < |init| ==> init[i] == contours[i];
      VerticalXs(init) + (if c.h > 50 then [c.x] else [])
  }

  /** `detect_lines` after the morphology: the noise filter, then `sorted(set(...))`. */
  method DetectLines(hContours: seq<Rect>, vContours: seq<Rect>) returns (hLines: seq<int>, vLines: seq<int>)
    ensures hLines == SortedUnique(HorizontalYs(hContours)) && vLines == SortedUnique(VerticalXs(vContours))
    ensures StrictlyIncreasing(hLines) && StrictlyIncreasing(vLines)
    ensures forall y :: y in hLines <==> exists i :: 0 <= i < |hContours| && hContours[i].w > 50 && hContours[i].y == y
    ensures forall x :: x in vLines <==> exists i :: 0 <= i < |vContours| && vContours[i].h > 50 && vContours[i].x == x
  {
    var hs: seq<int> := [];
    for i := 0 to |hContours|
      invariant hs == HorizontalYs(hContours[..i])
    {
      assert hContours[..i + 1][..i] == hContours[..i];
      if hContours[i].w > 50 {
        hs := hs + [hContours[i].y];
      }
    }
    var vs: seq<int> := [];
    for i := 0 to |vContours|
      invariant vs == VerticalXs(vContours[..i])
    {
      assert vContours[..i + 1][..i] == vContours[..i];
      if vContours[i].h > 50 {
        vs := vs + [vContours[i].x];
      }
    }
    assert hContours[..|hContours|] == hContours && vContours[..|vContours|] == vContours;
    hLines := SortedUnique(hs);
    vLines := SortedUnique(vs);
  }

  function Abs(a: int): nat { if a < 0 then -a else a }

  /** A segment within 10 pixels of level counts as a horizontal line at its mid height
      (`(y1 + y2) // 2`; Dafny's division by 2 rounds down as Python's `//` does). */
  predicate HorizontalAt(s: Segment, y: int) {
    Abs(s.y2 - s.y1) < 10 && (s.y1 + s.y2) / 2 == y
  }

  /** Only a segment that is not horizontal can count as vertical. */
  predicate VerticalAt(s: Segment, x: int) {
    Abs(s.y2 - s.y1) >= 10 && Abs(s.x2 - s.x1) < 10 && (s.x1 + s.x2) / 2 == x
  }

  function HoughYs(segs: seq<Segment>): (r: seq<int>)
    ensures forall y :: y in r <==> exists i :: 0 <= i < |segs| && HorizontalAt(segs[i], y)
  {
    if segs == [] then []
    else
      var init, s := segs[..|segs| - 1], segs[|segs| - 1];
      assert forall i :: 0 <= i < |init| ==> init[i] == segs[i];
      HoughYs(init) + (if Abs(s.y2 - s.y1) < 10 then [(s.y1 + s.y2) / 2] else [])
  }

  function HoughXs(segs: seq<Segment>): (r: seq<int>)
    ensures forall x :: x in r <==> exists i :: 0 <= i < |segs| && VerticalAt(segs[i], x)
  {
    if segs == [] then []
    else
      var init, s := segs[..|segs| - 1], segs[|segs| - 1];
      assert forall i :: 0 <= i < |init| ==> init[i] == segs[i];
      HoughXs(init) +
        (if Abs(s.y2 - s.y1) < 10 then [] else if Abs(s.x2 - s.x1) < 10 then [(s.x1 + s.x2) / 2] else [])
  }

  /** `detect_grid_with_hough` after the transform; no segments (`lines is None`) gives two
      empty lists. */
  method DetectGridWithHough(segs: seq<Segment>) returns (hLines: seq<int>, vLines: seq<int>)
    ensures hLines == SortedUnique(HoughYs(segs)) && vLines == SortedUnique(HoughXs(segs))
    ensures StrictlyIncreasing(hLines) && StrictlyIncreasing(vLines)
    ensures forall y :: y in hLines <==> exists i :: 0 <= i < |segs| && HorizontalAt(segs[i], y)
    ensures forall x :: x in vLines <==> exists i :: 0 <= i < |segs| && VerticalAt(segs[i], x)
    ensures segs == [] ==> hLines == [] && vLines == []
  {
    if segs == [] {
      return [], [];
    }
    var hs: seq<int> := [];
    var vs: seq<int> := [];
    for i := 0 to |segs|
      invariant hs == HoughYs(segs[..i]) && vs == HoughXs(segs[..i])
    {
      assert segs[..i + 1][..i] == segs[..i];
      var s := segs[i];
      if Abs(s.y2 - s.y1) < 10 {
        hs := hs + [(s.y1 + s.y2) / 2];
      } else if Abs(s.x2 - s.x1) < 10 {
        vs := vs + [(s.x1 + s.x2) / 2];
      }
    }
    assert segs[..|segs|] == segs;
    hLines := SortedUnique(hs);
    vLines := SortedUnique(vs);
  }

  /** No segment counts both as a horizontal and as a vertical line. */
  lemma SegmentNotBoth(s: Segment, y: int, x: int)
    ensures !(HorizontalAt(s, y) && VerticalAt(s, x))
  {
  }

  // ---------------------------------------------------------------- grid

  /** The number of gaps between consecutive lines, `len(lines) - 1` as a range bound. */
  function Gaps(lines: seq<int>): nat {
    if |lines| == 0 then 0 else |lines| - 1
  }

  /** The cell between horizontal lines r, r+1 and vertical lines c, c+1. */
  function GridCell(h: seq<int>, v: seq<int>, r: nat, c: nat): CellInfo
    requires r + 1 < |h| && c + 1 < |v|
  {
    CellInfo(r, c, v[c], h[r], v[c + 1] - v[c], h[r + 1] - h[r], "", 0.0, r == 0)
  }

  /** The first n cells of row r. */
  function RowCells(h: seq<int>, v: seq<int>, r: nat, n: nat): (cells: seq<CellInfo>)
    requires r + 1 < |h| && n <= Gaps(v)
    ensures |cells| == n
    ensures forall c :: 0 <= c < n ==> cells[c] == GridCell(h, v, r, c)
  {
    if n == 0 then [] else RowCells(h, v, r, n - 1) + [GridCell(h, v, r, n - 1)]
  }

  /** The first n rows of the grid, row after row. */
  function GridRows(h: seq<int>, v: seq<int>, n: nat): (cells: seq<CellInfo>)
    requires n <= Gaps(h)
    ensures |cells| == n * Gaps(v)
    ensures forall k :: 0 <= k < |cells| ==>
              && cells[k].row < n && cells[k].col < Gaps(v)
              && cells[k] == GridCell(h, v, cells[k].row, cells[k].col)
  {
    if n == 0 then []
    else
      var prev := GridRows(h, v, n - 1);
      var row := RowCells(h, v, n - 1, Gaps(v));
      var cells := prev + row;
      assert |cells| == n * Gaps(v) by {
        RowsLength(n, Gaps(v), |prev|);
      }
      assert forall k :: 0 <= k < |cells| ==>
               && cells[k].row < n && cells[k].col < Gaps(v)
               && cells[k] == GridCell(h, v, cells[k].row, cells[k].col) by {
        forall k | 0 <= k < |cells|
          ensures cells[k].row < n && cells[k].col < Gaps(v)
          ensures cells[k] == GridCell(h, v, cells[k].row, cells[k].col)
        {
          if k < |prev| {
            assert cells[k] == prev[k];
          } else {
            assert cells[k] == row[k - |prev|] == GridCell(h, v, n - 1, k - |prev|);
          }
        }
      }
      cells
  }

  /** One more row of `cols` cells after n - 1 full rows makes n full rows. */
  lemma RowsLength(n: nat, cols: nat, prev: nat)
    requires n > 0 && prev == (n - 1) * cols
    ensures prev + cols == n * cols
  {
  }

  /** The cells `build_grid` produces. */
  function Grid(h: seq<int>, v: seq<int>): seq<CellInfo> {
    GridRows(h, v, Gaps(h))
  }

  /** The inner loop of `build_grid`: the cells of row r, left to right. */
  method BuildRow(h: seq<int>, v: seq<int>, r: nat) returns (row: seq<CellInfo>)
    requires r + 1 < |h|
    ensures row == RowCells(h, v, r, Gaps(v))
  {
    row := [];
    var colIdx := 0;
    while colIdx < |v| - 1
      invariant 0 <= colIdx <= Gaps(v)
      invariant row == RowCells(h, v, r, colIdx)
    {
      var y1, y2 := h[r], h[r + 1];
      var x1, x2 := v[colIdx], v[colIdx + 1];
      var cell := CellInfo(r, colIdx, x1, y1, x2 - x1, y2 - y1, "", 0.0, r == 0);
      row := row + [cell];
      colIdx := colIdx + 1;
    }
  }

  /** `build_grid`: the outer loop over the gaps between horizontal lines. */
  method BuildGrid(h: seq<int>, v: seq<int>) returns (cells: seq<CellInfo>)
    ensures cells == Grid(h, v)
  {
    cells := [];
    var rowIdx := 0;
    while rowIdx < |h| - 1
      invariant 0 <= rowIdx <= Gaps(h)
      invariant cells == GridRows(h, v, rowIdx)
    {
      var row := BuildRow(h, v, rowIdx);
      cells := cells + row;
      rowIdx := rowIdx + 1;
    }
  }

  /** The grid has (|h| - 1) * (|v| - 1) cells, cell (r, c) sits at index r * cols + c, every
      cell is in range, and exactly the cells of row 0 are headers. */
  lemma {:induction false} GridLayout(h: seq<int>, v: seq<int>, n: nat, r: nat, c: nat)
    requires n <= Gaps(h) && r < n && c < Gaps(v)
    ensures r * Gaps(v) + c < |GridRows(h, v, n)|
    ensures GridRows(h, v, n)[r * Gaps(v) + c] == GridCell(h, v, r, c)
    decreases n
  {
    var cols := Gaps(v);
    var prev, row := GridRows(h, v, n - 1), RowCells(h, v, n - 1, cols);
    assert GridRows(h, v, n) == prev + row;
    var k := r * cols + c;
    if r == n - 1 {
      RowIndex(r, n - 1, cols, c, k, |prev|);
      ConcatIndexRight(prev, row, k);
    } else {
      GridLayout(h, v, n - 1, r, c);
      IndexNonNegative(r, cols, c, k);
      ConcatIndexLeft(prev, row, k);
    }
  }

  /** Cell (r, c) of row m sits c places after the first m full rows. */
  lemma RowIndex(r: nat, m: nat, cols: nat, c: nat, k: int, len: int)
    requires r == m && k == r * cols + c && len == m * cols
    ensures k == len + c
  {
  }

  lemma IndexNonNegative(r: nat, cols: nat, c: nat, k: int)
    requires k == r * cols + c
    ensures k >= 0
  {
  }

  lemma ConcatIndexLeft<T>(a: seq<T>, b: seq<T>, k: int)
    requires 0 <= k < |a|
    ensures (a + b)[k] == a[k]
  {
  }

  lemma ConcatIndexRight<T>(a: seq<T>, b: seq<T>, k: int)
    requires |a| <= k < |a| + |b|
    ensures (a + b)[k] == b[k - |a|]
  {
  }

  /** Every cell of the grid lies in range, is a header iff it is in row 0, and spans the gap
      between its lines; strictly increasing lines give cells of positive width and height. */
  lemma GridCells(h: seq<int>, v: seq<int>)
    ensures |Grid(h, v)| == Gaps(h) * Gaps(v)
    ensures forall k :: 0 <= k < |Grid(h, v)| ==>
              var cell := Grid(h, v)[k];
              && cell.row < Gaps(h) && cell.col < Gaps(v)
              && (cell.isHeader <==> cell.row == 0)
              && cell.x == v[cell.col] && cell.y == h[cell.row]
              && cell.width == v[cell.col + 1] - v[cell.col]
              && cell.height == h[cell.row + 1] - h[cell.row]
    ensures StrictlyIncreasing(h) && StrictlyIncreasing(v) ==>
              forall k :: 0 <= k < |Grid(h, v)| ==> Grid(h, v)[k].width > 0 && Grid(h, v)[k].height > 0
  {
  }

  /** The sample table drawn by the repository's test script: six horizontal rules 100 pixels
      apart and five vertical rules 180 pixels apart give 20 cells of 180 x 100, four of them
      headers. */
  lemma SampleTableGrid()
    ensures var h, v := [50, 150, 250, 350, 450, 550], [50, 230, 410, 590, 770];
            && |Grid(h, v)| == 20
            && (forall k :: 0 <= k < 20 ==> Grid(h, v)[k].width == 180 && Grid(h, v)[k].height == 100)
            && (forall k :: 0 <= k < 20 ==> (Grid(h, v)[k].isHeader <==> k < 4))
  {
    var h, v := [50, 150, 250, 350, 450, 550], [50, 230, 410, 590, 770];
    GridCells(h, v);
    forall k | 0 <= k < 20 ensures Grid(h, v)[k].isHeader <==> k < 4 {
      var r, c := k / 4, k % 4;
      GridLayout(h, v, Gaps(h), r, c);
      assert r * 4 + c == k;
    }
  }

  // ---------------------------------------------------------------- crop window

  /** Rows top..bottom-1 and columns left..right-1 of the image. */
  datatype Window = Window(top: int, bottom: int, left: int, right: int)

  predicate IsEmpty(w: Window) {
    w.bottom <= w.top || w.right <= w.left
  }

  function Max(a: int, b: int): int { if a >= b then a else b }
  function Min(a: int, b: int): int { if a <= b then a else b }

  const Padding := 5

  /** The bounds `extract_cell_text` computes: the cell shrunk by 5 pixels on each side and
      clamped to the image. */
  function PaddedBounds(height: nat, width: nat, cell: CellInfo): Window {
    Window(Max(0, cell.y + Padding), Min(height, cell.y + cell.height - Padding),
           Max(0, cell.x + Padding), Min(width, cell.x + cell.width - Padding))
  }

  /** The part of an axis of length n that numpy's `a[start:stop]` selects for start >= 0: a
      negative stop counts from the end of the axis. */
  function SliceSpan(n: nat, start: int, stop: int): (span: (int, int))
    requires start >= 0
    ensures 0 <= span.0 <= span.1 <= n
  {
    var s := Min(start, n);
    var e := if stop < 0 then Max(0, n + stop) else Min(stop, n);
    (s, Max(s, e))
  }

  /** The pixels `image[y1:y2, x1:x2]` selects, as written. */
  function CropAsWritten(height: nat, width: nat, cell: CellInfo): Window {
    var b := PaddedBounds(height, width, cell);
    var rows, cols := SliceSpan(height, b.top, b.bottom), SliceSpan(width, b.left, b.right);
    Window(rows.0, rows.1, cols.0, cols.1)
  }

  /** A cell whose padded box is empty can still select pixels: the stop y + height - 5 is
      negative for a 3-pixel-high cell at the top edge, and numpy reads it from the bottom. */
  lemma CropWrapsAround()
    ensures var cell := CellInfo(0, 0, 0, 0, 50, 3, "", 0.0, true);
            && IsEmpty(PaddedBounds(100, 100, cell))
            && CropAsWritten(100, 100, cell) == Window(5, 98, 5, 45)
            && !IsEmpty(CropAsWritten(100, 100, cell))
  {
  }

  /** The crop window, read as the padded box it is meant to be; None when that box is empty. */
  function Crop(height: nat, width: nat, cell: CellInfo): Option<Window> {
    var b := PaddedBounds(height, width, cell);
    if IsEmpty(b) then None else Some(b)
  }

  /** A crop lies inside both the image and the padded cell; where no stop is negative it is
      exactly what numpy selects. */
  lemma CropInsideCell(height: nat, width: nat, cell: CellInfo)
    ensures Crop(height, width, cell).Some? ==>
              var w := Crop(height, width, cell).value;
              && 0 <= w.top < w.bottom <= height && 0 <= w.left < w.right <= width
              && cell.y + Padding <= w.top && w.bottom <= cell.y + cell.height - Padding
              && cell.x + Padding <= w.left && w.right <= cell.x + cell.width - Padding
              && CropAsWritten(height, width, cell) == w
    ensures cell.y + cell.height - Padding >= 0 && cell.x + cell.width - Padding >= 0 ==>
              (Crop(height, width, cell).None? <==> IsEmpty(CropAsWritten(height, width, cell)))
  {
  }

  // ---------------------------------------------------------------- cell text

  /** The words the direct Tesseract path keeps: confidence above 0 and not blank. */
  function DirectTexts(words: seq<OcrCore.WordRec>): seq<string> {
    if words == [] then []
    else
      var w := words[|words| - 1];
      DirectTexts(words[..|words| - 1]) + (if w.conf > 0.0 && Strip(w.text) != "" then [w.text] else [])
  }

  /** The confidences the direct path averages: every one above 0, blank words included. */
  function DirectConfs(words: seq<OcrCore.WordRec>): (r: seq<real>)
    ensures forall i :: 0 <= i < |r| ==> r[i] > 0.0
  {
    if words == [] then []
    else
      var w := words[|words| - 1];
      DirectConfs(words[..|words| - 1]) + (if w.conf > 0.0 then [w.conf] else [])
  }

  /** What OCR reports on a crop window: Tesseract's word table, or None when it raises. */
  type CropReader = Window -> Option<seq<OcrCore.WordRec>>

  /** The text and confidence `extract_cell_text` gives a cell: nothing for an empty window or a
      failed OCR call; otherwise through the OCR engine when the detector has one, else straight
      from Tesseract's table. */
  function CellReading(height: nat, width: nat, engine: Option<OcrCore.Engine>, read: CropReader,
                       cell: CellInfo): (string, real)
  {
    var win := Crop(height, width, cell);
    if win.None? || read(win.value).None? then ("", 0.0)
    else
      var words := read(win.value).value;
      if engine.Some? then
        if !engine.value.tesseractAvailable then ("", 0.0)
        else (Strip(Strip(Join(OcrCore.TessTexts(words), " "))), Mean(OcrCore.TessConfs(words)))
      else (Strip(Join(DirectTexts(words), " ")), Mean(DirectConfs(words)))
  }

  /** `extract_cell_text` */
  method ExtractCellText(height: nat, width: nat, engine: Option<OcrCore.Engine>, read: CropReader,
                         cell: CellInfo) returns (text: string, confidence: real)
    ensures (text, confidence) == CellReading(height, width, engine, read, cell)
  {
    var win := Crop(height, width, cell);
    if win.None? {
      return "", 0.0;
    }
    var data := read(win.value);
    if data.None? {
      return "", 0.0;
    }
    if engine.Some? {
      var result := OcrCore.ExtractTextTesseract(engine.value.tesseractAvailable, data.value);
      if result.None? {
        return "", 0.0;
      }
      return Strip(result.value.text), result.value.confidence;
    }
    var words := data.value;
    text := Strip(Join(DirectTexts(words), " "));
    confidence := if DirectConfs(words) != [] then Sum(DirectConfs(words)) / |DirectConfs(words)| as real else 0.0;
  }

  /** An empty window or a failed OCR call gives no text and confidence 0, and the reader is
      never consulted for an empty window. */
  lemma CellReadingFallbacks(height: nat, width: nat, engine: Option<OcrCore.Engine>,
                             read: CropReader, read2: CropReader, cell: CellInfo)
    ensures Crop(height, width, cell).None? ==>
              CellReading(height, width, engine, read, cell) == ("", 0.0) ==
              CellReading(height, width, engine, read2, cell)
    ensures Crop(height, width, cell).Some? && read(Crop(height, width, cell).value).None? ==>
              CellReading(height, width, engine, read, cell) == ("", 0.0)
  {
  }

  /** The text read from a cell is always trimmed. */
  lemma CellReadingTrimmed(height: nat, width: nat, engine: Option<OcrCore.Engine>, read: CropReader,
                           cell: CellInfo)
    ensures var t := CellReading(height, width, engine, read, cell).0;
            t == [] || (!IsSpace(t[0]) && !IsSpace(t[|t| - 1]))
  {
    var win := Crop(height, width, cell);
    if win.Some? && read(win.value).Some? {
      var words := read(win.value).value;
      if engine.Some? && engine.value.tesseractAvailable {
        var t := Strip(Strip(Join(OcrCore.TessTexts(words), " ")));
        assert CellReading(height, width, engine, read, cell).0 == t;
      } else if engine.None? {
        var t := Strip(Join(DirectTexts(words), " "));
        assert CellReading(height, width, engine, read, cell).0 == t;
      }
    }
  }

  // ---------------------------------------------------------------- structure

  /** The line lists the chosen method finds. */
  function FoundLines(detectMethod: string, hContours: seq<Rect>, vContours: seq<Rect>,
                      segs: seq<Segment>): (seq<int>, seq<int>)
  {
    if detectMethod == "hough" then (SortedUnique(HoughYs(segs)), SortedUnique(HoughXs(segs)))
    else (SortedUnique(HorizontalYs(hContours)), SortedUnique(VerticalXs(vContours)))
  }

  /** One grid cell with the text and confidence read from it. */
  function ReadCell(height: nat, width: nat, engine: Option<OcrCore.Engine>, read: CropReader,
                    cell: CellInfo): CellInfo
  {
    var t := CellReading(height, width, engine, read, cell);
    cell.(text := t.0, confidence := t.1)
  }

  /** The grid with every cell's text and confidence filled in. */
  function ReadGrid(height: nat, width: nat, engine: Option<OcrCore.Engine>, read: CropReader,
                    cells: seq<CellInfo>): (r: seq<CellInfo>)
    ensures |r| == |cells|
    ensures forall k :: 0 <= k < |cells| ==> r[k] == ReadCell(height, width, engine, read, cells[k])
  {
    seq(|cells|, k requires 0 <= k < |cells| => ReadCell(height, width, engine, read, cells[k]))
  }

  /** The headers the header cells give, in order: `headers[str(col)] = text` for each one
      with non-empty text. */
  function HeadersOf(headerCells: seq<CellInfo>): Dict<string> {
    PutNonEmpty(HeaderPairs(headerCells))
  }

  /** `(str(col), text)` for each header cell. */
  function HeaderPairs(headerCells: seq<CellInfo>): (r: seq<(string, string)>)
    ensures |r| == |headerCells|
    ensures forall i :: 0 <= i < |r| ==> r[i] == (NatToString(headerCells[i].col), headerCells[i].text)
  {
    seq(|headerCells|, i requires 0 <= i < |headerCells| => (NatToString(headerCells[i].col), headerCells[i].text))
  }

  /** Stores each pair with a non-empty value, in order, later pairs overwriting earlier ones. */
  function PutNonEmpty(pairs: seq<(string, string)>): Dict<string> {
    if pairs == [] then []
    else
      var p := pairs[|pairs| - 1];
      var prev := PutNonEmpty(pairs[..|pairs| - 1]);
      if p.1 != "" then Put(prev, p.0, p.1) else prev
  }

  /** `[c for c in cells if c.row == 0]` */
  function RowZero(cells: seq<CellInfo>): (r: seq<CellInfo>)
    ensures forall c :: c in r <==> c in cells && c.row == 0
  {
    if cells == [] then []
    else
      var c := cells[|cells| - 1];
      RowZero(cells[..|cells| - 1]) + (if c.row == 0 then [c] else [])
  }

  /** `[c.confidence for c in cells if c.confidence > 0]` */
  function PositiveConfs(cells: seq<CellInfo>): (r: seq<real>)
    ensures forall i :: 0 <= i < |r| ==> r[i] > 0.0
    ensures forall i :: 0 <= i < |r| ==> exists k :: 0 <= k < |cells| && cells[k].confidence == r[i]
  {
    if cells == [] then []
    else
      var init, c := cells[..|cells| - 1], cells[|cells| - 1];
      assert forall i :: 0 <= i < |init| ==> init[i] == cells[i];
      PositiveConfs(init) + (if c.confidence > 0.0 then [c.confidence] else [])
  }

  /** The last pair decides the key it names, when its value is non-empty; every other key is
      looked up as before it. */
  lemma PutNonEmptyStep(pairs: seq<(string, string)>, key: string)
    requires pairs != []
    ensures var p := pairs[|pairs| - 1];
      Lookup(PutNonEmpty(pairs), key) ==
        if p.1 != "" && p.0 == key then Some(p.1) else Lookup(PutNonEmpty(pairs[..|pairs| - 1]), key)
  {
    var p := pairs[|pairs| - 1];
    if p.1 != "" {
      PutLookup(PutNonEmpty(pairs[..|pairs| - 1]), p.0, p.1);
    }
  }

  /** A key is stored exactly when some pair with that key has a non-empty value. */
  lemma {:induction false} PutNonEmptyStored(pairs: seq<(string, string)>, key: string)
    ensures Lookup(PutNonEmpty(pairs), key).Some? <==> exists i :: 0 <= i < |pairs| && pairs[i].1 != "" && pairs[i].0 == key
    decreases |pairs|
  {
    if pairs != [] {
      var n := |pairs| - 1;
      var init, p := pairs[..n], pairs[n];
      PutNonEmptyStored(init, key);
      PutNonEmptyStep(pairs, key);
      if p.1 != "" && p.0 == key {
        assert pairs[n].1 != "" && pairs[n].0 == key;
      } else {
        assert Lookup(PutNonEmpty(pairs), key) == Lookup(PutNonEmpty(init), key);
        forall i | 0 <= i < |pairs| && pairs[i].1 != "" && pairs[i].0 == key
          ensures exists i' :: 0 <= i' < |init| && init[i'].1 != "" && init[i'].0 == key
        {
          assert i < n && init[i] == pairs[i];
        }
        forall i | 0 <= i < |init| && init[i].1 != "" && init[i].0 == key
          ensures exists i' :: 0 <= i' < |pairs| && pairs[i'].1 != "" && pairs[i'].0 == key
        {
          assert pairs[i] == init[i];
        }
      }
    }
  }

  /** A stored value is the value of some pair with that key. */
  lemma {:induction false} PutNonEmptyFrom(pairs: seq<(string, string)>, key: string)
    ensures Lookup(PutNonEmpty(pairs), key).Some? ==>
              exists i :: 0 <= i < |pairs| && pairs[i] == (key, Lookup(PutNonEmpty(pairs), key).value)
    decreases |pairs|
  {
    if pairs != [] {
      var n := |pairs| - 1;
      var init, p := pairs[..n], pairs[n];
      PutNonEmptyFrom(init, key);
      PutNonEmptyStep(pairs, key);
      var here, before := Lookup(PutNonEmpty(pairs), key), Lookup(PutNonEmpty(init), key);
      if p.1 != "" && p.0 == key {
        assert pairs[n] == (key, here.value);
      } else if before.Some? {
        var i :| 0 <= i < |init| && init[i] == (key, before.value);
        assert pairs[i] == init[i];
      }
    }
  }

  /** A header key is present exactly when some row-0 cell of that column has text, and its
      value is the text of such a cell. */
  lemma HeadersFromRowZero(headerCells: seq<CellInfo>, key: string)
    ensures Lookup(HeadersOf(headerCells), key).Some? <==>
              exists i :: 0 <= i < |headerCells| && headerCells[i].text != "" && NatToString(headerCells[i].col) == key
    ensures Lookup(HeadersOf(headerCells), key).Some? ==>
              exists i :: 0 <= i < |headerCells| && headerCells[i].text == Lookup(HeadersOf(headerCells), key).value &&
                          NatToString(headerCells[i].col) == key
  {
    var pairs := HeaderPairs(headerCells);
    PutNonEmptyStored(pairs, key);
    PutNonEmptyFrom(pairs, key);
    if exists i :: 0 <= i < |headerCells| && headerCells[i].text != "" && NatToString(headerCells[i].col) == key {
      var i :| 0 <= i < |headerCells| && headerCells[i].text != "" && NatToString(headerCells[i].col) == key;
      assert pairs[i].1 != "" && pairs[i].0 == key;
    }
    if Lookup(HeadersOf(headerCells), key).Some? {
      var i :| 0 <= i < |pairs| && pairs[i] == (key, Lookup(HeadersOf(headerCells), key).value);
      assert headerCells[i].text == pairs[i].1;
    }
  }

  /** The grid confidence is 0 when no cell has a positive confidence, and otherwise lies
      between the lowest and the highest positive cell confidence. */
  lemma GridConfidenceRange(cells: seq<CellInfo>, lo: real, hi: real)
    requires forall k :: 0 <= k < |cells| && cells[k].confidence > 0.0 ==> lo <= cells[k].confidence <= hi
    ensures PositiveConfs(cells) == [] ==> Mean(PositiveConfs(cells)) == 0.0
    ensures PositiveConfs(cells) != [] ==> lo <= Mean(PositiveConfs(cells)) <= hi && Mean(PositiveConfs(cells)) > 0.0
  {
    var ps := PositiveConfs(cells);
    if ps != [] {
      MeanBounds(ps, lo, hi);
      MeanAbove(ps, 0.0);
    }
  }

  /** The structure `detect_table_structure` returns for lines h and v. */
  function Assemble(h: seq<int>, v: seq<int>, height: nat, width: nat,
                    engine: Option<OcrCore.Engine>, read: CropReader): TableStructure
  {
    var cells := ReadGrid(height, width, engine, read, Grid(h, v));
    TableStructure(Gaps(h), Gaps(v), cells, HeadersOf(RowZero(cells)), Mean(PositiveConfs(cells)))
  }

  /** The image as loaded: its size, or None when it cannot be read. */
  datatype ImageSize = ImageSize(height: nat, width: nat)

  /** The loop of `detect_table_structure` that reads every grid cell in turn. */
  method ReadCells(height: nat, width: nat, engine: Option<OcrCore.Engine>, read: CropReader,
                   grid: seq<CellInfo>) returns (cells: seq<CellInfo>)
    ensures cells == ReadGrid(height, width, engine, read, grid)
  {
    cells := grid;
    for k := 0 to |cells|
      invariant |cells| == |grid|
      invariant forall j :: 0 <= j < k ==> cells[j] == ReadCell(height, width, engine, read, grid[j])
      invariant forall j :: k <= j < |cells| ==> cells[j] == grid[j]
    {
      var text, confidence := ExtractCellText(height, width, engine, read, cells[k]);
      cells := cells[k := cells[k].(text := text, confidence := confidence)];
    }
  }

  /** The loop of `detect_table_structure` that fills the headers from the row-0 cells. */
  method CollectHeaders(headerCells: seq<CellInfo>) returns (headers: Dict<string>)
    ensures headers == HeadersOf(headerCells)
  {
    headers := [];
    ghost var pairs := HeaderPairs(headerCells);
    for i := 0 to |headerCells|
      invariant headers == PutNonEmpty(pairs[..i])
    {
      assert pairs[..i + 1][..i] == pairs[..i];
      var cell := headerCells[i];
      if cell.text != "" {
        headers := Put(headers, NatToString(cell.col), cell.text);
      }
    }
    assert pairs[..|pairs|] == pairs;
  }

  /** `detect_table_structure`: None when the image does not load or fewer than two lines are
      found on either axis. */
  method DetectTableStructure(image: Option<ImageSize>, detectMethod: string,
                              hContours: seq<Rect>, vContours: seq<Rect>, segs: seq<Segment>,
                              engine: Option<OcrCore.Engine>, read: CropReader)
    returns (r: Option<TableStructure>)
    ensures var lines := FoundLines(detectMethod, hContours, vContours, segs);
            r.None? <==> image.None? || |lines.0| < 2 || |lines.1| < 2
    ensures r.Some? ==>
              var lines := FoundLines(detectMethod, hContours, vContours, segs);
              r.value == Assemble(lines.0, lines.1, image.value.height, image.value.width, engine, read)
  {
    if image.None? {
      return None;
    }
    var hLines, vLines;
    if detectMethod == "hough" {
      hLines, vLines := DetectGridWithHough(segs);
    } else {
      hLines, vLines := DetectLines(hContours, vContours);
    }
    assert (hLines, vLines) == FoundLines(detectMethod, hContours, vContours, segs);
    if |hLines| < 2 || |vLines| < 2 {
      return None;
    }
    var height, width := image.value.height, image.value.width;
    var grid := BuildGrid(hLines, vLines);
    var cells := ReadCells(height, width, engine, read, grid);
    var headers := CollectHeaders(RowZero(cells));
    var confs := PositiveConfs(cells);
    var gridConfidence := if confs != [] then Sum(confs) / |confs| as real else 0.0;
    return Some(TableStructure(|hLines| - 1, |vLines| - 1, cells, headers, gridConfidence));
  }

  // ---------------------------------------------------------------- record

  /** The members of `cell_to_dict`, in the source's key order. */
  function CellMembers(c: CellInfo): Dict<Json> {
    [("row", JInt(c.row)), ("col", JInt(c.col)), ("x", JInt(c.x)), ("y", JInt(c.y)),
     ("width", JInt(c.width)), ("height", JInt(c.height)), ("text", JStr(c.text)),
     ("confidence", JReal(c.confidence)), ("is_header", JBool(c.isHeader))]
  }

  function CellToJson(c: CellInfo): Json {
    JObj(CellMembers(c))
  }

  /** The row, column and left edge are found under their keys. */
  lemma CellPlaceLookups(c: CellInfo)
    ensures var m := CellMembers(c);
            Get(m, "row") == Some(JInt(c.row)) && Get(m, "col") == Some(JInt(c.col)) && Get(m, "x") == Some(JInt(c.x))
  {
    var m := CellMembers(c);
    IndexOfIs(m, "row", 0);
    IndexOfIs(m, "col", 1);
    IndexOfIs(m, "x", 2);
  }

  /** The top edge, width and height are found under their keys. */
  lemma CellSizeLookups(c: CellInfo)
    ensures var m := CellMembers(c);
            Get(m, "y") == Some(JInt(c.y)) && Get(m, "width") == Some(JInt(c.width)) && Get(m, "height") == Some(JInt(c.height))
  {
    var m := CellMembers(c);
    IndexOfIs(m, "y", 3);
    IndexOfIs(m, "width", 4);
    IndexOfIs(m, "height", 5);
  }

  /** The text, confidence and header flag are found under their keys. */
  lemma CellContentLookups(c: CellInfo)
    ensures var m := CellMembers(c);
            && Get(m, "text") == Some(JStr(c.text)) && Get(m, "confidence") == Some(JReal(c.confidence))
            && Get(m, "is_header") == Some(JBool(c.isHeader))
  {
    var m := CellMembers(c);
    IndexOfIs(m, "text", 6);
    IndexOfIs(m, "confidence", 7);
    IndexOfIs(m, "is_header", 8);
  }

  function HeadersToJson(headers: Dict<string>): (r: seq<(string, Json)>)
    ensures |r| == |headers|
    ensures forall i :: 0 <= i < |headers| ==> r[i] == (headers[i].0, JStr(headers[i].1))
  {
    seq(|headers|, i requires 0 <= i < |headers| => (headers[i].0, JStr(headers[i].1)))
  }

  function StrsToJson(xs: seq<string>): (r: seq<Json>)
    ensures |r| == |xs| && forall i :: 0 <= i < |xs| ==> r[i] == JStr(xs[i])
  {
    seq(|xs|, i requires 0 <= i < |xs| => JStr(xs[i]))
  }

  function CellsToJson(cells: seq<CellInfo>): (r: seq<Json>)
    ensures |r| == |cells|
  {
    if cells == [] then [] else [CellToJson(cells[0])] + CellsToJson(cells[1..])
  }

  /** The members of the record, from its already encoded parts. */
  function RecordMembers(rows: nat, cols: nat, headers: Json, conf: real, cells: Json, names: Json): Dict<Json> {
    [("rows", JInt(rows)), ("cols", JInt(cols)), ("headers", headers),
     ("grid_confidence", JReal(conf)), ("cells", cells), ("field_names", names)]
  }

  /** `structure_to_dict` */
  function StructureToDict(t: TableStructure): Json {
    JObj(RecordMembers(t.rows, t.cols, JObj(HeadersToJson(t.headers)), t.gridConfidence,
                       JArr(CellsToJson(t.cells)), JArr(StrsToJson(Values(t.headers)))))
  }

  /** The counts and the headers are found under their keys. */
  lemma RecordShapeLookups(rows: nat, cols: nat, headers: Json, conf: real, cells: Json, names: Json)
    ensures var m := RecordMembers(rows, cols, headers, conf, cells, names);
            Get(m, "rows") == Some(JInt(rows)) && Get(m, "cols") == Some(JInt(cols)) && Get(m, "headers") == Some(headers)
  {
    var m := RecordMembers(rows, cols, headers, conf, cells, names);
    IndexOfIs(m, "rows", 0);
    IndexOfIs(m, "cols", 1);
    IndexOfIs(m, "headers", 2);
  }

  /** The confidence, the cells and the field names are found under their keys. */
  lemma RecordContentLookups(rows: nat, cols: nat, headers: Json, conf: real, cells: Json, names: Json)
    ensures var m := RecordMembers(rows, cols, headers, conf, cells, names);
            && Get(m, "grid_confidence") == Some(JReal(conf)) && Get(m, "cells") == Some(cells)
            && Get(m, "field_names") == Some(names)
  {
    var m := RecordMembers(rows, cols, headers, conf, cells, names);
    IndexOfIs(m, "grid_confidence", 3);
    IndexOfIs(m, "cells", 4);
    IndexOfIs(m, "field_names", 5);
  }

  // Reading the record back.

  function AsNat(j: Option<Json>): Option<nat> {
    if j.Some? && j.value.JInt? && j.value.i >= 0 then Some(j.value.i as nat) else None
  }

  function AsInt(j: Option<Json>): Option<int> {
    if j.Some? && j.value.JInt? then Some(j.value.i) else None
  }

  function AsReal(j: Option<Json>): Option<real> {
    if j.Some? && j.value.JReal? then Some(j.value.r) else None
  }

  function AsStr(j: Option<Json>): Option<string> {
    if j.Some? && j.value.JStr? then Some(j.value.s) else None
  }

  function AsBool(j: Option<Json>): Option<bool> {
    if j.Some? && j.value.JBool? then Some(j.value.b) else None
  }

  function CellFromJson(j: Json): Option<CellInfo> {
    if !j.JObj? then None
    else
      var m := j.members;
      var row, col := AsNat(Get(m, "row")), AsNat(Get(m, "col"));
      var x, y := AsInt(Get(m, "x")), AsInt(Get(m, "y"));
      var w, h := AsInt(Get(m, "width")), AsInt(Get(m, "height"));
      var text, conf, hdr := AsStr(Get(m, "text")), AsReal(Get(m, "confidence")), AsBool(Get(m, "is_header"));
      if row.Some? && col.Some? && x.Some? && y.Some? && w.Some? && h.Some? && text.Some? && conf.Some? && hdr.Some? then
        Some(CellInfo(row.value, col.value, x.value, y.value, w.value, h.value, text.value, conf.value, hdr.value))
      else None
  }

  function CellsFromJson(items: seq<Json>): Option<seq<CellInfo>> {
    if items == [] then Some([])
    else
      var first, rest := CellFromJson(items[0]), CellsFromJson(items[1..]);
      if first.Some? && rest.Some? then Some([first.value] + rest.value) else None
  }

  function HeadersFromJson(members: seq<(string, Json)>): Option<Dict<string>> {
    if members == [] then Some([])
    else
      var rest := HeadersFromJson(members[1..]);
      if members[0].1.JStr? && rest.Some? then Some([(members[0].0, members[0].1.s)] + rest.value)
      else None
  }

  /** Reads a record written by `structure_to_dict` back into a structure. */
  function DictToStructure(j: Json): Option<TableStructure> {
    if !j.JObj? then None
    else
      var m := j.members;
      var rows, cols, conf := AsNat(Get(m, "rows")), AsNat(Get(m, "cols")), AsReal(Get(m, "grid_confidence"));
      var hs, cs := Get(m, "headers"), Get(m, "cells");
      if rows.Some? && cols.Some? && conf.Some? && hs.Some? && hs.value.JObj? && cs.Some? && cs.value.JArr? then
        var headers, cells := HeadersFromJson(hs.value.members), CellsFromJson(cs.value.items);
        if headers.Some? && cells.Some? then
          Some(TableStructure(rows.value, cols.value, cells.value, headers.value, conf.value))
        else None
      else None
  }

  /** Any member list holding the nine fields of `c` under their keys reads back as `c`. */
  lemma CellFromMembers(m: Dict<Json>, c: CellInfo)
    requires Get(m, "row") == Some(JInt(c.row)) && Get(m, "col") == Some(JInt(c.col))
    requires Get(m, "x") == Some(JInt(c.x)) && Get(m, "y") == Some(JInt(c.y))
    requires Get(m, "width") == Some(JInt(c.width)) && Get(m, "height") == Some(JInt(c.height))
    requires Get(m, "text") == Some(JStr(c.text)) && Get(m, "confidence") == Some(JReal(c.confidence))
    requires Get(m, "is_header") == Some(JBool(c.isHeader))
    ensures CellFromJson(JObj(m)) == Some(c)
  {
  }

  lemma CellRoundTrip(c: CellInfo)
    ensures CellFromJson(CellToJson(c)) == Some(c)
  {
    CellPlaceLookups(c);
    CellSizeLookups(c);
    CellContentLookups(c);
    CellFromMembers(CellMembers(c), c);
  }

  lemma HeadTail<T>(s: seq<T>)
    requires s != []
    ensures [s[0]] + s[1..] == s
  {
  }

  lemma {:induction false} CellsRoundTrip(cells: seq<CellInfo>)
    ensures CellsFromJson(CellsToJson(cells)) == Some(cells)
    decreases |cells|
  {
    if cells != [] {
      var c, rest := cells[0], cells[1..];
      var items := CellsToJson(cells);
      assert items[0] == CellToJson(c) && items[1..] == CellsToJson(rest);
      CellsRoundTrip(rest);
      CellRoundTrip(c);
      HeadTail(cells);
    }
  }

  lemma {:induction false} HeadersRoundTrip(headers: Dict<string>)
    ensures HeadersFromJson(HeadersToJson(headers)) == Some(headers)
    decreases |headers|
  {
    if headers != [] {
      assert HeadersToJson(headers)[1..] == HeadersToJson(headers[1..]);
      HeadersRoundTrip(headers[1..]);
      assert [headers[0]] + headers[1..] == headers;
    }
  }

  /** The record keeps everything: rows, cols, headers, the grid confidence and every cell
      with all nine fields in order read back unchanged, and `field_names` lists the header
      texts in header order. */
  lemma StructureRoundTrip(t: TableStructure)
    ensures DictToStructure(StructureToDict(t)) == Some(t)
    ensures Get(StructureToDict(t).members, "field_names") == Some(JArr(StrsToJson(Values(t.headers))))
  {
    var headers, cells, names := JObj(HeadersToJson(t.headers)), JArr(CellsToJson(t.cells)), JArr(StrsToJson(Values(t.headers)));
    RecordShapeLookups(t.rows, t.cols, headers, t.gridConfidence, cells, names);
    RecordContentLookups(t.rows, t.cols, headers, t.gridConfidence, cells, names);
    CellsRoundTrip(t.cells);
    HeadersRoundTrip(t.headers);
    StructureFromMembers(RecordMembers(t.rows, t.cols, headers, t.gridConfidence, cells, names), t);
  }

  /** Any member list holding the counts, the confidence, the encoded headers and the encoded
      cells of `t` under their keys reads back as `t`. */
  lemma StructureFromMembers(m: Dict<Json>, t: TableStructure)
    requires Get(m, "rows") == Some(JInt(t.rows)) && Get(m, "cols") == Some(JInt(t.cols))
    requires Get(m, "grid_confidence") == Some(JReal(t.gridConfidence))
    requires Get(m, "headers") == Some(JObj(HeadersToJson(t.headers)))
    requires Get(m, "cells") == Some(JArr(CellsToJson(t.cells)))
    requires HeadersFromJson(HeadersToJson(t.headers)) == Some(t.headers)
    requires CellsFromJson(CellsToJson(t.cells)) == Some(t.cells)
    ensures DictToStructure(JObj(m)) == Some(t)
  {
  }
}
