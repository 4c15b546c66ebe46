/**
 * The layout logic of `PDFFiller`: the word wrap and page breaks of `create_pdf_from_text`,
 * the table grid of `create_pdf_from_template_data` and the rows of `create_consolidated_pdf`.
 *
 * Drawing is recorded as a list of events (a line drawn at a height, a page break); fonts,
 * colours and table styles are not modelled. `stringWidth` is a parameter.
 */
module PdfFiller {
  import opened Options
  import opened Strs
  import opened Sorting
  import opened ExportData

  // ---------------------------------------------------------------- page geometry (letter, points)

  const PageWidth: real := 612.0
  const PageHeight: real := 792.0
  const Margin: real := 54.0
  const MaxWidth: real := PageWidth - 2.0 * Margin
  const LineHeight: real := 14.0
  /** A line that leaves the pen below this height starts a new page. */
  const Floor: real := Margin + 20.0
  /** Where writing resumes on a new page. */
  const Top: real := PageHeight - Margin

  /** The height of the first text line: below the title, the metadata lines (15 points each
      plus 10) if there are any, and the separator. */
  function BodyStart(metadataCount: nat): (y: real)
    ensures metadataCount == 0 ==> y == PageHeight - Margin - 60.0
    ensures metadataCount > 0 ==> y == PageHeight - Margin - 70.0 - 15.0 * metadataCount as real
  {
    var y := PageHeight - Margin - 40.0;
    var y := if metadataCount > 0 then y - 15.0 * metadataCount as real - 10.0 else y;
    y - 20.0
  }

  datatype Event = Draw(y: real, text: string) | NewPage

  // ---------------------------------------------------------------- word wrap

  /** `current_line` after the words `ws` were added: each word followed by one space. */
  function Piece(ws: seq<string>): (r: string)
    ensures r == [] <==> ws == []
  {
    if ws == [] then [] else Piece(ws[..|ws| - 1]) + ws[|ws| - 1] + " "
  }

  lemma PieceSnoc(ws: seq<string>, w: string)
    ensures Piece(ws + [w]) == Piece(ws) + w + " "
  {
    assert (ws + [w])[..|ws|] == ws;
  }

  /** One drawn line: a word too wide to share a line, drawn as it is, or the words gathered
      in `current_line`, drawn stripped. */
  datatype Chunk = Forced(word: string) | Flushed(words: seq<string>)

  function ChunkWords(c: Chunk): seq<string> {
    match c
    case Forced(w) => [w]
    case Flushed(ws) => ws
  }

  function Render(c: Chunk): string {
    match c
    case Forced(w) => w
    case Flushed(ws) => Strip(Piece(ws))
  }

  function Flatten(cs: seq<Chunk>): seq<string> {
    if cs == [] then [] else Flatten(cs[..|cs| - 1]) + ChunkWords(cs[|cs| - 1])
  }

  function Renders(cs: seq<Chunk>): seq<string> {
    if cs == [] then [] else Renders(cs[..|cs| - 1]) + [Render(cs[|cs| - 1])]
  }

  /** The state of the word loop: the lines drawn so far and the words in `current_line`. */
  datatype WrapState = WrapState(chunks: seq<Chunk>, cur: seq<string>)

  /** One word of the loop: it joins `current_line` if the widened line passes the width
      test; otherwise `current_line` is drawn and restarted with the word, or, when it is
      empty, the word is drawn on its own. */
  function WrapWord(st: WrapState, w: string, width: string -> real): WrapState {
    if width(Piece(st.cur) + w + " ") < MaxWidth then WrapState(st.chunks, st.cur + [w])
    else if st.cur != [] then WrapState(st.chunks + [Flushed(st.cur)], [w])
    else WrapState(st.chunks + [Forced(w)], [])
  }

  function Wrap(words: seq<string>, width: string -> real): WrapState {
    if words == [] then WrapState([], [])
    else WrapWord(Wrap(words[..|words| - 1], width), words[|words| - 1], width)
  }

  /** The lines drawn for one input line: the wrapped lines, then the remainder unless it is
      blank. */
  function LineChunks(line: string, width: string -> real): seq<Chunk> {
    var r := Wrap(SplitOn(line, " "), width);
    if Strip(Piece(r.cur)) != [] then r.chunks + [Flushed(r.cur)] else r.chunks
  }

  /** The lines drawn for the whole text, input line after input line. */
  function TextRenders(lines: seq<string>, width: string -> real): seq<string> {
    if lines == [] then []
    else TextRenders(lines[..|lines| - 1], width) + Renders(LineChunks(lines[|lines| - 1], width))
  }

  lemma WrapStep(words: seq<string>, i: nat, width: string -> real)
    requires i < |words|
    ensures Wrap(words[..i + 1], width) == WrapWord(Wrap(words[..i], width), words[i], width)
  {
    assert words[..i + 1][..i] == words[..i];
  }

  lemma TextRendersStep(lines: seq<string>, i: nat, width: string -> real)
    requires i < |lines|
    ensures TextRenders(lines[..i + 1], width) == TextRenders(lines[..i], width) + Renders(LineChunks(lines[i], width))
  {
    assert lines[..i + 1][..i] == lines[..i];
  }

  lemma RendersSnoc(cs: seq<Chunk>, c: Chunk)
    ensures Renders(cs + [c]) == Renders(cs) + [Render(c)]
  {
    assert (cs + [c])[..|cs|] == cs;
  }

  lemma SnocOfInit<T>(a: seq<T>, b: seq<T>, s: seq<T>)
    requires s != [] && a + b == s[..|s| - 1]
    ensures a + b + [s[|s| - 1]] == s
  {
  }

  lemma FlattenSnoc(cs: seq<Chunk>, c: Chunk)
    ensures Flatten(cs + [c]) == Flatten(cs) + ChunkWords(c)
  {
    assert (cs + [c])[..|cs|] == cs;
  }

  /** One word keeps the words: what was drawn and pending before, plus the word, is what is
      drawn and pending after. */
  lemma WrapWordKeeps(st: WrapState, w: string, width: string -> real)
    ensures Flatten(WrapWord(st, w, width).chunks) + WrapWord(st, w, width).cur == Flatten(st.chunks) + st.cur + [w]
  {
    if width(Piece(st.cur) + w + " ") < MaxWidth {
    } else if st.cur != [] {
      FlattenSnoc(st.chunks, Flushed(st.cur));
    } else {
      FlattenSnoc(st.chunks, Forced(w));
    }
  }

  /** No word is lost or repeated by the loop: the drawn lines, followed by what is left in
      `current_line`, hold exactly the words seen, in order. */
  lemma {:induction false} WrapKeepsWords(words: seq<string>, width: string -> real)
    ensures Flatten(Wrap(words, width).chunks) + Wrap(words, width).cur == words
    decreases |words|
  {
    if words != [] {
      var init, w := words[..|words| - 1], words[|words| - 1];
      var st := Wrap(init, width);
      WrapKeepsWords(init, width);
      WrapWordKeeps(st, w, width);
      assert Wrap(words, width) == WrapWord(st, w, width);
      SnocOfInit(Flatten(st.chunks), st.cur, words);
    }
  }

  /** When `current_line` is blank, so is each of its words. */
  lemma {:induction false} BlankPieceWords(ws: seq<string>)
    requires IsBlank(Piece(ws))
    ensures forall k :: 0 <= k < |ws| ==> IsBlank(ws[k])
    decreases |ws|
  {
    if ws != [] {
      var init, w := ws[..|ws| - 1], ws[|ws| - 1];
      var p := Piece(init);
      assert Piece(ws) == p + w + " ";
      assert IsBlank(p) by {
        forall i | 0 <= i < |p| ensures IsSpace(p[i]) {
          assert Piece(ws)[i] == p[i];
        }
      }
      assert IsBlank(w) by {
        forall i | 0 <= i < |w| ensures IsSpace(w[i]) {
          assert Piece(ws)[|p| + i] == w[i];
        }
      }
      BlankPieceWords(init);
    }
  }

  /** The drawn lines of one input line hold its space-separated words in order; only a
      trailing run of blank words (what is left when the remainder strips to nothing) is not
      drawn. */
  lemma LineKeepsWords(line: string, width: string -> real)
    ensures var ws, drawn := SplitOn(line, " "), Flatten(LineChunks(line, width));
            |drawn| <= |ws| && drawn == ws[..|drawn|] &&
            forall k :: |drawn| <= k < |ws| ==> IsBlank(ws[k])
  {
    var ws := SplitOn(line, " ");
    var r := Wrap(ws, width);
    WrapKeepsWords(ws, width);
    if Strip(Piece(r.cur)) != [] {
      FlattenSnoc(r.chunks, Flushed(r.cur));
    } else {
      StripEmptyIffBlank(Piece(r.cur));
      BlankPieceWords(r.cur);
      var n := |Flatten(r.chunks)|;
      assert ws[..n] == Flatten(r.chunks) && ws[n..] == r.cur;
      forall k | n <= k < |ws| ensures IsBlank(ws[k]) {
        assert ws[k] == r.cur[k - n];
      }
    }
  }

  /** The width test passed for the words gathered so far, or there is only one of them. */
  ghost predicate Fits(ws: seq<string>, width: string -> real) {
    |ws| <= 1 || width(Piece(ws)) < MaxWidth
  }

  /** A drawn line either passed the width test or holds a single word; a word is forced onto
      a line of its own only when it failed the test alone. */
  ghost predicate ChunkOk(c: Chunk, width: string -> real) {
    match c
    case Forced(w) => !(width(w + " ") < MaxWidth)
    case Flushed(ws) => ws != [] && Fits(ws, width)
  }

  /** The chunks drawn so far are all acceptable and the pending words fit. */
  ghost predicate WrapOk(st: WrapState, width: string -> real) {
    Fits(st.cur, width) && forall k :: 0 <= k < |st.chunks| ==> ChunkOk(st.chunks[k], width)
  }

  lemma WrapWordFits(st: WrapState, w: string, width: string -> real)
    requires WrapOk(st, width)
    ensures WrapOk(WrapWord(st, w, width), width)
  {
    var next := WrapWord(st, w, width);
    if width(Piece(st.cur) + w + " ") < MaxWidth {
      PieceSnoc(st.cur, w);
    } else {
      if st.cur == [] {
        assert Piece(st.cur) + w + " " == w + " ";
      }
      assert forall k :: 0 <= k < |st.chunks| ==> next.chunks[k] == st.chunks[k];
    }
  }

  lemma {:induction false} WrapFits(words: seq<string>, width: string -> real)
    ensures WrapOk(Wrap(words, width), width)
    decreases |words|
  {
    if words != [] {
      var init := words[..|words| - 1];
      WrapFits(init, width);
      WrapWordFits(Wrap(init, width), words[|words| - 1], width);
    }
  }

  /** Every drawn line of an input line respects the width test, or is one word. */
  lemma LineFits(line: string, width: string -> real)
    ensures forall k :: 0 <= k < |LineChunks(line, width)| ==> ChunkOk(LineChunks(line, width)[k], width)
  {
    var r := Wrap(SplitOn(line, " "), width);
    WrapFits(SplitOn(line, " "), width);
    var cs := LineChunks(line, width);
    forall k | 0 <= k < |cs| ensures ChunkOk(cs[k], width) {
      if k < |r.chunks| {
        assert cs[k] == r.chunks[k];
      } else {
        assert cs[k] == Flushed(r.cur) && r.cur != [];
      }
    }
  }

  // ---------------------------------------------------------------- pen position and page breaks

  /** The pen height after the events: each line lowers it by 14, a new page resets it. */
  function Track(events: seq<Event>, y0: real): real {
    if events == [] then y0
    else
      var y := Track(events[..|events| - 1], y0);
      match events[|events| - 1]
      case Draw(_, _) => y - LineHeight
      case NewPage => Top
  }

  /** A line is drawn at the current pen height; a page break happens only below `Floor`. */
  predicate Sound(e: Event, y: real) {
    match e
    case Draw(dy, _) => dy == y
    case NewPage => y < Floor
  }

  /** Every event is sound at the pen height the events before it leave. */
  ghost predicate Placed(events: seq<Event>, y0: real) {
    events == [] ||
    (Placed(events[..|events| - 1], y0) && Sound(events[|events| - 1], Track(events[..|events| - 1], y0)))
  }

  /** No line after the first event is drawn below `Floor`. */
  ghost predicate DrawsAbove(events: seq<Event>) {
    |events| <= 1 ||
    (DrawsAbove(events[..|events| - 1]) && (events[|events| - 1].Draw? ==> events[|events| - 1].y >= Floor))
  }

  /** The events read as they happen: event i is sound at the height the first i leave, and
      every line drawn after the first event is at or above `Floor`. */
  lemma {:induction false} PlacedAt(events: seq<Event>, y0: real, i: nat)
    requires Placed(events, y0) && DrawsAbove(events) && i < |events|
    ensures Sound(events[i], Track(events[..i], y0))
    ensures i > 0 && events[i].Draw? ==> events[i].y >= Floor
    decreases |events|
  {
    var n := |events| - 1;
    if i < n {
      var init := events[..n];
      assert init[..i] == events[..i] && init[i] == events[i];
      PlacedAt(init, y0, i);
    }
  }

  function Drawn(events: seq<Event>): seq<string> {
    if events == [] then []
    else
      var e := events[|events| - 1];
      Drawn(events[..|events| - 1]) + (if e.Draw? then [e.text] else [])
  }

  lemma Emit(events: seq<Event>, e: Event, y0: real)
    requires Placed(events, y0) && Sound(e, Track(events, y0))
    ensures Placed(events + [e], y0)
    ensures Track(events + [e], y0) == if e.Draw? then Track(events, y0) - LineHeight else Top
    ensures Drawn(events + [e]) == Drawn(events) + (if e.Draw? then [e.text] else [])
    ensures DrawsAbove(events) && (e.Draw? && events != [] ==> e.y >= Floor) ==> DrawsAbove(events + [e])
  {
    assert (events + [e])[..|events|] == events;
  }

  lemma {:induction false} TrackAppend(a: seq<Event>, b: seq<Event>, y0: real)
    ensures Track(a + b, y0) == Track(b, Track(a, y0))
    ensures Drawn(a + b) == Drawn(a) + Drawn(b)
    decreases |b|
  {
    if b == [] {
      assert a + b == a;
    } else {
      var init := b[..|b| - 1];
      assert (a + b)[..|a + b| - 1] == a + init;
      TrackAppend(a, init, y0);
    }
  }

  /** The events of one input line continue those of the lines before it. */
  lemma PlacedAppend(a: seq<Event>, b: seq<Event>, y0: real)
    requires Placed(a, y0) && Placed(b, Track(a, y0))
    requires DrawsAbove(a) && DrawsAbove(b)
    requires a != [] && b != [] && b[0].Draw? ==> Track(a, y0) >= Floor
    ensures Placed(a + b, y0) && DrawsAbove(a + b)
    ensures Track(a + b, y0) == Track(b, Track(a, y0)) && Drawn(a + b) == Drawn(a) + Drawn(b)
  {
    TrackAppend(a, b, y0);
    PlacedAppendRec(a, b, y0);
  }

  lemma {:induction false} PlacedAppendRec(a: seq<Event>, b: seq<Event>, y0: real)
    requires Placed(a, y0) && Placed(b, Track(a, y0))
    requires DrawsAbove(a) && DrawsAbove(b)
    requires a != [] && b != [] && b[0].Draw? ==> Track(a, y0) >= Floor
    ensures Placed(a + b, y0) && DrawsAbove(a + b)
    decreases |b|
  {
    if b == [] {
      assert a + b == a;
    } else {
      var init, last := b[..|b| - 1], b[|b| - 1];
      assert (a + b)[..|a + b| - 1] == a + init && (a + b)[|a + b| - 1] == last;
      if init != [] {
        assert init[0] == b[0];
      } else if |b| == 1 && a != [] && last.Draw? {
        assert b[..0] == [];
      }
      PlacedAppendRec(a, init, y0);
      TrackAppend(a, init, y0);
    }
  }

  /** `drawString` at the pen height, then the pen moves down one line. */
  method DrawLine(events: seq<Event>, y: real, text: string, ghost y0: real) returns (events': seq<Event>, y': real)
    requires Placed(events, y0) && y == Track(events, y0) && DrawsAbove(events)
    requires events != [] ==> y >= Floor
    ensures events' == events + [Draw(y, text)] && y' == y - LineHeight
    ensures Placed(events', y0) && y' == Track(events', y0) && DrawsAbove(events')
    ensures Drawn(events') == Drawn(events) + [text]
  {
    Emit(events, Draw(y, text), y0);
    events', y' := events + [Draw(y, text)], y - LineHeight;
  }

  /** The page check: `showPage` and back to the top when the pen is below `Floor`. */
  method BreakIfLow(events: seq<Event>, y: real, ghost y0: real) returns (events': seq<Event>, y': real)
    requires Placed(events, y0) && y == Track(events, y0) && DrawsAbove(events)
    ensures y' >= Floor && (y >= Floor ==> events' == events && y' == y)
    ensures Placed(events', y0) && y' == Track(events', y0) && DrawsAbove(events')
    ensures Drawn(events') == Drawn(events)
  {
    events', y' := events, y;
    if y < Floor {
      Emit(events, NewPage, y0);
      events', y' := events + [NewPage], Top;
    }
  }

  /** One pass of the word loop: the word joins `current_line`, or a line is drawn; then the
      page check. */
  method WrapWordStep(events: seq<Event>, y: real, current: string, word: string, width: string -> real,
                      ghost y0: real, ghost st: WrapState)
    returns (events': seq<Event>, y': real, current': string, ghost st': WrapState)
    requires current == Piece(st.cur) && Drawn(events) == Renders(st.chunks)
    requires Placed(events, y0) && y == Track(events, y0) && DrawsAbove(events)
    requires events != [] ==> y >= Floor
    ensures st' == WrapWord(st, word, width) && current' == Piece(st'.cur)
    ensures Drawn(events') == Renders(st'.chunks)
    ensures Placed(events', y0) && y' == Track(events', y0) && DrawsAbove(events') && y' >= Floor
  {
    var testLine := current + word + " ";
    assert testLine == Piece(st.cur) + word + " ";
    events', y' := events, y;
    if width(testLine) < MaxWidth {
      current' := testLine;
      st' := WrapState(st.chunks, st.cur + [word]);
      PieceSnoc(st.cur, word);
      assert current' == Piece(st'.cur);
    } else if current != "" {
      events', y' := DrawLine(events, y, Strip(current), y0);
      st' := WrapState(st.chunks + [Flushed(st.cur)], [word]);
      RendersSnoc(st.chunks, Flushed(st.cur));
      current' := word + " ";
      PieceSnoc([], word);
      assert current' == Piece(st'.cur);
    } else {
      events', y' := DrawLine(events, y, word, y0);
      st' := WrapState(st.chunks + [Forced(word)], []);
      RendersSnoc(st.chunks, Forced(word));
      current' := current;
      assert st.cur == [];
    }
    events', y' := BreakIfLow(events', y', y0);
  }

  /** The loop over the words of one input line, and the check after its remainder. */
  method WrapLine(line: string, y0: real, width: string -> real) returns (events: seq<Event>, y: real)
    ensures Drawn(events) == Renders(LineChunks(line, width))
    ensures Placed(events, y0) && y == Track(events, y0)
    ensures y >= Floor && DrawsAbove(events)
  {
    var words := SplitOn(line, " ");
    var current := "";
    ghost var st := WrapState([], []);
    events, y := [], y0;
    for i := 0 to |words|
      invariant current == Piece(st.cur) && st == Wrap(words[..i], width)
      invariant Drawn(events) == Renders(st.chunks)
      invariant Placed(events, y0) && y == Track(events, y0) && DrawsAbove(events)
      invariant i == 0 ==> events == [] && y == y0
      invariant i > 0 ==> y >= Floor
    {
      WrapStep(words, i, width);
      events, y, current, st := WrapWordStep(events, y, current, words[i], width, y0, st);
    }
    assert words[..|words|] == words;
    if Strip(current) != "" {
      events, y := DrawLine(events, y, Strip(current), y0);
      assert (st.chunks + [Flushed(st.cur)])[..|st.chunks|] == st.chunks;
    }
    events, y := BreakIfLow(events, y, y0);
  }

  /** The text part of `create_pdf_from_text`: every line of `text`, from the first body line
      on. The drawn lines are those of `TextRenders`; the pen moves as `Track` says, breaks
      pages only below `Floor`, and never draws below it after the first event. */
  method DrawText(text: string, metadataCount: nat, width: string -> real) returns (events: seq<Event>)
    ensures Drawn(events) == TextRenders(SplitOn(text, "\n"), width)
    ensures Placed(events, BodyStart(metadataCount)) && DrawsAbove(events)
    ensures Track(events, BodyStart(metadataCount)) >= Floor
  {
    var lines := SplitOn(text, "\n");
    var y0 := BodyStart(metadataCount);
    var y := y0;
    events := [];
    for i := 0 to |lines|
      invariant Drawn(events) == TextRenders(lines[..i], width)
      invariant Placed(events, y0) && y == Track(events, y0) && DrawsAbove(events)
      invariant i > 0 ==> y >= Floor
      invariant i == 0 ==> events == []
    {
      TextRendersStep(lines, i, width);
      var e, y' := WrapLine(lines[i], y, width);
      PlacedAppend(events, e, y0);
      events, y := events + e, y';
    }
    assert lines[..|lines|] == lines;
  }

  // ---------------------------------------------------------------- template data table

  /** `[['Field Name', 'Value']]` plus `[name, str(value)]` per field. */
  method FieldsTable(fields: seq<FieldEntry>) returns (t: seq<seq<string>>)
    ensures |t| == |fields| + 1 && t[0] == ["Field Name", "Value"]
    ensures forall i :: 0 <= i < |fields| ==> t[i + 1] == [fields[i].name, fields[i].value]
  {
    t := [["Field Name", "Value"]];
    for i := 0 to |fields|
      invariant |t| == i + 1 && t[0] == ["Field Name", "Value"]
      invariant forall k :: 0 <= k < i ==> t[k + 1] == [fields[k].name, fields[k].value]
    {
      t := t + [[fields[i].name, fields[i].value]];
    }
  }

  /** The `rows` x `cols` grid of "", with each cell's text placed when its position is
      inside; a later cell at the same position overwrites an earlier one. */
  method FillGrid(cells: seq<ExportCell>, rows: nat, cols: nat) returns (grid: array2<string>)
    ensures fresh(grid) && grid.Length0 == rows && grid.Length1 == cols
    ensures forall r, c :: 0 <= r < rows && 0 <= c < cols ==> grid[r, c] == OrEmpty(LastAt(cells, r, c))
  {
    grid := new string[rows, cols]((_, _) => "");
    for i := 0 to |cells|
      invariant forall r, c :: 0 <= r < rows && 0 <= c < cols ==> grid[r, c] == OrEmpty(LastAt(cells[..i], r, c))
    {
      assert cells[..i + 1][..i] == cells[..i];
      var cell := cells[i];
      if cell.row < rows && cell.col < cols {
        grid[cell.row, cell.col] := cell.text;
      }
    }
    assert cells[..|cells|] == cells;
  }

  /** The rows of a grid, as the list of lists the table is built from. */
  method GridRows(grid: array2<string>) returns (t: seq<seq<string>>)
    ensures |t| == grid.Length0
    ensures forall r :: 0 <= r < |t| ==> |t[r]| == grid.Length1
    ensures forall r, c :: 0 <= r < grid.Length0 && 0 <= c < grid.Length1 ==> t[r][c] == grid[r, c]
  {
    t := [];
    for r := 0 to grid.Length0
      invariant |t| == r
      invariant forall k :: 0 <= k < r ==> |t[k]| == grid.Length1
      invariant forall k, c :: 0 <= k < r && 0 <= c < grid.Length1 ==> t[k][c] == grid[k, c]
    {
      var row := seq(grid.Length1, c requires 0 <= c < grid.Length1 reads grid => grid[r, c]);
      t := t + [row];
    }
  }

  /** The table of `create_pdf_from_template_data`: `cells` wins over `fields`; a `cells`
      table needs a non-empty cell list and positive `rows` and `cols`, and None means no
      table is added. */
  method TemplateTable(doc: DocData) returns (t: Option<seq<seq<string>>>)
    ensures doc.cells.Some? ==> (t.Some? <==> doc.cells.value != [] && doc.rows > 0 && doc.cols > 0)
    ensures doc.cells.Some? && t.Some? ==>
      |t.value| == doc.rows &&
      forall r :: 0 <= r < doc.rows ==> (|t.value[r]| == doc.cols &&
        forall c :: 0 <= c < doc.cols ==> t.value[r][c] == OrEmpty(LastAt(doc.cells.value, r, c)))
    ensures doc.cells.None? && doc.fields.Some? ==>
      t.Some? && |t.value| == |doc.fields.value| + 1 && t.value[0] == ["Field Name", "Value"] &&
      forall i :: 0 <= i < |doc.fields.value| ==> t.value[i + 1] == [doc.fields.value[i].name, doc.fields.value[i].value]
    ensures doc.cells.None? && doc.fields.None? ==> t.None?
  {
    if doc.cells.Some? {
      if doc.cells.value != [] && doc.rows > 0 && doc.cols > 0 {
        var grid := FillGrid(doc.cells.value, doc.rows, doc.cols);
        var rows := GridRows(grid);
        t := Some(rows);
      } else {
        t := None;
      }
    } else if doc.fields.Some? {
      var rows := FieldsTable(doc.fields.value);
      t := Some(rows);
    } else {
      t := None;
    }
  }

  // ---------------------------------------------------------------- consolidated table

  datatype NamedDoc = NamedDoc(name: string, data: DocData)

  /** One consolidated row of a table document: its name, then the text at each field
      column of data row `r`, "" where there is none, each cut to 50 characters. */
  function CellRow(name: string, g: RowMap, r: nat, n: nat): (row: seq<string>)
    ensures |row| == n + 1
  {
    if n == 0 then [Truncate(name, 30)]
    else CellRow(name, g, r, n - 1) + [Truncate(OrEmpty(Entry(g, r, n - 1)), 50)]
  }

  /** One consolidated row per data row, in order. */
  function CellRows(name: string, g: RowMap, rows: seq<nat>, n: nat): (out: seq<seq<string>>)
    ensures |out| == |rows|
  {
    if rows == [] then []
    else CellRows(name, g, rows[..|rows| - 1], n) + [CellRow(name, g, rows[|rows| - 1], n)]
  }

  /** Entry c + 1 of a consolidated table row is the text at column c, cut to 50, or "". */
  lemma {:induction false} CellRowAt(name: string, g: RowMap, r: nat, n: nat, c: nat)
    requires c < n
    ensures CellRow(name, g, r, n)[0] == Truncate(name, 30)
    ensures CellRow(name, g, r, n)[c + 1] == Truncate(OrEmpty(Entry(g, r, c)), 50)
    decreases n
  {
    if c < n - 1 {
      CellRowAt(name, g, r, n - 1, c);
    } else if n > 1 {
      CellRowAt(name, g, r, n - 1, 0);
    }
  }

  /** Row k of the rows of a table document is the one of data row rows[k]. */
  lemma {:induction false} CellRowsAt(name: string, g: RowMap, rows: seq<nat>, n: nat, k: nat)
    requires k < |rows|
    ensures CellRows(name, g, rows, n)[k] == CellRow(name, g, rows[k], n)
    decreases |rows|
  {
    if k < |rows| - 1 {
      CellRowsAt(name, g, rows[..|rows| - 1], n, k);
    }
  }

  /** The cut values of a `fields` document. */
  function FieldCells(fs: seq<FieldEntry>): (out: seq<string>)
    ensures |out| == |fs| && forall i :: 0 <= i < |fs| ==> out[i] == Truncate(fs[i].value, 50)
  {
    if fs == [] then [] else FieldCells(fs[..|fs| - 1]) + [Truncate(fs[|fs| - 1].value, 50)]
  }

  /** The consolidated rows one document adds. */
  function DocRows(d: NamedDoc, fieldNames: seq<string>): seq<seq<string>> {
    var head := [Truncate(d.name, 30)];
    if d.data.fields.Some? then
      [head + FieldCells(d.data.fields.value)]
    else if d.data.cells.Some? then
      var cs := d.data.cells.value;
      CellRows(d.name, Grouped(cs), DataRows(cs), |fieldNames|)
    else [head + Blanks(|fieldNames|)]
  }

  function AllDocRows(docs: seq<NamedDoc>, fieldNames: seq<string>): seq<seq<string>> {
    if docs == [] then []
    else AllDocRows(docs[..|docs| - 1], fieldNames) + DocRows(docs[|docs| - 1], fieldNames)
  }

  /** A table document adds one row per data row (distinct row index above 0, ascending);
      each has the name and one entry per field name, the entry for column c being the last
      text at that position cut to 50 characters, or "". A table whose cells are all in row 0
      adds nothing. */
  lemma CellDocRowCount(d: NamedDoc, fieldNames: seq<string>)
    requires d.data.fields.None? && d.data.cells.Some?
    ensures var cs := d.data.cells.value;
            |DocRows(d, fieldNames)| == |DataRows(cs)| &&
            (DocRows(d, fieldNames) != [] ==> exists i :: 0 <= i < |cs| && cs[i].row > 0)
  {
    var cs := d.data.cells.value;
    if DocRows(d, fieldNames) != [] {
      assert DataRows(cs)[0] in DataRows(cs);
    }
  }

  lemma CellDocRowAt(d: NamedDoc, fieldNames: seq<string>, k: nat, c: nat)
    requires d.data.fields.None? && d.data.cells.Some?
    requires k < |DataRows(d.data.cells.value)| && c < |fieldNames|
    ensures var cs := d.data.cells.value;
            |DocRows(d, fieldNames)[k]| == |fieldNames| + 1 &&
            DocRows(d, fieldNames)[k][c + 1] == Truncate(OrEmpty(LastAt(cs, DataRows(cs)[k], c)), 50)
  {
    var cs := d.data.cells.value;
    CellRowsAt(d.name, Grouped(cs), DataRows(cs), |fieldNames|, k);
    CellRowAt(d.name, Grouped(cs), DataRows(cs)[k], |fieldNames|, c);
    GroupedIsLast(cs, DataRows(cs)[k], c);
  }

  /** The rows of one table document, built as the loop over sorted row keys does: the row
      list of data row 1 is the one started for the document, later ones start afresh. */
  method TableDocRows(name: string, cells: seq<ExportCell>, n: nat) returns (out: seq<seq<string>>)
    ensures out == CellRows(name, Grouped(cells), DataRows(cells), n)
  {
    var cellRows := GroupByRow(cells);
    var rows := DataRows(cells);
    var row := [Truncate(name, 30)];
    out := [];
    for k := 0 to |rows|
      invariant out == CellRows(name, cellRows, rows[..k], n)
      invariant k == 0 ==> row == [Truncate(name, 30)]
    {
      assert rows[..k + 1][..k] == rows[..k];
      assert k > 0 ==> rows[k] > 1 by {
        if k > 0 {
          assert rows[0] < rows[k] && rows[0] in rows;
        }
      }
      if rows[k] > 1 {
        row := [Truncate(name, 30)];
      }
      for c := 0 to n
        invariant row == CellRow(name, cellRows, rows[k], c)
      {
        row := row + [Truncate(OrEmpty(Entry(cellRows, rows[k], c)), 50)];
      }
      out := out + [row];
    }
    assert rows[..|rows|] == rows;
  }

  /** The rows of one document of `create_consolidated_pdf`. */
  method DocumentRows(d: NamedDoc, fieldNames: seq<string>) returns (out: seq<seq<string>>)
    ensures out == DocRows(d, fieldNames)
  {
    var row := [Truncate(d.name, 30)];
    if d.data.fields.Some? {
      var fs := d.data.fields.value;
      for i := 0 to |fs|
        invariant row == [Truncate(d.name, 30)] + FieldCells(fs[..i])
      {
        assert fs[..i + 1][..i] == fs[..i];
        row := row + [Truncate(fs[i].value, 50)];
      }
      assert fs[..|fs|] == fs;
      out := [row];
    } else if d.data.cells.Some? {
      out := TableDocRows(d.name, d.data.cells.value, |fieldNames|);
    } else {
      row := row + Blanks(|fieldNames|);
      out := [row];
    }
  }

  lemma AllDocRowsStep(docs: seq<NamedDoc>, i: nat, fieldNames: seq<string>,
                       header: seq<seq<string>>, table: seq<seq<string>>, rows: seq<seq<string>>)
    requires i < |docs|
    requires table == header + AllDocRows(docs[..i], fieldNames) && rows == DocRows(docs[i], fieldNames)
    ensures table + rows == header + AllDocRows(docs[..i + 1], fieldNames)
  {
    assert docs[..i + 1][..i] == docs[..i];
  }

  /** The consolidated data table: None when the template has no field names; otherwise the
      header `['Document'] + field_names` and the rows of every document in order. */
  method ConsolidatedTable(fieldNames: seq<string>, docs: seq<NamedDoc>) returns (t: Option<seq<seq<string>>>)
    ensures t.None? <==> fieldNames == []
    ensures t.Some? ==> t.value == [["Document"] + fieldNames] + AllDocRows(docs, fieldNames)
  {
    if fieldNames == [] {
      return None;
    }
    var table := [["Document"] + fieldNames];
    for i := 0 to |docs|
      invariant table == [["Document"] + fieldNames] + AllDocRows(docs[..i], fieldNames)
    {
      var rows := DocumentRows(docs[i], fieldNames);
      AllDocRowsStep(docs, i, fieldNames, [["Document"] + fieldNames], table, rows);
      table := table + rows;
    }
    assert docs[..|docs|] == docs;
    t := Some(table);
  }

  /** A document with neither key adds one row: its name and a blank per field name; one with
      `fields` adds one row of its (cut) values, however many there are. */
  lemma OtherDocRows(d: NamedDoc, fieldNames: seq<string>)
    requires d.data.cells.None? || d.data.fields.Some?
    ensures |DocRows(d, fieldNames)| == 1
    ensures d.data.fields.None? ==> DocRows(d, fieldNames)[0] == [Truncate(d.name, 30)] + Blanks(|fieldNames|)
    ensures d.data.fields.Some? ==> |DocRows(d, fieldNames)[0]| == 1 + |d.data.fields.value|
  {
  }
}
