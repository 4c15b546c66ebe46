/**
 * OCR result aggregation, engine selection with fallback, the deskew angle rule, and the
 * template processor that turns OCR text into form fields and field values
 * (OCR/ocr_processing/ocr_core.py). The OCR libraries themselves are replaced by what they
 * report: Tesseract's word table and EasyOCR's detections are inputs.
 */
module OcrCore {
  import opened Strs
  import opened Numbers
  import opened Options

  /** One row of Tesseract's `image_to_data` table: a word and its confidence. */
  datatype WordRec = WordRec(text: string, conf: real)

  /** One EasyOCR detection (its polygon is not used): text and a confidence in [0, 1]. */
  datatype EasyItem = EasyItem(text: string, conf: real)

  datatype Box = Box(x: int, y: int, w: int, h: int)

  datatype OCRResult = OCRResult(text: string, confidence: real, bbox: Option<Box>, engine: string)

  datatype FieldData = FieldData(name: string, value: string, confidence: real, bbox: Option<Box>)

  const ErrorResult := OCRResult("", 0.0, None, "error")

  /** Python's `int(c)` on a float: truncation toward zero. */
  function PyInt(c: real): (r: int)
    ensures c >= 0.0 ==> r as real <= c < r as real + 1.0
    ensures c < 0.0 ==> r <= 0
  {
    if c >= 0.0 then c.Floor else -((-c).Floor)
  }

  /** `int(c) > k` holds exactly from `k + 1` upwards. */
  lemma PyIntAbove(c: real, k: nat)
    ensures PyInt(c) > k <==> c >= (k + 1) as real
  {
  }

  // ---------------------------------------------------------------- Tesseract aggregation

  /** The words Tesseract keeps: `int(conf) > 0`. */
  function TessTexts(words: seq<WordRec>): seq<string> {
    if words == [] then []
    else
      var w := words[|words| - 1];
      TessTexts(words[..|words| - 1]) + (if PyInt(w.conf) > 0 then [w.text] else [])
  }

  function TessConfs(words: seq<WordRec>): (r: seq<real>)
    ensures |r| == |TessTexts(words)|
    ensures forall i :: 0 <= i < |r| ==> r[i] >= 1.0
  {
    if words == [] then []
    else
      var w := words[|words| - 1];
      TessConfs(words[..|words| - 1]) + (if PyInt(w.conf) > 0 then [w.conf] else [])
  }

  /** `extract_text_tesseract`: None when Tesseract is not installed (the method raises). */
  method ExtractTextTesseract(available: bool, words: seq<WordRec>) returns (r: Option<OCRResult>)
    ensures r.None? <==> !available
    ensures r.Some? ==> r.value == OCRResult(Strip(Join(TessTexts(words), " ")),
                                             Mean(TessConfs(words)), None, "tesseract")
  {
    if !available {
      return None;
    }
    var textParts: seq<string> := [];
    var confidences: seq<real> := [];
    var i := 0;
    while i < |words|
      invariant 0 <= i <= |words|
      invariant textParts == TessTexts(words[..i])
      invariant confidences == TessConfs(words[..i])
    {
      assert words[..i + 1][..i] == words[..i];
      if PyInt(words[i].conf) > 0 {
        textParts := textParts + [words[i].text];
        confidences := confidences + [words[i].conf];
      }
      i := i + 1;
    }
    assert words[..i] == words;
    var text := Strip(Join(textParts, " "));
    var avg := if confidences != [] then Sum(confidences) / |confidences| as real else 0.0;
    return Some(OCRResult(text, avg, None, "tesseract"));
  }

  /** With no word above confidence 0 the text is empty and the confidence 0; otherwise the
      confidence is at least 1 and at most the best kept confidence. */
  lemma TesseractConfidence(words: seq<WordRec>, hi: real)
    requires forall i :: 0 <= i < |words| ==> words[i].conf <= hi
    ensures TessTexts(words) == [] ==> Strip(Join(TessTexts(words), " ")) == [] &&
                                        Mean(TessConfs(words)) == 0.0
    ensures TessTexts(words) != [] ==> 1.0 <= Mean(TessConfs(words)) <= hi
  {
    TessConfsBelow(words, hi);
    if TessTexts(words) != [] {
      MeanBounds(TessConfs(words), 1.0, hi);
    }
  }

  lemma {:induction false} TessConfsBelow(words: seq<WordRec>, hi: real)
    requires forall i :: 0 <= i < |words| ==> words[i].conf <= hi
    ensures forall i :: 0 <= i < |TessConfs(words)| ==> TessConfs(words)[i] <= hi
    decreases |words|
  {
    if words != [] {
      TessConfsBelow(words[..|words| - 1], hi);
    }
  }

  // ---------------------------------------------------------------- EasyOCR aggregation

  function EasyTexts(items: seq<EasyItem>): seq<string> {
    if items == [] then []
    else
      var it := items[|items| - 1];
      EasyTexts(items[..|items| - 1]) + (if it.conf > 0.1 then [it.text] else [])
  }

  function EasyConfs(items: seq<EasyItem>): (r: seq<real>)
    ensures |r| == |EasyTexts(items)|
    ensures forall i :: 0 <= i < |r| ==> r[i] > 0.1
  {
    if items == [] then []
    else
      var it := items[|items| - 1];
      EasyConfs(items[..|items| - 1]) + (if it.conf > 0.1 then [it.conf] else [])
  }

  /** `extract_text_easyocr`: None when no EasyOCR reader was loaded (the method raises). */
  method ExtractTextEasyocr(loaded: bool, items: seq<EasyItem>) returns (r: Option<OCRResult>)
    ensures r.None? <==> !loaded
    ensures r.Some? ==> r.value == OCRResult(Strip(Join(EasyTexts(items), " ")),
                                             Mean(EasyConfs(items)) * 100.0, None, "easyocr")
  {
    if !loaded {
      return None;
    }
    var textParts: seq<string> := [];
    var confidences: seq<real> := [];
    for i := 0 to |items|
      invariant textParts == EasyTexts(items[..i])
      invariant confidences == EasyConfs(items[..i])
    {
      assert items[..i + 1][..i] == items[..i];
      if items[i].conf > 0.1 {
        textParts := textParts + [items[i].text];
        confidences := confidences + [items[i].conf];
      }
    }
    assert items[..|items|] == items;
    var text := Strip(Join(textParts, " "));
    var avg := if confidences != [] then Sum(confidences) / |confidences| as real else 0.0;
    return Some(OCRResult(text, avg * 100.0, None, "easyocr"));
  }

  /** EasyOCR confidences in [0, 1] give a percentage in (10, 100], or 0 with nothing kept. */
  lemma EasyocrPercentage(items: seq<EasyItem>)
    requires forall i :: 0 <= i < |items| ==> 0.0 <= items[i].conf <= 1.0
    ensures EasyConfs(items) == [] ==> Mean(EasyConfs(items)) * 100.0 == 0.0
    ensures EasyConfs(items) != [] ==> 10.0 < Mean(EasyConfs(items)) * 100.0 <= 100.0
  {
    EasyConfsBelowOne(items);
    if EasyConfs(items) != [] {
      MeanBounds(EasyConfs(items), 0.1, 1.0);
      MeanAbove(EasyConfs(items), 0.1);
    }
  }

  lemma {:induction false} EasyConfsBelowOne(items: seq<EasyItem>)
    requires forall i :: 0 <= i < |items| ==> items[i].conf <= 1.0
    ensures forall i :: 0 <= i < |EasyConfs(items)| ==> EasyConfs(items)[i] <= 1.0
    decreases |items|
  {
    if items != [] {
      EasyConfsBelowOne(items[..|items| - 1]);
    }
  }

  // ---------------------------------------------------------------- engine and fallback

  /** An `OCREngine` after construction. Whether Tesseract is installed and whether the EasyOCR
      reader loads are facts about the machine, given as inputs. */
  datatype Engine = Engine(preferred: string, tesseractAvailable: bool, easyocrLoaded: bool)

  /** `OCREngine.__init__`: the EasyOCR reader is only created when EasyOCR is preferred. */
  function NewEngine(preferred: string, tesseractInstalled: bool, easyocrLoads: bool): (e: Engine)
    ensures e.preferred == preferred && e.tesseractAvailable == tesseractInstalled
    ensures e.easyocrLoaded <==> preferred == "easyocr" && easyocrLoads
  {
    Engine(preferred, tesseractInstalled, preferred == "easyocr" && easyocrLoads)
  }

  datatype EngineChoice = UseTesseract | UseEasyocr | NoEngine

  /** The engine `extract_text` runs: the preferred one when it is usable, else Tesseract,
      else EasyOCR. */
  function ChooseEngine(e: Engine): EngineChoice {
    if e.preferred == "tesseract" && e.tesseractAvailable then UseTesseract
    else if e.preferred == "easyocr" && e.easyocrLoaded then UseEasyocr
    else if e.tesseractAvailable then UseTesseract
    else if e.easyocrLoaded then UseEasyocr
    else NoEngine
  }

  /** The fallback order as a priority rule: a usable preferred engine wins, Tesseract comes
      before EasyOCR otherwise, and an engine built for Tesseract never runs EasyOCR. */
  lemma EngineFallbackOrder(e: Engine)
    ensures ChooseEngine(e) == NoEngine <==> !e.tesseractAvailable && !e.easyocrLoaded
    ensures ChooseEngine(e) == UseEasyocr <==>
              e.easyocrLoaded && (e.preferred == "easyocr" || !e.tesseractAvailable)
    ensures ChooseEngine(e) == UseTesseract <==>
              e.tesseractAvailable && !(e.preferred == "easyocr" && e.easyocrLoaded)
    ensures forall t, l :: ChooseEngine(NewEngine("tesseract", t, l)) != UseEasyocr
  {
  }

  /** What the OCR libraries report on the loaded page image; None where the call raises. */
  datatype PageReads = PageReads(tesseract: Option<seq<WordRec>>, easyocr: Option<seq<EasyItem>>)

  predicate IsPdfPath(path: string) {
    EndsWith(Lower(path), ".pdf")
  }

  /** `extract_text`: PDFs go to the PDF path (its result is an input here); a page that does
      not load, a library failure or no engine gives the "error" result instead of raising. */
  method ExtractText(e: Engine, path: string, page: Option<PageReads>, pdfResult: OCRResult)
    returns (r: OCRResult)
    ensures IsPdfPath(path) ==> r == pdfResult
    ensures !IsPdfPath(path) && (page.None? || ChooseEngine(e) == NoEngine) ==> r == ErrorResult
    ensures !IsPdfPath(path) && page.Some? && ChooseEngine(e) == UseTesseract ==>
              r == (if page.value.tesseract.None? then ErrorResult
                    else OCRResult(Strip(Join(TessTexts(page.value.tesseract.value), " ")),
                                   Mean(TessConfs(page.value.tesseract.value)), None, "tesseract"))
    ensures !IsPdfPath(path) && page.Some? && ChooseEngine(e) == UseEasyocr ==>
              r == (if page.value.easyocr.None? then ErrorResult
                    else OCRResult(Strip(Join(EasyTexts(page.value.easyocr.value), " ")),
                                   Mean(EasyConfs(page.value.easyocr.value)) * 100.0, None, "easyocr"))
  {
    if IsPdfPath(path) {
      return pdfResult;
    }
    if page.None? {
      return ErrorResult;
    }
    var pr := page.value;
    match ChooseEngine(e)
    case UseTesseract =>
      if pr.tesseract.None? {
        return ErrorResult;
      }
      var res := ExtractTextTesseract(e.tesseractAvailable, pr.tesseract.value);
      r := if res.Some? then res.value else ErrorResult;
    case UseEasyocr =>
      if pr.easyocr.None? {
        return ErrorResult;
      }
      var res := ExtractTextEasyocr(e.easyocrLoaded, pr.easyocr.value);
      r := if res.Some? then res.value else ErrorResult;
    case NoEngine =>
      r := ErrorResult;
  }

  // ---------------------------------------------------------------- deskew

  /** The rotation `deskew_image` applies, from the angle of the minimum-area rectangle around
      the foreground; None leaves the image unchanged. */
  function DeskewAngle(hasForeground: bool, rectAngle: real): (r: Option<real>)
    ensures !hasForeground ==> r.None?
    ensures r.Some? ==> r.value <= -0.5 || r.value >= 0.5
  {
    if !hasForeground then None
    else
      var angle := if rectAngle < -45.0 then -(90.0 + rectAngle) else -rectAngle;
      if -0.5 < angle < 0.5 then None else Some(angle)
  }

  /** For rectangle angles in [-90, 0] the correction never exceeds 45 degrees either way, and
      it undoes the rectangle's tilt up to a multiple of 90 degrees. */
  lemma DeskewWithinQuarterTurn(rectAngle: real)
    requires -90.0 <= rectAngle <= 0.0
    ensures DeskewAngle(true, rectAngle).Some? ==>
              -45.0 <= DeskewAngle(true, rectAngle).value <= 45.0
    ensures DeskewAngle(true, rectAngle).Some? ==>
              DeskewAngle(true, rectAngle).value + rectAngle == 0.0 ||
              DeskewAngle(true, rectAngle).value + rectAngle == -90.0
    ensures DeskewAngle(true, rectAngle).None? <==> -0.5 < rectAngle || rectAngle < -89.5
  {
  }

  // ---------------------------------------------------------------- template fields

  const FormKeywords: seq<string> := ["name", "address", "phone", "email", "date", "number", "id"]

  /** `any(word in text for word in words)` */
  predicate AnyIn(text: string, words: seq<string>) {
    exists k :: 0 <= k < |words| && Contains(text, words[k])
  }

  /** The colon rule as written: `label and not label.isupper() or len(label.split()) <= 3`,
      which Python reads as `(label and not label.isupper()) or ...`. */
  predicate ColonRuleAccepts(caption: string) {
    (caption != "" && !IsUpper(caption)) || |Words(caption)| <= 3
  }

  /** The label a stripped, non-empty line proposes, "" for none. The rules form a first-match
      chain: a line with ':' is judged by the colon rule alone, and so on. */
  function LineLabel(line: string): string {
    var colon := Find(line, ":");
    if colon >= 0 then
      var caption := Strip(line[..colon]);
      if ColonRuleAccepts(caption) then caption else ""
    else if '_' in line && Count(line, '_') >= 3 then
      var pos := Find(line, "_");
      if pos > 0 then
        var caption := Strip(line[..pos]);
        if caption != "" && |Words(caption)| <= 4 then caption else ""
      else ""
    else if EndsWith(line, "?") then
      if |line| < 50 then Strip(line[..|line| - 1]) else ""
    else if AnyIn(Lower(line), FormKeywords) then
      if |line| < 30 then line else ""
    else ""
  }

  /** With the other grouping, `label and (not label.isupper() or ...)`, only the empty label
      changes its verdict, and an empty label never becomes a field; so the precedence of the
      colon rule decides nothing. */
  lemma ColonPrecedenceHarmless(caption: string)
    ensures (ColonRuleAccepts(caption) && caption != "") <==>
            (caption != "" && (!IsUpper(caption) || |Words(caption)| <= 3))
  {
  }

  /** The field name a raw OCR line yields, "" for none: the line is stripped, labelled, and the
      label has '_' replaced by spaces and is stripped again. */
  function CleanName(raw: string): (n: string)
    ensures n == "" || (!IsSpace(n[0]) && !IsSpace(n[|n| - 1]))
  {
    var line := Strip(raw);
    if line == "" then ""
    else
      var caption := LineLabel(line);
      if caption == "" then "" else Strip(ReplaceChar(caption, '_', ' '))
  }

  /** The candidate field name of every line. */
  function Candidates(lines: seq<string>): (r: seq<string>)
    ensures |r| == |lines| && forall i :: 0 <= i < |lines| ==> r[i] == CleanName(lines[i])
  {
    seq(|lines|, i requires 0 <= i < |lines| => CleanName(lines[i]))
  }

  lemma CandidatesSnoc(lines: seq<string>, i: nat)
    requires i < |lines|
    ensures Candidates(lines[..i + 1]) == Candidates(lines[..i]) + [CleanName(lines[i])]
  {
    var a, b := Candidates(lines[..i + 1]), Candidates(lines[..i]) + [CleanName(lines[i])];
    assert |a| == |b|;
    forall k | 0 <= k < |a| ensures a[k] == b[k] {
      if k < i {
        assert lines[..i + 1][k] == lines[..i][k];
      }
    }
  }

  /** The non-empty names of `xs`, each kept at its first appearance only. */
  function Dedup(xs: seq<string>): (r: seq<string>)
    ensures forall i, j :: 0 <= i < j < |r| ==> r[i] != r[j]
    ensures forall k :: 0 <= k < |r| ==> r[k] != ""
    ensures forall i :: 0 <= i < |xs| && xs[i] != "" ==> xs[i] in r
    ensures forall k :: 0 <= k < |r| ==> r[k] in xs
  {
    if xs == [] then []
    else
      var init := xs[..|xs| - 1];
      var prev := Dedup(init);
      var n := xs[|xs| - 1];
      assert forall i :: 0 <= i < |init| ==> init[i] == xs[i];
      assert forall k :: 0 <= k < |prev| ==> prev[k] in init ==> prev[k] in xs;
      if n != "" && n !in prev then prev + [n] else prev
  }

  /** Extending `xs` by one name adds it at the end unless it is empty or already there. */
  lemma DedupSnoc(xs: seq<string>, n: string)
    ensures Dedup(xs + [n]) == if n != "" && n !in Dedup(xs) then Dedup(xs) + [n] else Dedup(xs)
  {
    assert (xs + [n])[..|xs|] == xs;
  }

  /** The names found in the first `i + 1` lines. */
  lemma NamesSnoc(lines: seq<string>, i: nat)
    requires i < |lines|
    ensures var prev, n := Dedup(Candidates(lines[..i])), CleanName(lines[i]);
      Dedup(Candidates(lines[..i + 1])) == if n != "" && n !in prev then prev + [n] else prev
  {
    CandidatesSnoc(lines, i);
    DedupSnoc(Candidates(lines[..i]), CleanName(lines[i]));
  }

  /** Names appear in the order of the lines that first propose them. */
  lemma {:induction false} DedupOrder(xs: seq<string>, i: nat, j: nat)
    requires i < j < |xs| && xs[i] != "" && xs[j] != "" && xs[j] !in xs[..j]
    requires xs[i] !in xs[..i]
    ensures exists p, q :: 0 <= p < q < |Dedup(xs)| && Dedup(xs)[p] == xs[i] && Dedup(xs)[q] == xs[j]
    decreases |xs|
  {
    var init := xs[..|xs| - 1];
    if j == |xs| - 1 {
      assert xs[i] == init[i];
      var p :| 0 <= p < |Dedup(init)| && Dedup(init)[p] == xs[i];
      assert xs[j] !in init by { assert init == xs[..j]; }
      assert xs[j] !in Dedup(init);
      var q := |Dedup(init)|;
      assert Dedup(xs) == Dedup(init) + [xs[j]];
      assert Dedup(xs)[p] == xs[i] && Dedup(xs)[q] == xs[j];
    } else {
      assert init[..j] == xs[..j] && init[..i] == xs[..i];
      DedupOrder(init, i, j);
      var p, q :| 0 <= p < q < |Dedup(init)| && Dedup(init)[p] == xs[i] && Dedup(init)[q] == xs[j];
      assert Dedup(xs)[..|Dedup(init)|] == Dedup(init);
      assert Dedup(xs)[p] == xs[i] && Dedup(xs)[q] == xs[j];
    }
  }

  datatype TemplateField = TemplateField(name: string, kind: string, required: bool)

  datatype TemplateStructure = TemplateStructure(
    fields: seq<TemplateField>,
    totalFields: nat,
    extractionConfidence: real,
    ocrEngine: string,
    error: Option<string>,
    rawText: Option<string>)

  /** `extract_structure_from_template`, given the OCR result of the template image. */
  method ExtractStructureFromTemplate(ocr: OCRResult) returns (t: TemplateStructure)
    ensures ocr.text == "" || ocr.engine == "error" ==>
              t == TemplateStructure([], 0, 0.0, ocr.engine,
                                     Some("OCR extraction failed - no text extracted"), None)
    ensures ocr.text != "" && ocr.engine != "error" ==>
              var names := Dedup(Candidates(SplitOn(ocr.text, "\n")));
              && t.fields == TemplateFields(names) && t.totalFields == |names|
              && t.extractionConfidence == ocr.confidence && t.ocrEngine == ocr.engine
              && t.error.None? && t.rawText == Some(ocr.text)
  {
    if ocr.text == "" || ocr.engine == "error" {
      return TemplateStructure([], 0, 0.0, ocr.engine,
                               Some("OCR extraction failed - no text extracted"), None);
    }
    var fields := CollectFields(SplitOn(ocr.text, "\n"));
    return TemplateStructure(fields, |fields|, ocr.confidence, ocr.engine, None, Some(ocr.text));
  }

  /** A text field, required, for every name. */
  function TemplateFields(names: seq<string>): (r: seq<TemplateField>)
    ensures |r| == |names|
    ensures forall k :: 0 <= k < |names| ==> r[k] == TemplateField(names[k], "text", true)
  {
    seq(|names|, k requires 0 <= k < |names| => TemplateField(names[k], "text", true))
  }

  lemma TemplateFieldsSnoc(names: seq<string>, n: string)
    ensures TemplateFields(names + [n]) == TemplateFields(names) + [TemplateField(n, "text", true)]
  {
  }

  /** The loop of `extract_structure_from_template` over the lines of the template text. */
  method CollectFields(lines: seq<string>) returns (fields: seq<TemplateField>)
    ensures fields == TemplateFields(Dedup(Candidates(lines)))
  {
    fields := [];
    var names: seq<string> := [];
    for i := 0 to |lines|
      invariant names == Dedup(Candidates(lines[..i]))
      invariant fields == TemplateFields(names)
    {
      NamesSnoc(lines, i);
      var fieldName := CleanName(lines[i]);
      if fieldName != "" && fieldName !in names {
        TemplateFieldsSnoc(names, fieldName);
        fields := fields + [TemplateField(fieldName, "text", true)];
        names := names + [fieldName];
      }
    }
    assert lines[..|lines|] == lines;
  }

  // ---------------------------------------------------------------- field values

  /** The value line `i` offers for a field with keywords `keys`, if it mentions one of them:
      the stripped text after its first ':' when non-empty, else the stripped next line when
      that is non-empty and has no ':'. */
  function ValueAt(lines: seq<string>, keys: seq<string>, i: nat): (r: Option<string>)
    requires i < |lines|
    ensures r.Some? ==> r.value != ""
  {
    var line := lines[i];
    if !AnyIn(Lower(line), keys) then None
    else
      var sameLine := if ':' in line then Strip(AfterFirst(line, ':')) else "";
      if sameLine != "" then Some(sameLine)
      else if i + 1 < |lines| && Strip(lines[i + 1]) != "" && ':' !in Strip(lines[i + 1]) then
        Some(Strip(lines[i + 1]))
      else None
  }

  /** The value every line offers. */
  function Offers(lines: seq<string>, keys: seq<string>): (r: seq<Option<string>>)
    ensures |r| == |lines| && forall i :: 0 <= i < |lines| ==> r[i] == ValueAt(lines, keys, i)
  {
    seq(|lines|, i requires 0 <= i < |lines| => ValueAt(lines, keys, i))
  }

  /** The first offered value from position `i` on, else "". */
  function FirstOffer(offers: seq<Option<string>>, i: nat): string
    requires i <= |offers|
    decreases |offers| - i
  {
    if i == |offers| then ""
    else if offers[i].Some? then offers[i].value
    else FirstOffer(offers, i + 1)
  }

  /** The value found for a field is the one offered by the first offering line, and "" exactly
      when no line offers one (offered values are never empty). */
  lemma {:induction false} FirstOfferIsFirst(offers: seq<Option<string>>, i: nat)
    requires i <= |offers|
    requires forall j :: 0 <= j < |offers| && offers[j].Some? ==> offers[j].value != ""
    ensures FirstOffer(offers, i) == "" <==> forall j :: i <= j < |offers| ==> offers[j].None?
    ensures FirstOffer(offers, i) != "" ==>
              exists j :: i <= j < |offers| && offers[j] == Some(FirstOffer(offers, i)) &&
                          forall m :: i <= m < j ==> offers[m].None?
    decreases |offers| - i
  {
    if i < |offers| && offers[i].None? {
      FirstOfferIsFirst(offers, i + 1);
      var v := FirstOffer(offers, i + 1);
      if v != "" {
        var j :| i + 1 <= j < |offers| && offers[j] == Some(v) &&
                 forall m :: i + 1 <= m < j ==> offers[m].None?;
        assert forall m :: i <= m < j ==> offers[m].None?;
      }
    }
  }

  /** The keywords of a field name: its lower-cased words. */
  function Keywords(fieldName: string): seq<string> {
    Words(Lower(fieldName))
  }

  /** `_extract_field_value`: scans the lines in order and returns the first value offered. */
  method ExtractFieldValue(lines: seq<string>, fieldName: string) returns (v: string)
    ensures v == FirstOffer(Offers(lines, Keywords(fieldName)), 0)
  {
    var keys := Keywords(fieldName);
    ghost var offers := Offers(lines, keys);
    for i := 0 to |lines|
      invariant FirstOffer(offers, 0) == FirstOffer(offers, i)
    {
      var line := lines[i];
      var lineLower := Lower(line);
      if AnyIn(lineLower, keys) {
        if ':' in line {
          var value := Strip(AfterFirst(line, ':'));
          if value != "" {
            return value;
          }
        }
        if i + 1 < |lines| {
          var nextLine := Strip(lines[i + 1]);
          if nextLine != "" && ':' !in nextLine {
            return nextLine;
          }
        }
      }
    }
    return "";
  }

  /** `process_document_with_template`: one value per template field, in template order, all
      with the page's OCR confidence; no fields (absent or empty) gives no values. */
  method ProcessDocumentWithTemplate(ocr: OCRResult, templateFields: Option<seq<TemplateField>>)
    returns (r: seq<FieldData>)
    ensures templateFields.None? || templateFields.value == [] ==> r == []
    ensures templateFields.Some? ==> |r| == |templateFields.value|
    ensures templateFields.Some? ==>
              forall k :: 0 <= k < |r| ==>
                r[k] == FieldData(templateFields.value[k].name,
                                  FirstOffer(Offers(SplitOn(ocr.text, "\n"), Keywords(templateFields.value[k].name)), 0),
                                  ocr.confidence, None)
  {
    r := [];
    if templateFields.None? || templateFields.value == [] {
      return;
    }
    var fields := templateFields.value;
    var lines := SplitOn(ocr.text, "\n");
    for k := 0 to |fields|
      invariant |r| == k
      invariant forall m :: 0 <= m < k ==>
                  r[m] == FieldData(fields[m].name, FirstOffer(Offers(lines, Keywords(fields[m].name)), 0),
                                    ocr.confidence, None)
    {
      var value := ExtractFieldValue(lines, fields[k].name);
      r := r + [FieldData(fields[k].name, value, ocr.confidence, None)];
    }
  }

  // ---------------------------------------------------------------- formats

  const SupportedFormats: seq<string> := [".pdf", ".png", ".jpg", ".jpeg", ".tiff", ".bmp"]

  /** `validate_image_format`: the lower-cased extension is one of the six supported. */
  function ValidateImageFormat(filename: string): (ok: bool)
    ensures ok <==> Lower(Ext(filename)) in SupportedFormats
    ensures ok ==> Ext(filename) != ""
  {
    Lower(Ext(filename)) in SupportedFormats
  }

  /** An upper-case supported extension is accepted. */
  lemma UpperCaseFormatAccepted()
    ensures ValidateImageFormat("scan.PDF")
  {
    LastIndexOfIs("scan.PDF", '/', -1);
    LastIndexOfIs("scan.PDF", '.', 4);
    assert "scan.PDF"[0..4] == "scan";
    assert "scan"[0] != '.';
    assert Ext("scan.PDF") == ".PDF";
    assert Lower(".PDF") == ".pdf";
  }

  /** An image extension outside the list is refused. */
  lemma GifRefused()
    ensures !ValidateImageFormat("photo.gif")
  {
    LastIndexOfIs("photo.gif", '/', -1);
    LastIndexOfIs("photo.gif", '.', 5);
    assert "photo.gif"[0..5] == "photo";
    assert "photo"[0] != '.';
    assert Ext("photo.gif") == ".gif";
    assert Lower(".gif") == ".gif";
  }

  /** A name that is only a leading-dot extension has no extension at all. */
  lemma DotfileRefused()
    ensures !ValidateImageFormat(".png")
  {
    LastIndexOfIs(".png", '/', -1);
    LastIndexOfIs(".png", '.', 0);
    assert Ext(".png") == "";
  }
}
