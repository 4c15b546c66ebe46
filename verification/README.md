# OCR-APP table and export logic in Dafny

This project models the deterministic core of the OCR-APP document service. The service reads
scanned forms and tables with Tesseract or EasyOCR, finds table grids in them, and exports the
extracted data to Excel, PDF and Word. The OpenCV, numpy, Tesseract and EasyOCR calls are not
modelled. What they report becomes input data:

- the bounding rectangles of contours;
- Hough segments and line angles;
- Tesseract's word table and EasyOCR's detections;
- the image measurements (mean intensity, contrast, sharpness, noise).

What remains is modelled and proved:

- `TableDetector` (`table_detector.py`): line filtering, Hough segment classification, the
  row-major cell grid, the padded crop window of a cell, header and confidence assembly, and the
  JSON record of a structure with its round trip.
- `EnhancedDetector` (`enhanced_table_detector.py`): the morphology, contour, Hough,
  text-block and hybrid strategies; row clustering anchored on each row's first box; the
  confidence score; and the arbiter. The arbiter is a stable descending sort, so ties go to the
  strategy tried first.
- `Preprocessor` (`smart_preprocessor.py`): the quality score, the skew angle, the threshold
  rules of each filter, the binarisation choice and the order of the pipelines.
- `OcrCore` (`ocr_core.py`): word filtering and confidence averaging, the engine fallback,
  the deskew angle rule, form-label detection with de-duplication, and field value extraction.
- `Utils` and `WeightedMeans` (`utils.py`): upload validation, unique names and upload
  folders, file-name sanitising, the harmonic-weighted processing confidence (it lies between
  the smallest and largest confidence and is never below their plain mean), and status texts.
- `ExportData`, `ExcelManager`, `PdfFiller`, `DocxExporter`: how the extracted cells and fields
  become worksheet positions and table rows. This covers grouping cells by row (last write
  wins), skipping row 0, packing data rows, dropping columns that do not fit, truncating texts,
  and the PDF word wrap with its page breaks.
- `Serializers` (`api/serializers.py`): the REST upload check and the `extracted_fields` of a
  document.
- `Strs`, `Sorting`, `Dicts`, `JsonValues`, `Numbers`, `Options`: the pieces of Python that
  the code relies on. These are `str` methods, `os.path.splitext`, the stable `sorted`,
  `sorted(set(...))`, insertion-ordered dictionaries, JSON values, and means. White space is
  Python's full `str.isspace` set; case mapping covers ASCII letters only.

Code that updates state step by step is modelled as methods with loops. Each method is proved
against a function, and the properties are lemmas about that function. The Excel worksheet is a
class whose methods write cells in place. The detector keeps its list of strategy records in a
class field.

Some behaviour of the code differs from what its comments and documentation suggest. The model
follows the code in each case:

- The hybrid strategy does not always score at least as high as the strategies it combines.
  It scores at least as high as its line grid (`HybridAtLeastGeometry`). It can score 13 points
  below the text blocks it took its text from (`HybridBelowTextBlocks`).
- The morphology check for two lines runs before duplicates are removed. So it can return a
  table with 0 rows (`MorphologyCollapsedLines`).
- The skew detector of the preprocessor never adjusts angles below -45. It keeps only angles
  strictly between -45 and 45 (`SkewWithinQuarterTurn`).
- Only successful strategies are recorded in `strategies`. An image that cannot be loaded makes
  the detector raise rather than report "None".
- In the consolidated Excel export, a document in `fields` format does not advance the row
  counter. The next document writes into the same row (`DocStepAdvance`).
- The REST upload check rejects GIF images, which the upload helper accepts (`GifRejectedHere`).

## Model

| member | source | states |
|---|---|---|
| OcrCore.PyInt | OCR/ocr_processing/ocr_core.py:142 | `int()` of a word confidence truncates toward zero: for a non-negative confidence the result is its floor, for a negative one it is at most 0 |
| OcrCore.PyIntAbove | OCR/ocr_processing/ocr_core.py:142 | a Tesseract word is kept (`int(conf) > k`) exactly when its confidence is at least k + 1 |
| OcrCore.TessConfs | OCR/ocr_processing/ocr_core.py:141-144 | one recorded confidence per kept word, each at least 1 |
| OcrCore.ExtractTextTesseract | OCR/ocr_processing/ocr_core.py:128-153 | without Tesseract the call fails; otherwise the text is the stripped space-join of the kept words, the confidence the mean of their confidences (0 when none is kept) and the engine "tesseract" |
| OcrCore.TesseractConfidence | OCR/ocr_processing/ocr_core.py:141-147 | with no word kept the text is empty and the confidence 0; otherwise the confidence lies between 1 and the largest word confidence |
| OcrCore.TessConfsBelow | OCR/ocr_processing/ocr_core.py:141-144 | no recorded confidence exceeds a bound on the input confidences |
| OcrCore.EasyConfs | OCR/ocr_processing/ocr_core.py:164-167 | one recorded confidence per kept item, each above 0.1 |
| OcrCore.ExtractTextEasyocr | OCR/ocr_processing/ocr_core.py:155-176 | without a loaded reader the call fails; otherwise the text is the stripped space-join of the items above 0.1 and the confidence 100 times their mean confidence, engine "easyocr" |
| OcrCore.EasyocrPercentage | OCR/ocr_processing/ocr_core.py:164-174 | for reader confidences in [0, 1] the reported percentage is 0 when nothing is kept and otherwise lies in (10, 100] |
| OcrCore.EasyConfsBelowOne | OCR/ocr_processing/ocr_core.py:164-167 | kept confidences stay at most 1 when the reader's do |
| OcrCore.NewEngine | OCR/ocr_processing/ocr_core.py:90-126 | the engine records the preferred name and whether Tesseract answers; an EasyOCR reader exists exactly when EasyOCR is preferred and loads |
| OcrCore.EngineFallbackOrder | OCR/ocr_processing/ocr_core.py:194-206 | no engine runs exactly when neither is usable; EasyOCR runs exactly when it is loaded and preferred or Tesseract is missing; Tesseract runs otherwise when available; an engine built for Tesseract never runs EasyOCR |
| OcrCore.ExtractText | OCR/ocr_processing/ocr_core.py:178-210 | a ".pdf" path (any case) goes to the PDF path; an image that does not load, a failing engine or no engine gives the empty "error" result; otherwise the chosen engine's result |
| OcrCore.DeskewAngle | OCR/ocr_processing/ocr_core.py:42-53 | an image with no foreground pixel is not rotated, and a rotation is never smaller than 0.5 degrees |
| OcrCore.DeskewWithinQuarterTurn | OCR/ocr_processing/ocr_core.py:47-53 | for a rectangle angle in [-90, 0] the rotation lies in [-45, 45], is the negated angle or -(90 + angle), and is skipped exactly when the angle is within 0.5 of 0 or of -90 |
| OcrCore.ColonPrecedenceHarmless | OCR/ocr_processing/ocr_core.py:309 | the `and`/`or` grouping of the colon rule changes the verdict only for the empty label, which never becomes a field |
| OcrCore.CleanName | OCR/ocr_processing/ocr_core.py:334 | a cleaned field name is empty or has no white space at either end |
| OcrCore.Candidates | OCR/ocr_processing/ocr_core.py:298-334 | one cleaned candidate per OCR line, in line order |
| OcrCore.Dedup | OCR/ocr_processing/ocr_core.py:335-340 | the field names are pairwise distinct and non-empty, every non-empty candidate is among them, and nothing else is |
| OcrCore.DedupSnoc | OCR/ocr_processing/ocr_core.py:335-340 | one more candidate is appended exactly when it is non-empty and not yet a field name |
| OcrCore.DedupOrder | OCR/ocr_processing/ocr_core.py:335-340 | field names keep the order of their first occurrences |
| OcrCore.NamesSnoc | OCR/ocr_processing/ocr_core.py:298-340 | one step of the line loop adds the line's cleaned label when it is new and non-empty |
| OcrCore.ExtractStructureFromTemplate | OCR/ocr_processing/ocr_core.py:279-348 | an empty text or an "error" result gives the empty structure with the failure message; otherwise the fields are the distinct cleaned labels in order, with their count, the OCR confidence, engine and raw text |
| OcrCore.TemplateFields | OCR/ocr_processing/ocr_core.py:336-340 | one required text field per name, in order |
| OcrCore.CollectFields | OCR/ocr_processing/ocr_core.py:295-340 | the line loop yields the fields of the deduplicated candidates |
| OcrCore.ValueAt | OCR/ocr_processing/ocr_core.py:378-393 | a value a line offers is never empty |
| OcrCore.Offers | OCR/ocr_processing/ocr_core.py:378-393 | one offer per line, the line's own |
| OcrCore.FirstOfferIsFirst | OCR/ocr_processing/ocr_core.py:378-395 | the value is "" exactly when no line offers one; otherwise it is the offer of the first line that makes one |
| OcrCore.ExtractFieldValue | OCR/ocr_processing/ocr_core.py:374-395 | the scan returns the first value offered by a line mentioning a keyword of the field name |
| OcrCore.ProcessDocumentWithTemplate | OCR/ocr_processing/ocr_core.py:350-372 | no template fields give no result; otherwise one field per template field, in order, with its name, its first offered value and the OCR confidence |
| OcrCore.ValidateImageFormat | OCR/ocr_processing/ocr_core.py:398-406 | a file name is accepted exactly when its lower-cased extension is one of the six supported, so an accepted name has an extension |
| OcrCore.UpperCaseFormatAccepted | OCR/ocr_processing/ocr_core.py:402-406 | "scan.PDF" is accepted: the extension is compared in lower case |
| OcrCore.GifRefused | OCR/ocr_processing/ocr_core.py:398-406 | "photo.gif" is refused |
| OcrCore.DotfileRefused | OCR/ocr_processing/ocr_core.py:402-406 | ".png" alone has no extension and is refused |
| Preprocessor.QualityScoreRange | OCR/ocr_processing/smart_preprocessor.py:129-146 | for an 8-bit mean intensity and non-negative measurements the score lies in [0, 100], and is 100 exactly for brightness 127.5, contrast at least 50, sharpness at least 500 and no noise |
| Preprocessor.QualityMonotoneInNoise | OCR/ocr_processing/smart_preprocessor.py:136-144 | more noise never raises the score |
| Preprocessor.BrightnessPeak | OCR/ocr_processing/smart_preprocessor.py:133 | the brightness score peaks at 100 for 127.5 and is symmetric around it |
| Preprocessor.KeptAngles | OCR/ocr_processing/smart_preprocessor.py:116-121 | the kept angles are exactly the line angles minus 90 that fall strictly between -45 and 45 |
| Preprocessor.DetectSkewAngle | OCR/ocr_processing/smart_preprocessor.py:99-127 | the loop computes the skew: 0 without lines or without a kept angle, else the median of the kept angles |
| Preprocessor.SkewWithinQuarterTurn | OCR/ocr_processing/smart_preprocessor.py:112-127 | the detected skew always lies strictly between -45 and 45 |
| Preprocessor.SkewZeroWithoutAngles | OCR/ocr_processing/smart_preprocessor.py:112-124 | when no line gives an angle in range the skew is 0 |
| Preprocessor.NoKeptAngles | OCR/ocr_processing/smart_preprocessor.py:117-121 | no angle is kept when none is in range |
| Preprocessor.AnalyzeImageQuality | OCR/ocr_processing/smart_preprocessor.py:36-87 | the metrics carry the quality score of the four measurements and the detected skew |
| Preprocessor.DenoiseStrength | OCR/ocr_processing/smart_preprocessor.py:231-253 | no denoising below noise 5, strength 10 from 5 up to 15, strength 15 from 15 on |
| Preprocessor.BrightnessFactor | OCR/ocr_processing/smart_preprocessor.py:280-297 | the image is left alone when its mean is within 10 of the target (or 0); otherwise the factor maps the mean onto the target |
| Preprocessor.ScalePixel | OCR/ocr_processing/smart_preprocessor.py:300 | a scaled pixel is clipped into 0..255 |
| Preprocessor.ScalePixelMonotone | OCR/ocr_processing/smart_preprocessor.py:300 | scaling by a non-negative factor keeps the order of pixels, and below 255 truncates the product |
| Preprocessor.NormalizePixels | OCR/ocr_processing/smart_preprocessor.py:291-300 | normalising keeps the pixel count and every pixel within 0..255 |
| Preprocessor.NormalizeKeepsOrder | OCR/ocr_processing/smart_preprocessor.py:291-300 | an image whose mean is within 10 of the target comes back unchanged; otherwise brighter pixels stay at least as bright |
| Preprocessor.BinarizeChoiceRule | OCR/ocr_processing/smart_preprocessor.py:305-339 | in "auto" mode Otsu is chosen exactly when its dark ratio is strictly closer to 0.175, adaptive on a tie; otherwise Otsu exactly for "otsu" |
| Preprocessor.PreprocessForTableDetection | OCR/ocr_processing/smart_preprocessor.py:357-399 | the pipeline applies shadow removal, brightness normalisation, denoising, CLAHE, sharpening and rotation as the metrics decide |
| Preprocessor.TableFiltersDecisions | OCR/ocr_processing/smart_preprocessor.py:378-395 | shadows are removed first and CLAHE always runs; denoising runs exactly at noise 5 or more, sharpening exactly at sharpness 300 or less, rotation exactly when the skew exceeds 0.5 in magnitude |
| Preprocessor.TableFiltersOrder | OCR/ocr_processing/smart_preprocessor.py:378-395 | the filters come in the fixed stage order, each at most once |
| Preprocessor.StagedPipeline | OCR/ocr_processing/smart_preprocessor.py:378-395 | any choice of optional steps keeps the stage order |
| Preprocessor.StagedAppend | OCR/ocr_processing/smart_preprocessor.py:378-395 | appending an optional step of a later stage keeps the order |
| Preprocessor.PreprocessForOcr | OCR/ocr_processing/smart_preprocessor.py:401-431 | the OCR pipeline is the table pipeline, then blur and closing for handwriting, then the automatic binarisation |
| Preprocessor.OcrFiltersExtendTable | OCR/ocr_processing/smart_preprocessor.py:415-427 | the OCR pipeline starts with the table pipeline and ends with exactly one binarisation, adding 3 filters for handwriting and 1 otherwise |
| TableDetector.HorizontalYs | OCR/ocr_processing/table_detector.py:120-124 | the candidate rows are exactly the tops of contours wider than 50 |
| TableDetector.VerticalXs | OCR/ocr_processing/table_detector.py:127-131 | the candidate columns are exactly the left edges of contours taller than 50 |
| TableDetector.DetectLines | OCR/ocr_processing/table_detector.py:120-139 | both line lists are strictly increasing, duplicate-free, and hold exactly the coordinates of the contours longer than 50 along their axis |
| TableDetector.HoughYs | OCR/ocr_processing/table_detector.py:171-176 | the horizontal candidates are exactly the mid-heights of segments rising less than 10 |
| TableDetector.HoughXs | OCR/ocr_processing/table_detector.py:171-180 | the vertical candidates are exactly the mid-abscissae of the remaining segments moving less than 10 sideways |
| TableDetector.DetectGridWithHough | OCR/ocr_processing/table_detector.py:164-188 | no segments give two empty lists; otherwise both lists are strictly increasing and hold exactly the classified coordinates |
| TableDetector.SegmentNotBoth | OCR/ocr_processing/table_detector.py:175-180 | no segment is classified both horizontal and vertical |
| TableDetector.RowCells | OCR/ocr_processing/table_detector.py:205-222 | a grid row holds its cells left to right, one per column gap |
| TableDetector.GridRows | OCR/ocr_processing/table_detector.py:204-222 | n rows give n times the number of column gaps cells, each in range and equal to the cell at its row and column |
| TableDetector.BuildRow | OCR/ocr_processing/table_detector.py:205-222 | the inner loop builds the cells of one row |
| TableDetector.BuildGrid | OCR/ocr_processing/table_detector.py:190-226 | the nested loops build the row-major grid |
| TableDetector.GridLayout | OCR/ocr_processing/table_detector.py:204-222 | the cell of row r, column c sits at index r times the column count plus c |
| TableDetector.GridCells | OCR/ocr_processing/table_detector.py:204-222 | the grid has (|h| - 1)(|v| - 1) cells; each has row and column in range, is a header exactly in row 0, takes its corner and size from the neighbouring lines, and has positive size for strictly increasing lines |
| TableDetector.SampleTableGrid | OCR/test_table_detection.py:25-39 | the sample sheet's 6 horizontal and 5 vertical rules give 20 cells of 180 by 100, the first 4 of them headers |
| TableDetector.SliceSpan | OCR/ocr_processing/table_detector.py:247 | a numpy slice of a non-negative start selects a span inside the axis |
| TableDetector.CropWrapsAround | OCR/ocr_processing/table_detector.py:240-250 | a 3-pixel-high cell at the top edge has an empty padded box, yet the slice as written `5:98` selects rows 5 to 97 |
| TableDetector.CropInsideCell | OCR/ocr_processing/table_detector.py:240-249 | a crop lies inside the image and the padded cell and equals numpy's selection; where no stop is negative the crop is empty exactly when numpy's is |
| TableDetector.DirectConfs | OCR/ocr_processing/table_detector.py:273-274 | the direct path averages only positive confidences |
| TableDetector.ExtractCellText | OCR/ocr_processing/table_detector.py:228-280 | the method reads a cell as the reading function says: empty crop or failed OCR give ("", 0.0); otherwise the engine's or Tesseract's stripped text and mean confidence |
| TableDetector.CellReadingFallbacks | OCR/ocr_processing/table_detector.py:249-280 | an empty crop gives ("", 0.0) whatever the reader does, and a failed OCR call gives ("", 0.0) |
| TableDetector.CellReadingTrimmed | OCR/ocr_processing/table_detector.py:258-276 | a cell's text has no white space at either end |
| TableDetector.ReadGrid | OCR/ocr_processing/table_detector.py:322-325 | every grid cell is read in place, in order |
| TableDetector.HeaderPairs | OCR/ocr_processing/table_detector.py:330-332 | one (column as text, text) pair per header cell |
| TableDetector.RowZero | OCR/ocr_processing/table_detector.py:329 | the header cells are exactly the row-0 cells |
| TableDetector.PositiveConfs | OCR/ocr_processing/table_detector.py:335 | the averaged confidences are positive and each is some cell's confidence |
| TableDetector.PutNonEmptyStep | OCR/ocr_processing/table_detector.py:330-332 | one header cell stores its text under its column exactly when the text is non-empty |
| TableDetector.PutNonEmptyStored | OCR/ocr_processing/table_detector.py:330-332 | a key is stored exactly when some pair under it has non-empty text |
| TableDetector.PutNonEmptyFrom | OCR/ocr_processing/table_detector.py:330-332 | a stored value comes from a pair under that key |
| TableDetector.HeadersFromRowZero | OCR/ocr_processing/table_detector.py:328-332 | the headers hold a column exactly when a row-0 cell of that column has text, and the stored text is such a cell's |
| TableDetector.GridConfidenceRange | OCR/ocr_processing/table_detector.py:335-339 | the grid confidence is 0 when no cell confidence is positive, and otherwise a positive value between the bounds of the positive ones |
| TableDetector.ReadCells | OCR/ocr_processing/table_detector.py:322-325 | the reading loop fills in every cell |
| TableDetector.CollectHeaders | OCR/ocr_processing/table_detector.py:328-332 | the header loop builds the headers dictionary |
| TableDetector.DetectTableStructure | OCR/ocr_processing/table_detector.py:282-359 | an image that does not load or fewer than 2 lines on either axis give None; otherwise rows and cols are the gap counts, the cells are read, and headers and confidence are assembled |
| TableDetector.CellPlaceLookups | OCR/ocr_processing/table_detector.py:377-381 | a cell record holds its row, column and x |
| TableDetector.CellSizeLookups | OCR/ocr_processing/table_detector.py:382-384 | a cell record holds its y, width and height |
| TableDetector.CellContentLookups | OCR/ocr_processing/table_detector.py:384-386 | a cell record holds its text, confidence and header flag |
| TableDetector.HeadersToJson | OCR/ocr_processing/table_detector.py:374 | the headers are copied in order |
| TableDetector.StrsToJson | OCR/ocr_processing/table_detector.py:390 | the field names are the header values in order |
| TableDetector.CellsToJson | OCR/ocr_processing/table_detector.py:376-389 | one record per cell |
| TableDetector.RecordShapeLookups | OCR/ocr_processing/table_detector.py:371-374 | the record holds rows, cols and headers |
| TableDetector.RecordContentLookups | OCR/ocr_processing/table_detector.py:375-390 | the record holds the grid confidence, the cells and the field names |
| TableDetector.CellFromMembers | OCR/ocr_processing/table_detector.py:377-387 | a record holding the nine fields of a cell reads back as that cell |
| TableDetector.CellRoundTrip | OCR/ocr_processing/table_detector.py:377-387 | every cell survives its record |
| TableDetector.CellsRoundTrip | OCR/ocr_processing/table_detector.py:376-389 | the cell list survives, in order |
| TableDetector.HeadersRoundTrip | OCR/ocr_processing/table_detector.py:374 | the headers survive, in order |
| TableDetector.StructureRoundTrip | OCR/ocr_processing/table_detector.py:361-391 | a structure survives its record, and the record's field names are the header values in order |
| TableDetector.StructureFromMembers | OCR/ocr_processing/table_detector.py:371-391 | any record with the structure's entries reads back as the structure |
| EnhancedDetector.AddToRows | OCR/ocr_processing/enhanced_table_detector.py:244-252 | one box either joins the open row or opens a new one; no row is ever empty |
| EnhancedDetector.Groups | OCR/ocr_processing/enhanced_table_detector.py:239-255 | the row grouping of a sorted box list has no empty row |
| EnhancedDetector.GroupsFlatten | OCR/ocr_processing/enhanced_table_detector.py:239-255 | the rows, read in order, give back exactly the sorted boxes |
| EnhancedDetector.AddToRowsAnchored | OCR/ocr_processing/enhanced_table_detector.py:244-252 | one step keeps every row anchored: each box lies within the tolerance of its row's first box, and each row's first box is at least the tolerance from the previous row's |
| EnhancedDetector.GroupsAnchored | OCR/ocr_processing/enhanced_table_detector.py:239-255 | the whole grouping is anchored in that sense |
| EnhancedDetector.SortRows | OCR/ocr_processing/enhanced_table_detector.py:250-255 | each row is sorted by x, the row order kept |
| EnhancedDetector.ClusterRows | OCR/ocr_processing/enhanced_table_detector.py:236-255 | the grouping loop with its open row builds the x-sorted rows of the grouping |
| EnhancedDetector.RowToCells | OCR/ocr_processing/enhanced_table_detector.py:260-270 | the c-th box of row r becomes the cell at (r, c), a header exactly when r is 0 |
| EnhancedDetector.CellsOf | OCR/ocr_processing/enhanced_table_detector.py:257-270 | one cell per box |
| EnhancedDetector.CellsOfLayout | OCR/ocr_processing/enhanced_table_detector.py:257-270 | every cell sits at its box's row and position in that row |
| EnhancedDetector.MaxLen | OCR/ocr_processing/enhanced_table_detector.py:258 | the column count is the length of the longest row, 0 for no rows |
| EnhancedDetector.CellsFromRows | OCR/ocr_processing/enhanced_table_detector.py:257-270 | the nested loop builds the cells row by row |
| EnhancedDetector.CellBlocks | OCR/ocr_processing/enhanced_table_detector.py:260-270 | the boxes the cells carry, in cell order |
| EnhancedDetector.CellsOfBlocks | OCR/ocr_processing/enhanced_table_detector.py:257-270 | the cells carry exactly the boxes of the rows, in order |
| EnhancedDetector.SortRowsPermutes | OCR/ocr_processing/enhanced_table_detector.py:250-255 | sorting each row rearranges the boxes and loses none |
| EnhancedDetector.ClusterKeepsBoxes | OCR/ocr_processing/enhanced_table_detector.py:232-278 | clustering gives one cell per box, the cells carry the input boxes rearranged, and the row count is the number of groups |
| EnhancedDetector.ClusterInRange | OCR/ocr_processing/enhanced_table_detector.py:257-278 | every cell's row and column are below the row and column counts, and it is a header exactly in row 0 |
| EnhancedDetector.ClusterRowsByX | OCR/ocr_processing/enhanced_table_detector.py:250-255 | every row is in ascending x order |
| EnhancedDetector.MorphYs | OCR/ocr_processing/enhanced_table_detector.py:177-182 | the horizontal lines are exactly the mid-heights of contours wider than 30% of the image |
| EnhancedDetector.MorphXs | OCR/ocr_processing/enhanced_table_detector.py:184-188 | the vertical lines are exactly the mid-abscissae of contours taller than 30% of the image |
| EnhancedDetector.LineTable | OCR/ocr_processing/enhanced_table_detector.py:196-206 | a line grid has one row and one column fewer than lines, (rows times cols) cells, no headers and the given grid confidence |
| EnhancedDetector.WideMidpoints | OCR/ocr_processing/enhanced_table_detector.py:177-182 | the loop gathers the horizontal lines in contour order |
| EnhancedDetector.TallMidpoints | OCR/ocr_processing/enhanced_table_detector.py:184-188 | the loop gathers the vertical lines in contour order |
| EnhancedDetector.DetectMorphology | OCR/ocr_processing/enhanced_table_detector.py:156-206 | the strategy is the morphology function |
| EnhancedDetector.MorphologyLines | OCR/ocr_processing/enhanced_table_detector.py:190-206 | a table exactly when both axes have 2 lines before de-duplication; its size comes from the de-duplicated lines, with no headers and grid confidence 0.8 |
| EnhancedDetector.MorphologyCollapsedLines | OCR/ocr_processing/enhanced_table_detector.py:190-202 | two horizontal contours whose midpoints coincide pass the count check yet give a table of 0 rows |
| EnhancedDetector.DetectHoughLines | OCR/ocr_processing/enhanced_table_detector.py:280-304 | the strategy is the Hough function, a raising step giving None |
| EnhancedDetector.HoughLines | OCR/ocr_processing/enhanced_table_detector.py:289-301 | a table exactly when both line lists have 2 entries; its size follows the lines, grid confidence 0.7, every cell of positive size |
| EnhancedDetector.ContourBlocks | OCR/ocr_processing/enhanced_table_detector.py:219-227 | the possible cells are exactly the contours of area above 500 with aspect ratio strictly between 0.1 and 10 |
| EnhancedDetector.DetectContours | OCR/ocr_processing/enhanced_table_detector.py:208-278 | the strategy is the contours function |
| EnhancedDetector.BlockTableCells | OCR/ocr_processing/enhanced_table_detector.py:229-278 | a table exactly for 5 boxes or more; its cells carry the boxes rearranged, each in range, with the given confidence and no headers |
| EnhancedDetector.ContourCells | OCR/ocr_processing/enhanced_table_detector.py:208-278 | a table exactly when at least 5 contours are kept; its cells are the kept boxes, with empty text, in range, grid confidence 0.75 |
| EnhancedDetector.WordBlocks | OCR/ocr_processing/enhanced_table_detector.py:314-323 | no more boxes than words |
| EnhancedDetector.WordBlocksKept | OCR/ocr_processing/enhanced_table_detector.py:314-323 | the boxes are exactly those of the words with integer confidence above 50 and non-blank text, their text stripped |
| EnhancedDetector.WordBlocksHaveText | OCR/ocr_processing/enhanced_table_detector.py:321-323 | every kept box has text |
| EnhancedDetector.CollectBlocks | OCR/ocr_processing/enhanced_table_detector.py:314-323 | the loop gathers the kept boxes in word order |
| EnhancedDetector.DetectTextBlocks | OCR/ocr_processing/enhanced_table_detector.py:306-379 | the strategy is the text-block function, a raising OCR call giving None |
| EnhancedDetector.TextBlockCells | OCR/ocr_processing/enhanced_table_detector.py:325-375 | a table exactly when at least 5 words are kept; its cells carry the kept boxes rearranged, all with text and in range, grid confidence 0.65 |
| EnhancedDetector.FirstInsideFromIsFirst | OCR/ocr_processing/enhanced_table_detector.py:407-416 | the search finds nothing exactly when no text centre lies in the cell, and otherwise the text of the first one that does |
| EnhancedDetector.MergeCells | OCR/ocr_processing/enhanced_table_detector.py:403-416 | every grid cell is replaced by its merged version, in order |
| EnhancedDetector.MergeText | OCR/ocr_processing/enhanced_table_detector.py:403-416 | the loop with its inner search that stops at the first match merges every cell |
| EnhancedDetector.MergeKeepsLayout | OCR/ocr_processing/enhanced_table_detector.py:401-419 | merging keeps rows, cols, headers and every cell but its text, sets the grid confidence to 0.85, keeps a cell's text when no text centre lies in it and otherwise takes the first such text |
| EnhancedDetector.RunMorphology | OCR/ocr_processing/enhanced_table_detector.py:385 | the morphology step, whose exception escapes |
| EnhancedDetector.RunContours | OCR/ocr_processing/enhanced_table_detector.py:393 | the contour fallback, whose exception escapes |
| EnhancedDetector.DetectHybrid | OCR/ocr_processing/enhanced_table_detector.py:381-419 | the strategy is the hybrid function |
| EnhancedDetector.HybridSources | OCR/ocr_processing/enhanced_table_detector.py:385-399 | no grid falls back to contours; a grid and no text blocks give the grid; a grid always gives a table of the grid's shape |
| EnhancedDetector.ConfidenceBounds | OCR/ocr_processing/enhanced_table_detector.py:421-459 | the score is at most 100, 0 for no result, and at least 9 for a result with non-negative inputs |
| EnhancedDetector.ConfidenceMonotone | OCR/ocr_processing/enhanced_table_detector.py:436-459 | the score grows with the grid confidence and the quality score at a fixed cell count |
| EnhancedDetector.HybridAtLeastGeometry | OCR/ocr_processing/enhanced_table_detector.py:401-419 | the hybrid scores at least as much as the grid it was built on |
| EnhancedDetector.HybridBelowTextBlocks | OCR/ocr_processing/enhanced_table_detector.py:418-459 | a grid of fewer than 5 cells merged with 20 to 200 text cells scores 13 points below the text blocks |
| EnhancedDetector.Entry | OCR/ocr_processing/enhanced_table_detector.py:60-134 | a strategy adds at most one record |
| EnhancedDetector.StrategiesOf | OCR/ocr_processing/enhanced_table_detector.py:151 | the strategy records of the results, in order |
| EnhancedDetector.EnhancedTableDetector.constructor | OCR/ocr_processing/enhanced_table_detector.py:31-34 | a new detector has no strategies recorded |
| EnhancedDetector.EnhancedTableDetector.DetectWithMultipleStrategies | OCR/ocr_processing/enhanced_table_detector.py:36-154 | the call decides as the arbiter does; with no image or no successful strategy the records are untouched, otherwise they are the results' records best first |
| EnhancedDetector.RunStrategies | OCR/ocr_processing/enhanced_table_detector.py:56-136 | the five strategies are tried in order and the successful ones recorded |
| EnhancedDetector.Record | OCR/ocr_processing/enhanced_table_detector.py:60-71 | a strategy's outcome appends its entry |
| EnhancedDetector.ArbiterPicksBest | OCR/ocr_processing/enhanced_table_detector.py:143-154 | a non-empty result list gives a table: the earliest result of the highest confidence |
| EnhancedDetector.StrategiesBestFirst | OCR/ocr_processing/enhanced_table_detector.py:143-151 | the stored records are in descending confidence |
| EnhancedDetector.NothingDetected | OCR/ocr_processing/enhanced_table_detector.py:139-141 | when every strategy fails, the answer is no table with the "None" record |
| EnhancedDetector.BorderlessPicksTextBlocks | OCR/ocr_processing/enhanced_table_detector.py:104-154 | with no lines and no cell contours but 5 confident words, the text-block table wins |
| Utils.ValidateUploadedFile | OCR/ocr_processing/utils.py:24-53 | accepted exactly when the size is at most 50 MiB, the lower-cased extension is one of the 7 supported formats and the MIME type is allowed; the size failure is reported first, then the format (naming the extension), then the MIME type |
| Utils.UniquePrefix | OCR/ocr_processing/utils.py:66-72 | the text put before the name always ends in an underscore |
| Utils.GenerateUniqueFilename | OCR/ocr_processing/utils.py:55-72 | the unique name is the prefix, the 8-digit id and the original name |
| Utils.UniqueFilenameKeepsExtension | OCR/ocr_processing/utils.py:62-72 | a name with an extension keeps that extension, and its name part only gains the prefix |
| Utils.PrefixKeepsExtension | OCR/ocr_processing/utils.py:62-72 | putting a text that ends in an underscore before a name with an extension keeps the extension |
| Utils.UploadFolder | OCR/ocr_processing/utils.py:86-94 | pdfs exactly for ".pdf", images exactly for the image formats, others exactly for unsupported extensions |
| Utils.GetFileUploadPath | OCR/ocr_processing/utils.py:74-98 | the path is uploads, the chosen folder and the unique name |
| Utils.AcceptedUploadFolder | OCR/ocr_processing/utils.py:24-98 | an accepted upload never lands in the others folder |
| Utils.ReplaceAll | OCR/ocr_processing/utils.py:181-183 | replacing characters keeps the length |
| Utils.ReplaceAllChars | OCR/ocr_processing/utils.py:181-183 | each listed character becomes an underscore and every other character stays |
| Utils.SanitizeFilename | OCR/ocr_processing/utils.py:167-190 | the method computes the sanitised name |
| Utils.CleanedChars | OCR/ocr_processing/utils.py:178-183 | the cleaned base name has the base name's length, each problematic character replaced, and holds none of them |
| Utils.SanitizedIsSafe | OCR/ocr_processing/utils.py:178-190 | a sanitised name holds none of the nine problematic characters and is no longer than the base name |
| Utils.CleanedSplit | OCR/ocr_processing/utils.py:183-186 | replacing characters keeps the split point between name and extension |
| Utils.SanitizedKeepsExtension | OCR/ocr_processing/utils.py:185-190 | the sanitised name ends with the cleaned extension, has at most 100 characters before it, and a name part of at most 100 characters is not cut |
| Utils.Weight | OCR/ocr_processing/utils.py:243 | every weight lies in (0, 1] |
| Utils.HarmonicWeights | OCR/ocr_processing/utils.py:243 | the weights 1/(i+1) are positive and decreasing |
| Utils.SortedWithin | OCR/ocr_processing/utils.py:242 | sorting keeps the values within their bounds |
| Utils.ProcessingConfidenceWithin | OCR/ocr_processing/utils.py:238-248 | for non-empty input the overall confidence lies between any lower and upper bound of the confidences |
| Utils.SortedDescending | OCR/ocr_processing/utils.py:242 | the sorted list is non-increasing and has the same mean |
| Utils.ProcessingConfidenceAtLeastMean | OCR/ocr_processing/utils.py:238-248 | the overall confidence is never below the plain mean, and is 0 for no confidences |
| Utils.StatusDisplay | OCR/ocr_processing/utils.py:269-287 | the five known codes map to their fixed texts, any other code to its title case |
| Utils.CaseMapKeepsCased | OCR/ocr_processing/utils.py:287 | case mapping keeps a character cased or uncased and is idempotent |
| Utils.TitleFromIdempotent | OCR/ocr_processing/utils.py:287 | title-casing twice is title-casing once |
| Utils.UnknownStatusDisplayStable | OCR/ocr_processing/utils.py:287 | an unknown code's display text has the code's length and is its own title case |
| WeightedMeans.WeightTotalPositive | OCR/ocr_processing/utils.py:243-246 | positive weights have a positive total |
| WeightedMeans.WeightedSumBounds | OCR/ocr_processing/utils.py:245-246 | the weighted sum lies between the total weight times the lower and the upper bound |
| WeightedMeans.SortBySum | OCR/ocr_processing/utils.py:242 | sorting keeps the sum |
| WeightedMeans.WeightedMeanWithin | OCR/ocr_processing/utils.py:245-248 | a weighted mean of values within bounds lies within them |
| WeightedMeans.DeviationAtLeast | OCR/ocr_processing/utils.py:241-248 | when weights and values are split by the same pivot, the weighted deviation from x is at least the pivot weight times the plain deviation |
| WeightedMeans.DeviationExpands | OCR/ocr_processing/utils.py:245-246 | the weighted deviation from x is the weighted sum less the total weight times x |
| WeightedMeans.ExcessExpands | OCR/ocr_processing/utils.py:245-246 | the plain deviation from x is the sum less the count times x |
| WeightedMeans.LeadingAtLeast | OCR/ocr_processing/utils.py:242 | the pivot index ends the run of values at least x |
| WeightedMeans.PivotSeparates | OCR/ocr_processing/utils.py:242-243 | for decreasing weights over non-increasing values the pivot weight separates the weights as x separates the values |
| WeightedMeans.WeightedAtLeastPivot | OCR/ocr_processing/utils.py:245-248 | a weighting split by the mean is at least the mean |
| WeightedMeans.WeightedAtLeastMean | OCR/ocr_processing/utils.py:241-248 | decreasing weights over non-increasing values give a weighted mean at least the plain mean |
| ExcelManager.Sheet.constructor | OCR/ocr_processing/excel_manager.py:159-160 | a new sheet is empty and reports one row and one column |
| ExcelManager.Sheet.Load | OCR/ocr_processing/excel_manager.py:41-42 | a loaded sheet holds the stored cells and dimensions |
| ExcelManager.Sheet.Put | OCR/ocr_processing/excel_manager.py:55 | writing one cell changes that position only and grows the dimensions to cover it |
| ExcelManager.Sheet.FirstEmptyRow | OCR/ocr_processing/excel_manager.py:44-47 | the first row from 2 on whose column A is empty, every row between 2 and it being filled |
| ExcelManager.Sheet.PutValues | OCR/ocr_processing/excel_manager.py:51-55 | field values fill columns 1 to n of one row, nothing else changes; `max_row` and `max_column` grow only as far as the written positions need |
| ExcelManager.Sheet.PutRowCells | OCR/ocr_processing/excel_manager.py:125-129 | one grouped table row is written in column order, within the header columns when a bound is given; `max_row` and `max_column` grow only as far as the written positions need |
| ExcelManager.Sheet.PutTableRow | OCR/ocr_processing/excel_manager.py:124-130 | one more data row is written below the earlier ones; `max_row` and `max_column` grow only as far as the written positions need |
| ExcelManager.Sheet.PutTableRows | OCR/ocr_processing/excel_manager.py:112-130 | the data rows are written from the start row on, one sheet row each, and the counter ends one past them; `max_row` and `max_column` grow only as far as the written positions need |
| ExcelManager.Sheet.PutTemplateCells | OCR/ocr_processing/excel_manager.py:62-74 | the table cells are written in cell order at their shifted positions; `max_row` and `max_column` grow only as far as the written positions need |
| ExcelManager.Sheet.FillTemplate | OCR/ocr_processing/excel_manager.py:27-82 | the document is written at the first empty row as the template function says; `max_row` and `max_column` grow only as far as the written positions need |
| ExcelManager.Sheet.AppendDocument | OCR/ocr_processing/excel_manager.py:84-145 | a missing file fails and changes nothing; otherwise the document is appended below the last used row, and `max_row` grows only as far as the written rows need, so the next append lands below it |
| ExcelManager.Sheet.PutDocument | OCR/ocr_processing/excel_manager.py:184-218 | one document of the export writes what the export function says and moves the row counter as it does; the dimensions grow only as far as needed |
| ExcelManager.GrownIsLeast | OCR/ocr_processing/excel_manager.py:105 | after writes, `max_row` and `max_column` are the smallest dimensions that cover the old ones and every occupied position |
| ExcelManager.AppendTwice | OCR/ocr_processing/excel_manager.py:101-110 | two one-field documents appended to a new sheet land on rows 2 and 3, so the second does not overwrite the first |
| ExcelManager.HeaderOnlyExport | OCR/ocr_processing/excel_manager.py:222-232 | an export with three field names and no documents has one row and three columns and sizes exactly three columns |
| ExcelManager.Sheet.ColumnWidths | OCR/ocr_processing/excel_manager.py:222-231 | the loop computes the width of every column |
| ExcelManager.FieldValues | OCR/ocr_processing/excel_manager.py:51-53 | the values of the fields, in order |
| ExcelManager.RowOfAt | OCR/ocr_processing/excel_manager.py:51-55 | a row of values occupies columns 1 to n of that row and changes nothing else |
| ExcelManager.TemplateCellsAt | OCR/ocr_processing/excel_manager.py:62-74 | a sheet position from row 3 on holds the last table cell of table row r - 2, column c - 1; table row 0 is never written, and sheet rows 1 and 2 keep their contents |
| ExcelManager.PutRowAt | OCR/ocr_processing/excel_manager.py:125-129 | a table row writes column c + 1 exactly for the grouped columns c allowed by the bound |
| ExcelManager.PutRowsStep | OCR/ocr_processing/excel_manager.py:124-130 | the data rows are written one after the other |
| ExcelManager.PutRowsAt | OCR/ocr_processing/excel_manager.py:112-130 | the k-th data row lands on the start row plus k, holding the last text at each allowed column; everything else is unchanged |
| ExcelManager.AppendPlacement | OCR/ocr_processing/excel_manager.py:101-130 | appended data rows are packed below the last used row whatever gaps lie between the row indices |
| ExcelManager.SheetTitle | OCR/ocr_processing/excel_manager.py:165 | the title has at most 31 characters: the name itself, or its first 28 characters and "..." |
| ExcelManager.DocStepAdvance | OCR/ocr_processing/excel_manager.py:182-217 | a table advances the row counter by its data rows, a document with neither key by one row, and a fields document not at all |
| ExcelManager.TableStaysInHeaderColumns | OCR/ocr_processing/excel_manager.py:192-212 | a table document writes only into its own rows and the header columns |
| ExcelManager.WidthFor | OCR/ocr_processing/excel_manager.py:230 | the width lies between 2 and 50, and is the length plus 2 up to 48 |
| ExcelManager.Longest | OCR/ocr_processing/excel_manager.py:222-229 | no filled cell of the column is longer |
| ExcelManager.Widths | OCR/ocr_processing/excel_manager.py:222-231 | one width per column, computed from its longest text |
| ExcelManager.WidthsFit | OCR/ocr_processing/excel_manager.py:222-231 | a column is between 2 and 50 wide and fits each of its texts with 2 to spare unless capped at 50 |
| ExcelManager.XlsxName | OCR/ocr_processing/excel_manager.py:235-236 | the file name ends in ".xlsx" |
| ExcelManager.XlsxNameIdempotent | OCR/ocr_processing/excel_manager.py:235-236 | the suffix is added once and never to a name that has it |
| ExcelManager.RStripSlashes | OCR/ocr_processing/excel_manager.py:237 | stripping trailing slashes keeps a prefix |
| ExcelManager.PathJoin | OCR/ocr_processing/excel_manager.py:237 | the joined path ends with the file name |
| ExcelManager.FinalPath | OCR/ocr_processing/excel_manager.py:234-240 | no user file name keeps the output path; otherwise the path ends with the file name, which ends in ".xlsx" |
| ExcelManager.TitleAccepted | OCR/ocr_processing/excel_manager.py:166 | a title openpyxl accepts is non-empty and holds none of `\ * ? : / [ ]` |
| ExcelManager.SheetTitleAccepted | OCR/ocr_processing/excel_manager.py:166 | the shortened title is refused exactly for an empty name or a forbidden character among the characters the title keeps |
| ExcelManager.RefusedTitles | OCR/ocr_processing/excel_manager.py:166 | an unnamed template and "Invoice 2024/25" are refused, "Invoice" is accepted |
| ExcelManager.CreateMultiDocumentExport | OCR/ocr_processing/excel_manager.py:147-247 | a title openpyxl refuses or no field names give None, as the raised ValueError passed on as an Exception; otherwise the workbook has the shortened title, the header row and every document's rows, the smallest dimensions covering them, one computed width per column and the final path |
| ExcelManager.HeaderRow | OCR/ocr_processing/excel_manager.py:174-180 | the field names fill row 1, columns 1 to n, in order |
| ExportData.Blanks | OCR/ocr_processing/docx_exporter.py:279 | a new table row holds n empty texts |
| ExportData.GroupByRow | OCR/ocr_processing/excel_manager.py:114-122 | the grouping loop builds the row dictionary |
| ExportData.GroupedIsLast | OCR/ocr_processing/excel_manager.py:114-122 | the dictionary holds at (r, c) the text of the last cell there, and has row r exactly when some cell does |
| ExportData.LastAtIsLast | OCR/ocr_processing/excel_manager.py:114-122 | a position's text is found exactly when some cell is there, and it is the text of the last such cell |
| ExportData.RowsOf | OCR/ocr_processing/excel_manager.py:115-116 | the row index of every cell, in cell order |
| ExportData.Positives | OCR/ocr_processing/excel_manager.py:126 | the positive entries of an ascending list, still ascending |
| ExportData.DataRows | OCR/ocr_processing/excel_manager.py:125-126 | the data rows are ascending and are exactly the positive row indices of the cells |
| ExportData.DataRowsAreKeys | OCR/ocr_processing/excel_manager.py:125-126 | the data rows are exactly the positive keys of the row dictionary |
| ExportData.ColsIn | OCR/ocr_processing/excel_manager.py:127 | the columns are exactly those of the cells in that row |
| ExportData.RowCols | OCR/ocr_processing/excel_manager.py:127 | the sorted columns of a row are ascending and are exactly the columns of its cells |
| ExportData.RowColsAreKeys | OCR/ocr_processing/excel_manager.py:127 | the sorted columns are exactly the keys of the row's dictionary |
| PdfFiller.BodyStart | OCR/ocr_processing/pdf_filler.py:84-99 | the text starts 60 points below the top margin without metadata, and 70 plus 15 per metadata line below it with metadata |
| PdfFiller.Piece | OCR/ocr_processing/pdf_filler.py:108-111 | the line being built is empty exactly when it holds no words |
| PdfFiller.PieceSnoc | OCR/ocr_processing/pdf_filler.py:111 | each word is added with one trailing space |
| PdfFiller.WrapStep | OCR/ocr_processing/pdf_filler.py:110-124 | the wrap of one more word is one wrapping step on the wrap before it |
| PdfFiller.TextRendersStep | OCR/ocr_processing/pdf_filler.py:104-136 | the text's drawn lines are each source line's drawn lines, in order |
| PdfFiller.WrapWordKeeps | OCR/ocr_processing/pdf_filler.py:110-124 | one wrapping step loses no word and reorders none |
| PdfFiller.WrapKeepsWords | OCR/ocr_processing/pdf_filler.py:106-124 | the drawn chunks followed by the pending words are exactly the line's words |
| PdfFiller.BlankPieceWords | OCR/ocr_processing/pdf_filler.py:133 | a pending line that strips to nothing holds only blank words |
| PdfFiller.LineKeepsWords | OCR/ocr_processing/pdf_filler.py:106-135 | the drawn words of a line are a prefix of its words, and only blank words are left undrawn |
| PdfFiller.WrapWordFits | OCR/ocr_processing/pdf_filler.py:110-124 | one wrapping step keeps every drawn chunk narrower than the page unless it is a single word |
| PdfFiller.WrapFits | OCR/ocr_processing/pdf_filler.py:106-124 | every chunk the wrap draws fits the width or is one overlong word, and the pending line fits |
| PdfFiller.LineFits | OCR/ocr_processing/pdf_filler.py:106-135 | every line drawn for a source line fits the width or is one overlong word |
| PdfFiller.PlacedAt | OCR/ocr_processing/pdf_filler.py:113-142 | every drawing sits at the current position, and every drawing after the first stays at or above the bottom limit |
| PdfFiller.Emit | OCR/ocr_processing/pdf_filler.py:115-142 | a drawing moves the position down 14 points, a page break moves it back to the top |
| PdfFiller.TrackAppend | OCR/ocr_processing/pdf_filler.py:104-142 | positions and drawn lines compose over consecutive runs |
| PdfFiller.PlacedAppend | OCR/ocr_processing/pdf_filler.py:104-142 | two well-placed runs in a row form a well-placed run |
| PdfFiller.DrawLine | OCR/ocr_processing/pdf_filler.py:117-118 | a line is drawn at the current position, which moves down 14 points |
| PdfFiller.BreakIfLow | OCR/ocr_processing/pdf_filler.py:126-129 | below the limit a new page starts at the top; otherwise nothing changes |
| PdfFiller.WrapWordStep | OCR/ocr_processing/pdf_filler.py:110-129 | the loop body performs one wrapping step and keeps the position at or above the limit |
| PdfFiller.WrapLine | OCR/ocr_processing/pdf_filler.py:106-142 | one source line is drawn as its wrapped chunks, each at its place, ending at or above the limit |
| PdfFiller.DrawText | OCR/ocr_processing/pdf_filler.py:57-154 | the text body draws every source line's wrapped chunks in order from the body start, never below the limit after the first line |
| PdfFiller.FieldsTable | OCR/ocr_processing/pdf_filler.py:252-259 | a header row, then one name and value row per field |
| PdfFiller.FillGrid | OCR/ocr_processing/pdf_filler.py:203-214 | the rows-by-cols grid holds at each position the text of the last cell there, and "" elsewhere |
| PdfFiller.GridRows | OCR/ocr_processing/pdf_filler.py:206-214 | the grid read out row by row |
| PdfFiller.TemplateTable | OCR/ocr_processing/pdf_filler.py:196-259 | with cells: a table exactly when there are cells and positive rows and cols, holding the last text per position; else with fields the two-column table; with neither no table |
| PdfFiller.CellRow | OCR/ocr_processing/pdf_filler.py:397-405 | a table row holds the name and one value per field name |
| PdfFiller.CellRows | OCR/ocr_processing/pdf_filler.py:395-405 | one row per data row |
| PdfFiller.CellRowAt | OCR/ocr_processing/pdf_filler.py:397-405 | a row starts with the name cut to 30 characters, and column c holds the cell text cut to 50 characters or "" |
| PdfFiller.CellRowsAt | OCR/ocr_processing/pdf_filler.py:395-405 | the k-th row belongs to the k-th data row |
| PdfFiller.FieldCells | OCR/ocr_processing/pdf_filler.py:377-380 | the field values, each cut to 50 characters |
| PdfFiller.CellDocRowCount | OCR/ocr_processing/pdf_filler.py:381-408 | a table document gives one row per data row, and none when it has no cell below row 0 |
| PdfFiller.CellDocRowAt | OCR/ocr_processing/pdf_filler.py:381-408 | each of those rows has a name and one value per field name, the last text at that row and column cut to 50 characters |
| PdfFiller.TableDocRows | OCR/ocr_processing/pdf_filler.py:381-408 | the grouping loop and the row loop build those rows |
| PdfFiller.DocumentRows | OCR/ocr_processing/pdf_filler.py:372-412 | the rows one document adds |
| PdfFiller.AllDocRowsStep | OCR/ocr_processing/pdf_filler.py:372-412 | the documents' rows follow one another in document order |
| PdfFiller.ConsolidatedTable | OCR/ocr_processing/pdf_filler.py:366-412 | no field names give no table; otherwise the header row and every document's rows |
| PdfFiller.OtherDocRows | OCR/ocr_processing/pdf_filler.py:373-412 | a fields document or one with neither key gives exactly one row, the latter padded with empty texts |
| DocxExporter.StripAll | OCR/ocr_processing/docx_exporter.py:69-70 | every part stripped, in order |
| DocxExporter.ParagraphTexts | OCR/ocr_processing/docx_exporter.py:66-70 | the loop keeps the stripped parts that are not blank, in order |
| DocxExporter.ParagraphParts | OCR/ocr_processing/docx_exporter.py:66 | the parts joined with the separator give back the text, and no part holds the separator |
| DocxExporter.NonEmptyFrom | OCR/ocr_processing/docx_exporter.py:69-70 | the kept texts are no more than the parts, each non-empty and one of them |
| DocxExporter.NonEmptyHas | OCR/ocr_processing/docx_exporter.py:69-70 | every non-empty text is kept |
| DocxExporter.NonEmptyNone | OCR/ocr_processing/docx_exporter.py:69-70 | nothing is kept exactly when every text is empty |
| DocxExporter.KeptShape | OCR/ocr_processing/docx_exporter.py:66-70 | there are at most as many paragraphs as parts; each is non-empty, neither starts nor ends with white space, and is the stripped form of some part |
| DocxExporter.KeptNonBlank | OCR/ocr_processing/docx_exporter.py:66-70 | every part that is not blank gives a paragraph, and there is no paragraph exactly when every part is blank |
| DocxExporter.FieldCount | OCR/ocr_processing/docx_exporter.py:126 | the number of fields when there are some, otherwise the number of cells; 0 exactly when both are absent or empty |
| DocxExporter.FieldsTable | OCR/ocr_processing/docx_exporter.py:140-162 | a header row of three titles, then one name, value and confidence row per field, "N/A" for a zero confidence |
| DocxExporter.HeaderTextFrom | OCR/ocr_processing/docx_exporter.py:190 | a column without a header is named "Column" and its position from one; a column with one takes it |
| DocxExporter.HeaderRow | OCR/ocr_processing/docx_exporter.py:188-193 | one header text per column, in order |
| DocxExporter.DataRow | OCR/ocr_processing/docx_exporter.py:201-204 | one text per column, "" where the row has no cell |
| DocxExporter.CellsTable | OCR/ocr_processing/docx_exporter.py:171-204 | the header row, then one row per data row in ascending order, each holding the last text at every column below cols |
| DocxExporter.TemplateTable | OCR/ocr_processing/docx_exporter.py:133-204 | fields take precedence: a fields table exactly when fields are non-empty, with the title row and one name, value and confidence row per field; else a cells table exactly when cells are non-empty and cols positive, with the header texts and the last text per column of every data row; else none |
| DocxExporter.FirstRowMapIsLast | OCR/ocr_processing/docx_exporter.py:294-299 | the row-1 dictionary holds a column exactly when a cell of row 1 is in it, with the last such text |
| DocxExporter.FirstRow | OCR/ocr_processing/docx_exporter.py:294-299 | the loop builds the row-1 dictionary |
| DocxExporter.DocValueIsFirstDataRow | OCR/ocr_processing/docx_exporter.py:291-303 | a table document's consolidated row is the first data row of its own grouped cells |
| DocxExporter.FillFromFields | OCR/ocr_processing/docx_exporter.py:285-289 | the columns after the label take the field values in order, fields without a column being dropped |
| DocxExporter.FillFromCells | OCR/ocr_processing/docx_exporter.py:291-303 | the columns after the label take the row-1 texts of the matching columns, "" elsewhere |
| DocxExporter.DocumentRow | OCR/ocr_processing/docx_exporter.py:279-303 | a document's row is its "Doc i" label followed by one value per field name |
| DocxExporter.MultiDocumentTable | OCR/ocr_processing/docx_exporter.py:258-303 | no field names give no table; otherwise the "Document" header row and one labelled row per document, in order |
| Serializers.ValidateFile | OCR/api/serializers.py:183-196 | a file is accepted as it came exactly when it is at most 10 MiB and its lower-cased extension is one of the six allowed; the size error comes first, then the type error naming the extension |
| Serializers.AcceptedPassesUploadChecks | OCR/api/serializers.py:183-196 | a file this check accepts also passes the size and format checks of the upload helper |
| Serializers.GifRejectedHere | OCR/api/serializers.py:190-194 | a GIF is rejected here though the upload helper supports it |
| Serializers.ExtractedFields | OCR/api/serializers.py:87-98 | falsy data and undecodable text give None; otherwise the data, decoded when it is text, gives its "fields" entry when it is a dictionary holding one, and is returned as is otherwise |
| Serializers.DecodedFalsyStillReturned | OCR/api/serializers.py:91-95 | text that decodes to a falsy value or a string is returned decoded, although the same value stored decoded gives None |
| Serializers.TextAndDecodedAgree | OCR/api/serializers.py:91-95 | data stored as JSON text reads the same as the same data stored decoded |
| Serializers.FieldsEntryWins | OCR/api/serializers.py:93-95 | a dictionary whose "fields" entry comes first gives that entry; a non-empty one without it gives itself |

## Left out

- Pixel work: thresholding, morphology, contour search, Canny and Hough, CLAHE, denoising, sharpening, warping, the Laplacian and noise estimates. These are OpenCV and numpy calls, and their results are inputs.
- Floating-point detail: uint8 saturation, numpy rounding, the rotated canvas size of `auto_rotate`, and `format_processing_time`. Scores and thresholds use exact reals.
- The `"%.1f"` formatting of confidences in the Word export is a parameter (`percent`).
- Fonts, colours, table styles, column widths in inches, and saving files in openpyxl, reportlab and python-docx.
- The PDF title, metadata lines and footer are not drawn in the model. Only the vertical space the metadata takes is kept (`BodyStart`). `stringWidth` is a parameter.
- The summary table and the per-document detail tables of the consolidated PDF are left out. They are a fixed layout of the template name, date and counts, drawn after the data table.
- The title and metadata table of the Word exports (template name, dates) are left out. So are the summary paragraph and the footer.
- Excel reads of an empty position with `ws.cell(row, column)` create the cell in openpyxl, which can change `max_row`. The model treats reads as having no effect.
- Row and column indices in exported cell dictionaries are natural numbers. A negative index from hand-edited JSON would hit Python's negative indexing in the PDF grid and is not modelled.
- Timestamps, UUIDs, MIME detection, file existence and `json.loads` are parameters (`id`, `mime`, `fileExists`, `parse`).
- The text of a PDF read through `_process_pdf` is an input of `OcrCore.ExtractText`. PDF page conversion, temporary files, directory creation and `cleanup_temporary_files` are I/O.
- EasyOCR model loading and its locale handling are replaced by whether the reader loaded.
- `get_template_excel_path`, `get_file_info` and the Django views, models, URL configurations and admin are web and persistence plumbing. They are not part of this model.
- Logging.
- Utils.SanitizeFilename, Utils.GenerateUniqueFilename, Utils.GetFileUploadPath, ExcelManager.PathJoin: `os.path.basename`, `splitext`, `dirname` and `join` follow POSIX rules. On Windows `\` also separates path parts, so a name such as `C:\x\a.png` is split differently there, and that is not modelled.
- Strs.LowerChar, Strs.UpperChar, Strs.Lower, Strs.Title, Strs.IsUpper: case mapping covers ASCII letters only, so `'É'.lower()` or `'ÉCOLE'.isupper()` are not modelled. OcrCore.ExtractText (the ".pdf" test), OcrCore.Candidates, OcrCore.ExtractFieldValue, OcrCore.ValidateImageFormat, Utils.ValidateUploadedFile, Utils.UploadFolder, Utils.StatusDisplay and Serializers.ValidateFile inherit this.
- ExcelManager.CreateMultiDocumentExport: openpyxl renames a title equal to "Sheet" up to case (such as "sheet") with a numeric suffix. The model keeps the shortened title as it is.
- TableDetector.ExtractCellText: the cell is read through the corrected crop (see Findings). A thin cell at the top or left edge therefore gives `("", 0.0)`, where the code as written reads the wrapped-around window.

## Findings

| source | as written | input that shows it | evidently intended | confidence | as-written member | corrected member |
|---|---|---|---|---|---|---|
| OCR/ocr_processing/table_detector.py:240-250 | the crop is `image[y1:y2, x1:x2]` with `y2 = min(H, y + h - 5)`, which goes negative for a thin cell at the top edge, and numpy then counts it from the end | a cell at x = 0, y = 0, 50 wide and 3 high in a 100 by 100 image: the padded box is empty, but the slice `5:98` selects rows 5 to 97, and `5:45` selects columns 5 to 44 | an empty padded box gives `("", 0.0)` without calling OCR | not executed | TableDetector.CropWrapsAround | TableDetector.CropInsideCell |
