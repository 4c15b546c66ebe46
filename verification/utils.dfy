/**
 * The file-handling helpers of the OCR service: upload validation, unique file names and
 * upload folders, file-name sanitising, the overall confidence of a processing run and the
 * display text of a processing status.
 */
module Utils {
  import opened Strs
  import opened Sorting
  import opened Numbers
  import opened Options
  import opened WeightedMeans

  // ---------------------------------------------------------------- upload validation

  const SupportedImageFormats: seq<string> := [".png", ".jpg", ".jpeg", ".tiff", ".bmp", ".gif"]
  const SupportedPdfFormats: seq<string> := [".pdf"]
  const SupportedFormats: seq<string> := SupportedImageFormats + SupportedPdfFormats

  /** 50 MiB */
  const MaxFileSize: nat := 50 * 1024 * 1024

  const AllowedMimeTypes: seq<string> :=
    ["image/png", "image/jpeg", "image/tiff", "image/bmp", "image/gif", "application/pdf"]

  /** The outcome of `validate_uploaded_file`: `(True, "")`, or the first check that failed
      with what it saw. */
  datatype UploadCheck = Accepted | TooLarge(size: nat) | UnsupportedFormat(ext: string) | InvalidMime(mime: Option<string>)

  /** `validate_uploaded_file` on the file's size and name; `mime` is what
      `mimetypes.guess_type` reports for the name. */
  function ValidateUploadedFile(size: nat, name: string, mime: Option<string>): (r: UploadCheck)
    ensures r.Accepted? <==>
              size <= MaxFileSize && Lower(Ext(name)) in SupportedFormats &&
              mime.Some? && mime.value in AllowedMimeTypes
    ensures r.TooLarge? <==> size > MaxFileSize
    ensures r.UnsupportedFormat? <==> size <= MaxFileSize && Lower(Ext(name)) !in SupportedFormats
    ensures r.UnsupportedFormat? ==> r.ext == Lower(Ext(name))
    ensures r.InvalidMime? ==> r.mime == mime
  {
    var ext := Lower(Ext(name));
    if size > MaxFileSize then TooLarge(size)
    else if ext !in SupportedFormats then UnsupportedFormat(ext)
    else if mime.None? || mime.value !in AllowedMimeTypes then InvalidMime(mime)
    else Accepted
  }

  // ---------------------------------------------------------------- unique names and paths

  predicate IsHexDigit(c: char) { '0' <= c <= '9' || 'a' <= c <= 'f' }

  /** `str(uuid.uuid4())[:8]`: eight lower-case hexadecimal digits. */
  type ShortId = s: string | |s| == 8 && forall i :: 0 <= i < |s| ==> IsHexDigit(s[i])
    witness "00000000"

  /** What `generate_unique_filename` puts before the original name. */
  function UniquePrefix(prefix: string, id: ShortId): (head: string)
    ensures |head| > 0 && head[|head| - 1] == '_'
  {
    if prefix != "" then prefix + "_" + id + "_" else id + "_"
  }

  /** `generate_unique_filename(original_filename, prefix)` with the random id as a parameter. */
  function GenerateUniqueFilename(original: string, prefix: string, id: ShortId): (r: string)
    ensures r == UniquePrefix(prefix, id) + original
  {
    var (name, ext) := Splitext(original);
    UniquePrefix(prefix, id) + name + ext
  }

  /** A name with an extension keeps that extension in its unique version, and the name part
      only gains the prefix. */
  lemma {:induction false} UniqueFilenameKeepsExtension(original: string, prefix: string, id: ShortId)
    requires Ext(original) != ""
    ensures Splitext(GenerateUniqueFilename(original, prefix, id)) ==
              (UniquePrefix(prefix, id) + Splitext(original).0, Ext(original))
  {
    PrefixKeepsExtension(UniquePrefix(prefix, id), original);
  }

  lemma {:induction false} PrefixKeepsExtension(head: string, p: string)
    requires |head| > 0 && head[|head| - 1] == '_' && Ext(p) != ""
    ensures Splitext(head + p) == (head + Splitext(p).0, Ext(p))
  {
    var q := head + p;
    var d := LastIndexOf(p, '.');
    SplitextCut(p);
    PrefixComponent(head, p);
    SplitextAt(q, |head| + d);
    ConcatCut(head, p, d);
  }

  /** After the prefix, the last dot moves by the prefix's length and the last path component
      still has something other than dots before it. */
  lemma {:induction false} PrefixComponent(head: string, p: string)
    requires |head| > 0 && head[|head| - 1] == '_' && Ext(p) != ""
    ensures LastIndexOf(head + p, '.') == |head| + LastIndexOf(p, '.')
    ensures LastIndexOf(head + p, '/') < LastIndexOf(head + p, '.')
    ensures !AllDots((head + p)[LastIndexOf(head + p, '/') + 1..LastIndexOf(head + p, '.')])
  {
    SplitextCut(p);
    LastIndexInTail(head, p, '.');
    if LastIndexOf(p, '/') >= 0 {
      LastIndexInTail(head, p, '/');
      ComponentInTail(head, p);
    } else {
      ComponentFromHead(head, p);
    }
  }

  /** When the name has no directory part, the last component reaches into the prefix, whose
      last character is not a dot. */
  lemma {:induction false} ComponentFromHead(head: string, p: string)
    requires |head| > 0 && head[|head| - 1] == '_' && LastIndexOf(p, '/') < 0
    requires LastIndexOf(head + p, '.') == |head| + LastIndexOf(p, '.') && LastIndexOf(p, '.') >= 0
    ensures LastIndexOf(head + p, '/') < LastIndexOf(head + p, '.')
    ensures !AllDots((head + p)[LastIndexOf(head + p, '/') + 1..LastIndexOf(head + p, '.')])
  {
    LastIndexOutOfTail(head, p, '/');
    LastIndexBeforeEnd(head, '/');
    var q := head + p;
    var lo, hi := LastIndexOf(q, '/') + 1, LastIndexOf(q, '.');
    assert q[|head| - 1] == '_';
    SegmentNotDots(q, lo, hi, |head| - 1);
    assert !AllDots(q[lo..hi]);
  }

  lemma {:induction false} LastIndexOutOfTail(a: string, b: string, c: char)
    requires LastIndexOf(b, c) < 0
    ensures LastIndexOf(a + b, c) == LastIndexOf(a, c)
  {
    LastIndexOfConcat(a, b, c);
  }

  lemma {:induction false} LastIndexInTail(a: string, b: string, c: char)
    requires LastIndexOf(b, c) >= 0
    ensures LastIndexOf(a + b, c) == |a| + LastIndexOf(b, c)
  {
    LastIndexOfConcat(a, b, c);
  }

  /** When the name has a directory part, its last component is untouched by the prefix. */
  lemma {:induction false} ComponentInTail(head: string, p: string)
    requires 0 <= LastIndexOf(p, '/') < LastIndexOf(p, '.')
    requires !AllDots(p[LastIndexOf(p, '/') + 1..LastIndexOf(p, '.')])
    requires LastIndexOf(head + p, '/') == |head| + LastIndexOf(p, '/')
    requires LastIndexOf(head + p, '.') == |head| + LastIndexOf(p, '.')
    ensures !AllDots((head + p)[LastIndexOf(head + p, '/') + 1..LastIndexOf(head + p, '.')])
  {
    var s, d := LastIndexOf(p, '/'), LastIndexOf(p, '.');
    var k :| 0 <= k < d - (s + 1) && p[s + 1..d][k] != '.';
    var q := head + p;
    var lo, hi := LastIndexOf(q, '/') + 1, LastIndexOf(q, '.');
    assert q[|head| + s + 1 + k] == p[s + 1..d][k];
    SegmentNotDots(q, lo, hi, |head| + s + 1 + k);
    assert !AllDots(q[lo..hi]);
  }

  lemma {:induction false} LastIndexBeforeEnd(s: string, c: char)
    requires |s| > 0 && s[|s| - 1] != c
    ensures LastIndexOf(s, c) < |s| - 1
  {
  }

  lemma {:induction false} SegmentNotDots(q: string, lo: int, hi: int, k: int)
    requires 0 <= lo <= k < hi <= |q| && q[k] != '.'
    ensures !AllDots(q[lo..hi])
  {
    assert q[lo..hi][k - lo] == q[k];
  }

  /** Where the last occurrence of `c` in a concatenation lies. */
  lemma {:induction false} LastIndexOfConcat(a: string, b: string, c: char)
    ensures LastIndexOf(a + b, c) ==
              if LastIndexOf(b, c) >= 0 then |a| + LastIndexOf(b, c) else LastIndexOf(a, c)
  {
    var ab := a + b;
    var k := if LastIndexOf(b, c) >= 0 then |a| + LastIndexOf(b, c) else LastIndexOf(a, c);
    forall j | k < j < |ab| ensures ab[j] != c {
      if j >= |a| {
        assert ab[j] == b[j - |a|];
      }
    }
    LastIndexOfIs(ab, c, k);
  }

  datatype Subfolder = Pdfs | Images | Others

  function FolderName(f: Subfolder): string {
    match f
    case Pdfs => "pdfs"
    case Images => "images"
    case Others => "others"
  }

  /** The subfolder `get_file_upload_path` chooses by the lower-cased extension. */
  function UploadFolder(filename: string): (f: Subfolder)
    ensures f == Pdfs <==> Lower(Ext(filename)) == ".pdf"
    ensures f == Images <==> Lower(Ext(filename)) in SupportedImageFormats
    ensures f == Others <==> Lower(Ext(filename)) !in SupportedFormats
  {
    var ext := Lower(Ext(filename));
    if ext in SupportedPdfFormats then Pdfs
    else if ext in SupportedImageFormats then Images
    else Others
  }

  /** `get_file_upload_path`: `uploads/<subfolder>/<unique name>`. The unique name starts with
      a hexadecimal digit, so `os.path.join` only inserts separators. */
  function GetFileUploadPath(filename: string, id: ShortId): (path: string)
    ensures path == "uploads/" + FolderName(UploadFolder(filename)) + "/" + id + "_" + filename
  {
    "uploads/" + FolderName(UploadFolder(filename)) + "/" + GenerateUniqueFilename(filename, "", id)
  }

  /** A file that passes upload validation is stored under `pdfs` or `images`, never `others`. */
  lemma {:induction false} AcceptedUploadFolder(size: nat, name: string, mime: Option<string>)
    requires ValidateUploadedFile(size, name, mime).Accepted?
    ensures UploadFolder(name) != Others
  {
  }

  // ---------------------------------------------------------------- sanitize_filename

  const ProblematicChars: seq<char> := ['<', '>', ':', '"', '|', '?', '*', '\\', '/']

  /** The text after replacing, one after the other, every character of `chars` by '_'. */
  function ReplaceAll(s: string, chars: seq<char>): (r: string)
    ensures |r| == |s|
  {
    if chars == [] then s
    else ReplaceChar(ReplaceAll(s, chars[..|chars| - 1]), chars[|chars| - 1], '_')
  }

  /** Replacing the characters one after the other replaces each listed character by '_' and
      keeps every other character. */
  lemma {:induction false} ReplaceAllChars(s: string, chars: seq<char>)
    requires '_' !in chars
    ensures forall i :: 0 <= i < |s| ==>
              ReplaceAll(s, chars)[i] == if s[i] in chars then '_' else s[i]
    decreases |chars|
  {
    if chars != [] {
      var init := chars[..|chars| - 1];
      ReplaceAllChars(s, init);
      forall i | 0 <= i < |s|
        ensures ReplaceAll(s, chars)[i] == if s[i] in chars then '_' else s[i]
      {
        assert s[i] in chars <==> s[i] in init || s[i] == chars[|chars| - 1];
      }
    }
  }

  /** `sanitize_filename`: the base name, each problematic character replaced by '_', with the
      name part before the extension cut to 100 characters. */
  function Sanitized(filename: string): string {
    var (name, ext) := Splitext(ReplaceAll(Basename(filename), ProblematicChars));
    Truncate(name, 100) + ext
  }

  method SanitizeFilename(filename: string) returns (r: string)
    ensures r == Sanitized(filename)
  {
    var name := Basename(filename);
    var base := name;
    var i := 0;
    while i < |ProblematicChars|
      invariant 0 <= i <= |ProblematicChars|
      invariant name == ReplaceAll(base, ProblematicChars[..i])
    {
      assert ProblematicChars[..i + 1][..i] == ProblematicChars[..i];
      name := ReplaceChar(name, ProblematicChars[i], '_');
      i := i + 1;
    }
    assert ProblematicChars[..i] == ProblematicChars;
    var (stem, ext) := Splitext(name);
    if |stem| > 100 {
      stem := stem[..100];
    }
    r := stem + ext;
  }

  /** The base name with its problematic characters replaced. */
  function Cleaned(filename: string): string {
    ReplaceAll(Basename(filename), ProblematicChars)
  }

  /** The character-wise effect of sanitising on the base name. */
  lemma {:induction false} CleanedChars(filename: string)
    ensures |Cleaned(filename)| == |Basename(filename)|
    ensures forall i :: 0 <= i < |Basename(filename)| ==>
              Cleaned(filename)[i] ==
                if Basename(filename)[i] in ProblematicChars then '_' else Basename(filename)[i]
    ensures forall c :: c in ProblematicChars ==> c !in Cleaned(filename)
  {
    var b := Basename(filename);
    ReplaceAllChars(b, ProblematicChars);
    forall c | c in ProblematicChars ensures c !in Cleaned(filename) {
      assert forall i :: 0 <= i < |b| ==> Cleaned(filename)[i] != c;
    }
  }

  /** The sanitised name holds none of the problematic characters (in particular no '/', so no
      directory part survives) and is never longer than the base name. */
  lemma {:induction false} SanitizedIsSafe(filename: string)
    ensures forall c :: c in ProblematicChars ==> c !in Sanitized(filename)
    ensures |Sanitized(filename)| <= |Basename(filename)|
  {
    var t := Cleaned(filename);
    CleanedChars(filename);
    var (name, ext) := Splitext(t);
    TruncatedCharsFrom(name, ext, 100);
  }

  /** Cutting the part before a suffix only drops characters. */
  lemma {:induction false} TruncatedCharsFrom(name: string, ext: string, n: nat)
    ensures forall x :: x in Truncate(name, n) + ext ==> x in name + ext
    ensures |Truncate(name, n) + ext| <= |name + ext|
  {
    var k := |Truncate(name, n)|;
    assert name + ext == name[..k] + (name[k..] + ext);
  }

  /** Two texts with their dots and slashes at the same places split at the same place. */
  lemma {:induction false} SplitextAligned(b: string, t: string)
    requires |t| == |b|
    requires forall i :: 0 <= i < |b| ==> (t[i] == '.' <==> b[i] == '.') && (t[i] == '/' <==> b[i] == '/')
    ensures |Splitext(t).0| == |Splitext(b).0|
  {
    var s, d := LastIndexOf(b, '/'), LastIndexOf(b, '.');
    LastIndexOfIs(t, '/', s);
    LastIndexOfIs(t, '.', d);
    if d > s {
      var bs, ts := b[s + 1..d], t[s + 1..d];
      assert forall i :: 0 <= i < |bs| ==> (ts[i] == '.' <==> bs[i] == '.') by {
        forall i | 0 <= i < |bs| ensures ts[i] == '.' <==> bs[i] == '.' {
          assert bs[i] == b[s + 1 + i] && ts[i] == t[s + 1 + i];
        }
      }
      assert AllDots(ts) <==> AllDots(bs);
    }
  }

  /** The cleaned base name splits where the base name does, and its extension is the base
      name's extension with its problematic characters replaced. */
  lemma {:induction false} CleanedSplit(filename: string)
    ensures |Splitext(Cleaned(filename)).0| == |Splitext(Basename(filename)).0|
    ensures Ext(Cleaned(filename)) == ReplaceAll(Ext(Basename(filename)), ProblematicChars)
  {
    var b := Basename(filename);
    var t := Cleaned(filename);
    CleanedChars(filename);
    SplitextAligned(b, t);
    var n := |Splitext(b).0|;
    assert Ext(b) == b[n..] && Ext(t) == t[n..];
    SuffixReplaced(b, t, n);
  }

  /** Replacing character by character commutes with taking a suffix. */
  lemma {:induction false} SuffixReplaced(b: string, t: string, n: nat)
    requires |t| == |b| && n <= |b|
    requires forall i :: 0 <= i < |b| ==> t[i] == if b[i] in ProblematicChars then '_' else b[i]
    ensures t[n..] == ReplaceAll(b[n..], ProblematicChars)
  {
    var ext := b[n..];
    ReplaceAllChars(ext, ProblematicChars);
    forall i | 0 <= i < |ext| ensures t[n..][i] == ReplaceAll(ext, ProblematicChars)[i] {
      assert t[n..][i] == t[n + i] && ext[i] == b[n + i];
    }
  }

  /** Sanitising keeps the extension (with its problematic characters replaced), keeps at most
      100 characters before it, and changes nothing else when the name part is short. */
  lemma {:induction false} SanitizedKeepsExtension(filename: string)
    ensures EndsWith(Sanitized(filename), ReplaceAll(Ext(Basename(filename)), ProblematicChars))
    ensures |Sanitized(filename)| <= 100 + |Ext(Basename(filename))|
    ensures |Splitext(Basename(filename)).0| <= 100 ==> Sanitized(filename) == Cleaned(filename)
  {
    CleanedSplit(filename);
    var t := Cleaned(filename);
    var (name, ext) := Splitext(t);
    assert t == name + ext;
    assert Sanitized(filename) == Truncate(name, 100) + ext;
  }

  // ---------------------------------------------------------------- processing confidence

  /** The weight `1.0 / (i + 1)` of the `i`-th confidence in descending order. */
  function Weight(i: nat): (w: real)
    ensures 0.0 < w <= 1.0
  {
    1.0 / (i + 1) as real
  }

  function RealGe(a: real, b: real): bool { a >= b }

  /** `calculate_processing_confidence`: 0.0 for no confidences, otherwise the mean of the
      confidences sorted high to low, weighted 1, 1/2, 1/3, ... */
  function ProcessingConfidence(confidences: seq<real>): real {
    if confidences == [] then 0.0
    else
      var sorted := SortBy(confidences, RealGe);
      var total := WeightTotal(|sorted|, Weight);
      if total > 0.0 then WeightedSum(sorted, Weight) / total else 0.0
  }

  lemma {:induction false} RecipDecreasing(a: real, b: real)
    requires 0.0 < a <= b
    ensures 1.0 / b <= 1.0 / a
  {
    assert (1.0 / b) * a <= (1.0 / b) * b;
  }

  /** The harmonic weights are positive and decreasing. */
  lemma {:induction false} HarmonicWeights()
    ensures PositiveWeights(Weight) && DecreasingWeights(Weight)
  {
    forall i: nat, j: nat | i <= j ensures Weight(j) <= Weight(i) {
      RecipDecreasing((i + 1) as real, (j + 1) as real);
    }
  }

  /** Sorting moves values without changing them. */
  lemma {:induction false} SortedWithin(confidences: seq<real>, le: (real, real) -> bool, lo: real, hi: real)
    requires forall i :: 0 <= i < |confidences| ==> lo <= confidences[i] <= hi
    ensures forall i :: 0 <= i < |SortBy(confidences, le)| ==> lo <= SortBy(confidences, le)[i] <= hi
  {
    var sorted := SortBy(confidences, le);
    forall i | 0 <= i < |sorted| ensures lo <= sorted[i] <= hi {
      assert sorted[i] in multiset(confidences);
    }
  }

  /** The overall confidence lies between the lowest and the highest confidence. */
  lemma {:induction false} ProcessingConfidenceWithin(confidences: seq<real>, lo: real, hi: real)
    requires confidences != []
    requires forall i :: 0 <= i < |confidences| ==> lo <= confidences[i] <= hi
    ensures lo <= ProcessingConfidence(confidences) <= hi
  {
    SortedWithin(confidences, RealGe, lo, hi);
    HarmonicWeights();
    WeightedMeanWithin(SortBy(confidences, RealGe), Weight, lo, hi);
  }

  /** Sorting high to low gives a non-increasing list with the same mean. */
  lemma {:induction false} SortedDescending(confidences: seq<real>)
    ensures NonIncreasing(SortBy(confidences, RealGe))
    ensures Mean(SortBy(confidences, RealGe)) == Mean(confidences)
  {
    SortBySorted(confidences, RealGe);
    SortBySum(confidences, RealGe);
  }

  /** Larger confidences get larger weights, so the overall confidence is never below the
      plain mean of the confidences; no confidences give 0. */
  lemma {:induction false} ProcessingConfidenceAtLeastMean(confidences: seq<real>)
    ensures ProcessingConfidence(confidences) >= Mean(confidences)
    ensures confidences == [] ==> ProcessingConfidence(confidences) == 0.0
  {
    if confidences != [] {
      SortedDescending(confidences);
      HarmonicWeights();
      WeightedAtLeastMean(SortBy(confidences, RealGe), Weight);
    }
  }

  // ---------------------------------------------------------------- status display

  /** `get_processing_status_display` */
  function StatusDisplay(status: string): (r: string)
    ensures status == "pending" ==> r == "Pending Processing"
    ensures status == "processing" ==> r == "Processing..."
    ensures status == "completed" ==> r == "Completed Successfully"
    ensures status == "failed" ==> r == "Processing Failed"
    ensures status == "error" ==> r == "Error Occurred"
    ensures status !in KnownStatuses ==> r == Title(status)
  {
    if status == "pending" then "Pending Processing"
    else if status == "processing" then "Processing..."
    else if status == "completed" then "Completed Successfully"
    else if status == "failed" then "Processing Failed"
    else if status == "error" then "Error Occurred"
    else Title(status)
  }

  const KnownStatuses: seq<string> := ["pending", "processing", "completed", "failed", "error"]

  lemma {:induction false} CaseMapKeepsCased(c: char)
    ensures IsCased(LowerChar(c)) == IsCased(c) && IsCased(UpperChar(c)) == IsCased(c)
    ensures LowerChar(LowerChar(c)) == LowerChar(c) && UpperChar(UpperChar(c)) == UpperChar(c)
  {
  }

  /** Title-casing is idempotent, so an unknown status already in title case is shown as it is. */
  lemma {:induction false} TitleFromIdempotent(s: string, prevCased: bool)
    ensures TitleFrom(TitleFrom(s, prevCased), prevCased) == TitleFrom(s, prevCased)
    decreases |s|
  {
    if s != [] {
      var t := TitleFrom(s, prevCased);
      CaseMapKeepsCased(s[0]);
      TitleFromIdempotent(s[1..], IsCased(s[0]));
      assert t[1..] == TitleFrom(s[1..], IsCased(s[0]));
      assert IsCased(t[0]) == IsCased(s[0]);
    }
  }

  lemma {:induction false} UnknownStatusDisplayStable(status: string)
    requires status !in KnownStatuses
    ensures |StatusDisplay(status)| == |status|
    ensures Title(StatusDisplay(status)) == StatusDisplay(status)
  {
    TitleFromIdempotent(status, false);
  }
}
