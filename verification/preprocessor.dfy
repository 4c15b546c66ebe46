/**
 * The decisions of `smart_preprocessor.py`: the 0-100 image quality score, the skew angle taken
 * from Hough line angles, the threshold rules that switch denoising, sharpening, brightness
 * normalisation and rotation on or off, the choice of binarisation, and the fixed order of the
 * preprocessing pipelines.
 *
 * Pixel filters are not modelled; an image is the list of filters applied to the grayscale
 * input so far, and the measurements the filters would need (mean intensity, zero ratios,
 * Hough angles) are inputs.
 */
module Preprocessor {
  import opened Options
  import opened Numbers
  import opened Sorting

  /** `ImageQualityMetrics`; `resolution` is the (height, width) of the grayscale image. */
  datatype ImageQualityMetrics = ImageQualityMetrics(
    brightness: real, contrast: real, sharpness: real, noiseLevel: real,
    skewAngle: real, resolution: (nat, nat), qualityScore: real)

  function RAbs(x: real): real { if x < 0.0 then -x else x }

  /** Python's `min(a, b)` and `max(a, b)` on numbers. */
  function RMin(a: real, b: real): real { if b < a then b else a }
  function RMax(a: real, b: real): real { if b > a then b else a }

  // ---------------------------------------------------------------- quality score

  /** 100 at mean intensity 127.5, falling linearly to 0 at 0 and 255. */
  function BrightnessScore(brightness: real): real {
    100.0 * (1.0 - RAbs(brightness - 127.5) / 127.5)
  }

  function ContrastScore(contrast: real): real { RMin(100.0, contrast / 50.0 * 100.0) }

  function SharpnessScore(sharpness: real): real { RMin(100.0, sharpness / 500.0 * 100.0) }

  function NoiseScore(noise: real): real { RMax(0.0, 100.0 - noise * 2.0) }

  /** `_calculate_quality_score`: the weighted mix 0.3, 0.3, 0.2, 0.2 of the four scores. */
  function QualityScore(brightness: real, contrast: real, sharpness: real, noise: real): real {
    BrightnessScore(brightness) * 0.3 + ContrastScore(contrast) * 0.3 +
    SharpnessScore(sharpness) * 0.2 + NoiseScore(noise) * 0.2
  }

  /** For an 8-bit image (mean intensity in [0, 255]) and non-negative measurements the score is
      a percentage, and it is 100 exactly for mid-grey brightness, contrast of 50 or more,
      sharpness of 500 or more and no noise. */
  lemma QualityScoreRange(brightness: real, contrast: real, sharpness: real, noise: real)
    requires 0.0 <= brightness <= 255.0 && contrast >= 0.0 && sharpness >= 0.0 && noise >= 0.0
    ensures 0.0 <= QualityScore(brightness, contrast, sharpness, noise) <= 100.0
    ensures QualityScore(brightness, contrast, sharpness, noise) == 100.0 <==>
              brightness == 127.5 && contrast >= 50.0 && sharpness >= 500.0 && noise == 0.0
  {
  }

  /** More noise never raises the score. */
  lemma QualityMonotoneInNoise(brightness: real, contrast: real, sharpness: real, noise: real, more: real)
    requires noise <= more
    ensures QualityScore(brightness, contrast, sharpness, more) <= QualityScore(brightness, contrast, sharpness, noise)
  {
  }

  /** The brightness term is largest at 127.5 and symmetric around it. */
  lemma BrightnessPeak(brightness: real, d: real)
    ensures BrightnessScore(brightness) <= BrightnessScore(127.5) == 100.0
    ensures BrightnessScore(127.5 - d) == BrightnessScore(127.5 + d)
  {
  }

  // ---------------------------------------------------------------- skew angle

  /** The angles `degrees(theta) - 90` strictly between -45 and 45, in line order. */
  function KeptAngles(thetas: seq<real>): (r: seq<real>)
    ensures |r| <= |thetas|
    ensures forall k :: 0 <= k < |r| ==> -45.0 < r[k] < 45.0
    ensures forall a :: a in r <==> exists i :: 0 <= i < |thetas| && -45.0 < thetas[i] - 90.0 < 45.0 && a == thetas[i] - 90.0
  {
    if thetas == [] then []
    else
      var init, t := thetas[..|thetas| - 1], thetas[|thetas| - 1];
      assert forall i :: 0 <= i < |init| ==> init[i] == thetas[i];
      var a := t - 90.0;
      KeptAngles(init) + (if -45.0 < a < 45.0 then [a] else [])
  }

  /** `_detect_skew_angle` on the angles, in degrees, of the lines `HoughLines` found (None when
      it found none): the median of the kept angles, or 0.0. */
  function SkewAngle(lines: Option<seq<real>>): real {
    match lines
    case None => 0.0
    case Some(thetas) =>
      var angles := KeptAngles(thetas);
      if angles == [] then 0.0 else Median(angles)
  }

  method DetectSkewAngle(lines: Option<seq<real>>) returns (angle: real)
    ensures angle == SkewAngle(lines)
  {
    if lines.None? {
      return 0.0;
    }
    var thetas := lines.value;
    var angles: seq<real> := [];
    for i := 0 to |thetas|
      invariant angles == KeptAngles(thetas[..i])
    {
      assert thetas[..i + 1][..i] == thetas[..i];
      var a := thetas[i] - 90.0;
      if -45.0 < a < 45.0 {
        angles := angles + [a];
      }
    }
    assert thetas[..|thetas|] == thetas;
    if angles == [] {
      return 0.0;
    }
    angle := Median(angles);
  }

  /** The skew angle is always strictly between -45 and 45 degrees. */
  lemma SkewWithinQuarterTurn(lines: Option<seq<real>>)
    ensures -45.0 < SkewAngle(lines) < 45.0
  {
    if lines.Some? && KeptAngles(lines.value) != [] {
      MedianWithin(KeptAngles(lines.value), -45.0, 45.0);
    }
  }

  /** No line, or no line angle strictly between -45 and 45 degrees, gives a skew of 0. */
  lemma SkewZeroWithoutAngles(lines: Option<seq<real>>)
    requires lines.Some? ==> forall i :: 0 <= i < |lines.value| ==> !(-45.0 < lines.value[i] - 90.0 < 45.0)
    ensures SkewAngle(lines) == 0.0
  {
    if lines.Some? {
      NoKeptAngles(lines.value);
    }
  }

  lemma {:induction false} NoKeptAngles(thetas: seq<real>)
    requires forall i :: 0 <= i < |thetas| ==> !(-45.0 < thetas[i] - 90.0 < 45.0)
    ensures KeptAngles(thetas) == []
    decreases |thetas|
  {
    if |thetas| > 0 {
      NoKeptAngles(thetas[..|thetas| - 1]);
    }
  }

  /** `analyze_image_quality` once the measurements are taken. */
  function AnalyzeImageQuality(brightness: real, contrast: real, sharpness: real, noise: real,
                               lines: Option<seq<real>>, resolution: (nat, nat)): (m: ImageQualityMetrics)
    ensures m.qualityScore == QualityScore(brightness, contrast, sharpness, noise)
    ensures m.skewAngle == SkewAngle(lines)
  {
    ImageQualityMetrics(brightness, contrast, sharpness, noise, SkewAngle(lines), resolution,
                        QualityScore(brightness, contrast, sharpness, noise))
  }

  // ---------------------------------------------------------------- threshold rules

  /** A filter applied to the image. */
  datatype Filter =
    | RemoveShadows
    | ScaleBrightness(factor: real)
    | FastNlMeans(strength: nat)
    | Clahe
    | Sharpen
    | Rotate(angle: real)
    | GaussianBlur
    | MorphClose
    | Threshold(kind: Binarization)

  datatype Binarization = Otsu | Adaptive

  /** `denoise_smart`: none below noise 5, strength 10 below 15, strength 15 from 15 on. */
  function DenoiseStrength(noise: real): (r: Option<nat>)
    ensures r.None? <==> noise < 5.0
    ensures r.Some? ==> (r.value == 10 <==> noise < 15.0) && (r.value == 15 <==> noise >= 15.0)
  {
    if noise < 5.0 then None else if noise < 15.0 then Some(10) else Some(15)
  }

  /** `sharpen_if_needed` sharpens unless the sharpness is above 300. */
  predicate NeedsSharpening(sharpness: real) {
    !(sharpness > 300.0)
  }

  /** `auto_rotate` leaves the image alone when |angle| < 0.5. */
  predicate RotationNeeded(angle: real) {
    !(RAbs(angle) < 0.5)
  }

  /** `normalize_brightness`: no change when the mean is within 10 of the target; otherwise
      every pixel is scaled by `target / mean`. An all-black image (mean 0) is left as it is. */
  function BrightnessFactor(mean: real, target: real): (r: Option<real>)
    ensures r.None? <==> RAbs(mean - target) < 10.0 || mean == 0.0
    ensures r.Some? ==> r.value * mean == target
  {
    if RAbs(mean - target) < 10.0 || mean == 0.0 then None else Some(target / mean)
  }

  /** One pixel of `np.clip(image * factor, 0, 255).astype(np.uint8)`. */
  function ScalePixel(p: nat, factor: real): (q: nat)
    ensures q <= 255
  {
    var x := p as real * factor;
    if x < 0.0 then 0 else if x > 255.0 then 255 else x.Floor
  }

  lemma FloorMonotone(x: real, y: real)
    requires x <= y
    ensures x.Floor <= y.Floor
  {
    assert x.Floor as real <= x < x.Floor as real + 1.0;
    assert y.Floor as real <= y < y.Floor as real + 1.0;
  }

  lemma ScaleMonotone(p: nat, q: nat, factor: real)
    requires p <= q && factor >= 0.0
    ensures p as real * factor <= q as real * factor
  {
    assert q as real * factor - p as real * factor == (q - p) as real * factor;
  }

  /** Scaling by a non-negative factor keeps the order of pixel values, and a value that stays
      in range is truncated to its integer part. */
  lemma ScalePixelMonotone(p: nat, q: nat, factor: real)
    requires p <= q && factor >= 0.0
    ensures ScalePixel(p, factor) <= ScalePixel(q, factor)
    ensures p as real * factor <= 255.0 ==>
              ScalePixel(p, factor) as real <= p as real * factor < ScalePixel(p, factor) as real + 1.0
  {
    var x, y := p as real * factor, q as real * factor;
    ScaleMonotone(p, q, factor);
    assert 0.0 <= x;
    if y <= 255.0 {
      FloorMonotone(x, y);
    } else if x <= 255.0 {
      FloorMonotone(x, 255.0);
    }
  }

  /** The pixel-wise form of `normalize_brightness` over the pixels of an 8-bit image. */
  function NormalizePixels(pixels: seq<nat>, target: real): (r: seq<nat>)
    requires forall k :: 0 <= k < |pixels| ==> pixels[k] <= 255
    ensures |r| == |pixels|
    ensures forall k :: 0 <= k < |r| ==> r[k] <= 255
  {
    match BrightnessFactor(PixelMean(pixels), target)
    case None => pixels
    case Some(factor) => seq(|pixels|, k requires 0 <= k < |pixels| => ScalePixel(pixels[k], factor))
  }

  /** `np.mean(image)` */
  function PixelMean(pixels: seq<nat>): real {
    Mean(seq(|pixels|, k requires 0 <= k < |pixels| => pixels[k] as real))
  }

  /** The image is returned unchanged when its mean is within 10 of the target; otherwise, for a
      non-negative target, brighter pixels stay at least as bright as darker ones. */
  lemma NormalizeKeepsOrder(pixels: seq<nat>, target: real, i: nat, j: nat)
    requires forall k :: 0 <= k < |pixels| ==> pixels[k] <= 255
    requires target >= 0.0 && i < |pixels| && j < |pixels| && pixels[i] <= pixels[j]
    ensures RAbs(PixelMean(pixels) - target) < 10.0 ==> NormalizePixels(pixels, target) == pixels
    ensures NormalizePixels(pixels, target)[i] <= NormalizePixels(pixels, target)[j]
  {
    var mean := PixelMean(pixels);
    var xs := seq(|pixels|, k requires 0 <= k < |pixels| => pixels[k] as real);
    if BrightnessFactor(mean, target).Some? {
      MeanBounds(xs, 0.0, 255.0);
      assert target / mean >= 0.0;
      ScalePixelMonotone(pixels[i], pixels[j], target / mean);
    }
  }

  // ---------------------------------------------------------------- binarisation

  /** `binarize_adaptive`: in "auto" mode the result whose share of black pixels is strictly
      closer to 17.5% wins (a tie goes to adaptive); "otsu" forces Otsu; anything else is
      adaptive. The two zero ratios are those of the Otsu and adaptive results. */
  function BinarizeChoice(mode: string, otsuRatio: real, adaptiveRatio: real): Binarization {
    if mode == "auto" then
      if RAbs(otsuRatio - 0.175) < RAbs(adaptiveRatio - 0.175) then Otsu else Adaptive
    else if mode == "otsu" then Otsu
    else Adaptive
  }

  lemma BinarizeChoiceRule(mode: string, otsuRatio: real, adaptiveRatio: real)
    ensures mode == "auto" ==>
              (BinarizeChoice(mode, otsuRatio, adaptiveRatio) == Otsu <==>
                 RAbs(otsuRatio - 0.175) < RAbs(adaptiveRatio - 0.175))
    ensures mode == "auto" && otsuRatio == adaptiveRatio ==> BinarizeChoice(mode, otsuRatio, adaptiveRatio) == Adaptive
    ensures mode != "auto" ==> (BinarizeChoice(mode, otsuRatio, adaptiveRatio) == Otsu <==> mode == "otsu")
  {
  }

  // ---------------------------------------------------------------- pipelines

  /** What the pipelines need to know about the image besides its metrics: the mean intensity
      after shadow removal (which decides brightness normalisation) and the zero ratios of the
      two binarisations. */
  datatype Readings = Readings(meanAfterShadows: real, otsuRatio: real, adaptiveRatio: real)

  /** The filters `preprocess_for_table_detection` applies, in order. */
  function TableFilters(m: ImageQualityMetrics, r: Readings): seq<Filter> {
    [RemoveShadows] +
    (match BrightnessFactor(r.meanAfterShadows, 180.0) case None => [] case Some(f) => [ScaleBrightness(f)]) +
    (match DenoiseStrength(m.noiseLevel) case None => [] case Some(h) => [FastNlMeans(h)]) +
    [Clahe] +
    (if NeedsSharpening(m.sharpness) then [Sharpen] else []) +
    (if RAbs(m.skewAngle) > 0.5 && RotationNeeded(m.skewAngle) then [Rotate(m.skewAngle)] else [])
  }

  /** `preprocess_for_table_detection`: the grayscale image is reassigned filter by filter; each
      decision reads the metrics taken once from the unprocessed image. */
  method PreprocessForTableDetection(m: ImageQualityMetrics, r: Readings) returns (gray: seq<Filter>)
    ensures gray == TableFilters(m, r)
  {
    gray := [RemoveShadows];
    var factor := BrightnessFactor(r.meanAfterShadows, 180.0);
    if factor.Some? {
      gray := gray + [ScaleBrightness(factor.value)];
    }
    var strength := DenoiseStrength(m.noiseLevel);
    if strength.Some? {
      gray := gray + [FastNlMeans(strength.value)];
    }
    gray := gray + [Clahe];
    if !(m.sharpness > 300.0) {
      gray := gray + [Sharpen];
    }
    if RAbs(m.skewAngle) > 0.5 {
      if !(RAbs(m.skewAngle) < 0.5) {
        gray := gray + [Rotate(m.skewAngle)];
      }
    }
  }

  /** Shadow removal comes first and contrast enhancement always runs; denoising runs from
      noise 5 on, sharpening up to sharpness 300, and rotation exactly when |skew| > 0.5. */
  lemma TableFiltersDecisions(m: ImageQualityMetrics, r: Readings)
    ensures var fs := TableFilters(m, r);
      && fs[0] == RemoveShadows
      && Clahe in fs
      && ((exists h :: FastNlMeans(h) in fs) <==> m.noiseLevel >= 5.0)
      && (Sharpen in fs <==> m.sharpness <= 300.0)
      && ((exists a :: Rotate(a) in fs) <==> RAbs(m.skewAngle) > 0.5)
  {
    var fs := TableFilters(m, r);
    assert forall f :: f in fs ==> f == RemoveShadows || f.ScaleBrightness? || f.FastNlMeans? || f == Clahe || f == Sharpen || f.Rotate?;
    if m.noiseLevel >= 5.0 {
      assert FastNlMeans(DenoiseStrength(m.noiseLevel).value) in fs;
    }
    if RAbs(m.skewAngle) > 0.5 {
      assert Rotate(m.skewAngle) in fs;
    }
  }

  /** The filters run in a fixed order: shadows, brightness, denoising, contrast, sharpening,
      rotation. */
  lemma TableFiltersOrder(m: ImageQualityMetrics, r: Readings)
    ensures Staged(TableFilters(m, r))
  {
    var b := match BrightnessFactor(r.meanAfterShadows, 180.0) case None => [] case Some(f) => [ScaleBrightness(f)];
    var d := match DenoiseStrength(m.noiseLevel) case None => [] case Some(h) => [FastNlMeans(h)];
    var sh := if NeedsSharpening(m.sharpness) then [Sharpen] else [];
    var ro := if RAbs(m.skewAngle) > 0.5 && RotationNeeded(m.skewAngle) then [Rotate(m.skewAngle)] else [];
    StagedPipeline(b, d, sh, ro);
    assert TableFilters(m, r) == [RemoveShadows] + b + d + [Clahe] + sh + ro;
  }

  lemma StagedPipeline(b: seq<Filter>, d: seq<Filter>, sh: seq<Filter>, ro: seq<Filter>)
    requires |b| <= 1 && forall k :: 0 <= k < |b| ==> Stage(b[k]) == 1
    requires |d| <= 1 && forall k :: 0 <= k < |d| ==> Stage(d[k]) == 2
    requires |sh| <= 1 && forall k :: 0 <= k < |sh| ==> Stage(sh[k]) == 4
    requires |ro| <= 1 && forall k :: 0 <= k < |ro| ==> Stage(ro[k]) == 5
    ensures Staged([RemoveShadows] + b + d + [Clahe] + sh + ro)
  {
    var s := [RemoveShadows];
    StagedAppend(s, b, 1);
    s := s + b;
    StagedAppend(s, d, 2);
    s := s + d;
    StagedAppend(s, [Clahe], 3);
    s := s + [Clahe];
    StagedAppend(s, sh, 4);
    s := s + sh;
    StagedAppend(s, ro, 5);
  }

  ghost predicate Staged(fs: seq<Filter>) {
    forall i, j :: 0 <= i < j < |fs| ==> Stage(fs[i]) < Stage(fs[j])
  }

  /** Appending at most one filter of a later stage keeps the order. */
  lemma StagedAppend(fs: seq<Filter>, more: seq<Filter>, stage: nat)
    requires Staged(fs) && |fs| > 0 && Stage(fs[|fs| - 1]) < stage
    requires |more| <= 1 && forall k :: 0 <= k < |more| ==> Stage(more[k]) == stage
    ensures Staged(fs + more) && Stage((fs + more)[|fs + more| - 1]) <= stage
  {
    var r := fs + more;
    forall i, j | 0 <= i < j < |r| ensures Stage(r[i]) < Stage(r[j]) {
      if j == |fs| {
        if i < |fs| - 1 {
          assert Stage(fs[i]) < Stage(fs[|fs| - 1]);
        }
      }
    }
  }

  /** The position of a filter in the pipelines. */
  function Stage(f: Filter): nat {
    match f
    case RemoveShadows => 0
    case ScaleBrightness(_) => 1
    case FastNlMeans(_) => 2
    case Clahe => 3
    case Sharpen => 4
    case Rotate(_) => 5
    case GaussianBlur => 6
    case MorphClose => 7
    case Threshold(_) => 8
  }

  /** `preprocess_for_ocr`: the table pipeline, then for handwriting a 3 x 3 blur and a closing,
      then the automatic binarisation. */
  function OcrFilters(m: ImageQualityMetrics, r: Readings, enhanceHandwriting: bool): seq<Filter> {
    TableFilters(m, r) +
    (if enhanceHandwriting then [GaussianBlur, MorphClose] else []) +
    [Threshold(BinarizeChoice("auto", r.otsuRatio, r.adaptiveRatio))]
  }

  method PreprocessForOcr(m: ImageQualityMetrics, r: Readings, enhanceHandwriting: bool) returns (binary: seq<Filter>)
    ensures binary == OcrFilters(m, r, enhanceHandwriting)
  {
    var processed := PreprocessForTableDetection(m, r);
    if enhanceHandwriting {
      processed := processed + [GaussianBlur];
      processed := processed + [MorphClose];
    }
    binary := processed + [Threshold(BinarizeChoice("auto", r.otsuRatio, r.adaptiveRatio))];
  }

  /** The OCR pipeline extends the table pipeline and always ends with exactly one
      binarisation. */
  lemma OcrFiltersExtendTable(m: ImageQualityMetrics, r: Readings, enhanceHandwriting: bool)
    ensures var fs, ts := OcrFilters(m, r, enhanceHandwriting), TableFilters(m, r);
      && fs[..|ts|] == ts
      && fs[|fs| - 1].Threshold?
      && (forall k :: 0 <= k < |fs| - 1 ==> !fs[k].Threshold?)
      && |fs| == |ts| + (if enhanceHandwriting then 3 else 1)
  {
    var ts := TableFilters(m, r);
    assert forall f :: f in ts ==> !f.Threshold?;
  }
}
