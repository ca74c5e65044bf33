/** The image-compression helpers: the target size computed for an image
    (scale down to the limits, round, clamp, re-fit to the aspect ratio), the
    output format, and the two batch helpers with their per-image fallback.
    Decoding, drawing on a canvas and encoding are not modelled: the decoded
    size and the batch helpers' per-image outcome are parameters. */
module ImageCompression {
  import opened Util
  import opened CompressionConfig

  /** `ImageCompressionOptions`: every field may be left out. */
  datatype Options = Options(targetDPI: Option<int>, quality: Option<real>, maxWidth: Option<int>, maxHeight: Option<int>)

  datatype Settings = Settings(targetDPI: int, quality: real, maxWidth: int, maxHeight: int)

  function OrElse<T>(o: Option<T>, default: T): (r: T)
    ensures o.Some? ==> r == o.value
    ensures o.None? ==> r == default
  {
    if o.Some? then o.value else default
  }

  /** The destructuring defaults: 250 DPI, quality 0.8, at most 1200 by 900. */
  function WithDefaults(o: Options): Settings
  {
    Settings(OrElse(o.targetDPI, 250), OrElse(o.quality, 0.8), OrElse(o.maxWidth, 1200), OrElse(o.maxHeight, 900))
  }

  /** `Math.min(maxWidth / w, maxHeight / h, 1)`: the largest factor that
      fits the image in the limits without enlarging it. */
  function ScaleFactor(ow: real, oh: real, maxW: real, maxH: real): (s: real)
    requires ow > 0.0 && oh > 0.0
    ensures s <= 1.0 && s * ow <= maxW && s * oh <= maxH
    ensures s == 1.0 || s * ow == maxW || s * oh == maxH
  {
    var s := MinReal(MinReal(maxW / ow, maxH / oh), 1.0);
    assert s * ow <= (maxW / ow) * ow == maxW;
    assert s * oh <= (maxH / oh) * oh == maxH;
    s
  }

  /** The size after scaling by `s`, rounding and clamping to at least 100 by 75. */
  function ClampWith(ow: int, oh: int, maxW: int, maxH: int, s: real): (c: (int, int))
    ensures 100 <= c.0 <= MaxInt(maxW, 100) && 75 <= c.1 <= MaxInt(maxH, 75)
  {
    (MaxInt(MinInt(RoundHalfUp(ow as real * s), maxW), 100), MaxInt(MinInt(RoundHalfUp(oh as real * s), maxH), 75))
  }

  /** The size after scaling, rounding and clamping: an image already
      within the limits and above the minimum keeps its size. */
  function ClampedSize(ow: int, oh: int, maxW: int, maxH: int): (c: (int, int))
    requires ow > 0 && oh > 0
    ensures 100 <= c.0 <= MaxInt(maxW, 100) && 75 <= c.1 <= MaxInt(maxH, 75)
    ensures maxW >= 100 && maxH >= 75 && ow <= maxW && oh <= maxH && ow >= 100 && oh >= 75 ==> c == (ow, oh)
  {
    var s := ScaleFactor(ow as real, oh as real, maxW as real, maxH as real);
    if ow <= maxW && oh <= maxH then
      QuotientAtLeastOne(maxW as real, ow as real);
      QuotientAtLeastOne(maxH as real, oh as real);
      assert s == 1.0;
      ClampWith(ow, oh, maxW, maxH, s)
    else ClampWith(ow, oh, maxW, maxH, s)
  }

  lemma QuotientAtLeastOne(a: real, b: real)
    requires a >= b > 0.0
    ensures a / b >= 1.0
  {
    assert (a / b) * b == a;
  }

  datatype Format = Png | Jpeg

  /** PNG for images of at most 12 by 12, JPEG otherwise. */
  function ChooseFormat(width: int, height: int): Format
  {
    if width <= 12 && height <= 12 then Png else Jpeg
  }

  /** The target size of `compressImageTo250DPI` for an image decoded at
      `ow` by `oh`: the clamped size, and then, when its ratio differs from
      the image's, one side recomputed from the other. */
  method TargetDimensions(ow: int, oh: int, maxW: int, maxH: int) returns (tw: int, th: int)
    requires ow > 0 && oh > 0
    ensures var c := ClampedSize(ow, oh, maxW, maxH); tw == c.0 || th == c.1
    ensures var c := ClampedSize(ow, oh, maxW, maxH);
      (c.0 as real) / (c.1 as real) == (ow as real) / (oh as real) ==> tw == c.0 && th == c.1
    ensures var c := ClampedSize(ow, oh, maxW, maxH);
      th != c.1 ==> th <= maxH && -0.5 < th as real - HeightFor(tw, ow, oh) <= 0.5
    ensures var c := ClampedSize(ow, oh, maxW, maxH);
      tw != c.0 ==> -0.5 < tw as real - WidthFor(th, ow, oh) <= 0.5
    ensures tw >= 100 || th >= 75
    ensures th <= MaxInt(maxH, 75)
    ensures ChooseFormat(tw, th) == Jpeg
  {
    var scale := ScaleFactor(ow as real, oh as real, maxW as real, maxH as real);
    tw, th := ScaleAndClamp(ow, oh, maxW, maxH, scale);
    ClampedIsClampWith(ow, oh, maxW, maxH);
    tw, th := Refit(tw, th, ow, oh, maxH);
  }

  /** The scaling, rounding and clamping assignments. */
  method ScaleAndClamp(ow: int, oh: int, maxW: int, maxH: int, scale: real) returns (tw: int, th: int)
    ensures (tw, th) == ClampWith(ow, oh, maxW, maxH, scale)
  {
    tw := RoundHalfUp(ow as real * scale);
    th := RoundHalfUp(oh as real * scale);
    tw := MaxInt(MinInt(tw, maxW), 100);
    th := MaxInt(MinInt(th, maxH), 75);
  }

  lemma ClampedIsClampWith(ow: int, oh: int, maxW: int, maxH: int)
    requires ow > 0 && oh > 0
    ensures ClampedSize(ow, oh, maxW, maxH) == ClampWith(ow, oh, maxW, maxH, ScaleFactor(ow as real, oh as real, maxW as real, maxH as real))
  {
  }

  /** The re-fit step: when `tw / th` differs from the image's ratio, the
      height is recomputed from the width if that stays within `maxH`, and
      the width from the height otherwise. */
  method Refit(w: int, h: int, ow: int, oh: int, maxH: int) returns (tw: int, th: int)
    requires ow > 0 && oh > 0 && h > 0
    ensures tw == w || th == h
    ensures (w as real) / (h as real) == (ow as real) / (oh as real) ==> tw == w && th == h
    ensures th != h ==> tw == w && th <= maxH && -0.5 < th as real - HeightFor(tw, ow, oh) <= 0.5
    ensures tw != w ==> th == h && -0.5 < tw as real - WidthFor(th, ow, oh) <= 0.5
  {
    tw, th := w, h;
    var aspectRatio := ow as real / oh as real;
    if tw as real / th as real != aspectRatio {
      RatioIdentities(tw as real, th as real, ow as real, oh as real);
      if tw as real / aspectRatio <= maxH as real {
        RoundBelow(tw as real / aspectRatio, maxH);
        assert tw as real / aspectRatio == HeightFor(tw, ow, oh);
        th := RoundHalfUp(tw as real / aspectRatio);
      } else {
        assert th as real * aspectRatio == WidthFor(th, ow, oh);
        tw := RoundHalfUp(th as real * aspectRatio);
      }
    }
  }

  /** The height that keeps the image's ratio at width `w`. */
  function HeightFor(w: int, ow: int, oh: int): real
    requires ow > 0
  {
    w as real * oh as real / ow as real
  }

  /** The width that keeps the image's ratio at height `h`. */
  function WidthFor(h: int, ow: int, oh: int): real
    requires oh > 0
  {
    h as real * ow as real / oh as real
  }

  /** Rounding a value at most an integer bound stays within the bound. */
  lemma RoundBelow(x: real, bound: int)
    requires x <= bound as real
    ensures RoundHalfUp(x) <= bound
  {
  }

  lemma RatioIdentities(w: real, h: real, ow: real, oh: real)
    requires ow > 0.0 && oh > 0.0
    ensures w / (ow / oh) == w * oh / ow
    ensures h * (ow / oh) == h * ow / oh
  {
  }

  /** What the canvas encodes: the size, the format and, for JPEG, the quality. */
  datatype Encoded = Encoded(width: int, height: int, format: Format, quality: Option<real>)

  /** `compressImageTo250DPI(src, options)`, with `decoded` the size the
      browser decodes `src` to (None when loading fails) and `hasContext`
      whether a 2D canvas context is available: fails without an image or a
      context, and otherwise encodes at the target size, as JPEG at the
      requested quality. */
  method CompressImageTo250DPI(options: Options, decoded: Option<(int, int)>, hasContext: bool)
    returns (r: Option<Encoded>)
    requires decoded.Some? ==> decoded.value.0 > 0 && decoded.value.1 > 0
    ensures r.Some? <==> decoded.Some? && hasContext
    ensures r.Some? ==> r.value.format == Jpeg && r.value.quality == Some(WithDefaults(options).quality)
    ensures r.Some? ==> r.value.width >= 100 || r.value.height >= 75
    ensures r.Some? ==> r.value.height <= MaxInt(WithDefaults(options).maxHeight, 75)
  {
    var settings := WithDefaults(options);
    if decoded.None? || !hasContext {
      return None;
    }
    var width, height := TargetDimensions(decoded.value.0, decoded.value.1, settings.maxWidth, settings.maxHeight);
    var format := ChooseFormat(width, height);
    var quality := if format == Png then None else Some(settings.quality);
    r := Some(Encoded(width, height, format, quality));
  }

  /** The options `compressReportImage` passes for a report photo. */
  function ReportOptions(c: Config): (o: Options)
    ensures WithDefaults(o) == Settings(c.targetDPI, c.reportImageDimensions.quality,
      c.reportImageDimensions.width, c.reportImageDimensions.height)
  {
    Options(Some(c.targetDPI), Some(c.reportImageDimensions.quality),
      Some(c.reportImageDimensions.width), Some(c.reportImageDimensions.height))
  }

  // ---------------------------------------------------------------------------
  // Batches
  // ---------------------------------------------------------------------------

  /** One image of a `compressMultipleImages` batch. */
  datatype Source = Source(key: string, src: string, options: Options)

  /** The compressed image, or the original source when compression fails;
      `compress` stands for the outcome of `compressImageTo250DPI`. */
  function Resolved(s: Source, compress: (string, Options) -> Option<string>): (r: string)
    ensures compress(s.src, s.options).None? ==> r == s.src
  {
    if compress(s.src, s.options).Some? then compress(s.src, s.options).value else s.src
  }

  /** The record filled by the `forEach`, entry by entry. */
  function Collected(sources: seq<Source>, compress: (string, Options) -> Option<string>): (m: map<string, string>)
  {
    if sources == [] then map[]
    else
      var last := sources[|sources| - 1];
      Collected(sources[..|sources| - 1], compress)[last.key := Resolved(last, compress)]
  }

  /** `compressMultipleImages(sources)`: the outcomes of all compressions,
      then a record from key to image, filled in order. */
  method CompressMultipleImages(sources: seq<Source>, compress: (string, Options) -> Option<string>)
    returns (compressedImages: map<string, string>)
    ensures compressedImages == Collected(sources, compress)
  {
    var results := seq(|sources|, i requires 0 <= i < |sources| => (sources[i].key, Resolved(sources[i], compress)));
    compressedImages := map[];
    var i := 0;
    while i < |results|
      invariant 0 <= i <= |results|
      invariant compressedImages == Collected(sources[..i], compress)
    {
      assert sources[..i + 1][..i] == sources[..i];
      compressedImages := compressedImages[results[i].0 := results[i].1];
      i := i + 1;
    }
    assert sources[..i] == sources;
  }

  /** The record has one entry per distinct key. */
  lemma {:induction false} CollectedKeys(sources: seq<Source>, compress: (string, Options) -> Option<string>)
    ensures Collected(sources, compress).Keys == set i | 0 <= i < |sources| :: sources[i].key
  {
    if sources != [] {
      var n := |sources| - 1;
      var prefix := sources[..n];
      CollectedKeys(prefix, compress);
      var keys := set i | 0 <= i < |sources| :: sources[i].key;
      var prefixKeys := set i | 0 <= i < n :: prefix[i].key;
      forall k | k in keys ensures k in prefixKeys + {sources[n].key} {
        var i :| 0 <= i < |sources| && sources[i].key == k;
        if i < n {
          assert prefix[i].key == k;
        }
      }
      forall k | k in prefixKeys ensures k in keys {
        var i :| 0 <= i < n && prefix[i].key == k;
        assert sources[i].key == k;
      }
      assert keys == prefixKeys + {sources[n].key};
    }
  }

  /** Each key maps to the outcome of the last image with that key. */
  lemma {:induction false} CollectedLastWins(sources: seq<Source>, compress: (string, Options) -> Option<string>, i: nat)
    requires i < |sources|
    requires forall j :: i < j < |sources| ==> sources[j].key != sources[i].key
    ensures sources[i].key in Collected(sources, compress)
    ensures Collected(sources, compress)[sources[i].key] == Resolved(sources[i], compress)
  {
    var n := |sources| - 1;
    if i < n {
      var prefix := sources[..n];
      assert prefix[i] == sources[i];
      forall j | i < j < |prefix| ensures prefix[j].key != prefix[i].key {
        assert prefix[j] == sources[j];
      }
      CollectedLastWins(prefix, compress, i);
    }
  }

  /** The three images the PDF needs: the logo and the two checkbox states,
      each with its limits from the preset. */
  function PreloadSources(c: Config, baseUrl: string): (s: seq<Source>)
    ensures |s| == 3
  {
    [Source("logo", baseUrl + "logo.png",
       Options(Some(c.targetDPI), Some(c.logoMaxDimensions.quality), Some(c.logoMaxDimensions.width), Some(c.logoMaxDimensions.height))),
     Source("checkbox_checked", baseUrl + "images/checkbox_checked.png",
       Options(Some(c.targetDPI), Some(c.checkboxMaxDimensions.quality), Some(c.checkboxMaxDimensions.width), Some(c.checkboxMaxDimensions.height))),
     Source("checkbox_unchecked", baseUrl + "images/checkbox_unchecked.png",
       Options(Some(c.targetDPI), Some(c.checkboxMaxDimensions.quality), Some(c.checkboxMaxDimensions.width), Some(c.checkboxMaxDimensions.height)))]
  }

  /** `preloadAndCompressPDFImages` yields exactly the three keys, each with
      its compressed image or, on failure, its original address. */
  lemma PreloadKeys(c: Config, baseUrl: string, compress: (string, Options) -> Option<string>)
    ensures Collected(PreloadSources(c, baseUrl), compress).Keys == {"logo", "checkbox_checked", "checkbox_unchecked"}
    ensures forall i :: 0 <= i < 3 ==>
      Collected(PreloadSources(c, baseUrl), compress)[PreloadSources(c, baseUrl)[i].key]
        == Resolved(PreloadSources(c, baseUrl)[i], compress)
  {
    var s := PreloadSources(c, baseUrl);
    CollectedKeys(s, compress);
    CollectedLastWins(s, compress, 0);
    CollectedLastWins(s, compress, 1);
    CollectedLastWins(s, compress, 2);
    assert (set i | 0 <= i < |s| :: s[i].key) == {"logo", "checkbox_checked", "checkbox_unchecked"} by {
      assert s[0].key == "logo" && s[1].key == "checkbox_checked" && s[2].key == "checkbox_unchecked";
    }
    assert s[0].key != s[1].key && s[0].key != s[2].key && s[1].key != s[2].key;
  }

  /** `compressAllReportImages(files)`: per file, the compressed photo or,
      when compression fails, an object URL of the file itself. `compress`
      and `objectUrl` stand for the browser's outcomes. */
  function CompressAllReportImages<F>(files: seq<F>, compress: F -> Option<string>, objectUrl: F -> string): (r: seq<string>)
    ensures |r| == |files|
  {
    seq(|files|, i requires 0 <= i < |files| =>
      if compress(files[i]).Some? then compress(files[i]).value else objectUrl(files[i]))
  }

  /** Each file's result depends on that file alone: the results of two
      batches are those of their concatenation, in order, and a failing
      file falls back to its object URL. */
  lemma CompressAllReportImagesOrder<F>(a: seq<F>, b: seq<F>, compress: F -> Option<string>, objectUrl: F -> string)
    ensures CompressAllReportImages(a + b, compress, objectUrl)
      == CompressAllReportImages(a, compress, objectUrl) + CompressAllReportImages(b, compress, objectUrl)
    ensures forall i :: 0 <= i < |a| && compress(a[i]).None? ==> CompressAllReportImages(a, compress, objectUrl)[i] == objectUrl(a[i])
  {
    var l := CompressAllReportImages(a + b, compress, objectUrl);
    var r := CompressAllReportImages(a, compress, objectUrl) + CompressAllReportImages(b, compress, objectUrl);
    assert forall i :: 0 <= i < |l| ==> l[i] == r[i];
  }
}
