/** The desktop form of the inspection report: the state the window keeps
    in its fields (the photo list, the selected photo and its rotation, the
    caption and figure-number boxes, the bounded preview cache, the model
    path), the serial number advanced on every load, the record saved for
    the next session, and the serialisation of the formatted text box into
    the `<b>`/`<i>`/`<u>` markup the template filler reads back. */
module FormInterface {
  import opened Util
  import DocxGenerator

  // ---------------------------------------------------------------------------
  // Saved values and the serial number
  // ---------------------------------------------------------------------------

  /** A value of the saved JSON record. */
  datatype JsonValue = JStr(s: string) | JInt(i: int) | JFloat(x: real) | JBool(b: bool) | JNull

  /** Python's `int(s)` on a string: surrounding whitespace, an optional
      sign, then decimal digits; anything else is a `ValueError` (`None`). */
  function ParseInt(s: string): (r: Option<int>)
    ensures r.Some? ==> PyStrip(s) != []
  {
    var t := PyStrip(s);
    if t != [] && (t[0] == '+' || t[0] == '-') then
      if |t| > 1 && AllDigits(t[1..]) then
        var magnitude: int := DigitsValue(t[1..]);
        Some(if t[0] == '-' then -magnitude else magnitude)
      else None
    else if t != [] && AllDigits(t) then Some(DigitsValue(t))
    else None
  }

  /** Python's `f"{n:03d}"`: at least three characters, the sign counted,
      zero-padded after the sign. */
  function FormatSerial(n: int): (s: string)
    ensures n >= 0 ==> |s| >= 3 && AllDigits(s)
    ensures n < 0 ==> |s| >= 3 && s[0] == '-' && AllDigits(s[1..])
  {
    if n >= 0 then PadZeros(NatToString(n), 3)
    else "-" + PadZeros(NatToString(-n), 2)
  }

  /** Python's `int(v)` on a value of the record; `None` for the values
      that raise `TypeError`. */
  function AsInt(v: JsonValue): Option<int>
  {
    match v
    case JStr(s) => ParseInt(s)
    case JInt(i) => Some(i)
    case JFloat(x) => Some(DocxGenerator.Trunc(x))
    case JBool(b) => Some(if b then 1 else 0)
    case JNull => None
  }

  /** The serial number of the next report: one more than the saved one,
      formatted to three digits; a value that is not an integer is kept. */
  function NextSerial(v: JsonValue): (r: JsonValue)
    ensures AsInt(v).None? ==> r == v
    ensures AsInt(v).Some? ==> r == JStr(FormatSerial(AsInt(v).value + 1))
  {
    match AsInt(v)
    case Some(n) => JStr(FormatSerial(n + 1))
    case None => v
  }

  /** A string with no whitespace at either end strips to itself. */
  lemma StripUnchanged(s: string)
    requires s != [] && !IsPySpace(s[0]) && !IsPySpace(s[|s| - 1])
    ensures PyStrip(s) == s
  {
    assert PyStripLeft(s) == s;
  }

  lemma PadZerosValue(s: string, width: nat)
    requires AllDigits(s)
    ensures AllDigits(PadZeros(s, width)) && DigitsValue(PadZeros(s, width)) == DigitsValue(s)
  {
    if |s| < width {
      DigitsValueLeadingZeros(width - |s|, s);
    }
  }

  /** Every formatted serial parses back to its number. */
  lemma FormatSerialRoundTrip(n: int)
    ensures ParseInt(FormatSerial(n)) == Some(n)
  {
    if n >= 0 {
      NonNegativeSerialParses(n);
    } else {
      NegativeSerialParses(n);
    }
  }

  lemma NonNegativeSerialParses(n: nat)
    ensures ParseInt(FormatSerial(n)) == Some(n)
  {
    PadZerosValue(NatToString(n), 3);
    NatToStringRoundTrip(n);
    ParseDigits(PadZeros(NatToString(n), 3));
  }

  lemma NegativeSerialParses(n: int)
    requires n < 0
    ensures ParseInt(FormatSerial(n)) == Some(n)
  {
    var digits := PadZeros(NatToString(-n), 2);
    calc {
      ParseInt(FormatSerial(n));
      ParseInt("-" + digits);
      { ParseSigned(digits); }
      Some(-(DigitsValue(digits) as int));
      { PadZerosValue(NatToString(-n), 2); }
      Some(-(DigitsValue(NatToString(-n)) as int));
      { NatToStringRoundTrip(-n); }
      Some(n);
    }
  }

  /** A digit string parses to its value. */
  lemma ParseDigits(s: string)
    requires s != [] && AllDigits(s)
    ensures ParseInt(s) == Some(DigitsValue(s))
  {
    assert IsDigit(s[0]) && IsDigit(s[|s| - 1]);
    StripUnchanged(s);
  }

  /** A minus sign then a digit string parses to the negated value. */
  lemma ParseSigned(digits: string)
    requires digits != [] && AllDigits(digits)
    ensures ParseInt("-" + digits) == Some(-(DigitsValue(digits) as int))
  {
    var s := "-" + digits;
    assert s[1..] == digits;
    assert IsDigit(s[|s| - 1]);
    StripUnchanged(s);
  }

  /** Loading a saved serial advances it by exactly one. */
  lemma NextSerialAdvances(n: int)
    ensures NextSerial(JStr(FormatSerial(n))) == JStr(FormatSerial(n + 1))
  {
    FormatSerialRoundTrip(n);
  }

  /** `007` becomes `008` and `999` becomes `1000`. */
  lemma NextSerialExamples()
    ensures NextSerial(JStr("007")) == JStr("008")
    ensures NextSerial(JStr("999")) == JStr("1000")
  {
    SerialOfSmall(7);
    SerialOfSmall(8);
    NextSerialAdvances(7);
    SerialOf999();
    NextSerialAdvances(999);
  }

  lemma SerialOfSmall(d: nat)
    requires d < 10
    ensures FormatSerial(d) == ['0', '0', DigitChar(d)]
  {
    assert NatToString(d) == [DigitChar(d)];
    assert Zeros(2) == ['0', '0'] by {
      assert Zeros(1) == ['0'];
    }
  }

  lemma SerialOf999()
    ensures FormatSerial(999) == "999" && FormatSerial(1000) == "1000"
  {
    Shows999();
    Shows1000();
  }

  lemma Shows999()
    ensures NatToString(999) == "999"
  {
    assert NatToString(9) == "9";
    assert NatToString(99) == NatToString(9) + "9";
    assert NatToString(999) == NatToString(99) + "9";
  }

  lemma Shows1000()
    ensures NatToString(1000) == "1000"
  {
    assert NatToString(1) == "1";
    assert NatToString(10) == NatToString(1) + "0";
    assert NatToString(100) == NatToString(10) + "0";
    assert NatToString(1000) == NatToString(100) + "0";
  }

  /** The record after `load_data_from_file` advanced its `Numero`. */
  function Loaded(saved: map<string, JsonValue>): (r: map<string, JsonValue>)
    ensures r.Keys == saved.Keys
    ensures forall k :: k in saved && k != "Numero" ==> r[k] == saved[k]
    ensures "Numero" in saved ==> r["Numero"] == NextSerial(saved["Numero"])
  {
    if "Numero" in saved then saved["Numero" := NextSerial(saved["Numero"])] else saved
  }

  /** The text fields kept from one report to the next. */
  const FieldsToSave: seq<string> := [
    "Numero", "Nome progetto", "Lavorazione Verificata", "Verifica materiale previsto",
    "Riferimento Progetto costruttivo", "Ubicazione", "Scheda controllo lavorazione",
    "Oggetto del Sopralluogo"]

  const ModelPathKey: string := "model_path"

  /** `save_data_to_file`'s record: the listed fields that are present,
      every check box, and the model path when it is not the default. */
  function SaveRecord(data: map<string, JsonValue>, modelPath: string, defaultModelPath: string): (r: map<string, JsonValue>)
    ensures forall k :: k in r <==>
      (k in data && (k in FieldsToSave || data[k].JBool?)) || (k == ModelPathKey && modelPath != defaultModelPath)
    ensures forall k :: k in r && !(k == ModelPathKey && modelPath != defaultModelPath) ==> r[k] == data[k]
    ensures modelPath != defaultModelPath ==> r[ModelPathKey] == JStr(modelPath)
  {
    var listed := map f | f in FieldsToSave && f in data :: data[f];
    var flags := map k | k in data && data[k].JBool? :: data[k];
    var record := listed + flags;
    if modelPath != defaultModelPath then record[ModelPathKey := JStr(modelPath)] else record
  }

  /** Saving a report and loading it back keeps every check box and every
      listed field, and advances the serial by one. */
  lemma SaveThenLoad(data: map<string, JsonValue>, modelPath: string, defaultModelPath: string, k: string)
    requires k in data && k != ModelPathKey && (k in FieldsToSave || data[k].JBool?)
    ensures var next := Loaded(SaveRecord(data, modelPath, defaultModelPath));
      k in next && next[k] == (if k == "Numero" then NextSerial(data[k]) else data[k])
  {
  }

  // ---------------------------------------------------------------------------
  // The preview cache
  // ---------------------------------------------------------------------------

  /** Previews kept in memory at most. */
  const MaxCacheSize: nat := 10

  /** A decoded preview; its pixels are not modelled. */
  datatype Preview = Preview(id: nat)

  /** The cache as a Python dict: its entries in insertion order. */
  type CacheEntries = seq<(string, Preview)>

  predicate KeysDistinct(c: CacheEntries)
  {
    forall i, j :: 0 <= i < j < |c| ==> c[i].0 != c[j].0
  }

  function CacheGet(c: CacheEntries, key: string): (r: Option<Preview>)
    ensures r.Some? ==> (key, r.value) in c
    ensures r.None? ==> forall i :: 0 <= i < |c| ==> c[i].0 != key
  {
    if c == [] then None
    else if c[0].0 == key then Some(c[0].1)
    else CacheGet(c[1..], key)
  }

  /** A full cache drops its oldest entry. */
  function Evict(c: CacheEntries): (r: CacheEntries)
    ensures |c| >= MaxCacheSize && c != [] ==> r == c[1..]
    ensures |c| < MaxCacheSize ==> r == c
  {
    if |c| >= MaxCacheSize && c != [] then c[1..] else c
  }

  /** `cache[key] = image`: an existing key keeps its place, a new one goes
      last. */
  function Put(c: CacheEntries, key: string, image: Preview): (r: CacheEntries)
    ensures |r| == |c| || |r| == |c| + 1
    ensures |r| == |c| + 1 <==> CacheGet(c, key).None?
  {
    if c == [] then [(key, image)]
    else if c[0].0 == key then [(key, image)] + c[1..]
    else [c[0]] + Put(c[1..], key, image)
  }

  /** The effect of `_add_to_image_cache`. */
  function CacheAdd(c: CacheEntries, key: string, image: Preview): CacheEntries
  {
    Put(Evict(c), key, image)
  }

  lemma {:induction false} PutGet(c: CacheEntries, key: string, image: Preview, other: string)
    ensures CacheGet(Put(c, key, image), key) == Some(image)
    ensures other != key ==> CacheGet(Put(c, key, image), other) == CacheGet(c, other)
  {
    if c != [] && c[0].0 != key {
      PutGet(c[1..], key, image, other);
    }
  }

  lemma {:induction false} PutDistinct(c: CacheEntries, key: string, image: Preview)
    requires KeysDistinct(c)
    ensures KeysDistinct(Put(c, key, image))
    ensures forall i :: 0 <= i < |Put(c, key, image)| ==> Put(c, key, image)[i].0 == key || CacheGet(c, Put(c, key, image)[i].0).Some?
  {
    if c != [] && c[0].0 != key {
      PutDistinct(c[1..], key, image);
      var r := Put(c, key, image);
      forall i | 0 < i < |r|
        ensures r[i].0 != c[0].0
      {
        if r[i].0 != key {
          assert CacheGet(c[1..], r[i].0).Some?;
        }
      }
    }
  }

  /** After an insertion the key maps to the image, the cache holds at most
      ten distinct keys, and every other key that was not evicted keeps its
      image; when the cache was full the oldest key is gone. */
  lemma CacheAddSpec(c: CacheEntries, key: string, image: Preview, other: string)
    requires |c| <= MaxCacheSize && KeysDistinct(c)
    ensures CacheGet(CacheAdd(c, key, image), key) == Some(image)
    ensures |CacheAdd(c, key, image)| <= MaxCacheSize && KeysDistinct(CacheAdd(c, key, image))
    ensures other != key && !(|c| == MaxCacheSize && other == c[0].0) ==>
      CacheGet(CacheAdd(c, key, image), other) == CacheGet(c, other)
    ensures |c| == MaxCacheSize && c[0].0 != key ==> CacheGet(CacheAdd(c, key, image), c[0].0).None?
  {
    var e := Evict(c);
    PutGet(e, key, image, other);
    PutDistinct(e, key, image);
    if |c| == MaxCacheSize {
      PutGet(e, key, image, c[0].0);
      assert CacheGet(e, c[0].0).None?;
      if other != key && other != c[0].0 {
        assert CacheGet(c, other) == CacheGet(e, other);
      }
    }
  }

  // ---------------------------------------------------------------------------
  // Photos, rotation and list labels
  // ---------------------------------------------------------------------------

  /** One photo of the report as the window keeps it. */
  datatype ImageEntry = ImageEntry(path: string, description: string, rotation: int, figureNumber: string)

  /** The angle after `rotate_left`: a quarter turn anticlockwise. */
  function TurnLeft(r: int): (r': int)
    ensures 0 <= r' < 360
  {
    (r + 90) % 360
  }

  /** The angle after `rotate_right`: a quarter turn clockwise. */
  function TurnRight(r: int): (r': int)
    ensures 0 <= r' < 360
  {
    (r - 90) % 360
  }

  predicate RightAngle(r: int)
  {
    r == 0 || r == 90 || r == 180 || r == 270
  }

  /** The two turns undo each other, keep a right angle a right angle, and
      four turns the same way come back to the start. */
  lemma TurnsInverse(r: int)
    requires RightAngle(r)
    ensures TurnRight(TurnLeft(r)) == r && TurnLeft(TurnRight(r)) == r
    ensures RightAngle(TurnLeft(r)) && RightAngle(TurnRight(r))
    ensures TurnLeft(TurnLeft(TurnLeft(TurnLeft(r)))) == r
  {
  }

  /** A saved rotation that is not a multiple of 360 is normalised by a
      left and a right turn to its residue. */
  lemma TurnsNormalise(r: int)
    ensures TurnRight(TurnLeft(r)) == r % 360 && TurnLeft(TurnRight(r)) == r % 360
  {
    var q, m := r % 360, r / 360;
    assert r == 360 * m + q;
    if q < 270 {
      Residue(m, q + 90);
      Residue(m, q);
    } else {
      Residue(m + 1, q - 270);
      Residue(m, q);
    }
    if q >= 90 {
      Residue(m, q - 90);
    } else {
      Residue(m - 1, q + 270);
    }
  }

  lemma Residue(m: int, t: int)
    requires 0 <= t < 360
    ensures (360 * m + t) % 360 == t
  {
  }

  /** Longest caption shown whole in the photo list. */
  const ShownCaption: nat := 25

  /** The photo list's label: `Fig. N` (or `Figura` without a number), then
      the caption, cut to 25 characters and marked `...` when longer. */
  function DisplayLabel(figureNumber: string, caption: string): string
  {
    var head := if figureNumber != [] then "Fig. " + figureNumber else "Figura";
    var tail := if |caption| > ShownCaption then ": " + caption[..ShownCaption] + "..." else ": " + caption;
    head + tail
  }

  /** The label names the figure and ends with the whole caption, or with
      its first 25 characters and `...` when it is longer. */
  lemma DisplayLabelShows(figureNumber: string, caption: string)
    ensures var shown := DisplayLabel(figureNumber, caption);
      |caption| <= ShownCaption ==> |shown| >= |caption| && shown[|shown| - |caption|..] == caption
    ensures var shown := DisplayLabel(figureNumber, caption);
      |caption| > ShownCaption ==> |shown| >= 28 && shown[|shown| - 28..] == caption[..ShownCaption] + "..."
    ensures figureNumber != [] ==> StartsWith(DisplayLabel(figureNumber, caption), "Fig. " + figureNumber + ": ")
    ensures figureNumber == [] ==> StartsWith(DisplayLabel(figureNumber, caption), "Figura: ")
  {
    var head := if figureNumber != [] then "Fig. " + figureNumber else "Figura";
    var tail := if |caption| > ShownCaption then ": " + caption[..ShownCaption] + "..." else ": " + caption;
    assert (head + tail)[..|head| + 2] == head + ": ";
  }

  /** The label never grows with the caption past its 25-character cut. */
  lemma DisplayLabelBounded(figureNumber: string, caption: string)
    ensures |DisplayLabel(figureNumber, caption)| <= |figureNumber| + 6 + 2 + ShownCaption + 3
  {
  }

  function IntToString(n: int): (s: string)
    ensures n >= 0 ==> s == NatToString(n)
  {
    if n >= 0 then NatToString(n) else "-" + NatToString(-n)
  }

  /** The rotation note of `save_image_details`, added when the photo is
      turned. */
  function WithRotation(base: string, rotation: int): (r: string)
    ensures rotation == 0 <==> r == base
    ensures StartsWith(r, base)
  {
    if rotation != 0 then base + " (Rotazione: " + IntToString(rotation) + "°)" else base
  }

  // ---------------------------------------------------------------------------
  // Adding photos
  // ---------------------------------------------------------------------------

  predicate HasPath(images: seq<ImageEntry>, path: string)
  {
    exists i :: 0 <= i < |images| && images[i].path == path
  }

  /** One chosen file: skipped when already listed, otherwise appended with
      an empty caption, no rotation and its position as figure number. */
  function AddPath(images: seq<ImageEntry>, path: string): (r: seq<ImageEntry>)
  {
    if HasPath(images, path) then images
    else images + [ImageEntry(path, "", 0, NatToString(|images| + 1))]
  }

  /** The list after adding the chosen files in order. */
  function AddPaths(images: seq<ImageEntry>, paths: seq<string>): seq<ImageEntry>
  {
    if paths == [] then images else AddPath(AddPaths(images, paths[..|paths| - 1]), paths[|paths| - 1])
  }

  predicate PathsDistinct(images: seq<ImageEntry>)
  {
    forall i, j :: 0 <= i < j < |images| ==> images[i].path != images[j].path
  }

  /** The photos already listed stay first and unchanged; every chosen file
      is listed afterwards; no file is listed twice; and each new entry has
      an empty caption, no rotation, and its 1-based position as figure
      number. */
  lemma {:induction false} AddPathsSpec(images: seq<ImageEntry>, paths: seq<string>)
    requires PathsDistinct(images)
    ensures var r := AddPaths(images, paths);
      |r| >= |images| && r[..|images|] == images && PathsDistinct(r)
    ensures var r := AddPaths(images, paths);
      forall p :: p in paths ==> HasPath(r, p)
    ensures var r := AddPaths(images, paths);
      forall k :: |images| <= k < |r| ==>
        r[k] == ImageEntry(r[k].path, "", 0, NatToString(k + 1)) && r[k].path in paths
  {
    if paths != [] {
      var init := paths[..|paths| - 1];
      var last := paths[|paths| - 1];
      AddPathsSpec(images, init);
      var prev := AddPaths(images, init);
      var r := AddPath(prev, last);
      assert r == AddPaths(images, paths);
      if !HasPath(prev, last) {
        assert r[..|prev|] == prev;
        assert r[|prev|].path == last;
        forall i, j | 0 <= i < j < |r|
          ensures r[i].path != r[j].path
        {
          if j == |prev| {
            assert r[i] == prev[i];
          }
        }
      }
      assert HasPath(r, last);
      forall p | p in paths
        ensures HasPath(r, p)
      {
        if p != last {
          assert p in init;
          var i :| 0 <= i < |prev| && prev[i].path == p;
          assert r[i] == prev[i];
        }
      }
    }
  }

  // ---------------------------------------------------------------------------
  // The window
  // ---------------------------------------------------------------------------

  /** The cache key of a preview: the file path and the rotation. */
  function PreviewKey(path: string, rotation: int): string
  {
    path + "_" + IntToString(rotation)
  }

  /** `load_image_preview` decodes the file: the key is not cached and the
      decoding succeeds. */
  predicate DecodesPreview(c: CacheEntries, key: string, decoded: Option<Preview>)
  {
    CacheGet(c, key).None? && decoded.Some?
  }

  /** The cache after `load_image_preview`: a decoded preview is added, a
      cached one or a failed decoding leaves the cache alone. */
  function CacheAfterPreview(c: CacheEntries, key: string, decoded: Option<Preview>): CacheEntries
  {
    if DecodesPreview(c, key, decoded) then CacheAdd(c, key, decoded.value) else c
  }

  /** The part of the form window's state that the photo, cache and save
      operations read and change. `originalLoaded` says whether a decoded
      original is held for the rotation buttons; `captionField` and
      `figureField` are the contents of the two detail boxes. */
  class FormApplication {
    var images: seq<ImageEntry>
    var selected: Option<nat>
    var currentRotation: int
    var originalLoaded: bool
    var captionField: string
    var figureField: string
    var cache: CacheEntries
    var defaults: map<string, JsonValue>
    var modelPath: string
    const defaultModelPath: string

    /** The cache is bounded with distinct keys, and no file is listed twice. */
    predicate Stored()
      reads this`cache, this`images
    {
      |cache| <= MaxCacheSize && KeysDistinct(cache) && PathsDistinct(images)
    }

    /** `Stored`, and the selection points into the list. */
    predicate Valid()
      reads this`cache, this`images, this`selected
    {
      Stored() && (selected.Some? ==> selected.value < |images|)
    }

    constructor (defaultModelPath: string, defaults: map<string, JsonValue>)
      ensures Valid()
      ensures images == [] && selected.None? && currentRotation == 0 && !originalLoaded
      ensures captionField == [] && figureField == [] && cache == []
      ensures this.defaults == defaults && modelPath == defaultModelPath && this.defaultModelPath == defaultModelPath
    {
      images := [];
      selected := None;
      currentRotation := 0;
      originalLoaded := false;
      captionField := [];
      figureField := [];
      cache := [];
      this.defaults := defaults;
      modelPath := defaultModelPath;
      this.defaultModelPath := defaultModelPath;
    }

    /** `_clear_image_cache`. */
    method ClearCache()
      modifies this`cache
      requires Valid()
      ensures Valid() && cache == []
    {
      cache := [];
    }

    /** `_get_from_image_cache`. */
    method GetFromCache(key: string) returns (r: Option<Preview>)
      ensures r.Some? ==> (key, r.value) in cache
      ensures r.None? ==> forall i :: 0 <= i < |cache| ==> cache[i].0 != key
    {
      r := CacheGet(cache, key);
    }

    /** `_add_to_image_cache`: a full cache first drops its oldest entry. */
    method AddToCache(key: string, image: Preview)
      modifies this`cache
      requires Stored()
      ensures Stored()
      ensures cache == CacheAdd(old(cache), key, image)
      ensures CacheGet(cache, key) == Some(image)
    {
      ghost var before := cache;
      if |cache| >= MaxCacheSize {
        cache := cache[1..];
      }
      cache := Put(cache, key, image);
      CacheAddSpec(before, key, image, key);
    }

    /** `load_data_from_file` once the file is read: the saved values, with
      the serial advanced, override the defaults, and a saved model path
      is taken over. */
    method LoadSavedData(saved: map<string, JsonValue>)
      modifies this`defaults, this`modelPath
      ensures defaults == old(defaults) + Loaded(saved)
      ensures modelPath == if ModelPathKey in saved && saved[ModelPathKey].JStr? then saved[ModelPathKey].s else old(modelPath)
    {
      var updated := saved;
      if "Numero" in updated {
        updated := updated["Numero" := NextSerial(updated["Numero"])];
      }
      defaults := defaults + updated;
      if ModelPathKey in saved && saved[ModelPathKey].JStr? {
        modelPath := saved[ModelPathKey].s;
      }
    }

    /** `load_image_preview`: a cached preview is shown as it is; otherwise
      the file is decoded (`decoded`, `None` when that fails), its original
      kept for the rotation buttons, and the preview cached. */
    method LoadImagePreview(path: string, rotation: int, decoded: Option<Preview>)
      modifies this`cache, this`originalLoaded
      requires Stored()
      ensures Stored()
      ensures cache == CacheAfterPreview(old(cache), PreviewKey(path, rotation), decoded)
      ensures originalLoaded == (DecodesPreview(old(cache), PreviewKey(path, rotation), decoded) || old(originalLoaded))
    {
      var key := PreviewKey(path, rotation);
      var cached := GetFromCache(key);
      if cached.Some? {
        return;
      }
      if decoded.Some? {
        originalLoaded := true;
        AddToCache(key, decoded.value);
      }
    }

    /** `load_image_details`: selects photo `index` and fills the detail
      boxes and the rotation from it; an index outside the list does
      nothing. */
    method LoadImageDetails(index: int, decoded: Option<Preview>)
      modifies this`selected, this`currentRotation, this`captionField, this`figureField, this`cache, this`originalLoaded
      requires Stored()
      ensures Stored()
      ensures 0 <= index < |images| ==> (Valid() &&
        selected == Some(index) && currentRotation == images[index].rotation
        && captionField == images[index].description && figureField == images[index].figureNumber)
      ensures 0 <= index < |images| ==>
        var key := PreviewKey(images[index].path, images[index].rotation);
        cache == CacheAfterPreview(old(cache), key, decoded)
        && originalLoaded == (DecodesPreview(old(cache), key, decoded) || old(originalLoaded))
      ensures !(0 <= index < |images|) ==>
        selected == old(selected) && currentRotation == old(currentRotation) && cache == old(cache)
        && captionField == old(captionField) && figureField == old(figureField) && originalLoaded == old(originalLoaded)
    {
      if index < 0 || index >= |images| {
        return;
      }
      selected := Some(index);
      var entry := images[index];
      currentRotation := entry.rotation;
      LoadImagePreview(entry.path, entry.rotation, decoded);
      captionField := entry.description;
      figureField := entry.figureNumber;
    }

    /** `disable_details_controls`: no photo selected, empty boxes, no
      rotation. */
    method ClearDetails()
      modifies this`selected, this`currentRotation, this`captionField, this`figureField, this`originalLoaded
      requires Stored()
      ensures Valid()
      ensures selected.None? && currentRotation == 0 && !originalLoaded && captionField == [] && figureField == []
    {
      captionField := [];
      figureField := [];
      selected := None;
      originalLoaded := false;
      currentRotation := 0;
    }

    /** `add_images`: appends the chosen files not yet listed, then selects
      the photo when the list holds exactly one. */
    method AddImages(paths: seq<string>, decoded: Option<Preview>)
      modifies this`images, this`selected, this`currentRotation, this`captionField, this`figureField,
        this`cache, this`originalLoaded
      requires Valid()
      ensures Valid()
      ensures images == AddPaths(old(images), paths)
      ensures |images| == 1 ==>
        selected == Some(0) && currentRotation == images[0].rotation
        && captionField == images[0].description && figureField == images[0].figureNumber
      ensures |images| == 1 ==>
        var key := PreviewKey(images[0].path, images[0].rotation);
        cache == CacheAfterPreview(old(cache), key, decoded)
        && originalLoaded == (DecodesPreview(old(cache), key, decoded) || old(originalLoaded))
      ensures |images| != 1 ==>
        selected == old(selected) && currentRotation == old(currentRotation)
        && captionField == old(captionField) && figureField == old(figureField)
        && cache == old(cache) && originalLoaded == old(originalLoaded)
    {
      ghost var start := images;
      for k := 0 to |paths|
        invariant images == AddPaths(start, paths[..k]) && |images| >= |start|
        invariant Valid() && selected == old(selected) && currentRotation == old(currentRotation)
        invariant captionField == old(captionField) && figureField == old(figureField)
        invariant cache == old(cache) && originalLoaded == old(originalLoaded)
      {
        assert paths[..k + 1][..k] == paths[..k];
        var path := paths[k];
        if !HasPath(images, path) {
          images := images + [ImageEntry(path, "", 0, NatToString(|images| + 1))];
        }
        assert images == AddPaths(start, paths[..k + 1]);
        AddPathsSpec(start, paths[..k + 1]);
      }
      assert paths[..|paths|] == paths;
      if |images| == 1 {
        LoadImageDetails(0, decoded);
      }
    }

    /** `auto_save_details`: the selected photo takes the stripped caption
      and figure number and the current rotation; the list shows its new
      label. Nothing happens without a selection. */
    method AutoSaveDetails() returns (shown: Option<string>)
      modifies this`images
      requires Valid()
      ensures Valid()
      ensures selected.None? ==> images == old(images) && shown.None?
      ensures selected.Some? ==>
        images == WithDetails(old(images), selected.value, PyStrip(old(captionField)), PyStrip(old(figureField)), currentRotation)
        && shown == Some(DisplayLabel(PyStrip(old(figureField)), PyStrip(old(captionField))))
    {
      if selected.None? {
        return None;
      }
      var caption := PyStrip(captionField);
      var figureNumber := PyStrip(figureField);
      StoreDetails(caption, figureNumber);
      shown := Some(DisplayLabel(figureNumber, caption));
    }

    /** `save_image_details`: as the automatic save, with the rotation
      noted in the label. */
    method SaveImageDetails() returns (shown: Option<string>)
      modifies this`images
      requires Valid()
      ensures Valid()
      ensures selected.None? ==> images == old(images) && shown.None?
      ensures selected.Some? ==>
        images == WithDetails(old(images), selected.value, PyStrip(old(captionField)), PyStrip(old(figureField)), currentRotation)
        && shown == Some(WithRotation(DisplayLabel(PyStrip(old(figureField)), PyStrip(old(captionField))), currentRotation))
    {
      if selected.None? || selected.value >= |images| {
        return None;
      }
      var caption := PyStrip(captionField);
      var figureNumber := PyStrip(figureField);
      StoreDetails(caption, figureNumber);
      shown := Some(WithRotation(DisplayLabel(figureNumber, caption), currentRotation));
    }

    /** Writes the detail boxes and the rotation into the selected photo. */
    method StoreDetails(caption: string, figureNumber: string)
      modifies this`images
      requires Valid() && selected.Some?
      ensures Valid()
      ensures images == WithDetails(old(images), selected.value, caption, figureNumber, currentRotation)
    {
      var index := selected.value;
      DetailsKeepDistinct(images, index, caption, figureNumber, currentRotation);
      images := WithDetails(images, index, caption, figureNumber, currentRotation);
    }

    /** `rotate_left`: a quarter turn anticlockwise, saved into the selected
      photo; nothing without a selection or a decoded original. */
    method RotateLeft() returns (shown: Option<string>)
      modifies this`currentRotation, this`images
      requires Valid()
      ensures Valid()
      ensures selected.None? || !originalLoaded ==>
        currentRotation == old(currentRotation) && images == old(images) && shown.None?
      ensures selected.Some? && originalLoaded ==>
        currentRotation == TurnLeft(old(currentRotation))
        && images == WithDetails(old(images), selected.value, PyStrip(old(captionField)), PyStrip(old(figureField)), currentRotation)
        && shown == Some(DisplayLabel(PyStrip(old(figureField)), PyStrip(old(captionField))))
    {
      if selected.None? || !originalLoaded {
        return None;
      }
      ghost var caption, figureNumber, index := captionField, figureField, selected;
      currentRotation := TurnLeft(currentRotation);
      shown := AutoSaveDetails();
      assert captionField == caption && figureField == figureNumber && selected == index;
    }

    /** `rotate_right`: a quarter turn clockwise, saved into the selected
      photo; nothing without a selection or a decoded original. */
    method RotateRight() returns (shown: Option<string>)
      modifies this`currentRotation, this`images
      requires Valid()
      ensures Valid()
      ensures selected.None? || !originalLoaded ==>
        currentRotation == old(currentRotation) && images == old(images) && shown.None?
      ensures selected.Some? && originalLoaded ==>
        currentRotation == TurnRight(old(currentRotation))
        && images == WithDetails(old(images), selected.value, PyStrip(old(captionField)), PyStrip(old(figureField)), currentRotation)
        && shown == Some(DisplayLabel(PyStrip(old(figureField)), PyStrip(old(captionField))))
    {
      if selected.None? || !originalLoaded {
        return None;
      }
      ghost var caption, figureNumber, index := captionField, figureField, selected;
      currentRotation := TurnRight(currentRotation);
      shown := AutoSaveDetails();
      assert captionField == caption && figureField == figureNumber && selected == index;
    }

    /** `remove_image`: drops the photo highlighted in the list (`index`,
      `None` when nothing is highlighted) and selects the one that takes
      its place, or the new last one; an emptied list clears the details. */
    method RemoveImage(index: Option<nat>, decoded: Option<Preview>)
      modifies this`images, this`selected, this`currentRotation, this`captionField, this`figureField,
        this`cache, this`originalLoaded
      requires Valid()
      requires index.Some? ==> index.value < |images|
      ensures Valid()
      ensures index.None? ==>
        images == old(images) && selected == old(selected) && currentRotation == old(currentRotation)
        && captionField == old(captionField) && figureField == old(figureField)
        && cache == old(cache) && originalLoaded == old(originalLoaded)
      ensures index.Some? ==> images == old(images)[..index.value] + old(images)[index.value + 1..]
      ensures index.Some? && images != [] ==>
        var n := MinInt(index.value, |images| - 1);
        var key := PreviewKey(images[n].path, images[n].rotation);
        selected == Some(n) && currentRotation == images[n].rotation
        && captionField == images[n].description && figureField == images[n].figureNumber
        && cache == CacheAfterPreview(old(cache), key, decoded)
        && originalLoaded == (DecodesPreview(old(cache), key, decoded) || old(originalLoaded))
      ensures index.Some? && images == [] ==>
        selected.None? && currentRotation == 0 && captionField == [] && figureField == []
        && cache == old(cache) && !originalLoaded
    {
      if index.None? {
        return;
      }
      var i := index.value;
      RemoveKeepsDistinct(images, i);
      images := images[..i] + images[i + 1..];
      if images != [] {
        var newIndex := MinInt(i, |images| - 1);
        LoadImageDetails(newIndex, decoded);
      } else {
        ClearDetails();
      }
    }
  }

  /** The selected photo with new details; every photo keeps its file. */
  function WithDetails(images: seq<ImageEntry>, index: nat, caption: string, figureNumber: string, rotation: int): (r: seq<ImageEntry>)
    requires index < |images|
    ensures |r| == |images| && r[index] == ImageEntry(images[index].path, caption, rotation, figureNumber)
    ensures forall i :: 0 <= i < |r| && i != index ==> r[i] == images[i]
    ensures forall i :: 0 <= i < |r| ==> r[i].path == images[i].path
  {
    images[index := ImageEntry(images[index].path, caption, rotation, figureNumber)]
  }

  lemma DetailsKeepDistinct(images: seq<ImageEntry>, index: nat, caption: string, figureNumber: string, rotation: int)
    requires index < |images| && PathsDistinct(images)
    ensures PathsDistinct(WithDetails(images, index, caption, figureNumber, rotation))
  {
    var r := WithDetails(images, index, caption, figureNumber, rotation);
    forall a, b | 0 <= a < b < |r|
      ensures r[a].path != r[b].path
    {
      assert r[a].path == images[a].path && r[b].path == images[b].path;
    }
  }

  lemma RemoveKeepsDistinct(images: seq<ImageEntry>, i: nat)
    requires i < |images| && PathsDistinct(images)
    ensures PathsDistinct(images[..i] + images[i + 1..])
  {
    var rest := images[..i] + images[i + 1..];
    forall a, b | 0 <= a < b < |rest|
      ensures rest[a].path != rest[b].path
    {
      var a' := if a < i then a else a + 1;
      var b' := if b < i then b else b + 1;
      assert rest[a] == images[a'] && rest[b] == images[b'];
    }
  }

  /** After a removal the selected photo is the one that followed the removed
      photo, or the one before it when the last photo went. */
  lemma RemoveSelectsNeighbour(images: seq<ImageEntry>, i: nat)
    requires i < |images| && |images| > 1
    ensures var rest := images[..i] + images[i + 1..];
      var j := MinInt(i, |rest| - 1);
      rest[j] == if i + 1 < |images| then images[i + 1] else images[i - 1]
  {
  }

  // ---------------------------------------------------------------------------
  // Serialising the formatted text box
  // ---------------------------------------------------------------------------

  /** A character of the formatted text box and the tags it carries. */
  datatype StyledChar = StyledChar(c: char, bold: bool, italic: bool, underline: bool)

  /** One character as the serialiser writes it: wrapped in `<b>` first,
      then `<i>`, then `<u>`. */
  function FormatChar(x: StyledChar): string
  {
    var plain := [x.c];
    var withBold := if x.bold then "<b>" + plain + "</b>" else plain;
    var withItalic := if x.italic then "<i>" + withBold + "</i>" else withBold;
    if x.underline then "<u>" + withItalic + "</u>" else withItalic
  }

  /** A line as the serialiser writes it: its characters, each formatted,
      one after the other. */
  function FormatLine(line: seq<StyledChar>): string
  {
    ConcatMap(FormatChar, line)
  }

  /** The pieces `f` gives the elements of `s`, in order. */
  function ConcatMap<T>(f: T -> string, s: seq<T>): string
  {
    if s == [] then [] else ConcatMap(f, s[..|s| - 1]) + f(s[|s| - 1])
  }

  lemma ConcatMapSnoc<T>(f: T -> string, s: seq<T>, c: T)
    ensures ConcatMap(f, s + [c]) == ConcatMap(f, s) + f(c)
  {
    assert (s + [c])[..|s + [c]| - 1] == s;
  }

  lemma {:induction false} ConcatMapAppend<T>(f: T -> string, a: seq<T>, b: seq<T>)
    ensures ConcatMap(f, a + b) == ConcatMap(f, a) + ConcatMap(f, b)
    decreases |b|
  {
    if b == [] {
      assert a + b == a;
    } else {
      var init, last := b[..|b| - 1], b[|b| - 1];
      calc {
        ConcatMap(f, a + b);
        { assert a + b == (a + init) + [last]; }
        ConcatMap(f, (a + init) + [last]);
        { ConcatMapSnoc(f, a + init, last); }
        ConcatMap(f, a + init) + f(last);
        { ConcatMapAppend(f, a, init); }
        ConcatMap(f, a) + ConcatMap(f, init) + f(last);
        { assert b == init + [last];
          ConcatMapSnoc(f, init, last); }
        ConcatMap(f, a) + ConcatMap(f, b);
      }
    }
  }

  lemma ConcatMapCons<T>(f: T -> string, x: T, rest: seq<T>)
    ensures ConcatMap(f, [x] + rest) == f(x) + ConcatMap(f, rest)
  {
    ConcatMapAppend(f, [x], rest);
    assert [x][..0] == [];
  }

  /** Line `k` and the newline that follows every line but the last. */
  function Piece(lines: seq<seq<StyledChar>>, k: nat): string
    requires k < |lines|
  {
    FormatLine(lines[k]) + (if k < |lines| - 1 then "\n" else "")
  }

  function JoinedUpTo(lines: seq<seq<StyledChar>>, n: nat): string
    requires n <= |lines|
  {
    if n == 0 then [] else JoinedUpTo(lines, n - 1) + Piece(lines, n - 1)
  }

  /** The value stored for a formatted field: the serialised lines,
      stripped, or the field's default when nothing is left. */
  function FieldValue(lines: seq<seq<StyledChar>>, default: Option<string>): string
  {
    var text := PyStrip(JoinedUpTo(lines, |lines|));
    if text == [] && default.Some? then default.value else text
  }

  /** The serialisation loop over the lines of the box. */
  method SerializeField(lines: seq<seq<StyledChar>>, default: Option<string>) returns (text: string)
    ensures text == FieldValue(lines, default)
  {
    var content := JoinLines(lines);
    content := PyStrip(content);
    if content == [] && default.Some? {
      content := default.value;
    }
    text := content;
  }

  /** The serialised lines, a newline after each but the last. */
  method JoinLines(lines: seq<seq<StyledChar>>) returns (content: string)
    ensures content == JoinedUpTo(lines, |lines|)
  {
    content := [];
    for i := 0 to |lines|
      invariant content == JoinedUpTo(lines, i)
    {
      var formatted := SerializeLine(lines[i]);
      var separator := if i < |lines| - 1 then "\n" else "";
      assert JoinedUpTo(lines, i + 1) == JoinedUpTo(lines, i) + (formatted + separator);
      content := content + formatted;
      if i < |lines| - 1 {
        content := content + "\n";
      }
    }
  }

  /** The loop over the characters of one line. */
  method SerializeLine(line: seq<StyledChar>) returns (formatted: string)
    ensures formatted == FormatLine(line)
  {
    formatted := [];
    for j := 0 to |line|
      invariant formatted == FormatLine(line[..j])
    {
      var piece := SerializeChar(line[j]);
      assert line[..j + 1] == line[..j] + [line[j]];
      FormatLineSnoc(line[..j], line[j]);
      formatted := formatted + piece;
    }
    assert line[..|line|] == line;
  }

  /** One character with its tags: `<b>` innermost, then `<i>`, then `<u>`. */
  method SerializeChar(x: StyledChar) returns (piece: string)
    ensures piece == FormatChar(x)
  {
    piece := [x.c];
    if x.bold {
      piece := "<b>" + piece + "</b>";
    }
    if x.italic {
      piece := "<i>" + piece + "</i>";
    }
    if x.underline {
      piece := "<u>" + piece + "</u>";
    }
  }

  // ---------------------------------------------------------------------------
  // What the template filler reads back
  // ---------------------------------------------------------------------------

  function StyleOf(x: StyledChar): DocxGenerator.Style
  {
    DocxGenerator.Style(x.bold, x.italic, x.underline)
  }

  /** The characters of `t`, each carrying `style`. */
  function Styled(t: string, style: DocxGenerator.Style): (r: seq<StyledChar>)
    ensures |r| == |t|
  {
    if t == [] then [] else [StyledChar(t[0], style.bold, style.italic, style.underline)] + Styled(t[1..], style)
  }

  /** The formatting the tag scanner's runs add, character by character; the
      placeholder's own run adds none. */
  function ReadBack(runs: seq<DocxGenerator.Run>): seq<StyledChar>
  {
    if runs == [] then [] else RunChars(runs[0]) + ReadBack(runs[1..])
  }

  function RunChars(r: DocxGenerator.Run): seq<StyledChar>
  {
    match r
    case PlaceholderRun(t) => Styled(t, DocxGenerator.Plain)
    case AddedRun(t, style) => Styled(t, style)
  }

  lemma {:induction false} StyledAppend(a: string, b: string, style: DocxGenerator.Style)
    ensures Styled(a + b, style) == Styled(a, style) + Styled(b, style)
  {
    if a != [] {
      StyledAppend(a[1..], b, style);
      assert (a + b)[0] == a[0] && (a + b)[1..] == a[1..] + b;
    } else {
      assert a + b == b;
    }
  }

  lemma {:induction false} ReadBackAppend(a: seq<DocxGenerator.Run>, b: seq<DocxGenerator.Run>)
    ensures ReadBack(a + b) == ReadBack(a) + ReadBack(b)
  {
    if a != [] {
      calc {
        ReadBack(a + b);
        { assert (a + b)[0] == a[0] && (a + b)[1..] == a[1..] + b; }
        RunChars(a[0]) + ReadBack(a[1..] + b);
        { ReadBackAppend(a[1..], b); }
        RunChars(a[0]) + (ReadBack(a[1..]) + ReadBack(b));
        RunChars(a[0]) + ReadBack(a[1..]) + ReadBack(b);
      }
    } else {
      assert a + b == b;
    }
  }

  predicate NoAngle(line: seq<StyledChar>)
  {
    forall k :: 0 <= k < |line| ==> line[k].c != '<'
  }

  function TagText(t: DocxGenerator.Tag): string
  {
    match t
    case OpenB => "<b>"
    case OpenI => "<i>"
    case OpenU => "<u>"
    case CloseB => "</b>"
    case CloseI => "</i>"
    case CloseU => "</u>"
  }

  function TagsText(ts: seq<DocxGenerator.Tag>): string
  {
    if ts == [] then [] else TagText(ts[0]) + TagsText(ts[1..])
  }

  /** The flags after a run of tags that all switch on (or all off). */
  function ApplyAll(style: DocxGenerator.Style, ts: seq<DocxGenerator.Tag>, on: bool): DocxGenerator.Style
    decreases |ts|
  {
    if ts == [] then style else ApplyAll(DocxGenerator.WithFlag(style, ts[0], on), ts[1..], on)
  }

  /** The opening tags around a character, outermost first. */
  function Opens(x: StyledChar): seq<DocxGenerator.Tag>
  {
    (if x.underline then [DocxGenerator.OpenU] else [])
    + (if x.italic then [DocxGenerator.OpenI] else [])
    + (if x.bold then [DocxGenerator.OpenB] else [])
  }

  /** The closing tags after a character, innermost first. */
  function Closes(x: StyledChar): seq<DocxGenerator.Tag>
  {
    (if x.bold then [DocxGenerator.CloseB] else [])
    + (if x.italic then [DocxGenerator.CloseI] else [])
    + (if x.underline then [DocxGenerator.CloseU] else [])
  }

  predicate HasStyle(x: StyledChar)
  {
    x.bold || x.italic || x.underline
  }

  lemma FormatCharShape(x: StyledChar)
    ensures FormatChar(x) == TagsText(Opens(x)) + [x.c] + TagsText(Closes(x))
  {
    var text, opens, closes := [x.c], [], [];
    assert text == TagsText(opens) + [x.c] + TagsText(closes);
    if x.bold {
      WrapShape(DocxGenerator.OpenB, DocxGenerator.CloseB, opens, closes, x.c, text);
      text, opens, closes := "<b>" + text + "</b>", [DocxGenerator.OpenB] + opens, closes + [DocxGenerator.CloseB];
    }
    if x.italic {
      WrapShape(DocxGenerator.OpenI, DocxGenerator.CloseI, opens, closes, x.c, text);
      text, opens, closes := "<i>" + text + "</i>", [DocxGenerator.OpenI] + opens, closes + [DocxGenerator.CloseI];
    }
    if x.underline {
      WrapShape(DocxGenerator.OpenU, DocxGenerator.CloseU, opens, closes, x.c, text);
      text, opens, closes := "<u>" + text + "</u>", [DocxGenerator.OpenU] + opens, closes + [DocxGenerator.CloseU];
    }
    assert text == FormatChar(x);
    assert opens == Opens(x) && closes == Closes(x);
  }

  /** Wrapping a tagged character in one more pair of tags. */
  lemma WrapShape(open: DocxGenerator.Tag, close: DocxGenerator.Tag,
                  opens: seq<DocxGenerator.Tag>, closes: seq<DocxGenerator.Tag>, c: char, s: string)
    requires s == TagsText(opens) + [c] + TagsText(closes)
    ensures TagText(open) + s + TagText(close) == TagsText([open] + opens) + [c] + TagsText(closes + [close])
  {
    calc {
      TagText(open) + s + TagText(close);
      { Regroup(TagText(open), TagsText(opens), c, TagsText(closes), TagText(close), s); }
      (TagText(open) + TagsText(opens)) + [c] + (TagsText(closes) + TagText(close));
      { TagsTextCons(open, opens); }
      TagsText([open] + opens) + [c] + (TagsText(closes) + TagText(close));
      { TagsTextSnoc(closes, close); }
      TagsText([open] + opens) + [c] + TagsText(closes + [close]);
    }
  }

  lemma Regroup(before: string, left: string, c: char, right: string, after: string, s: string)
    requires s == left + [c] + right
    ensures before + s + after == (before + left) + [c] + (right + after)
  {
  }

  lemma TagsTextCons(t: DocxGenerator.Tag, ts: seq<DocxGenerator.Tag>)
    ensures TagsText([t] + ts) == TagText(t) + TagsText(ts)
  {
    assert ([t] + ts)[0] == t && ([t] + ts)[1..] == ts;
  }

  lemma TagsTextSnoc(ts: seq<DocxGenerator.Tag>, t: DocxGenerator.Tag)
    ensures TagsText(ts + [t]) == TagsText(ts) + TagText(t)
  {
    TagsTextAppend(ts, [t]);
    TagsTextCons(t, []);
    assert [t] + [] == [t];
  }

  lemma {:induction false} TagsTextAppend(a: seq<DocxGenerator.Tag>, b: seq<DocxGenerator.Tag>)
    ensures TagsText(a + b) == TagsText(a) + TagsText(b)
  {
    if a != [] {
      calc {
        TagsText(a + b);
        { assert (a + b)[0] == a[0] && (a + b)[1..] == a[1..] + b; }
        TagText(a[0]) + TagsText(a[1..] + b);
        { TagsTextAppend(a[1..], b); }
        TagText(a[0]) + (TagsText(a[1..]) + TagsText(b));
        TagText(a[0]) + TagsText(a[1..]) + TagsText(b);
      }
    } else {
      assert a + b == b;
    }
  }

  lemma {:induction false} ApplyAllAppend(style: DocxGenerator.Style, a: seq<DocxGenerator.Tag>, b: seq<DocxGenerator.Tag>, on: bool)
    ensures ApplyAll(style, a + b, on) == ApplyAll(ApplyAll(style, a, on), b, on)
    decreases |a|
  {
    if a != [] {
      ApplyAllAppend(DocxGenerator.WithFlag(style, a[0], on), a[1..], b, on);
      assert (a + b)[0] == a[0] && (a + b)[1..] == a[1..] + b;
    } else {
      assert a + b == b;
    }
  }

  lemma ApplyOne(style: DocxGenerator.Style, ts: seq<DocxGenerator.Tag>, on: bool)
    requires |ts| <= 1
    ensures ApplyAll(style, ts, on) == if ts == [] then style else DocxGenerator.WithFlag(style, ts[0], on)
  {
    if ts != [] {
      assert ts[1..] == [];
    }
  }

  /** The flag bookkeeping of one styled character: its opening tags set
      exactly its style, the first closing tag reports that style, and the
      remaining closing tags clear every flag. */
  lemma StyleFlags(x: StyledChar)
    requires HasStyle(x)
    ensures Opens(x) != [] && Closes(x) != []
    ensures forall k :: 0 <= k < |Opens(x)| ==> !DocxGenerator.IsClosing(Opens(x)[k])
    ensures forall k :: 0 <= k < |Closes(x)| ==> DocxGenerator.IsClosing(Closes(x)[k])
    ensures DocxGenerator.WithFlag(DocxGenerator.Plain, Opens(x)[0], false) == DocxGenerator.Plain
    ensures ApplyAll(DocxGenerator.Plain, Opens(x), true) == StyleOf(x)
    ensures DocxGenerator.WithFlag(StyleOf(x), Closes(x)[0], true) == StyleOf(x)
    ensures ApplyAll(DocxGenerator.WithFlag(StyleOf(x), Closes(x)[0], false), Closes(x)[1..], false) == DocxGenerator.Plain
  {
    var u := if x.underline then [DocxGenerator.OpenU] else [];
    var i := if x.italic then [DocxGenerator.OpenI] else [];
    var b := if x.bold then [DocxGenerator.OpenB] else [];
    ApplyAllAppend(DocxGenerator.Plain, u + i, b, true);
    ApplyAllAppend(DocxGenerator.Plain, u, i, true);
    ApplyOne(DocxGenerator.Plain, u, true);
    ApplyOne(ApplyAll(DocxGenerator.Plain, u, true), i, true);
    ApplyOne(ApplyAll(DocxGenerator.Plain, u + i, true), b, true);
    var cb := if x.bold then [DocxGenerator.CloseB] else [];
    var ci := if x.italic then [DocxGenerator.CloseI] else [];
    var cu := if x.underline then [DocxGenerator.CloseU] else [];
    var cs := Closes(x);
    assert cs == cb + ci + cu;
    var first := DocxGenerator.WithFlag(StyleOf(x), cs[0], false);
    if x.bold {
      assert cs[1..] == ci + cu;
      ApplyAllAppend(first, ci, cu, false);
      ApplyOne(first, ci, false);
      ApplyOne(ApplyAll(first, ci, false), cu, false);
    } else if x.italic {
      assert cs[1..] == cu;
      ApplyOne(first, cu, false);
    } else {
      assert cs[1..] == [];
    }
  }

  /** Scanning from position `|p| + j` of `p + w` is scanning `w` from `j`. */
  lemma {:induction false} ScanShift(p: string, w: string, j: nat, sc: DocxGenerator.Scanner)
    requires j <= |w|
    ensures DocxGenerator.ScanFrom(p + w, |p| + j, sc) == DocxGenerator.ScanFrom(w, j, sc)
    decreases |w| - j
  {
    if j < |w| {
      assert (p + w)[|p| + j..] == w[j..];
      assert (p + w)[|p| + j] == w[j];
      var t := DocxGenerator.TagAt(w, j);
      assert DocxGenerator.TagAt(p + w, |p| + j) == t;
      match t
      case Some(tag) =>
        ScanShift(p, w, j + DocxGenerator.TagLength(tag), DocxGenerator.AfterTag(sc, tag));
      case None =>
        ScanShift(p, w, j + 1, sc.(buffer := sc.buffer + [w[j]]));
    }
  }

  /** A text that starts with a tag: the flush, then the rest. */
  lemma TagFirst(t: DocxGenerator.Tag, rest: string, sc: DocxGenerator.Scanner)
    ensures DocxGenerator.ScanFrom(TagText(t) + rest, 0, sc)
      == DocxGenerator.FlushAt(sc, t) + DocxGenerator.ScanFrom(rest, 0, DocxGenerator.AfterTag(sc, t))
  {
    var v := TagText(t) + rest;
    TagAtText(t, rest);
    assert DocxGenerator.TagLength(t) == |TagText(t)|;
    ScanShift(TagText(t), rest, 0, DocxGenerator.AfterTag(sc, t));
  }

  /** The scanner recognises every tag the serialiser writes. */
  lemma TagAtText(t: DocxGenerator.Tag, rest: string)
    ensures DocxGenerator.TagAt(TagText(t) + rest, 0) == Some(t)
  {
    var v := TagText(t) + rest;
    assert v[0] == '<' && v[1] == TagText(t)[1] && v[2] == TagText(t)[2];
    if |TagText(t)| == 4 {
      assert v[3] == '>';
    }
  }

  /** A text that starts with a character other than `<`: it joins the buffer. */
  lemma CharFirst(c: char, rest: string, sc: DocxGenerator.Scanner)
    requires c != '<'
    ensures DocxGenerator.ScanFrom([c] + rest, 0, sc)
      == DocxGenerator.ScanFrom(rest, 0, sc.(buffer := sc.buffer + [c]))
  {
    var v := [c] + rest;
    var next := sc.(buffer := sc.buffer + [c]);
    calc {
      DocxGenerator.ScanFrom(v, 0, sc);
      { assert v[0] == c;
        DocxGenerator.NoTagWithoutAngle(v, 0);
        DocxGenerator.PlainCharStep(v, 0, sc); }
      DocxGenerator.ScanFrom(v, 1, next);
      { ScanShift([c], rest, 0, next); }
      DocxGenerator.ScanFrom(rest, 0, next);
    }
  }

  /** A run of tags with nothing buffered only moves the flags. */
  lemma {:induction false} TagsScan(ts: seq<DocxGenerator.Tag>, on: bool, rest: string, sc: DocxGenerator.Scanner)
    requires sc.buffer == []
    requires forall k :: 0 <= k < |ts| ==> DocxGenerator.IsClosing(ts[k]) == !on
    ensures DocxGenerator.ScanFrom(TagsText(ts) + rest, 0, sc)
      == DocxGenerator.ScanFrom(rest, 0, sc.(flags := ApplyAll(sc.flags, ts, on)))
  {
    if ts != [] {
      assert TagsText(ts) + rest == TagText(ts[0]) + (TagsText(ts[1..]) + rest);
      TagFirst(ts[0], TagsText(ts[1..]) + rest, sc);
      var after := DocxGenerator.AfterTag(sc, ts[0]);
      assert after == sc.(flags := DocxGenerator.WithFlag(sc.flags, ts[0], on));
      TagsScan(ts[1..], on, rest, after);
      assert ApplyAll(sc.flags, ts, on) == ApplyAll(after.flags, ts[1..], on);
      assert DocxGenerator.FlushAt(sc, ts[0]) == [];
    } else {
      assert TagsText(ts) + rest == rest;
      assert sc.(flags := ApplyAll(sc.flags, ts, on)) == sc;
    }
  }

  /** The runs one styled character yields: the pending plain text, then the
      character in a run of its own style. */
  lemma StyledCharScan(x: StyledChar, tail: string, buffer: string, hasText: bool)
    requires HasStyle(x) && x.c != '<'
    ensures DocxGenerator.ScanFrom(TagsText(Opens(x)) + ([x.c] + (TagsText(Closes(x)) + tail)), 0,
                                   DocxGenerator.Scanner(DocxGenerator.Plain, buffer, hasText))
      == Flushed(buffer, hasText) + [DocxGenerator.AddedRun([x.c], StyleOf(x))]
         + DocxGenerator.ScanFrom(tail, 0, DocxGenerator.Scanner(DocxGenerator.Plain, [], true))
  {
    var afterChar := [x.c] + (TagsText(Closes(x)) + tail);
    var sc := DocxGenerator.Scanner(DocxGenerator.Plain, buffer, hasText);
    var styled := DocxGenerator.Scanner(StyleOf(x), [], hasText || buffer != []);
    calc {
      DocxGenerator.ScanFrom(TagsText(Opens(x)) + afterChar, 0, sc);
      { OpensScan(x, afterChar, buffer, hasText); }
      Flushed(buffer, hasText) + DocxGenerator.ScanFrom(afterChar, 0, styled);
      { ClosesScan(x, tail, hasText || buffer != []); }
      Flushed(buffer, hasText) + ([DocxGenerator.AddedRun([x.c], StyleOf(x))]
        + DocxGenerator.ScanFrom(tail, 0, DocxGenerator.Scanner(DocxGenerator.Plain, [], true)));
    }
  }

  /** Scanning a serialised character is scanning its tags and the character. */
  lemma ScanFormatChar(x: StyledChar, tail: string, sc: DocxGenerator.Scanner)
    ensures DocxGenerator.ScanFrom(FormatChar(x) + tail, 0, sc)
      == DocxGenerator.ScanFrom(TagsText(Opens(x)) + ([x.c] + (TagsText(Closes(x)) + tail)), 0, sc)
  {
    FormatCharTail(x, tail);
  }

  lemma FormatCharTail(x: StyledChar, tail: string)
    ensures FormatChar(x) + tail == TagsText(Opens(x)) + ([x.c] + (TagsText(Closes(x)) + tail))
  {
    FormatCharShape(x);
  }

  /** The opening tags of a styled character flush the pending plain text
      and set the character's style. */
  lemma OpensScan(x: StyledChar, afterChar: string, buffer: string, hasText: bool)
    requires HasStyle(x)
    ensures DocxGenerator.ScanFrom(TagsText(Opens(x)) + afterChar, 0, DocxGenerator.Scanner(DocxGenerator.Plain, buffer, hasText))
      == Flushed(buffer, hasText)
         + DocxGenerator.ScanFrom(afterChar, 0, DocxGenerator.Scanner(StyleOf(x), [], hasText || buffer != []))
  {
    StyleFlags(x);
    var opens := Opens(x);
    var sc := DocxGenerator.Scanner(DocxGenerator.Plain, buffer, hasText);
    var openState := DocxGenerator.AfterTag(sc, opens[0]);
    assert TagsText(opens) + afterChar == TagText(opens[0]) + (TagsText(opens[1..]) + afterChar);
    TagFirst(opens[0], TagsText(opens[1..]) + afterChar, sc);
    assert DocxGenerator.FlushAt(sc, opens[0]) == Flushed(buffer, hasText);
    TagsScan(opens[1..], true, afterChar, openState);
    assert openState.(flags := ApplyAll(openState.flags, opens[1..], true))
      == DocxGenerator.Scanner(StyleOf(x), [], hasText || buffer != []);
  }

  /** The character and its closing tags yield one run in the character's
      style and clear every flag. */
  lemma ClosesScan(x: StyledChar, tail: string, hasText: bool)
    requires HasStyle(x) && x.c != '<'
    ensures DocxGenerator.ScanFrom([x.c] + (TagsText(Closes(x)) + tail), 0, DocxGenerator.Scanner(StyleOf(x), [], hasText))
      == [DocxGenerator.AddedRun([x.c], StyleOf(x))]
         + DocxGenerator.ScanFrom(tail, 0, DocxGenerator.Scanner(DocxGenerator.Plain, [], true))
  {
    var styled := DocxGenerator.Scanner(StyleOf(x), [], hasText);
    CharFirst(x.c, TagsText(Closes(x)) + tail, styled);
    assert styled.(buffer := styled.buffer + [x.c]) == DocxGenerator.Scanner(StyleOf(x), [x.c], hasText);
    ClosingTagsScan(x, tail, hasText);
  }

  lemma ClosingTagsScan(x: StyledChar, tail: string, hasText: bool)
    requires HasStyle(x)
    ensures DocxGenerator.ScanFrom(TagsText(Closes(x)) + tail, 0, DocxGenerator.Scanner(StyleOf(x), [x.c], hasText))
      == [DocxGenerator.AddedRun([x.c], StyleOf(x))]
         + DocxGenerator.ScanFrom(tail, 0, DocxGenerator.Scanner(DocxGenerator.Plain, [], true))
  {
    StyleFlags(x);
    var closes := Closes(x);
    var holding := DocxGenerator.Scanner(StyleOf(x), [x.c], hasText);
    assert TagsText(closes) + tail == TagText(closes[0]) + (TagsText(closes[1..]) + tail);
    TagFirst(closes[0], TagsText(closes[1..]) + tail, holding);
    var closeState := DocxGenerator.AfterTag(holding, closes[0]);
    TagsScan(closes[1..], false, tail, closeState);
    assert closeState.(flags := ApplyAll(closeState.flags, closes[1..], false))
      == DocxGenerator.Scanner(DocxGenerator.Plain, [], true);
    assert DocxGenerator.FlushAt(holding, closes[0]) == [DocxGenerator.AddedRun([x.c], StyleOf(x))];
  }

  /** What a flush at an opening tag emits for the pending plain text. */
  function Flushed(buffer: string, hasText: bool): seq<DocxGenerator.Run>
  {
    if buffer == [] then []
    else if hasText then [DocxGenerator.AddedRun(buffer, DocxGenerator.Plain)]
    else [DocxGenerator.PlaceholderRun(buffer)]
  }

  lemma FormatLineCons(x: StyledChar, rest: seq<StyledChar>)
    ensures FormatLine([x] + rest) == FormatChar(x) + FormatLine(rest)
  {
    ConcatMapCons(FormatChar, x, rest);
  }


  /** The scanner reads a serialised line back from any scanner state that
      holds only plain pending text. */
  lemma {:induction false} ScanLine(line: seq<StyledChar>, buffer: string, hasText: bool)
    requires NoAngle(line)
    ensures ReadBack(DocxGenerator.ScanFrom(FormatLine(line), 0, DocxGenerator.Scanner(DocxGenerator.Plain, buffer, hasText)))
      == Styled(buffer, DocxGenerator.Plain) + line
    decreases |line|
  {
    if line == [] {
      assert FormatLine(line) == [];
      assert Styled(buffer, DocxGenerator.Plain) + line == Styled(buffer, DocxGenerator.Plain);
    } else {
      var x, rest := line[0], line[1..];
      assert line == [x] + rest;
      FormatLineCons(x, rest);
      assert NoAngle(rest) by {
        forall k | 0 <= k < |rest| ensures rest[k].c != '<' { assert rest[k] == line[k + 1]; }
      }
      assert x.c != '<';
      if HasStyle(x) {
        ScanLine(rest, [], true);
        StyledStep(x, rest, buffer, hasText);
      } else {
        ScanLine(rest, buffer + [x.c], hasText);
        PlainStep(x, rest, buffer, hasText);
      }
    }
  }

  lemma StyledStep(x: StyledChar, rest: seq<StyledChar>, buffer: string, hasText: bool)
    requires HasStyle(x) && x.c != '<'
    requires ReadBack(DocxGenerator.ScanFrom(FormatLine(rest), 0, DocxGenerator.Scanner(DocxGenerator.Plain, [], true))) == rest
    ensures ReadBack(DocxGenerator.ScanFrom(FormatChar(x) + FormatLine(rest), 0, DocxGenerator.Scanner(DocxGenerator.Plain, buffer, hasText)))
      == Styled(buffer, DocxGenerator.Plain) + ([x] + rest)
  {
    ScanFormatChar(x, FormatLine(rest), DocxGenerator.Scanner(DocxGenerator.Plain, buffer, hasText));
    StyledCharScan(x, FormatLine(rest), buffer, hasText);
    ReadBackPieces(buffer, hasText, x,
      DocxGenerator.ScanFrom(FormatLine(rest), 0, DocxGenerator.Scanner(DocxGenerator.Plain, [], true)));
  }

  lemma ReadBackPieces(buffer: string, hasText: bool, x: StyledChar, tailRuns: seq<DocxGenerator.Run>)
    ensures ReadBack(Flushed(buffer, hasText) + [DocxGenerator.AddedRun([x.c], StyleOf(x))] + tailRuns)
      == Styled(buffer, DocxGenerator.Plain) + ([x] + ReadBack(tailRuns))
  {
    var flushed, charRun := Flushed(buffer, hasText), [DocxGenerator.AddedRun([x.c], StyleOf(x))];
    calc {
      ReadBack(flushed + charRun + tailRuns);
      { ReadBackAppend(flushed + charRun, tailRuns); }
      ReadBack(flushed + charRun) + ReadBack(tailRuns);
      { ReadBackAppend(flushed, charRun); }
      ReadBack(flushed) + ReadBack(charRun) + ReadBack(tailRuns);
      { ReadBackFlushed(buffer, hasText); ReadBackChar(x); }
      Styled(buffer, DocxGenerator.Plain) + [x] + ReadBack(tailRuns);
    }
  }

  lemma ReadBackFlushed(buffer: string, hasText: bool)
    ensures ReadBack(Flushed(buffer, hasText)) == Styled(buffer, DocxGenerator.Plain)
  {
    if buffer != [] {
      var runs := Flushed(buffer, hasText);
      assert runs[1..] == [];
    }
  }

  lemma ReadBackChar(x: StyledChar)
    ensures ReadBack([DocxGenerator.AddedRun([x.c], StyleOf(x))]) == [x]
  {
    var runs := [DocxGenerator.AddedRun([x.c], StyleOf(x))];
    assert runs[1..] == [];
    assert [x.c][1..] == [];
  }

  lemma PlainStep(x: StyledChar, rest: seq<StyledChar>, buffer: string, hasText: bool)
    requires !HasStyle(x) && x.c != '<'
    requires ReadBack(DocxGenerator.ScanFrom(FormatLine(rest), 0, DocxGenerator.Scanner(DocxGenerator.Plain, buffer + [x.c], hasText)))
      == Styled(buffer + [x.c], DocxGenerator.Plain) + rest
    ensures ReadBack(DocxGenerator.ScanFrom(FormatChar(x) + FormatLine(rest), 0, DocxGenerator.Scanner(DocxGenerator.Plain, buffer, hasText)))
      == Styled(buffer, DocxGenerator.Plain) + ([x] + rest)
  {
    var sc := DocxGenerator.Scanner(DocxGenerator.Plain, buffer, hasText);
    calc {
      ReadBack(DocxGenerator.ScanFrom(FormatChar(x) + FormatLine(rest), 0, sc));
      { PlainChar(x); }
      ReadBack(DocxGenerator.ScanFrom([x.c] + FormatLine(rest), 0, sc));
      { CharFirst(x.c, FormatLine(rest), sc); }
      ReadBack(DocxGenerator.ScanFrom(FormatLine(rest), 0, sc.(buffer := buffer + [x.c])));
      Styled(buffer + [x.c], DocxGenerator.Plain) + rest;
      { StyledAppend(buffer, [x.c], DocxGenerator.Plain);
        PlainChar(x); }
      Styled(buffer, DocxGenerator.Plain) + [x] + rest;
    }
  }

  /** A character without formatting is written as itself. */
  lemma PlainChar(x: StyledChar)
    requires !HasStyle(x)
    ensures FormatChar(x) == [x.c] && Styled([x.c], DocxGenerator.Plain) == [x]
  {
  }

  /** The template filler's tag scanner recovers every character of a
      serialised line together with the formatting the box gave it,
      whatever text precedes the placeholder. */
  lemma ScanReadsBack(line: seq<StyledChar>, textBefore: string)
    requires NoAngle(line)
    ensures ReadBack(DocxGenerator.Scan(FormatLine(line), textBefore)) == line
  {
    ScanLine(line, [], textBefore != []);
  }

  /** The line break between two lines of the box, which carries no tag. */
  const Newline: StyledChar := StyledChar('\n', false, false, false)

  /** The characters of the first `n` lines, a line break after each but the
      last line of the box. */
  function JoinCharsUpTo(lines: seq<seq<StyledChar>>, n: nat): seq<StyledChar>
    requires n <= |lines|
  {
    if n == 0 then []
    else JoinCharsUpTo(lines, n - 1) + lines[n - 1] + (if n - 1 < |lines| - 1 then [Newline] else [])
  }

  lemma FormatLineSnoc(s: seq<StyledChar>, c: StyledChar)
    ensures FormatLine(s + [c]) == FormatLine(s) + FormatChar(c)
  {
    ConcatMapSnoc(FormatChar, s, c);
  }

  lemma FormatLineAppend(a: seq<StyledChar>, b: seq<StyledChar>)
    ensures FormatLine(a + b) == FormatLine(a) + FormatLine(b)
  {
    ConcatMapAppend(FormatChar, a, b);
  }

  /** The serialised text is the serialisation of the joined characters. */
  lemma {:induction false} JoinedIsFormatted(lines: seq<seq<StyledChar>>, n: nat)
    requires n <= |lines|
    ensures JoinedUpTo(lines, n) == FormatLine(JoinCharsUpTo(lines, n))
  {
    if n > 0 {
      JoinedIsFormatted(lines, n - 1);
      var sep: seq<StyledChar> := if n - 1 < |lines| - 1 then [Newline] else [];
      FormatLineAppend(JoinCharsUpTo(lines, n - 1) + lines[n - 1], sep);
      FormatLineAppend(JoinCharsUpTo(lines, n - 1), lines[n - 1]);
      if sep != [] {
        assert FormatLine(sep) == FormatLine([]) + FormatChar(Newline);
      }
    }
  }

  lemma {:induction false} JoinCharsNoAngle(lines: seq<seq<StyledChar>>, n: nat)
    requires n <= |lines|
    requires forall i :: 0 <= i < |lines| ==> NoAngle(lines[i])
    ensures NoAngle(JoinCharsUpTo(lines, n))
  {
    if n > 0 {
      JoinCharsNoAngle(lines, n - 1);
      var prev := JoinCharsUpTo(lines, n - 1);
      var sep: seq<StyledChar> := if n - 1 < |lines| - 1 then [Newline] else [];
      var all := prev + lines[n - 1] + sep;
      forall k | 0 <= k < |all|
        ensures all[k].c != '<'
      {
        if k < |prev| {
          assert all[k] == prev[k];
        } else if k < |prev| + |lines[n - 1]| {
          assert all[k] == lines[n - 1][k - |prev|];
        }
      }
    }
  }

  /** On the template filler's tag-scanner path (the "Oggetto del
      Sopralluogo" placeholder, a value holding `<b>`, `<i>` or `<u>`, and
      the placeholder inside one run), every character the box held, line
      breaks included, reaches the document with the formatting the box
      gave it: the scanner inverts the serialisation of the whole box
      (before the outer whitespace is stripped). */
  lemma FieldReadsBack(lines: seq<seq<StyledChar>>, textBefore: string)
    requires forall i :: 0 <= i < |lines| ==> NoAngle(lines[i])
    ensures ReadBack(DocxGenerator.Scan(JoinedUpTo(lines, |lines|), textBefore)) == JoinCharsUpTo(lines, |lines|)
  {
    JoinedIsFormatted(lines, |lines|);
    JoinCharsNoAngle(lines, |lines|);
    ScanReadsBack(JoinCharsUpTo(lines, |lines|), textBefore);
  }
}
