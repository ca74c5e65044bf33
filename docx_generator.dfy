/** The Word-template filler of the desktop tool: how a `{{placeholder}}` is
    resolved against the form data, which placeholders are left to the
    checkbox pass, the tag scanner that turns `<b>`/`<i>`/`<u>` markup into
    formatted runs, the choice of the checkbox a boolean placeholder sets,
    and the size and caption arithmetic of the photo table. Python's
    `lower`, `isalnum` and `isspace` are modelled on the Latin-1 range. */
module DocxGenerator {
  import opened Util

  // ---------------------------------------------------------------------------
  // normalize_text
  // ---------------------------------------------------------------------------

  /** `str.isupper` for one character of the Latin-1 range. */
  predicate IsUpper(c: char)
  {
    ('A' <= c <= 'Z') || ('\U{00C0}' <= c <= '\U{00DE}' && c != '\U{00D7}')
  }

  /** `str.lower` for one character of the Latin-1 range. */
  function Lower(c: char): (l: char)
    ensures !IsUpper(l)
    ensures !IsUpper(c) ==> l == c
  {
    if IsUpper(c) then (c as int + 32) as char else c
  }

  function LowerAll(s: string): (r: string)
    ensures |r| == |s| && forall i :: 0 <= i < |s| ==> r[i] == Lower(s[i])
  {
    if s == [] then [] else [Lower(s[0])] + LowerAll(s[1..])
  }

  /** `str.isalnum` for one character: ASCII letters and digits, and the
      Latin-1 letters and digit-like signs. */
  predicate IsAlnum(c: char)
  {
    ('0' <= c <= '9') || ('A' <= c <= 'Z') || ('a' <= c <= 'z')
    || c == '\U{00AA}' || c == '\U{00B2}' || c == '\U{00B3}' || c == '\U{00B5}'
    || c == '\U{00B9}' || c == '\U{00BA}' || ('\U{00BC}' <= c <= '\U{00BE}')
    || ('\U{00C0}' <= c <= '\U{00FF}' && c != '\U{00D7}' && c != '\U{00F7}')
  }

  predicate NotPySpace(c: char)
  {
    !IsPySpace(c)
  }

  predicate NoPySpace(w: string)
  {
    forall j :: 0 <= j < |w| ==> !IsPySpace(w[j])
  }

  /** The position of the first whitespace character, or `|s|`. */
  function FirstPySpace(s: string): (i: nat)
    ensures i <= |s| && (i < |s| ==> IsPySpace(s[i]))
    ensures NoPySpace(s[..i])
  {
    if s == [] || IsPySpace(s[0]) then 0
    else
      var i := 1 + FirstPySpace(s[1..]);
      assert s[..i] == [s[0]] + s[1..][..i - 1];
      i
  }

  /** `s.split()`: the maximal runs of non-whitespace, in order. */
  function PySplit(s: string): (words: seq<string>)
    decreases |s|
  {
    var t := PyStripLeft(s);
    if t == [] then []
    else
      var i := FirstPySpace(t);
      [t[..i]] + PySplit(t[i..])
  }

  /** `' '.join(words)`. */
  function Join(words: seq<string>): string
  {
    if words == [] then []
    else if |words| == 1 then words[0]
    else words[0] + " " + Join(words[1..])
  }

  /** What survives the symbol removal: letters, digits and whitespace. */
  predicate KeptByNormalize(c: char)
  {
    IsAlnum(c) || IsPySpace(c)
  }

  /** `normalize_text`: lower-case, collapse whitespace runs to one space and
      drop the outer ones, then remove every character that is neither
      alphanumeric nor whitespace. */
  function NormalizeText(text: string): string
  {
    Filter(Join(PySplit(LowerAll(text))), KeptByNormalize)
  }

  lemma {:induction false} FilterNoPySpace(w: string)
    requires NoPySpace(w)
    ensures Filter(w, NotPySpace) == w
  {
    if w != [] {
      FilterNoPySpace(w[1..]);
      assert [w[0]] + w[1..] == w;
    }
  }

  /** Filtering by a weaker test first changes nothing. */
  lemma {:induction false} FilterFilter(s: string, p: char -> bool, q: char -> bool)
    requires forall c :: q(c) ==> p(c)
    ensures Filter(Filter(s, p), q) == Filter(s, q)
  {
    if s != [] {
      FilterFilter(s[1..], p, q);
      var head := if p(s[0]) then [s[0]] else [];
      FilterAppend(head, Filter(s[1..], p), q);
    }
  }

  lemma {:induction false} FilterLeadingSpaces(s: string)
    ensures Filter(PyStripLeft(s), NotPySpace) == Filter(s, NotPySpace)
  {
    if s != [] && IsPySpace(s[0]) {
      FilterLeadingSpaces(s[1..]);
    }
  }

  /** The words, run together, are the text without its whitespace. */
  lemma {:induction false} PySplitContent(s: string)
    ensures Concat(PySplit(s)) == Filter(s, NotPySpace)
    decreases |s|
  {
    var t := PyStripLeft(s);
    FilterLeadingSpaces(s);
    if t != [] {
      var i := FirstPySpace(t);
      PySplitContent(t[i..]);
      FirstWordContent(t, i);
      assert PySplit(s) == [t[..i]] + PySplit(t[i..]);
      assert Concat(PySplit(s)) == t[..i] + Concat(PySplit(t[i..]));
    }
  }

  lemma FirstWordContent(t: string, i: nat)
    requires i <= |t| && NoPySpace(t[..i])
    ensures Filter(t, NotPySpace) == t[..i] + Filter(t[i..], NotPySpace)
  {
    assert t == t[..i] + t[i..];
    FilterAppend(t[..i], t[i..], NotPySpace);
    FilterNoPySpace(t[..i]);
  }

  /** The joining spaces are invisible to a test that rejects a space. */
  lemma {:induction false} JoinFilter(words: seq<string>, p: char -> bool)
    requires !p(' ')
    ensures Filter(Join(words), p) == Filter(Concat(words), p)
  {
    if |words| == 1 {
      assert Concat(words) == words[0] + Concat(words[1..]);
      assert words[1..] == [];
      assert Concat(words) == words[0];
    } else if |words| > 1 {
      JoinFilter(words[1..], p);
      FilterAppend(words[0] + " ", Join(words[1..]), p);
      FilterAppend(words[0], " ", p);
      FilterAppend(words[0], Concat(words[1..]), p);
    }
  }

  /** Every character of `s` passes `P`. */
  predicate All(s: string, P: char -> bool)
  {
    forall i :: 0 <= i < |s| ==> P(s[i])
  }

  lemma {:induction false} AllFilter(s: string, p: char -> bool, P: char -> bool)
    requires All(s, P)
    ensures All(Filter(s, p), P)
  {
    if s != [] {
      AllFilter(s[1..], p, P);
      var head := if p(s[0]) then [s[0]] else [];
      assert Filter(s, p) == head + Filter(s[1..], p);
    }
  }

  lemma {:induction false} AllJoin(words: seq<string>, P: char -> bool)
    requires P(' ') && forall k :: 0 <= k < |words| ==> All(words[k], P)
    ensures All(Join(words), P)
  {
    if |words| > 1 {
      AllJoin(words[1..], P);
      assert Join(words) == words[0] + " " + Join(words[1..]);
    }
  }

  lemma {:induction false} AllPySplit(s: string, P: char -> bool)
    requires All(s, P)
    ensures forall k :: 0 <= k < |PySplit(s)| ==> All(PySplit(s)[k], P)
    decreases |s|
  {
    var t := PyStripLeft(s);
    if t != [] {
      var i := FirstPySpace(t);
      AllSlice(s, |s| - |t|, |s|, P);
      assert s[|s| - |t|..|s|] == t;
      AllSlice(t, 0, i, P);
      AllSlice(t, i, |t|, P);
      assert t[0..i] == t[..i] && t[i..|t|] == t[i..];
      AllPySplit(t[i..], P);
      AllCons(t[..i], PySplit(t[i..]), P);
    }
  }

  lemma AllCons(w: string, rest: seq<string>, P: char -> bool)
    requires All(w, P) && forall k :: 0 <= k < |rest| ==> All(rest[k], P)
    ensures forall k :: 0 <= k < |[w] + rest| ==> All(([w] + rest)[k], P)
  {
    forall k | 0 <= k < |[w] + rest| ensures All(([w] + rest)[k], P) {
      if k > 0 {
        assert ([w] + rest)[k] == rest[k - 1];
      }
    }
  }

  lemma AllSlice(s: string, a: nat, b: nat, P: char -> bool)
    requires a <= b <= |s| && All(s, P)
    ensures All(s[a..b], P)
  {
    forall j | 0 <= j < b - a ensures P(s[a..b][j]) {
      assert s[a..b][j] == s[a + j];
    }
  }

  /** The words are non-empty and hold no whitespace. */
  lemma {:induction false} PySplitWords(s: string)
    ensures forall k :: 0 <= k < |PySplit(s)| ==> PySplit(s)[k] != [] && NoPySpace(PySplit(s)[k])
    decreases |s|
  {
    var t := PyStripLeft(s);
    if t != [] {
      var i := FirstPySpace(t);
      PySplitWords(t[i..]);
      var words := PySplit(s);
      assert words == [t[..i]] + PySplit(t[i..]);
      forall k | 0 <= k < |words| ensures words[k] != [] && NoPySpace(words[k]) {
        if k > 0 {
          assert words[k] == PySplit(t[i..])[k - 1];
        }
      }
    }
  }

  predicate PlainSpaceOnly(c: char)
  {
    !IsPySpace(c) || c == ' '
  }

  predicate NotUpper(c: char)
  {
    !IsUpper(c)
  }

  /** A normalised text holds only letters, digits and plain spaces, and no
      capital letter. */
  lemma NormalizeTextAlphabet(text: string)
    ensures All(NormalizeText(text), c => (IsAlnum(c) || c == ' ') && !IsUpper(c))
  {
    var lowered := LowerAll(text);
    var words := PySplit(lowered);
    assert All(lowered, NotUpper);
    AllPySplit(lowered, NotUpper);
    AllJoin(words, NotUpper);
    AllFilter(Join(words), KeptByNormalize, NotUpper);
    PySplitWords(lowered);
    forall k | 0 <= k < |words| ensures All(words[k], PlainSpaceOnly) {
      assert NoPySpace(words[k]);
    }
    AllJoin(words, PlainSpaceOnly);
    AllFilter(Join(words), KeptByNormalize, PlainSpaceOnly);
    FilterPasses(Join(words), KeptByNormalize);
  }

  /** Normalising keeps the letters and digits, lower-cased and in order. */
  lemma NormalizeTextContent(text: string)
    ensures Filter(NormalizeText(text), IsAlnum) == Filter(LowerAll(text), IsAlnum)
  {
    var lowered := LowerAll(text);
    var words := PySplit(lowered);
    FilterFilter(Join(words), KeptByNormalize, IsAlnum);
    JoinFilter(words, IsAlnum);
    PySplitContent(lowered);
    FilterFilter(lowered, NotPySpace, IsAlnum);
  }

  predicate LowerWordChar(c: char)
  {
    IsAlnum(c) && !IsUpper(c)
  }

  predicate SymbolChar(c: char)
  {
    !IsAlnum(c) && !IsPySpace(c) && !IsUpper(c)
  }

  /** Whitespace is collapsed before symbols are removed, so a symbol standing
      between two spaces leaves two spaces behind: `a - b` becomes `a  b`. */
  lemma NormalizeSymbolBetweenWords(a: string, sym: string, b: string)
    requires a != [] && b != [] && sym != []
    requires All(a, LowerWordChar) && All(b, LowerWordChar) && All(sym, SymbolChar)
    ensures NormalizeText(a + " " + sym + " " + b) == a + "  " + b
  {
    var text := a + " " + sym + " " + b;
    ThreeWordsLower(a, sym, b);
    NoSpaceWord(a, LowerWordChar);
    NoSpaceWord(sym, SymbolChar);
    NoSpaceWord(b, LowerWordChar);
    ThreeWordsSplit(a, sym, b);
    ThreeWordsJoin(a, sym, b);
    ThreeWordsFilter(a, sym, b);
  }

  lemma ThreeWordsLower(a: string, sym: string, b: string)
    requires All(a, LowerWordChar) && All(b, LowerWordChar) && All(sym, SymbolChar)
    ensures LowerAll(a + " " + sym + " " + b) == a + " " + sym + " " + b
  {
    var text := a + " " + sym + " " + b;
    forall i | 0 <= i < |text| ensures !IsUpper(text[i]) {
      if i < |a| {
        assert text[i] == a[i];
      } else if |a| + 1 <= i < |a| + 1 + |sym| {
        assert text[i] == sym[i - |a| - 1];
      } else if i >= |a| + 2 + |sym| {
        assert text[i] == b[i - |a| - 2 - |sym|];
      }
    }
    LowerAllUnchanged(text);
  }

  lemma NoSpaceWord(w: string, P: char -> bool)
    requires All(w, P) && forall c :: P(c) ==> !IsPySpace(c)
    ensures NoPySpace(w)
  {
    forall j | 0 <= j < |w| ensures !IsPySpace(w[j]) {
      assert P(w[j]);
    }
  }

  lemma ThreeWordsSplit(a: string, sym: string, b: string)
    requires a != [] && b != [] && sym != []
    requires NoPySpace(a) && NoPySpace(sym) && NoPySpace(b)
    ensures PySplit(a + " " + sym + " " + b) == [a, sym, b]
  {
    var tail := sym + " " + b;
    assert a + " " + sym + " " + b == a + " " + tail;
    SplitWordThenRest(a, tail);
    TwoWordsSplit(sym, b);
  }

  lemma TwoWordsSplit(a: string, b: string)
    requires a != [] && b != [] && NoPySpace(a) && NoPySpace(b)
    ensures PySplit(a + " " + b) == [a, b]
  {
    SplitWordThenRest(a, b);
    SplitOneWord(b);
  }

  lemma ThreeWordsJoin(a: string, sym: string, b: string)
    ensures Join([a, sym, b]) == a + " " + sym + " " + b
  {
    assert [a, sym, b][1..] == [sym, b];
    assert [sym, b][1..] == [b];
    assert Join([sym, b]) == sym + " " + b;
    assert Join([a, sym, b]) == a + " " + (sym + " " + b);
  }

  lemma ThreeWordsFilter(a: string, sym: string, b: string)
    requires All(a, LowerWordChar) && All(b, LowerWordChar) && All(sym, SymbolChar)
    ensures Filter(a + " " + sym + " " + b, KeptByNormalize) == a + "  " + b
  {
    var p := KeptByNormalize;
    FilterDropsAll(sym, p);
    FilterKeepsAll(a, p);
    FilterKeepsAll(b, p);
    assert Filter(" ", p) == " ";
    FilterAppend(a, " ", p);
    var f1 := a + " ";
    assert Filter(a + " ", p) == f1;
    FilterAppend(a + " ", sym, p);
    assert Filter(a + " " + sym, p) == f1;
    FilterAppend(a + " " + sym, " ", p);
    var f2 := f1 + " ";
    assert Filter(a + " " + sym + " ", p) == f2;
    FilterAppend(a + " " + sym + " ", b, p);
    assert Filter(a + " " + sym + " " + b, p) == f2 + b;
    assert f2 + b == a + "  " + b;
  }

  lemma {:induction false} FilterDropsAll(s: string, p: char -> bool)
    requires forall i :: 0 <= i < |s| ==> !p(s[i])
    ensures Filter(s, p) == []
  {
    if s != [] {
      FilterDropsAll(s[1..], p);
    }
  }

  lemma {:induction false} FilterKeepsAll(s: string, p: char -> bool)
    requires forall i :: 0 <= i < |s| ==> p(s[i])
    ensures Filter(s, p) == s
  {
    if s != [] {
      FilterKeepsAll(s[1..], p);
      assert [s[0]] + s[1..] == s;
    }
  }

  lemma LowerAllUnchanged(s: string)
    requires forall i :: 0 <= i < |s| ==> !IsUpper(s[i])
    ensures LowerAll(s) == s
  {
  }

  lemma SplitOneWord(w: string)
    requires w != [] && NoPySpace(w)
    ensures PySplit(w) == [w]
  {
    assert PyStripLeft(w) == w;
    calc {
      PySplit(w);
      { SpaceFreePrefix(w); }
      [w[..|w|]] + PySplit(w[|w|..]);
      { assert w[..|w|] == w && w[|w|..] == []; }
      [w] + PySplit([]);
      { assert PyStripLeft([]) == []; }
      [w];
    }
  }

  /** With no whitespace in `w`, `FirstPySpace(w + rest)` is at least `|w|`. */
  lemma {:induction false} SpaceFreePrefix(w: string)
    requires NoPySpace(w)
    ensures FirstPySpace(w) == |w|
  {
    if w != [] {
      SpaceFreePrefix(w[1..]);
    }
  }

  lemma {:induction false} FirstSpaceAfterWord(w: string, rest: string)
    requires NoPySpace(w)
    ensures FirstPySpace(w + " " + rest) == |w|
  {
    if w != [] {
      FirstSpaceAfterWord(w[1..], rest);
      assert (w + " " + rest)[1..] == w[1..] + " " + rest;
    } else {
      assert (w + " " + rest)[0] == ' ';
    }
  }

  lemma SplitWordThenRest(w: string, rest: string)
    requires w != [] && NoPySpace(w)
    ensures PySplit(w + " " + rest) == [w] + PySplit(rest)
  {
    var s := w + " " + rest;
    assert !IsPySpace(s[0]);
    assert PyStripLeft(s) == s;
    FirstSpaceAfterWord(w, rest);
    assert s[..|w|] == w;
    assert s[|w|..] == " " + rest;
    assert PyStripLeft(" " + rest) == PyStripLeft(rest) by {
      assert (" " + rest)[1..] == rest;
    }
    assert PySplit(" " + rest) == PySplit(rest);
  }

  // ---------------------------------------------------------------------------
  // Placeholder resolution
  // ---------------------------------------------------------------------------

  /** A form value: a string, a checkbox flag, or Python's `None`. */
  datatype Value = Str(s: string) | Bool(b: bool) | Null

  /** The form data as a dictionary: its entries in insertion order. */
  type Data = seq<(string, Value)>

  predicate DistinctKeys(d: Data)
  {
    forall i, j :: 0 <= i < j < |d| ==> d[i].0 != d[j].0
  }

  /** `data[k]` when `k in data`, `None` otherwise; with repeated keys the
      last entry is the one a dictionary keeps. */
  function Get(d: Data, k: string): Value
  {
    if d == [] then Null
    else if d[|d| - 1].0 == k then d[|d| - 1].1
    else Get(d[..|d| - 1], k)
  }

  lemma {:induction false} GetSound(d: Data, k: string)
    requires Get(d, k) != Null
    ensures (k, Get(d, k)) in d
  {
    if d[|d| - 1].0 != k {
      GetSound(d[..|d| - 1], k);
    }
  }

  lemma {:induction false} GetComplete(d: Data, k: string, v: Value)
    requires DistinctKeys(d) && (k, v) in d
    ensures Get(d, k) == v
  {
    var last := |d| - 1;
    if d[last] != (k, v) {
      var i :| 0 <= i < |d| && d[i] == (k, v);
      assert i < last;
      assert d[..last][i] == (k, v);
      GetComplete(d[..last], k, v);
    }
  }

  /** `{normalize_text(k): v for k, v in data.items()}`. */
  function NormalizedData(d: Data): (n: Data)
    ensures |n| == |d|
    ensures forall i :: 0 <= i < |d| ==> n[i] == (NormalizeText(d[i].0), d[i].1)
  {
    seq(|d|, i requires 0 <= i < |d| => (NormalizeText(d[i].0), d[i].1))
  }

  predicate NotPlainSpace(c: char)
  {
    c != ' '
  }

  /** `placeholder.replace(" ", "")`. */
  function RemoveSpaces(p: string): string
  {
    Filter(p, NotPlainSpace)
  }

  /** The lookup chain: the exact name, the name without spaces, the
      normalised name, then the normalised name among the normalised keys;
      `Null` when all four fail (the placeholder then becomes ""). */
  function Resolve(p: string, d: Data): Value
  {
    var exact := Get(d, p);
    if exact != Null then exact
    else
      var compact := Get(d, RemoveSpaces(p));
      if compact != Null then compact
      else
        var normal := Get(d, NormalizeText(p));
        if normal != Null then normal
        else Get(NormalizedData(d), NormalizeText(p))
  }

  /** A resolved value is the value of an entry whose key is the name, the
      name without spaces or the normalised name, or normalises like the name. */
  lemma ResolveSound(p: string, d: Data)
    requires Resolve(p, d) != Null
    ensures exists k :: (k, Resolve(p, d)) in d && (k == p || k == RemoveSpaces(p) || k == NormalizeText(p) || NormalizeText(k) == NormalizeText(p))
  {
    var np := NormalizeText(p);
    if Get(d, p) != Null {
      GetSound(d, p);
    } else if Get(d, RemoveSpaces(p)) != Null {
      GetSound(d, RemoveSpaces(p));
    } else if Get(d, np) != Null {
      GetSound(d, np);
    } else {
      var n := NormalizedData(d);
      GetSound(n, np);
      var i :| 0 <= i < |n| && n[i] == (np, Resolve(p, d));
      assert d[i] == (d[i].0, Resolve(p, d));
      assert NormalizeText(d[i].0) == np;
    }
  }

  /** A non-`None` entry under the name, the name without spaces or the
      normalised name is always found. */
  lemma ResolveComplete(p: string, d: Data, k: string, v: Value)
    requires DistinctKeys(d) && (k, v) in d && v != Null
    requires k == p || k == RemoveSpaces(p) || k == NormalizeText(p)
    ensures Resolve(p, d) != Null
    ensures k == p ==> Resolve(p, d) == v
  {
    GetComplete(d, k, v);
  }

  /** The placeholders the text pass leaves for the checkbox pass. */
  const CheckboxLabels: seq<string> := [
    "Visivo", "Rilievo/Verifica misure", "Test/Collaudo", "Altro",
    "Conforme/Positivo", "Non conforme", "Osservazione",
    "D.L. Generale", "D.L. Strutture", "D.L. Facciate",
    "D.L. Imp. Elettrici/Speciali", "D.L. Imp. Meccanici"]

  predicate Skipped(p: string)
  {
    StartsWith(p, "checkbox_") || p in CheckboxLabels
  }

  /** `str(value)` of a resolved value, with `None` replaced by "". */
  function Show(v: Value): string
  {
    match v
    case Str(s) => s
    case Bool(b) => if b then "True" else "False"
    case Null => ""
  }

  /** The text put in place of `{{p}}` by the text pass, or `None` when the
      placeholder is left alone. */
  function Replacement(p: string, d: Data): (r: Option<string>)
    ensures r.None? <==> Skipped(p)
    ensures r.Some? && Resolve(p, d) == Null ==> r.value == ""
    ensures r.Some? && Resolve(p, d).Str? ==> r.value == Resolve(p, d).s
  {
    if Skipped(p) then None else Some(Show(Resolve(p, d)))
  }

  // ---------------------------------------------------------------------------
  // The tag scanner for the formatted field
  // ---------------------------------------------------------------------------

  /** The placeholder whose value may carry `<b>`, `<i>` and `<u>` markup. */
  const FormattedPlaceholder: string := "Oggetto del Sopralluogo"

  /** `part in s` for strings. */
  predicate Contains(s: string, part: string)
  {
    StartsWith(s, part) || (s != [] && Contains(s[1..], part))
  }

  /** Whether the value is written through the tag scanner. */
  predicate UsesTagScanner(p: string, value: string)
  {
    p == FormattedPlaceholder && (Contains(value, "<b>") || Contains(value, "<i>") || Contains(value, "<u>"))
  }

  datatype Style = Style(bold: bool, italic: bool, underline: bool)

  const Plain: Style := Style(false, false, false)

  /** A piece of the output paragraph: text written into the run that held
      the placeholder (keeping that run's own formatting), or a run added at
      the paragraph's end with an explicit style. */
  datatype Run = PlaceholderRun(text: string) | AddedRun(text: string, style: Style)

  datatype Tag = OpenB | OpenI | OpenU | CloseB | CloseI | CloseU

  /** The tag starting at position `i`, as the scanner tests it: the slices
      `value[i:i+3]` and `value[i:i+4]` against the six tokens in turn. */
  function TagTestedInOrder(value: string, i: nat): Option<Tag>
    requires i <= |value|
  {
    var rest := value[i..];
    if StartsWith(rest, "<b>") then Some(OpenB)
    else if StartsWith(rest, "<i>") then Some(OpenI)
    else if StartsWith(rest, "<u>") then Some(OpenU)
    else if StartsWith(rest, "</b>") then Some(CloseB)
    else if StartsWith(rest, "</i>") then Some(CloseI)
    else if StartsWith(rest, "</u>") then Some(CloseU)
    else None
  }

  /** The tag starting at position `i`, read character by character. */
  function TagAt(value: string, i: nat): (t: Option<Tag>)
    requires i <= |value|
    ensures t.Some? ==> i + TagLength(t.value) <= |value|
  {
    if i + 3 <= |value| && value[i] == '<' then
      if value[i + 2] == '>' then FlagTag(value[i + 1], false)
      else if value[i + 1] == '/' && i + 4 <= |value| && value[i + 3] == '>' then FlagTag(value[i + 2], true)
      else None
    else None
  }

  /** The tag for flag letter `c`, opening or closing. */
  function FlagTag(c: char, closing: bool): (t: Option<Tag>)
    ensures t.Some? ==> IsClosing(t.value) == closing && TagLength(t.value) == if closing then 4 else 3
  {
    if c == 'b' then Some(if closing then CloseB else OpenB)
    else if c == 'i' then Some(if closing then CloseI else OpenI)
    else if c == 'u' then Some(if closing then CloseU else OpenU)
    else None
  }

  /** Reading the characters finds the tag the scanner's slice tests find. */
  lemma TagAtAgrees(value: string, i: nat)
    requires i <= |value|
    ensures TagAt(value, i) == TagTestedInOrder(value, i)
  {
    var rest := value[i..];
    if |rest| >= 3 {
      assert rest[..3] == [rest[0], rest[1], rest[2]];
      assert rest[0] == value[i] && rest[1] == value[i + 1] && rest[2] == value[i + 2];
    }
    if |rest| >= 4 {
      assert rest[..4] == [rest[0], rest[1], rest[2], rest[3]];
      assert rest[3] == value[i + 3];
    }
  }

  function TagLength(t: Tag): nat
  {
    if t.OpenB? || t.OpenI? || t.OpenU? then 3 else 4
  }

  predicate IsClosing(t: Tag)
  {
    t.CloseB? || t.CloseI? || t.CloseU?
  }

  /** `style` with the flag that `t` governs set to `on`. */
  function WithFlag(style: Style, t: Tag, on: bool): Style
  {
    match t
    case OpenB => style.(bold := on)
    case CloseB => style.(bold := on)
    case OpenI => style.(italic := on)
    case CloseI => style.(italic := on)
    case OpenU => style.(underline := on)
    case CloseU => style.(underline := on)
  }

  /** The scanner's variables: the three flags, `text_buffer`, and whether
      `current_run` already holds text. */
  datatype Scanner = Scanner(flags: Style, buffer: string, hasText: bool)

  /** What is emitted when tag `t` is met: the buffer, if any, as a run. An
      opening tag writes it into the placeholder's run while that run is
      still empty, and otherwise adds a run with the other two flags; a
      closing tag always adds a run that carries its own style. */
  function FlushAt(sc: Scanner, t: Tag): seq<Run>
  {
    if sc.buffer == [] then []
    else if IsClosing(t) then [AddedRun(sc.buffer, WithFlag(sc.flags, t, true))]
    else if sc.hasText then [AddedRun(sc.buffer, WithFlag(sc.flags, t, false))]
    else [PlaceholderRun(sc.buffer)]
  }

  /** The scanner's variables after tag `t`. */
  function AfterTag(sc: Scanner, t: Tag): Scanner
  {
    Scanner(WithFlag(sc.flags, t, !IsClosing(t)), [], sc.hasText || sc.buffer != [])
  }

  /** One pass of the scanner loop at position `i`: the runs it emits, the
      next position and the variables after it. A tag flushes the buffer and
      moves the flags; any other character joins the buffer. */
  function Step(value: string, i: nat, sc: Scanner): (r: (seq<Run>, nat, Scanner))
    requires i < |value|
    ensures i < r.1 <= |value|
  {
    match TagAt(value, i)
    case Some(t) => (FlushAt(sc, t), i + TagLength(t), AfterTag(sc, t))
    case None => ([], i + 1, sc.(buffer := sc.buffer + [value[i]]))
  }

  /** The flush after the loop: what is left in the buffer, in the flags' style. */
  function FinalFlush(sc: Scanner): seq<Run>
  {
    if sc.buffer != [] then [AddedRun(sc.buffer, sc.flags)] else []
  }

  /** The runs emitted from position `i` on, the final flush included. */
  function ScanFrom(value: string, i: nat, sc: Scanner): seq<Run>
    requires i <= |value|
    decreases |value| - i
  {
    if i == |value| then FinalFlush(sc)
    else
      var step := Step(value, i, sc);
      step.0 + ScanFrom(value, step.1, step.2)
  }

  /** The runs for `value` when the placeholder's run keeps `textBefore`. */
  function Scan(value: string, textBefore: string): seq<Run>
  {
    ScanFrom(value, 0, Scanner(Plain, [], textBefore != []))
  }

  /** The scanner loop: walks the value once, flushing the buffer at every
      tag and once more at the end. */
  method ScanTags(value: string, textBefore: string) returns (runs: seq<Run>)
    ensures runs == Scan(value, textBefore)
  {
    var isBold, isItalic, isUnderline := false, false, false;
    var textBuffer: string := [];
    var currentHasText := textBefore != [];
    runs := [];
    var i := 0;
    while i < |value|
      invariant 0 <= i <= |value|
      invariant runs + ScanFrom(value, i, Scanner(Style(isBold, isItalic, isUnderline), textBuffer, currentHasText))
        == Scan(value, textBefore)
      decreases |value| - i
    {
      var emitted, next, b, it, u, buffer, hasText := ScanStep(value, i, isBold, isItalic, isUnderline, textBuffer, currentHasText);
      ghost var after := ScanFrom(value, next, Scanner(Style(b, it, u), buffer, hasText));
      assert (runs + emitted) + after == runs + (emitted + after);
      runs := runs + emitted;
      isBold, isItalic, isUnderline := b, it, u;
      textBuffer, currentHasText := buffer, hasText;
      i := next;
    }
    ghost var last := ScanFrom(value, i, Scanner(Style(isBold, isItalic, isUnderline), textBuffer, currentHasText));
    assert last == if textBuffer != [] then [AddedRun(textBuffer, Style(isBold, isItalic, isUnderline))] else [];
    if textBuffer != [] {
      runs := runs + [AddedRun(textBuffer, Style(isBold, isItalic, isUnderline))];
    } else {
      assert runs + last == runs;
    }
  }

  /** A character that opens no tag joins the buffer. */
  lemma PlainCharStep(value: string, i: nat, sc: Scanner)
    requires i < |value| && TagAt(value, i) == None
    ensures ScanFrom(value, i, sc) == ScanFrom(value, i + 1, sc.(buffer := sc.buffer + [value[i]]))
  {
  }

  /** One pass of the loop body: a tag is consumed with its flush, any other
      character is appended to `text_buffer`. */
  method ScanStep(value: string, i: nat, isBold: bool, isItalic: bool, isUnderline: bool, textBuffer: string, currentHasText: bool)
    returns (emitted: seq<Run>, next: nat, b: bool, it: bool, u: bool, buffer: string, hasText: bool)
    requires i < |value|
    ensures i < next <= |value|
    ensures ScanFrom(value, i, Scanner(Style(isBold, isItalic, isUnderline), textBuffer, currentHasText))
      == emitted + ScanFrom(value, next, Scanner(Style(b, it, u), buffer, hasText))
  {
    var sc := Scanner(Style(isBold, isItalic, isUnderline), textBuffer, currentHasText);
    var tag := TagAt(value, i);
    if tag.Some? {
      var t := tag.value;
      emitted, b, it, u, hasText := TagStep(value, i, sc, t);
      buffer, next := [], i + TagLength(t);
    } else {
      PlainCharStep(value, i, sc);
      emitted, next := [], i + 1;
      b, it, u := isBold, isItalic, isUnderline;
      buffer, hasText := textBuffer + [value[i]], currentHasText;
    }
  }

  /** Meeting tag `t` at position `i`: the flush, then the new flags, an
      empty buffer, and a current run that holds text if it did or if the
      buffer was written. */
  method TagStep(value: string, i: nat, sc: Scanner, t: Tag)
    returns (flushed: seq<Run>, b: bool, it: bool, u: bool, hasText: bool)
    requires i < |value| && TagAt(value, i) == Some(t)
    ensures i + TagLength(t) <= |value|
    ensures ScanFrom(value, i, sc) == flushed + ScanFrom(value, i + TagLength(t), Scanner(Style(b, it, u), [], hasText))
  {
    flushed := Flush(sc, t);
    b, it, u := SetFlags(sc.flags.bold, sc.flags.italic, sc.flags.underline, t);
    hasText := sc.hasText || sc.buffer != [];
    assert sc.flags == Style(sc.flags.bold, sc.flags.italic, sc.flags.underline);
    assert Scanner(Style(b, it, u), [], hasText) == AfterTag(sc, t);
  }

  /** The run written when a tag is met with text in the buffer. */
  method Flush(sc: Scanner, t: Tag) returns (flushed: seq<Run>)
    ensures flushed == FlushAt(sc, t)
  {
    flushed := [];
    if sc.buffer != [] {
      if IsClosing(t) {
        flushed := [AddedRun(sc.buffer, WithFlag(sc.flags, t, true))];
      } else if sc.hasText {
        flushed := [AddedRun(sc.buffer, WithFlag(sc.flags, t, false))];
      } else {
        flushed := [PlaceholderRun(sc.buffer)];
      }
    }
  }

  /** `is_bold = True` and the like: an opening tag sets its flag, a closing
      tag clears it. */
  method SetFlags(isBold: bool, isItalic: bool, isUnderline: bool, t: Tag) returns (b: bool, it: bool, u: bool)
    ensures Style(b, it, u) == WithFlag(Style(isBold, isItalic, isUnderline), t, !IsClosing(t))
  {
    b, it, u := isBold, isItalic, isUnderline;
    match t {
      case OpenB => b := true;
      case OpenI => it := true;
      case OpenU => u := true;
      case CloseB => b := false;
      case CloseI => it := false;
      case CloseU => u := false;
    }
  }

  function Texts(runs: seq<Run>): seq<string>
  {
    seq(|runs|, k requires 0 <= k < |runs| => runs[k].text)
  }

  /** The value from position `i` on with the six tag tokens taken out. */
  function StripTagsFrom(value: string, i: nat): string
    requires i <= |value|
    decreases |value| - i
  {
    if i == |value| then []
    else
      match TagAt(value, i)
      case Some(t) => StripTagsFrom(value, i + TagLength(t))
      case None => [value[i]] + StripTagsFrom(value, i + 1)
  }

  function StripTags(value: string): string
  {
    StripTagsFrom(value, 0)
  }

  lemma TextsAppend(a: seq<Run>, b: seq<Run>)
    ensures Texts(a + b) == Texts(a) + Texts(b)
  {
  }

  lemma {:induction false} ScanFromContent(value: string, i: nat, sc: Scanner)
    requires i <= |value|
    ensures Concat(Texts(ScanFrom(value, i, sc))) == sc.buffer + StripTagsFrom(value, i)
    decreases |value| - i
  {
    if i == |value| {
      if sc.buffer != [] {
        OneRunContent(AddedRun(sc.buffer, sc.flags));
      }
    } else {
      match TagAt(value, i)
      case Some(t) =>
        ScanFromContent(value, i + TagLength(t), AfterTag(sc, t));
        TagStepContent(value, i, sc, t);
      case None =>
        ScanFromContent(value, i + 1, sc.(buffer := sc.buffer + [value[i]]));
        PlainCharContent(value, i, sc);
    }
  }

  /** One plain character: it moves from the value into the buffer. */
  lemma PlainCharContent(value: string, i: nat, sc: Scanner)
    requires i < |value| && TagAt(value, i) == None
    requires Concat(Texts(ScanFrom(value, i + 1, sc.(buffer := sc.buffer + [value[i]]))))
      == (sc.buffer + [value[i]]) + StripTagsFrom(value, i + 1)
    ensures Concat(Texts(ScanFrom(value, i, sc))) == sc.buffer + StripTagsFrom(value, i)
  {
    PlainCharStep(value, i, sc);
    assert StripTagsFrom(value, i) == [value[i]] + StripTagsFrom(value, i + 1);
    assert (sc.buffer + [value[i]]) + StripTagsFrom(value, i + 1) == sc.buffer + ([value[i]] + StripTagsFrom(value, i + 1));
  }

  lemma OneRunContent(r: Run)
    ensures Concat(Texts([r])) == r.text
  {
    assert Texts([r]) == [r.text];
    assert Concat([r.text]) == r.text + Concat([]);
  }

  /** One tag step: the flushed buffer, then what follows the tag. */
  lemma TagStepContent(value: string, i: nat, sc: Scanner, t: Tag)
    requires i < |value| && TagAt(value, i) == Some(t)
    requires Concat(Texts(ScanFrom(value, i + TagLength(t), AfterTag(sc, t)))) == StripTagsFrom(value, i + TagLength(t))
    ensures Concat(Texts(ScanFrom(value, i, sc))) == sc.buffer + StripTagsFrom(value, i)
  {
    var flushed := FlushAt(sc, t);
    var rest := ScanFrom(value, i + TagLength(t), AfterTag(sc, t));
    assert ScanFrom(value, i, sc) == flushed + rest;
    TextsAppend(flushed, rest);
    ConcatAppend(Texts(flushed), Texts(rest));
    if sc.buffer != [] {
      OneRunContent(flushed[0]);
      assert flushed == [flushed[0]];
    } else {
      assert Texts(flushed) == [];
    }
  }

  /** Nothing is lost or duplicated: the runs' texts, in order, are the value
      with the six tag tokens removed. */
  lemma ScanContent(value: string, textBefore: string)
    ensures Concat(Texts(Scan(value, textBefore))) == StripTags(value)
  {
    ScanFromContent(value, 0, Scanner(Plain, [], textBefore != []));
  }

  /** No emitted run is empty. */
  lemma {:induction false} ScanFromNonEmpty(value: string, i: nat, sc: Scanner)
    requires i <= |value|
    ensures forall k :: 0 <= k < |ScanFrom(value, i, sc)| ==> ScanFrom(value, i, sc)[k].text != []
    decreases |value| - i
  {
    if i < |value| {
      match TagAt(value, i)
      case Some(t) =>
        ScanFromNonEmpty(value, i + TagLength(t), AfterTag(sc, t));
      case None =>
        ScanFromNonEmpty(value, i + 1, sc.(buffer := sc.buffer + [value[i]]));
    }
  }

  /** A run flushed at a closing tag carries that tag's style whether or not
      the tag was opened: the flags are plain booleans, not a nesting. */
  lemma ClosingTagStyles(value: string, i: nat, sc: Scanner)
    requires i < |value| && TagAt(value, i).Some? && IsClosing(TagAt(value, i).value)
    requires sc.buffer != []
    ensures ScanFrom(value, i, sc)[0].AddedRun?
    ensures var st := ScanFrom(value, i, sc)[0].style;
      match TagAt(value, i).value
      case CloseB => st.bold
      case CloseI => st.italic
      case _ => st.underline
  {
  }

  /** Only the first run can be written into the placeholder's run, and only
      when that run had no text before the placeholder. */
  lemma {:induction false} ScanFromPlaceholderRun(value: string, i: nat, sc: Scanner)
    requires i <= |value|
    ensures forall k :: 0 <= k < |ScanFrom(value, i, sc)| && ScanFrom(value, i, sc)[k].PlaceholderRun? ==>
      k == 0 && !sc.hasText
    decreases |value| - i
  {
    if i < |value| {
      match TagAt(value, i)
      case Some(t) =>
        ScanFromPlaceholderRun(value, i + TagLength(t), AfterTag(sc, t));
        var rest := ScanFrom(value, i + TagLength(t), AfterTag(sc, t));
        var all := ScanFrom(value, i, sc);
        assert all == FlushAt(sc, t) + rest;
        forall k | 0 <= k < |all| && all[k].PlaceholderRun? ensures k == 0 && !sc.hasText {
          if k >= |FlushAt(sc, t)| {
            assert all[k] == rest[k - |FlushAt(sc, t)|];
          }
        }
      case None =>
        ScanFromPlaceholderRun(value, i + 1, sc.(buffer := sc.buffer + [value[i]]));
    }
  }

  lemma ScanPlaceholderRun(value: string, textBefore: string)
    ensures forall k :: 0 <= k < |Scan(value, textBefore)| && Scan(value, textBefore)[k].PlaceholderRun? ==>
      k == 0 && textBefore == []
  {
    ScanFromPlaceholderRun(value, 0, Scanner(Plain, [], textBefore != []));
  }

  /** A closing tag that was never opened still styles the text before it. */
  lemma UnopenedCloseExample()
    ensures Scan("x</b>", "t") == [AddedRun("x", Style(true, false, false))]
  {
    var v := "x</b>";
    NoTagWithoutAngle(v, 0);
    CloseTagAt(v, 1, 'b');
    var sc := Scanner(Plain, "x", true);
    assert Plain.(bold := true) == Style(true, false, false);
    var sc0 := Scanner(Plain, [], true);
    assert sc0.(buffer := sc0.buffer + [v[0]]) == sc;
    assert ScanFrom(v, 0, sc0) == ScanFrom(v, 1, sc);
    assert ScanFrom(v, 1, sc) == FlushAt(sc, CloseB) + ScanFrom(v, 5, AfterTag(sc, CloseB));
  }

  lemma NoTagWithoutAngle(value: string, i: nat)
    requires i < |value| && value[i] != '<'
    ensures TagAt(value, i) == None
  {
  }

  lemma CloseTagAt(value: string, i: nat, c: char)
    requires i + 4 <= |value| && value[i..i + 4] == ['<', '/', c, '>']
    requires c == 'b' || c == 'i' || c == 'u'
    ensures TagAt(value, i) == Some(if c == 'b' then CloseB else if c == 'i' then CloseI else CloseU)
  {
    assert value[i..i + 4][1] == value[i + 1] == '/';
    assert value[i..i + 4][2] == value[i + 2] == c;
    assert value[i..i + 4][0] == value[i] && value[i..i + 4][3] == value[i + 3];
  }

  // ---------------------------------------------------------------------------
  // The checkbox a boolean placeholder sets
  // ---------------------------------------------------------------------------

  /** Word's type code of a check-box form field. */
  const CheckBoxFieldType: int := 71

  /** A form field of the document: its type and where its range starts. */
  datatype FormField = FormField(fieldType: int, start: int)

  /** A check box that starts before the placeholder. */
  predicate Candidate(f: FormField, placeholderPos: int)
  {
    f.fieldType == CheckBoxFieldType && f.start < placeholderPos
  }

  function Distance(f: FormField, placeholderPos: int): int
  {
    placeholderPos - f.start
  }

  /** The search over the form fields: the nearest check box before the
      placeholder, the first one on a tie, and only if it is closer than 100
      characters. `None` when no check box is set. */
  method NearestCheckbox(fields: seq<FormField>, placeholderPos: int) returns (chosen: Option<nat>)
    ensures chosen.Some? ==>
      (chosen.value < |fields| && Candidate(fields[chosen.value], placeholderPos)
       && Distance(fields[chosen.value], placeholderPos) < 100)
    ensures chosen.Some? ==> forall j :: 0 <= j < |fields| && Candidate(fields[j], placeholderPos) ==>
      Distance(fields[chosen.value], placeholderPos) <= Distance(fields[j], placeholderPos)
    ensures chosen.Some? ==> forall j :: 0 <= j < chosen.value && Candidate(fields[j], placeholderPos) ==>
      Distance(fields[chosen.value], placeholderPos) < Distance(fields[j], placeholderPos)
    ensures chosen.None? <==> forall j :: 0 <= j < |fields| && Candidate(fields[j], placeholderPos) ==>
      Distance(fields[j], placeholderPos) >= 100
  {
    var closest: Option<nat> := None;
    var minDistance := 0;
    for i := 0 to |fields|
      invariant closest.None? ==> forall j :: 0 <= j < i ==> !Candidate(fields[j], placeholderPos)
      invariant closest.Some? ==>
        (closest.value < i && Candidate(fields[closest.value], placeholderPos)
         && minDistance == Distance(fields[closest.value], placeholderPos))
      invariant closest.Some? ==> forall j :: 0 <= j < i && Candidate(fields[j], placeholderPos) ==>
        minDistance <= Distance(fields[j], placeholderPos)
      invariant closest.Some? ==> forall j :: 0 <= j < closest.value && Candidate(fields[j], placeholderPos) ==>
        minDistance < Distance(fields[j], placeholderPos)
    {
      var field := fields[i];
      if field.fieldType == CheckBoxFieldType && field.start < placeholderPos {
        var distance := placeholderPos - field.start;
        if closest.None? || distance < minDistance {
          minDistance := distance;
          closest := Some(i);
        }
      }
    }
    if closest.Some? && minDistance < 100 {
      chosen := closest;
    } else {
      chosen := None;
    }
  }

  // ---------------------------------------------------------------------------
  // Photo sizes
  // ---------------------------------------------------------------------------

  /** `get_image_size`: the decoded width and height, swapped for a rotation
      of 90 or 270 degrees; (0, 0) when the file cannot be read. */
  function ImageSize(decoded: Option<(int, int)>, rotation: int): (int, int)
  {
    match decoded
    case None => (0, 0)
    case Some((w, h)) => if rotation == 90 || rotation == 270 then (h, w) else (w, h)
  }

  /** A quarter turn swaps the reported sides, a half turn does not, and the
      area never changes. */
  lemma ImageSizeTurns(decoded: Option<(int, int)>, rotation: int)
    requires rotation == 0 || rotation == 90 || rotation == 180 || rotation == 270
    ensures var (w, h) := ImageSize(decoded, rotation);
      var (w', h') := ImageSize(decoded, (rotation + 90) % 360);
      w' == h && h' == w
    ensures ImageSize(decoded, (rotation + 180) % 360) == ImageSize(decoded, rotation)
    ensures var (w, h) := ImageSize(decoded, rotation);
      decoded.Some? ==> w * h == decoded.value.0 * decoded.value.1
  {
  }

  /** Python's `int(x)`: truncation toward zero. */
  function Trunc(x: real): (r: int)
    ensures x >= 0.0 ==> r >= 0 && r as real <= x < r as real + 1.0
    ensures x < 0.0 ==> r <= 0 && x <= r as real < x + 1.0
  {
    if x >= 0.0 then x.Floor else -((-x).Floor)
  }

  /** EMU per centimetre. */
  const EmuPerCm: int := 360000

  /** The width of a box `h` high with the photo's aspect ratio. */
  function WidthAt(h: int, origW: int, origH: int): real
    requires origH > 0
  {
    h as real * (origW as real / origH as real)
  }

  /** The height of a box `w` wide with the photo's aspect ratio. */
  function HeightAt(w: int, origW: int, origH: int): real
    requires origW > 0 && origH > 0
  {
    w as real / (origW as real / origH as real)
  }

  /** Pixels at 96 dots per inch for a length in EMU, at least one. */
  function Pixels(emu: int): (px: int)
    ensures px >= 1
    ensures emu >= 3750 ==> px * 3750 <= emu < (px + 1) * 3750
  {
    var p := Trunc(emu as real / EmuPerCm as real * 96.0);
    assert emu as real / EmuPerCm as real * 96.0 == emu as real / 3750.0;
    MaxInt(1, p)
  }

  /** The target size of a photo in the table: the full available height
      with the photo's aspect ratio, or, when that is too wide, the full
      available width; the pixel size for the resampled copy is at least one. */
  method TargetSize(origW: int, origH: int, availW: int, availH: int) returns (tw: int, th: int, wpx: int, hpx: int)
    requires origW > 0 && origH > 0
    ensures tw <= availW
    ensures Trunc(WidthAt(availH, origW, origH)) <= availW ==>
      th == availH && tw == Trunc(WidthAt(availH, origW, origH))
    ensures Trunc(WidthAt(availH, origW, origH)) > availW ==>
      tw == availW && th == Trunc(HeightAt(availW, origW, origH))
    ensures availW >= 0 && availH >= 0 ==> 0 <= tw && 0 <= th <= availH
    ensures wpx == Pixels(tw) && hpx == Pixels(th) && wpx >= 1 && hpx >= 1
  {
    th := availH;
    tw := Trunc(WidthAt(th, origW, origH));
    WidthAtNonNeg(th, origW, origH);
    if tw > availW {
      tw := availW;
      th := Trunc(HeightAt(tw, origW, origH));
      HeightWithinBox(origW, origH, availW, availH);
    }
    wpx := Pixels(tw);
    hpx := Pixels(th);
  }

  lemma WidthAtNonNeg(h: int, origW: int, origH: int)
    requires origW > 0 && origH > 0
    ensures h >= 0 ==> WidthAt(h, origW, origH) >= 0.0
  {
    var aspect := origW as real / origH as real;
    assert aspect > 0.0;
    if h >= 0 {
      assert h as real * aspect >= 0.0;
    }
  }

  /** When the full-height width is too wide, the full-width height fits. */
  lemma HeightWithinBox(origW: int, origH: int, availW: int, availH: int)
    requires origW > 0 && origH > 0
    requires Trunc(WidthAt(availH, origW, origH)) > availW
    ensures availW >= 0 && availH >= 0 ==> 0 <= Trunc(HeightAt(availW, origW, origH)) <= availH
  {
    var aspect := origW as real / origH as real;
    assert aspect > 0.0;
    if availW >= 0 && availH >= 0 {
      assert availW as real < availH as real * aspect;
      DivBelow(availW as real, availH as real, aspect);
      assert availW as real / aspect >= 0.0;
    }
  }

  lemma DivBelow(x: real, y: real, a: real)
    requires a > 0.0 && x < y * a
    ensures x / a <= y
  {
    assert (x / a) * a == x;
  }

  /** The page's size and margins in centimetres. */
  datatype PageGeometry = PageGeometry(
    pageWidth: real, pageHeight: real,
    leftMargin: real, rightMargin: real, topMargin: real, bottomMargin: real)

  /** The area of a photo in a page-wide table: the text width, and 80% of
      half the text height less 2 cm for the captions, in EMU. */
  function PageArea(g: PageGeometry): (int, int)
  {
    (Trunc((g.pageWidth - g.leftMargin - g.rightMargin) * EmuPerCm as real),
     Trunc((g.pageHeight - g.topMargin - g.bottomMargin - 2.0) / 2.0 * 0.8 * EmuPerCm as real))
  }

  /** `populate_images_table` as written: without a document its report line
      reads the centimetre figures that only the document branch defines,
      so the call fails (`None`) before any photo is placed. */
  function AvailableAreaAsWritten(page: Option<PageGeometry>): Option<(int, int)>
  {
    match page
    case Some(g) => Some(PageArea(g))
    case None => None
  }

  /** The table area as the cell branch evidently intends it: 15 cm by 10 cm. */
  function AvailableArea(page: Option<PageGeometry>): (int, int)
  {
    match page
    case Some(g) => PageArea(g)
    case None => (15 * EmuPerCm, 10 * EmuPerCm)
  }

  /** A table placed in a cell never gets its photos. This holds by the
      definition of `AvailableAreaAsWritten`, which records the failing
      branch; the lemma names the input that shows the defect. */
  lemma CellTableFails()
    ensures AvailableAreaAsWritten(None).None?
  {
  }

  /** The corrected area agrees with the code on every page, and a cell gets
      the 15 cm by 10 cm default. */
  lemma AvailableAreaIntended(page: Option<PageGeometry>)
    ensures page.Some? ==> AvailableAreaAsWritten(page) == Some(AvailableArea(page))
    ensures page.None? ==> AvailableArea(page) == (5400000, 3600000)
  {
  }

  // ---------------------------------------------------------------------------
  // Captions
  // ---------------------------------------------------------------------------

  function CountTrue(rows: seq<bool>): (n: nat)
    ensures n <= |rows|
  {
    if rows == [] then 0 else (if rows[0] then 1 else 0) + CountTrue(rows[1..])
  }

  /** The figure number of a caption: one more than the number of earlier
      rows of the table that hold a drawing. */
  function FigureNumber(earlierRows: seq<bool>): (n: nat)
    ensures 1 <= n <= |earlierRows| + 1
  {
    1 + CountTrue(earlierRows)
  }

  /** When every photo before it was placed, row `i` is figure `i + 1`. */
  lemma {:induction false} FigureNumberAllPlaced(earlierRows: seq<bool>)
    requires forall k :: 0 <= k < |earlierRows| ==> earlierRows[k]
    ensures FigureNumber(earlierRows) == |earlierRows| + 1
  {
    if earlierRows != [] {
      FigureNumberAllPlaced(earlierRows[1..]);
    }
  }

  /** `format_caption`: an empty caption becomes `Figura N`, one that does
      not start with `Figura` becomes `Figura N - text`, anything else is
      kept as it was. */
  function FormatCaption(text: string, n: nat): string
  {
    var current := PyStrip(text);
    if current == [] then "Figura " + NatToString(n)
    else if !StartsWith(current, "Figura") then "Figura " + NatToString(n) + " - " + current
    else text
  }

  /** The stripped caption always starts with `Figura`; a non-empty caption
      without it gets the `Figura N - ` prefix and keeps its stripped text
      at the end. */
  lemma FormatCaptionSpec(text: string, n: nat)
    ensures StartsWith(PyStrip(FormatCaption(text, n)), "Figura")
    ensures PyStrip(text) != [] && !StartsWith(PyStrip(text), "Figura") ==>
      var r := FormatCaption(text, n);
      StartsWith(r, "Figura ") && |r| >= |PyStrip(text)| && r[|r| - |PyStrip(text)|..] == PyStrip(text)
  {
    var current := PyStrip(text);
    if current == [] {
      CaptionLabel(NatToString(n), []);
      assert "Figura " + NatToString(n) + [] == FormatCaption(text, n);
    } else if !StartsWith(current, "Figura") {
      CaptionLabel(NatToString(n), " - " + current);
      assert "Figura " + NatToString(n) + (" - " + current) == FormatCaption(text, n);
    }
  }

  /** `Figura `, a number and a tail: the label survives stripping and the
      tail ends the text. */
  lemma CaptionLabel(digits: string, tail: string)
    requires digits != [] && AllDigits(digits)
    ensures var r := "Figura " + digits + tail;
      StartsWith(PyStrip(r), "Figura") && StartsWith(r, "Figura ") && r[|r| - |tail|..] == tail
  {
    var r := "Figura " + digits + tail;
    assert r[..7] == "Figura " && r[7] == digits[0];
    assert r[..6] == "Figura";
    LabelStrips(r, 7);
  }

  /** A text that starts with a word and has a non-space at `j` keeps that
      word and that character when stripped. */
  lemma LabelStrips(r: string, j: nat)
    requires 6 < j < |r| && !IsPySpace(r[0]) && !IsPySpace(r[j]) && r[..6] == "Figura"
    ensures StartsWith(PyStrip(r), "Figura")
  {
    assert PyStripLeft(r) == r;
    StripRightKeeps(r, j);
  }

  lemma {:induction false} StripRightKeeps(s: string, j: nat)
    requires j < |s| && !IsPySpace(s[j])
    ensures j < |PyStripRight(s)|
    decreases |s|
  {
    if IsPySpace(s[|s| - 1]) {
      StripRightKeeps(s[..|s| - 1], j);
    }
  }

  /** Formatting a caption twice changes nothing more. */
  lemma FormatCaptionIdempotent(text: string, n: nat, m: nat)
    ensures FormatCaption(FormatCaption(text, n), m) == FormatCaption(text, n)
  {
    FormatCaptionSpec(text, n);
  }
}
