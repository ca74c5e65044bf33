/** The inline rich-text renderer of the reference PDF document
    (`renderFormattedText` and its inner `parseSegments`): whitespace
    normalisation, then a recursive split of the text on the non-greedy
    pattern `<(b|i|u)>…</\1>` into a flat list of styled runs. */
module InlineMarkup {
  import opened Util

  datatype Tag = Bold | Italic | Underline

  /** One `<Text>` leaf: its characters and the set of tags that style it. */
  datatype Run = Run(text: string, style: set<Tag>)

  /** The characters of a list of runs, in order. */
  function Text(runs: seq<Run>): string
  {
    if runs == [] then [] else runs[0].text + Text(runs[1..])
  }

  lemma {:induction false} TextAppend(a: seq<Run>, b: seq<Run>)
    ensures Text(a + b) == Text(a) + Text(b)
  {
    if a != [] {
      TextAppend(a[1..], b);
      assert (a + b)[1..] == a[1..] + b;
    } else {
      assert a + b == b;
    }
  }

  // ---------------------------------------------------------------------------
  // Whitespace normalisation
  // ---------------------------------------------------------------------------

  const Nbsp: string := "&nbsp;"

  /** `.replace(/&nbsp;/g, ' ')`: leftmost, non-overlapping occurrences. */
  function ReplaceNbsp(s: string): (r: string)
    ensures |r| <= |s|
    decreases |s|
  {
    if s == [] then []
    else if |s| >= 6 && s[..6] == Nbsp then [' '] + ReplaceNbsp(s[6..])
    else [s[0]] + ReplaceNbsp(s[1..])
  }

  /** The class `[ \t\f\v ]`. */
  predicate IsHSpace(c: char)
  {
    c == ' ' || c == '\t' || c == '\U{000C}' || c == '\U{000B}' || c == '\U{00A0}'
  }

  /** Drops the run of horizontal spaces at the front of `s`. */
  function DropHSpace(s: string): (r: string)
    ensures |r| <= |s| && r == s[|s| - |r|..]
    ensures r != [] ==> !IsHSpace(r[0])
    ensures Filter(s, c => !IsHSpace(c)) == Filter(r, c => !IsHSpace(c))
  {
    if s != [] && IsHSpace(s[0]) then DropHSpace(s[1..]) else s
  }

  /** `.replace(/[ \t\f\v ]+/g, ' ')`. */
  function CollapseHSpace(s: string): (r: string)
    ensures |r| <= |s|
    ensures r != [] && s != [] ==> (r[0] == ' ' <==> IsHSpace(s[0]))
    decreases |s|
  {
    if s == [] then []
    else if IsHSpace(s[0]) then [' '] + CollapseHSpace(DropHSpace(s[1..]))
    else [s[0]] + CollapseHSpace(s[1..])
  }

  function Normalize(text: string): string
  {
    CollapseHSpace(ReplaceNbsp(text))
  }

  /** The only horizontal space in `r` is a lone `' '`. */
  predicate SingleSpaced(r: string)
  {
    (forall i :: 0 <= i < |r| && IsHSpace(r[i]) ==> r[i] == ' ')
    && (forall i :: 0 <= i < |r| - 1 ==> !(r[i] == ' ' && r[i + 1] == ' '))
  }

  lemma ConsSingleSpaced(c: char, r: string)
    requires SingleSpaced(r)
    requires IsHSpace(c) ==> c == ' '
    requires c == ' ' && r != [] ==> r[0] != ' '
    ensures SingleSpaced([c] + r)
  {
    var cr := [c] + r;
    forall i | 1 <= i < |cr| ensures cr[i] == r[i - 1] {
    }
  }

  /** After collapsing, the only horizontal space left is a single `' '`. */
  lemma {:induction false} CollapseHSpaceSpaces(s: string)
    ensures SingleSpaced(CollapseHSpace(s))
    decreases |s|
  {
    if s != [] {
      if IsHSpace(s[0]) {
        var t := DropHSpace(s[1..]);
        CollapseHSpaceSpaces(t);
        ConsSingleSpaced(' ', CollapseHSpace(t));
      } else {
        CollapseHSpaceSpaces(s[1..]);
        ConsSingleSpaced(s[0], CollapseHSpace(s[1..]));
      }
    }
  }

  /** Collapsing keeps every character outside the class, in order (newlines
      among them). */
  lemma {:induction false} CollapseHSpaceKeeps(s: string)
    ensures Filter(CollapseHSpace(s), c => !IsHSpace(c)) == Filter(s, c => !IsHSpace(c))
    decreases |s|
  {
    var p := (c: char) => !IsHSpace(c);
    if s != [] {
      if IsHSpace(s[0]) {
        var t := DropHSpace(s[1..]);
        CollapseHSpaceKeeps(t);
        FilterAppend([' '], CollapseHSpace(t), p);
        assert [' '] + CollapseHSpace(t) == CollapseHSpace(s);
        assert Filter([' '], p) == [];
        FilterAppend([s[0]], s[1..], p);
        assert [s[0]] + s[1..] == s;
        assert Filter([s[0]], p) == [];
      } else {
        CollapseHSpaceKeeps(s[1..]);
        FilterAppend([s[0]], CollapseHSpace(s[1..]), p);
        FilterAppend([s[0]], s[1..], p);
        assert [s[0]] + s[1..] == s;
      }
    }
  }

  /** The normalised text has no tab, form feed, vertical tab or no-break
      space, never two spaces in a row, and the same newlines and other
      characters as the input once `&nbsp;` is read as a space. */
  lemma NormalizeSpec(text: string)
    ensures SingleSpaced(Normalize(text))
    ensures Filter(Normalize(text), c => !IsHSpace(c)) == Filter(ReplaceNbsp(text), c => !IsHSpace(c))
  {
    CollapseHSpaceSpaces(ReplaceNbsp(text));
    CollapseHSpaceKeeps(ReplaceNbsp(text));
  }

  // ---------------------------------------------------------------------------
  // The pattern /<(b|i|u)>([\s\S]*?)<\/\1>/g
  // ---------------------------------------------------------------------------

  function TagLetter(t: Tag): char
  {
    match t
    case Bold => 'b'
    case Italic => 'i'
    case Underline => 'u'
  }

  function TagOf(c: char): (r: Option<Tag>)
    ensures r.Some? ==> TagLetter(r.value) == c
    ensures r.None? ==> forall t :: TagLetter(t) != c
  {
    if c == 'b' then Some(Bold)
    else if c == 'i' then Some(Italic)
    else if c == 'u' then Some(Underline)
    else None
  }

  /** `<t>` starts at position `p`. */
  predicate OpensAt(s: string, p: nat, t: Tag)
  {
    p + 3 <= |s| && s[p] == '<' && s[p + 1] == TagLetter(t) && s[p + 2] == '>'
  }

  /** `</t>` starts at position `q`. */
  predicate ClosesAt(s: string, q: nat, t: Tag)
  {
    q + 4 <= |s| && s[q] == '<' && s[q + 1] == '/' && s[q + 2] == TagLetter(t) && s[q + 3] == '>'
  }

  /** The lazy body `[\s\S]*?` followed by `</t>`: the first closing tag at or after `from`. */
  function FindClose(s: string, from: nat, t: Tag): (r: Option<nat>)
    ensures r.Some? ==> from <= r.value && ClosesAt(s, r.value, t)
    ensures r.Some? ==> forall q :: from <= q < r.value ==> !ClosesAt(s, q, t)
    ensures r.None? ==> forall q :: from <= q ==> !ClosesAt(s, q, t)
    decreases |s| - from
  {
    if from + 4 > |s| then None
    else if ClosesAt(s, from, t) then Some(from)
    else FindClose(s, from + 1, t)
  }

  /** A match: the opening tag at `start`, its closing tag at `close`. */
  datatype Match = Match(start: nat, tag: Tag, close: nat)
  {
    function End(): nat { close + 4 }
  }

  predicate IsMatch(s: string, m: Match)
  {
    OpensAt(s, m.start, m.tag) && m.start + 3 <= m.close && ClosesAt(s, m.close, m.tag)
    && forall q :: m.start + 3 <= q < m.close ==> !ClosesAt(s, q, m.tag)
  }

  /** The match the pattern makes when tried at position `p` (at most one tag can open there). */
  function MatchAt(s: string, p: nat): (r: Option<Match>)
    ensures r.Some? ==> r.value.start == p && p + 3 <= r.value.close && r.value.End() <= |s|
  {
    if p + 3 <= |s| && s[p] == '<' && s[p + 2] == '>' && TagOf(s[p + 1]).Some? then
      var t := TagOf(s[p + 1]).value;
      match FindClose(s, p + 3, t)
      case Some(q) => Some(Match(p, t, q))
      case None => None
    else None
  }

  /** A match is found at `p` exactly when one exists there, and it is that one
      (the body is the shortest possible). */
  lemma MatchAtSpec(s: string, p: nat)
    ensures MatchAt(s, p).Some? ==> IsMatch(s, MatchAt(s, p).value)
    ensures MatchAt(s, p).None? ==> forall m: Match :: m.start == p ==> !IsMatch(s, m)
    ensures forall m: Match :: m.start == p && IsMatch(s, m) ==> MatchAt(s, p) == Some(m)
  {
    forall m: Match | m.start == p && IsMatch(s, m) ensures MatchAt(s, p) == Some(m) {
      assert TagOf(s[p + 1]) == Some(m.tag);
      var r := FindClose(s, p + 3, m.tag);
      assert r.Some?;
      assert r.value == m.close;
    }
  }

  /** The next match of the global pattern at or after `from`. */
  function FindMatch(s: string, from: nat): (r: Option<Match>)
    ensures r.Some? ==> from <= r.value.start && MatchAt(s, r.value.start) == r
    decreases |s| - from
  {
    if from >= |s| then None
    else if MatchAt(s, from).Some? then MatchAt(s, from)
    else FindMatch(s, from + 1)
  }

  /** The match found is the leftmost one at or after `from`, and there is
      none at all when nothing is found. */
  lemma {:induction false} FindMatchLeftmost(s: string, from: nat)
    ensures FindMatch(s, from).Some? ==> forall p :: from <= p < FindMatch(s, from).value.start ==> MatchAt(s, p).None?
    ensures FindMatch(s, from).None? ==> forall p :: from <= p ==> MatchAt(s, p).None?
    decreases |s| - from
  {
    if from < |s| && MatchAt(s, from).None? {
      FindMatchLeftmost(s, from + 1);
    }
  }

  /** The leftmost match after `from` is what `FindMatch` returns. */
  lemma {:induction false} FindMatchIs(s: string, from: nat, m: Match)
    requires from <= m.start && MatchAt(s, m.start) == Some(m)
    requires forall p :: from <= p < m.start ==> MatchAt(s, p).None?
    ensures FindMatch(s, from) == Some(m)
    decreases m.start - from
  {
    if from < m.start {
      FindMatchIs(s, from + 1, m);
    }
  }

  // ---------------------------------------------------------------------------
  // Segments
  // ---------------------------------------------------------------------------

  /** What `parseSegments(s, st)` returns. */
  function Segments(s: string, st: set<Tag>): seq<Run>
    decreases |s|, 1, 0
  {
    SegmentsFrom(s, 0, st)
  }

  /** The runs produced from `lastIndex = last` onwards: the plain text before
      the next match, the runs of its body (or one leaf run when the body
      produces none), then the rest; or the tail when no match is left. */
  function SegmentsFrom(s: string, last: nat, st: set<Tag>): seq<Run>
    requires last <= |s|
    decreases |s|, 0, |s| - last
  {
    match FindMatch(s, last)
    case None => if last < |s| then [Run(s[last..], st)] else []
    case Some(m) =>
      (if m.start > last then [Run(s[last..m.start], st)] else [])
      + Body(s, m, st)
      + SegmentsFrom(s, m.End(), st)
  }

  /** The runs a match contributes: its body parsed with the tag added. */
  function Body(s: string, m: Match, st: set<Tag>): seq<Run>
    requires m.start + 3 <= m.close <= |s|
    decreases |s|, 0, 0
  {
    var content := s[m.start + 3..m.close];
    var inner := Segments(content, st + {m.tag});
    if |inner| > 0 then inner else [Run(content, st + {m.tag})]
  }

  /** The plain run before a match, when there is text between `last` and the match. */
  function Plain(s: string, last: nat, start: nat, st: set<Tag>): seq<Run>
    requires last <= start <= |s|
  {
    if start > last then [Run(s[last..start], st)] else []
  }

  /** One step of `SegmentsFrom` when a match is found. */
  lemma SegmentsFromStep(s: string, last: nat, st: set<Tag>, m: Match)
    requires last <= |s| && FindMatch(s, last) == Some(m)
    ensures SegmentsFrom(s, last, st) == Plain(s, last, m.start, st) + Body(s, m, st) + SegmentsFrom(s, m.End(), st)
  {
  }

  lemma RunsAssoc(a: seq<Run>, b: seq<Run>, c: seq<Run>, d: seq<Run>)
    ensures a + (b + c + d) == (a + b + c) + d
  {
  }

  /** `parseSegments`: walks the matches left to right, advancing `lastIndex`. */
  method ParseSegments(input: string, style: set<Tag>) returns (segments: seq<Run>)
    ensures segments == Segments(input, style)
    decreases |input|, 1
  {
    segments := [];
    var lastIndex := 0;
    var next := FindMatch(input, 0);
    while next.Some?
      invariant lastIndex <= |input|
      invariant next == FindMatch(input, lastIndex)
      invariant segments + SegmentsFrom(input, lastIndex, style) == Segments(input, style)
      decreases |input| - lastIndex
    {
      var m := next.value;
      var plainRuns, bodyRuns := MatchRuns(input, lastIndex, m, style);
      SegmentsFromStep(input, lastIndex, style, m);
      RunsAssoc(segments, plainRuns, bodyRuns, SegmentsFrom(input, m.End(), style));
      segments := segments + plainRuns + bodyRuns;
      lastIndex := m.End();
      next := FindMatch(input, lastIndex);
    }
    if lastIndex < |input| {
      var tail := input[lastIndex..];
      segments := segments + [Run(tail, style)];
    }
  }

  /** One iteration of `parseSegments`: the plain text before the match,
      then the runs of its body parsed with the tag added (or the body as
      one leaf when it yields none). */
  method MatchRuns(input: string, lastIndex: nat, m: Match, style: set<Tag>) returns (plainRuns: seq<Run>, bodyRuns: seq<Run>)
    requires lastIndex <= m.start && m.start + 3 <= m.close <= |input|
    ensures plainRuns == Plain(input, lastIndex, m.start, style)
    ensures bodyRuns == Body(input, m, style)
    decreases |input|, 0
  {
    plainRuns := [];
    if m.start > lastIndex {
      var plain := input[lastIndex..m.start];
      if plain != [] {
        plainRuns := [Run(plain, style)];
      }
    }
    var nextStyle := style + {m.tag};
    var content := input[m.start + 3..m.close];
    var inner := ParseSegments(content, nextStyle);
    if |inner| > 0 {
      bodyRuns := inner;
    } else {
      bodyRuns := [Run(content, nextStyle)];
    }
  }

  /** What `renderFormattedText(text, base)` shows: one empty run for empty
      input; the normalised text as one run when it lacks `<` or `>`;
      otherwise the parsed segments. */
  function Rendered(text: string, base: set<Tag>): seq<Run>
  {
    if text == [] then [Run([], base)]
    else
      var n := Normalize(text);
      if '<' !in n || '>' !in n then [Run(n, base)] else Segments(n, base)
  }

  method RenderFormattedText(text: string, base: set<Tag>) returns (runs: seq<Run>)
    ensures runs == Rendered(text, base)
    ensures text != [] ==> Text(runs) == Unwrap(Normalize(text))
    ensures forall r :: r in runs ==> base <= r.style && r.style <= base + PairedTags(Normalize(text))
  {
    if text == [] {
      return [Run([], base)];
    }
    var normalized := Normalize(text);
    if '<' !in normalized || '>' !in normalized {
      runs := [Run(normalized, base)];
      NoTagsUnwrap(normalized);
      return;
    }
    runs := ParseSegments(normalized, base);
    SegmentsText(normalized, base);
    SegmentsStyle(normalized, base);
  }

  // ---------------------------------------------------------------------------
  // What the runs mean
  // ---------------------------------------------------------------------------

  /** The text with every matched tag pair removed (bodies unwrapped
      recursively); unmatched or unknown tags stay as they are. */
  function Unwrap(s: string): string
    decreases |s|, 1, 0
  {
    UnwrapFrom(s, 0)
  }

  function UnwrapFrom(s: string, last: nat): string
    requires last <= |s|
    decreases |s|, 0, |s| - last
  {
    match FindMatch(s, last)
    case None => s[last..]
    case Some(m) => s[last..m.start] + Unwrap(s[m.start + 3..m.close]) + UnwrapFrom(s, m.End())
  }

  /** From any position before the end, parsing yields at least one run; so a
      body yields no runs only when it is empty. */
  lemma SegmentsFromEmpty(s: string, last: nat, st: set<Tag>)
    requires last <= |s|
    ensures SegmentsFrom(s, last, st) == [] <==> last == |s|
  {
    match FindMatch(s, last)
    case None =>
    case Some(m) =>
      var c := s[m.start + 3..m.close];
      assert |Body(s, m, st)| > 0;
  }

  /** The runs' characters, concatenated, are the text with its matched tag
      pairs removed: no character is lost and no body is emitted twice. */
  lemma {:induction false} SegmentsText(s: string, st: set<Tag>)
    ensures Text(Segments(s, st)) == Unwrap(s)
    decreases |s|, 1, 0
  {
    SegmentsFromText(s, 0, st);
  }

  lemma {:induction false} SegmentsFromText(s: string, last: nat, st: set<Tag>)
    requires last <= |s|
    ensures Text(SegmentsFrom(s, last, st)) == UnwrapFrom(s, last)
    decreases |s|, 0, |s| - last
  {
    match FindMatch(s, last)
    case None =>
      if last == |s| {
        assert s[last..] == [];
      }
    case Some(m) =>
      var plain, body, rest := Plain(s, last, m.start, st), Body(s, m, st), SegmentsFrom(s, m.End(), st);
      calc {
        Text(SegmentsFrom(s, last, st));
        { SegmentsFromStep(s, last, st, m); }
        Text(plain + body + rest);
        { TextAppend(plain + body, rest); TextAppend(plain, body); }
        Text(plain) + Text(body) + Text(rest);
        { PlainRunText(s, last, m.start, st); BodyText(s, m, st); SegmentsFromText(s, m.End(), st); }
        s[last..m.start] + Unwrap(s[m.start + 3..m.close]) + UnwrapFrom(s, m.End());
        { UnwrapFromStep(s, last, m); }
        UnwrapFrom(s, last);
      }
  }

  lemma PlainRunText(s: string, last: nat, start: nat, st: set<Tag>)
    requires last <= start <= |s|
    ensures Text(Plain(s, last, start, st)) == s[last..start]
  {
    if start > last {
      var runs := Plain(s, last, start, st);
      assert runs[1..] == [];
    }
  }

  /** The characters of a match's runs are its body, unwrapped. */
  lemma {:induction false} BodyText(s: string, m: Match, st: set<Tag>)
    requires m.start + 3 <= m.close <= |s|
    ensures Text(Body(s, m, st)) == Unwrap(s[m.start + 3..m.close])
    decreases |s|, 0, 0
  {
    var c := s[m.start + 3..m.close];
    SegmentsText(c, st + {m.tag});
    SegmentsFromEmpty(c, 0, st + {m.tag});
    if Segments(c, st + {m.tag}) == [] {
      assert c == [];
      var runs := Body(s, m, st);
      assert runs[1..] == [];
    }
  }

  lemma UnwrapFromStep(s: string, last: nat, m: Match)
    requires last <= |s| && FindMatch(s, last) == Some(m)
    ensures UnwrapFrom(s, last) == s[last..m.start] + Unwrap(s[m.start + 3..m.close]) + UnwrapFrom(s, m.End())
  {
  }

  /** The text holds an opening tag `<t>` and, after it, a closing `</t>`. */
  ghost predicate Paired(s: string, t: Tag)
  {
    exists p: nat, q: nat :: p + 3 <= q && OpensAt(s, p, t) && ClosesAt(s, q, t)
  }

  /** The tags that open and later close somewhere in the text: the only
      tags a run can be styled with beyond the base style. */
  ghost function PairedTags(s: string): (r: set<Tag>)
    ensures forall t :: t in r <==> Paired(s, t)
  {
    (if Paired(s, Bold) then {Bold} else {})
    + (if Paired(s, Italic) then {Italic} else {})
    + (if Paired(s, Underline) then {Underline} else {})
  }

  /** A tag paired inside a slice is paired in the whole text. */
  lemma PairedSlice(s: string, i: nat, j: nat)
    requires i <= j <= |s|
    ensures PairedTags(s[i..j]) <= PairedTags(s)
  {
    forall t | Paired(s[i..j], t) ensures Paired(s, t) {
      var c := s[i..j];
      var p: nat, q: nat :| p + 3 <= q && OpensAt(c, p, t) && ClosesAt(c, q, t);
      assert OpensAt(s, i + p, t);
      assert ClosesAt(s, i + q, t);
    }
  }

  /** The tag of a match found by the pattern is paired in the text. */
  lemma FoundPaired(s: string, last: nat, m: Match)
    requires FindMatch(s, last) == Some(m)
    ensures m.tag in PairedTags(s)
  {
    MatchAtSpec(s, m.start);
    assert OpensAt(s, m.start, m.tag) && ClosesAt(s, m.close, m.tag);
  }

  /** Every run carries at least the style it was parsed with, and beyond it
      only tags that open and close in the text. */
  lemma {:induction false} SegmentsStyle(s: string, st: set<Tag>)
    ensures forall r :: r in Segments(s, st) ==> st <= r.style && r.style <= st + PairedTags(s)
    decreases |s|, 1, 0
  {
    SegmentsFromStyle(s, 0, st);
  }

  lemma {:induction false} SegmentsFromStyle(s: string, last: nat, st: set<Tag>)
    requires last <= |s|
    ensures forall r :: r in SegmentsFrom(s, last, st) ==> st <= r.style && r.style <= st + PairedTags(s)
    decreases |s|, 0, |s| - last
  {
    match FindMatch(s, last)
    case None =>
    case Some(m) =>
      var plain, body, rest := Plain(s, last, m.start, st), Body(s, m, st), SegmentsFrom(s, m.End(), st);
      var up := st + PairedTags(s);
      PlainStyle(s, last, m.start, st);
      BodyStyle(s, m, st);
      FoundPaired(s, last, m);
      PairedSlice(s, m.start + 3, m.close);
      assert forall r :: r in body ==> st <= r.style && r.style <= up;
      SegmentsFromStyle(s, m.End(), st);
      SegmentsFromStep(s, last, st, m);
      forall r | r in plain + body + rest ensures st <= r.style && r.style <= up {
        assert r in plain || r in body || r in rest;
      }
  }

  /** Every run of a match's body carries the match's tag on top of the
      style it was parsed with, and beyond that only tags paired inside the
      body. */
  lemma {:induction false} BodyStyle(s: string, m: Match, st: set<Tag>)
    requires m.start + 3 <= m.close <= |s|
    ensures forall r :: r in Body(s, m, st) ==>
      st + {m.tag} <= r.style && r.style <= st + {m.tag} + PairedTags(s[m.start + 3..m.close])
    decreases |s|, 0, 0
  {
    SegmentsStyle(s[m.start + 3..m.close], st + {m.tag});
  }

  /** Text outside every match keeps exactly the style it was parsed with. */
  lemma PlainStyle(s: string, last: nat, start: nat, st: set<Tag>)
    requires last <= start <= |s|
    ensures forall r :: r in Plain(s, last, start, st) ==> r.style == st && r.text == s[last..start]
    ensures Plain(s, last, start, st) == [] <==> last == start
  {
  }

  /** Text in which the pattern finds no match comes back as one run in the
      base style, tags and all. */
  lemma NoMatchLiteral(s: string, st: set<Tag>)
    requires s != [] && FindMatch(s, 0).None?
    ensures Segments(s, st) == [Run(s, st)]
    ensures Unwrap(s) == s
  {
  }

  /** Without both `<` and `>` nothing can match. */
  lemma NoTagsUnwrap(s: string)
    requires '<' !in s || '>' !in s
    ensures Unwrap(s) == s
  {
  }

  /** Where no position from `from` on starts a match, none is found. */
  lemma {:induction false} FindMatchNoneIf(s: string, from: nat)
    requires forall p :: from <= p < |s| ==> MatchAt(s, p).None?
    ensures FindMatch(s, from).None?
    decreases |s| - from
  {
    if from < |s| {
      FindMatchNoneIf(s, from + 1);
    }
  }

  /** Text without `<` parses to itself as one run. */
  lemma PlainText(s: string, st: set<Tag>)
    requires s != [] && forall j :: 0 <= j < |s| ==> s[j] != '<'
    ensures Segments(s, st) == [Run(s, st)]
  {
    FindMatchNoneIf(s, 0);
  }

  lemma Middle(x: string, y: string, z: string)
    ensures (x + y + z)[|x|..|x| + |y|] == y
    ensures (x + y + z)[..|x|] == x
  {
  }

  /** `<t>` + `x` + `</t>`. */
  function Wrap(t: Tag, x: string): (w: string)
    ensures |w| == |x| + 7
  {
    ['<', TagLetter(t), '>'] + x + ['<', '/', TagLetter(t), '>']
  }

  /** A wrapped body without `<` is a match at its start, closing at its end. */
  lemma WrapMatch(s: string, at: nat, t: Tag, x: string)
    requires forall j :: 0 <= j < |x| ==> x[j] != '<'
    requires at + |x| + 7 <= |s| && s[at..at + |x| + 7] == Wrap(t, x)
    ensures MatchAt(s, at) == Some(Match(at, t, at + 3 + |x|))
    ensures s[at + 3..at + 3 + |x|] == x
  {
    var w := Wrap(t, x);
    forall j | 0 <= j < |w| ensures s[at + j] == w[j] {
      assert s[at..at + |x| + 7][j] == w[j];
    }
    forall j | 0 <= j < |x| ensures s[at + 3 + j] == x[j] {
      assert w[3 + j] == x[j];
    }
    assert s[at + 1] == TagLetter(t);
    assert TagOf(s[at + 1]) == Some(t) by {
      match t
      case Bold =>
      case Italic =>
      case Underline =>
    }
    var k := at + 3 + |x|;
    assert w[|x| + 3] == '<' && w[|x| + 4] == '/' && w[|x| + 5] == TagLetter(t) && w[|x| + 6] == '>';
    assert ClosesAt(s, k, t);
    assert forall q :: at + 3 <= q < k ==> s[q] != '<';
    assert FindClose(s, at + 3, t) == Some(k);
  }

  /** No match starts at a character other than `<`. */
  lemma NoMatchWithoutLt(s: string, p: nat)
    requires p < |s| && s[p] != '<'
    ensures MatchAt(s, p).None?
  {
  }

  /** The pieces of `x + y + z` are found at their offsets. */
  lemma Pieces(x: string, y: string, z: string)
    ensures (x + y + z)[..|x|] == x
    ensures (x + y + z)[|x|..|x| + |y|] == y
    ensures (x + y + z)[|x| + |y|..] == z
  {
  }

  lemma BodyOf(s: string, m: Match, st: set<Tag>, x: string)
    requires m.start + 3 <= m.close <= |s| && s[m.start + 3..m.close] == x
    requires Segments(x, st + {m.tag}) == [Run(x, st + {m.tag})]
    ensures Body(s, m, st) == [Run(x, st + {m.tag})]
  {
  }

  /** A wrapped body at the front of `s` is the first match found. */
  lemma FirstMatch(s: string, t: Tag, x: string, rest: string)
    requires forall j :: 0 <= j < |x| ==> x[j] != '<'
    requires s == Wrap(t, x) + rest
    ensures FindMatch(s, 0) == Some(Match(0, t, 3 + |x|))
    ensures s[3..3 + |x|] == x
  {
    assert s[0..|x| + 7] == Wrap(t, x);
    WrapMatch(s, 0, t, x);
    FindMatchIs(s, 0, Match(0, t, 3 + |x|));
  }

  /** After plain text without `<`, a wrapped body is the next match found. */
  lemma MatchAfterPlain(s: string, head: string, mid: string, t: Tag, x: string)
    requires forall j :: 0 <= j < |mid| ==> mid[j] != '<'
    requires forall j :: 0 <= j < |x| ==> x[j] != '<'
    requires s == head + mid + Wrap(t, x)
    ensures FindMatch(s, |head|) == Some(Match(|head| + |mid|, t, |head| + |mid| + 3 + |x|))
    ensures s[|head| + |mid| + 3..|head| + |mid| + 3 + |x|] == x
    ensures s[|head|..|head| + |mid|] == mid
  {
    var at := |head| + |mid|;
    Pieces(head, mid, Wrap(t, x));
    assert s[at..at + |x| + 7] == Wrap(t, x);
    WrapMatch(s, at, t, x);
    NoMatchInPlain(s, |head|, mid);
    FindMatchIs(s, |head|, Match(at, t, at + 3 + |x|));
  }

  /** No match starts inside a stretch of text without `<`. */
  lemma NoMatchInPlain(s: string, from: nat, mid: string)
    requires from + |mid| <= |s| && s[from..from + |mid|] == mid
    requires forall j :: 0 <= j < |mid| ==> mid[j] != '<'
    ensures forall p :: from <= p < from + |mid| ==> MatchAt(s, p).None?
  {
    forall p | from <= p < from + |mid| ensures MatchAt(s, p).None? {
      assert s[from..from + |mid|][p - from] == s[p];
      NoMatchWithoutLt(s, p);
    }
  }

  /** The parse of `<b>a</b> mid <i>c</i>` after the bold part. */
  lemma PlainItalicRest(s: string, a: string, mid: string, c: string)
    requires mid != [] && c != []
    requires forall j :: 0 <= j < |mid| ==> mid[j] != '<'
    requires forall j :: 0 <= j < |c| ==> c[j] != '<'
    requires s == Wrap(Bold, a) + mid + Wrap(Italic, c)
    ensures SegmentsFrom(s, |a| + 7, {}) == [Run(mid, {}), Run(c, {Italic})]
  {
    var k1 := |a| + 7;
    var st2 := k1 + |mid|;
    var m2 := Match(st2, Italic, st2 + 3 + |c|);
    MatchAfterPlain(s, Wrap(Bold, a), mid, Italic, c);
    var none: set<Tag> := {};
    assert none + {Italic} == {Italic};
    PlainText(c, {Italic});
    BodyOf(s, m2, none, c);
    SegmentsFromStep(s, k1, none, m2);
    assert FindMatch(s, |s|).None?;
  }

  /** The parse of `<b>a</b> mid <i>c</i>` starts with the bold run. */
  lemma BoldHead(s: string, a: string, rest: string)
    requires a != []
    requires forall j :: 0 <= j < |a| ==> a[j] != '<'
    requires s == Wrap(Bold, a) + rest
    ensures SegmentsFrom(s, 0, {}) == [Run(a, {Bold})] + SegmentsFrom(s, |a| + 7, {})
  {
    var m1 := Match(0, Bold, 3 + |a|);
    FirstMatch(s, Bold, a, rest);
    var none: set<Tag> := {};
    assert none + {Bold} == {Bold};
    PlainText(a, {Bold});
    BodyOf(s, m1, none, a);
    SegmentsFromStep(s, 0, none, m1);
  }

  /** A bold body, plain text and an italic body, none containing `<`, give
      exactly three runs: bold, plain, italic. */
  lemma BoldPlainItalic(a: string, mid: string, c: string)
    requires a != [] && mid != [] && c != []
    requires forall j :: 0 <= j < |a| ==> a[j] != '<'
    requires forall j :: 0 <= j < |mid| ==> mid[j] != '<'
    requires forall j :: 0 <= j < |c| ==> c[j] != '<'
    ensures Segments(Wrap(Bold, a) + mid + Wrap(Italic, c), {})
      == [Run(a, {Bold}), Run(mid, {}), Run(c, {Italic})]
  {
    var s := Wrap(Bold, a) + mid + Wrap(Italic, c);
    BoldHead(s, a, mid + Wrap(Italic, c));
    PlainItalicRest(s, a, mid, c);
  }

  lemma CrackText()
    ensures Wrap(Bold, "Crack") + " found at " + Wrap(Italic, "column 4")
      == "<b>Crack</b> found at <i>column 4</i>"
  {
  }

  /** `<b>Crack</b> found at <i>column 4</i>` gives a bold run, a plain run and an italic run. */
  lemma CrackExample()
    ensures Segments("<b>Crack</b> found at <i>column 4</i>", {})
      == [Run("Crack", {Bold}), Run(" found at ", {}), Run("column 4", {Italic})]
  {
    BoldPlainItalic("Crack", " found at ", "column 4");
    CrackText();
  }

  /** An unknown tag stays literal: `<x>a</x>` is one plain run. */
  lemma UnknownTagExample()
    ensures Segments("<x>a</x>", {}) == [Run("<x>a</x>", {})]
  {
    var s := "<x>a</x>";
    assert forall p :: 0 <= p < |s| ==> MatchAt(s, p).None?;
    FindMatchNoneIf(s, 0);
  }
}
