/** `wrapTextToLines` of the PDF post-processing hook: greedy word wrap of a
    caption against a width measure, breaking a word that is wider than a
    line into character chunks. The font's width measure is a parameter. */
module WordWrap {
  import opened Util

  predicate NotJsSpace(c: char)
  {
    !IsJsSpace(c)
  }

  predicate NoSpace(w: string)
  {
    forall j :: 0 <= j < |w| ==> !IsJsSpace(w[j])
  }

  /** The position of the first whitespace character, or `|s|` when there is none. */
  function FirstSpace(s: string): (i: nat)
    ensures i <= |s| && (i < |s| ==> IsJsSpace(s[i]))
    ensures NoSpace(s[..i])
  {
    if s == [] || IsJsSpace(s[0]) then 0
    else
      var i := 1 + FirstSpace(s[1..]);
      assert s[..i] == [s[0]] + s[1..][..i - 1];
      i
  }

  /** Drops the leading run of whitespace. */
  function DropSpaces(s: string): (r: string)
    ensures |r| <= |s| && r == s[|s| - |r|..]
    ensures r != [] ==> !IsJsSpace(r[0])
    ensures Filter(s, NotJsSpace) == Filter(r, NotJsSpace)
  {
    if s != [] && IsJsSpace(s[0]) then DropSpaces(s[1..]) else s
  }

  /** `s.split(/\s+/)`: the pieces between maximal runs of whitespace; a
      leading or trailing run gives an empty first or last piece, and the
      empty string gives one empty piece. */
  function SplitWs(s: string): (words: seq<string>)
    ensures |words| >= 1
    ensures forall k :: 0 <= k < |words| ==> NoSpace(words[k])
    decreases |s|
  {
    var i := FirstSpace(s);
    if i == |s| then [s]
    else
      var rest := SplitWs(DropSpaces(s[i + 1..]));
      NoSpaceCons(s[..i], rest);
      [s[..i]] + rest
  }

  lemma NoSpaceCons(w: string, rest: seq<string>)
    requires NoSpace(w) && forall k :: 0 <= k < |rest| ==> NoSpace(rest[k])
    ensures forall k :: 0 <= k < |[w] + rest| ==> NoSpace(([w] + rest)[k])
  {
    forall k | 0 <= k < |[w] + rest| ensures NoSpace(([w] + rest)[k]) {
      if k > 0 {
        assert ([w] + rest)[k] == rest[k - 1];
      }
    }
  }

  lemma {:induction false} FilterNoSpace(w: string)
    requires NoSpace(w)
    ensures Filter(w, NotJsSpace) == w
  {
    if w != [] {
      FilterNoSpace(w[1..]);
      assert [w[0]] + w[1..] == w;
    }
  }

  /** Splitting at one whitespace character: its non-space text is that of the two sides. */
  lemma FilterAroundSpace(s: string, i: nat)
    requires i < |s| && IsJsSpace(s[i]) && NoSpace(s[..i])
    ensures Filter(s, NotJsSpace) == s[..i] + Filter(s[i + 1..], NotJsSpace)
  {
    FilterAroundDropped(s, i, NotJsSpace);
    FilterNoSpace(s[..i]);
  }

  /** Filtering skips a character the test rejects. */
  lemma FilterAroundDropped(s: string, i: nat, p: char -> bool)
    requires i < |s| && !p(s[i])
    ensures Filter(s, p) == Filter(s[..i], p) + Filter(s[i + 1..], p)
  {
    var t := s[i..];
    assert s == s[..i] + t;
    FilterAppend(s[..i], t, p);
    assert t[0] == s[i] && t[1..] == s[i + 1..];
    FilterSkipsHead(t, p);
  }

  lemma FilterSkipsHead(t: string, p: char -> bool)
    requires t != [] && !p(t[0])
    ensures Filter(t, p) == Filter(t[1..], p)
  {
    assert [] + Filter(t[1..], p) == Filter(t[1..], p);
  }

  /** The pieces, concatenated, are the text without its whitespace. */
  lemma {:induction false} SplitWsContent(s: string)
    ensures Concat(SplitWs(s)) == Filter(s, NotJsSpace)
    decreases |s|
  {
    var i := FirstSpace(s);
    if i == |s| {
      SplitWsOneWord(s);
    } else {
      SplitWsContent(DropSpaces(s[i + 1..]));
      SplitWsStep(s, i);
    }
  }

  lemma SplitWsOneWord(s: string)
    requires FirstSpace(s) == |s|
    ensures Concat(SplitWs(s)) == Filter(s, NotJsSpace)
  {
    assert s[..|s|] == s;
    FilterNoSpace(s);
    ConcatCons(s, []);
    assert s + [] == s;
  }

  /** The first piece and the pieces of the rest, run together. */
  lemma SplitWsStep(s: string, i: nat)
    requires i == FirstSpace(s) && i < |s|
    requires Concat(SplitWs(DropSpaces(s[i + 1..]))) == Filter(DropSpaces(s[i + 1..]), NotJsSpace)
    ensures Concat(SplitWs(s)) == Filter(s, NotJsSpace)
  {
    var rest := DropSpaces(s[i + 1..]);
    var word, words := s[..i], SplitWs(rest);
    calc {
      Concat(SplitWs(s));
      Concat([word] + words);
      { ConcatCons(word, words); }
      word + Concat(words);
      word + Filter(s[i + 1..], NotJsSpace);
      { FilterAroundSpace(s, i); }
      Filter(s, NotJsSpace);
    }
  }

  /** An emitted line: never empty, and either it passed the width check or
      it is a single character. */
  predicate Fits(line: string, width: string -> real, maxWidth: real)
  {
    line != [] && (width(line) <= maxWidth || |line| == 1)
  }

  predicate AllFit(lines: seq<string>, width: string -> real, maxWidth: real)
  {
    forall k :: 0 <= k < |lines| ==> Fits(lines[k], width, maxWidth)
  }

  /** `if (line) lines.push(line)`: an empty line is never emitted. */
  function PushNonEmpty(lines: seq<string>, line: string): (r: seq<string>)
    ensures Concat(r) == Concat(lines) + line
    ensures |r| == |lines| + (if line == [] then 0 else 1)
    ensures r[..|lines|] == lines && (line != [] ==> r[|lines|] == line)
  {
    if line == [] then
      assert Concat(lines) + line == Concat(lines);
      lines
    else
      ConcatAppend(lines, [line]);
      assert Concat([line]) == line + Concat([]);
      assert (lines + [line])[..|lines|] == lines;
      lines + [line]
  }

  lemma PushFits(lines: seq<string>, line: string, width: string -> real, maxWidth: real)
    requires AllFit(lines, width, maxWidth)
    requires line == [] || Fits(line, width, maxWidth)
    ensures AllFit(PushNonEmpty(lines, line), width, maxWidth)
  {
    var r := PushNonEmpty(lines, line);
    forall k | 0 <= k < |r| ensures Fits(r[k], width, maxWidth) {
      if k < |lines| {
        assert r[k] == r[..|lines|][k];
      }
    }
  }

  /** The `for (const ch of word)` loop for a word wider than a line: the
      word is cut into chunks that each pass the width check or are a single
      character; the full chunks are emitted and the last one is returned
      as the line under construction. */
  method BreakWord(lines0: seq<string>, word: string, width: string -> real, maxWidth: real)
    returns (lines: seq<string>, chunk: string)
    requires AllFit(lines0, width, maxWidth)
    ensures AllFit(lines, width, maxWidth)
    ensures chunk == [] || Fits(chunk, width, maxWidth)
    ensures Concat(lines) + chunk == Concat(lines0) + word
  {
    lines := lines0;
    chunk := [];
    var j := 0;
    while j < |word|
      invariant 0 <= j <= |word|
      invariant AllFit(lines, width, maxWidth)
      invariant chunk == [] || Fits(chunk, width, maxWidth)
      invariant Concat(lines) + chunk == Concat(lines0) + word[..j]
    {
      var ch := word[j];
      var nextChunk := chunk + [ch];
      assert word[..j + 1] == word[..j] + [ch];
      if width(nextChunk) <= maxWidth {
        assert Concat(lines) + nextChunk == Concat(lines) + chunk + [ch];
        chunk := nextChunk;
      } else {
        PushFits(lines, chunk, width, maxWidth);
        lines := PushNonEmpty(lines, chunk);
        chunk := [ch];
      }
      j := j + 1;
    }
    assert word[..j] == word;
  }

  /** The body of the `for (const word of words)` loop: the word joins the
      current line when the joined line passes the width check; otherwise
      the current line is emitted and the word starts the next one, cut into
      chunks when it is wider than a line on its own. */
  method PlaceWord(lines0: seq<string>, line0: string, word: string, width: string -> real, maxWidth: real)
    returns (lines: seq<string>, currentLine: string)
    requires AllFit(lines0, width, maxWidth)
    requires line0 == [] || Fits(line0, width, maxWidth)
    requires NoSpace(word)
    ensures AllFit(lines, width, maxWidth)
    ensures currentLine == [] || Fits(currentLine, width, maxWidth)
    ensures Filter(Concat(lines) + currentLine, NotJsSpace) == Filter(Concat(lines0) + line0, NotJsSpace) + word
  {
    FilterNoSpace(word);
    lines := lines0;
    var testLine := if line0 != [] then line0 + " " + word else word;
    if width(testLine) <= maxWidth {
      currentLine := testLine;
      JoinedLineContent(Concat(lines0), line0, word);
    } else {
      PushFits(lines, line0, width, maxWidth);
      lines := PushNonEmpty(lines, line0);
      if width(word) > maxWidth {
        lines, currentLine := BreakWord(lines, word, width, maxWidth);
      } else {
        currentLine := word;
      }
      assert Concat(lines) + currentLine == Concat(lines0) + line0 + word;
      FilterAppend(Concat(lines0) + line0, word, NotJsSpace);
    }
  }

  /** A word joined to the current line, after a space when the line is not
      empty, adds exactly its own characters to the non-space text. */
  lemma JoinedLineContent(before: string, line0: string, word: string)
    requires Filter(word, NotJsSpace) == word
    ensures Filter(before + (if line0 != [] then line0 + " " + word else word), NotJsSpace)
      == Filter(before + line0, NotJsSpace) + word
  {
    if line0 == [] {
      assert before + line0 == before;
      FilterAppend(before, word, NotJsSpace);
    } else {
      var head := before + line0;
      assert before + (line0 + " " + word) == (head + " ") + word;
      FilterAppend(head + " ", word, NotJsSpace);
      FilterAppend(head, " ", NotJsSpace);
      FilterSkipsHead(" ", NotJsSpace);
      assert " "[1..] == [];
    }
  }


  /** `wrapTextToLines(font, text, fontSize, maxWidth)` with the font at its
      size given as the measure `width`: no line is empty, every line passes
      the width check unless it is a single character, and the lines carry
      all of the text's non-space characters, in order. */
  method WrapTextToLines(text: string, width: string -> real, maxWidth: real) returns (lines: seq<string>)
    ensures AllFit(lines, width, maxWidth)
    ensures Filter(Concat(lines), NotJsSpace) == Filter(text, NotJsSpace)
  {
    var words := SplitWs(text);
    lines := [];
    var currentLine: string := [];
    var i := 0;
    while i < |words|
      invariant 0 <= i <= |words|
      invariant AllFit(lines, width, maxWidth)
      invariant currentLine == [] || Fits(currentLine, width, maxWidth)
      invariant Filter(Concat(lines) + currentLine, NotJsSpace) == Concat(words[..i])
    {
      lines, currentLine := PlaceWord(lines, currentLine, words[i], width, maxWidth);
      ConcatPrefixStep(words, i);
      i := i + 1;
    }
    PushFits(lines, currentLine, width, maxWidth);
    lines := PushNonEmpty(lines, currentLine);
    assert words[..i] == words;
    SplitWsContent(text);
  }
}
