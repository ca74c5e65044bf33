/** The summary PDF's checkbox sections: the options of the inspection-kind
    and outcome groups whose flag is true, one line each, labelled from the
    option key (`nonConforme` reads "Non Conforme"). Upper-casing is modelled
    on ASCII letters. */
module SummaryDocument {
  import opened Util
  import opened FormRules
  import opened WordWrap

  predicate IsAsciiUpper(c: char)
  {
    'A' <= c <= 'Z'
  }

  /** `toUpperCase` on one ASCII character. */
  function ToUpperAscii(c: char): (u: char)
    ensures 'a' <= c <= 'z' ==> IsAsciiUpper(u)
    ensures !('a' <= c <= 'z') ==> u == c
  {
    if 'a' <= c <= 'z' then (c as int - 'a' as int + 'A' as int) as char else c
  }

  /** `replace(/([A-Z])/g, ' $1')`: a space inserted before every capital. */
  function SpaceBeforeCapitals(s: string): (r: string)
    ensures |r| >= |s|
  {
    if s == [] then []
    else
      var rest := SpaceBeforeCapitals(s[1..]);
      var head := if IsAsciiUpper(s[0]) then [' ', s[0]] else [s[0]];
      head + rest
  }

  /** Every capital of `r` comes after a space. */
  predicate SpacedCapitals(r: string)
  {
    forall i {:trigger IsAsciiUpper(r[i])} :: 0 <= i < |r| && IsAsciiUpper(r[i]) ==> i > 0 && r[i - 1] == ' '
  }

  /** In the result every capital is preceded by a space. */
  lemma {:induction false} SpaceBeforeCapitalsSpaced(s: string)
    ensures SpacedCapitals(SpaceBeforeCapitals(s))
  {
    if s != [] {
      SpaceBeforeCapitalsSpaced(s[1..]);
      var rest := SpaceBeforeCapitals(s[1..]);
      var head := if IsAsciiUpper(s[0]) then [' ', s[0]] else [s[0]];
      var r := head + rest;
      forall i | 0 <= i < |r| && IsAsciiUpper(r[i]) ensures i > 0 && r[i - 1] == ' ' {
        if i >= |head| {
          var j := i - |head|;
          assert r[i] == rest[j];
          assert IsAsciiUpper(rest[j]);
          assert j > 0 && rest[j - 1] == ' ';
          assert r[i - 1] == rest[j - 1];
        } else {
          assert r[0] == ' ' && r[1] == s[0];
        }
      }
    }
  }

  /** Inserting the spaces leaves the non-space characters as they were. */
  lemma {:induction false} SpaceBeforeCapitalsContent(s: string)
    ensures Filter(SpaceBeforeCapitals(s), NotJsSpace) == Filter(s, NotJsSpace)
  {
    if s != [] {
      SpaceBeforeCapitalsContent(s[1..]);
      var head := if IsAsciiUpper(s[0]) then [' ', s[0]] else [s[0]];
      FilterAppend(head, SpaceBeforeCapitals(s[1..]), NotJsSpace);
      FilterAppend([s[0]], s[1..], NotJsSpace);
      assert s == [s[0]] + s[1..];
      if IsAsciiUpper(s[0]) {
        FilterAppend([' '], [s[0]], NotJsSpace);
        assert head == [' '] + [s[0]];
      }
    }
  }

  /** The replacement works piece by piece. */
  lemma {:induction false} SpaceBeforeCapitalsAppend(a: string, b: string)
    ensures SpaceBeforeCapitals(a + b) == SpaceBeforeCapitals(a) + SpaceBeforeCapitals(b)
  {
    if a != [] {
      SpaceBeforeCapitalsAppend(a[1..], b);
      assert (a + b)[1..] == a[1..] + b;
    } else {
      assert a + b == b;
    }
  }

  predicate NoCapitals(s: string)
  {
    forall i :: 0 <= i < |s| ==> !IsAsciiUpper(s[i])
  }

  /** A string without capitals is left alone. */
  lemma {:induction false} NoCapitalsUnchanged(s: string)
    requires NoCapitals(s)
    ensures SpaceBeforeCapitals(s) == s
  {
    if s != [] {
      assert NoCapitals(s[1..]) by {
        forall i | 0 <= i < |s[1..]| ensures !IsAsciiUpper(s[1..][i]) {
          assert s[1..][i] == s[i + 1];
        }
      }
      NoCapitalsUnchanged(s[1..]);
    }
  }

  function TrimStart(s: string): (r: string)
    ensures |r| <= |s| && r == s[|s| - |r|..]
    ensures r != [] ==> !IsJsSpace(r[0])
    ensures Filter(r, NotJsSpace) == Filter(s, NotJsSpace)
  {
    if s != [] && IsJsSpace(s[0]) then
      assert s == [s[0]] + s[1..];
      TrimStart(s[1..])
    else s
  }

  function TrimEnd(s: string): (r: string)
    ensures |r| <= |s| && r == s[..|r|]
    ensures r != [] ==> !IsJsSpace(r[|r| - 1])
    ensures Filter(r, NotJsSpace) == Filter(s, NotJsSpace)
  {
    if s != [] && IsJsSpace(s[|s| - 1]) then
      var init := s[..|s| - 1];
      assert s == init + [s[|s| - 1]];
      FilterAppend(init, [s[|s| - 1]], NotJsSpace);
      TrimEnd(init)
    else s
  }

  /** `trim()`: leading and trailing whitespace dropped, the rest kept. */
  function Trim(s: string): (r: string)
    ensures r != [] ==> !IsJsSpace(r[0]) && !IsJsSpace(r[|r| - 1])
    ensures Filter(r, NotJsSpace) == Filter(s, NotJsSpace)
  {
    var t := TrimStart(s);
    var r := TrimEnd(t);
    assert r != [] ==> r[0] == t[0];
    r
  }

  /** The label shown for an option key: its first character upper-cased,
      then the rest with a space before each capital, trimmed. */
  function Label(key: string): string
  {
    if key == [] then [] else [ToUpperAscii(key[0])] + Trim(SpaceBeforeCapitals(key[1..]))
  }

  /** A label's non-space characters are the key's, with only the first upper-cased. */
  lemma LabelCharacters(key: string)
    requires key != [] && NoSpace(key)
    ensures Filter(Label(key), NotJsSpace) == [ToUpperAscii(key[0])] + key[1..]
  {
    var first := ToUpperAscii(key[0]);
    assert NoSpace(key[1..]) by {
      forall j | 0 <= j < |key[1..]| ensures !IsJsSpace(key[1..][j]) {
        assert key[1..][j] == key[j + 1];
      }
    }
    FilterNoSpace(key[1..]);
    SpaceBeforeCapitalsContent(key[1..]);
    FilterAppend([first], Trim(SpaceBeforeCapitals(key[1..])), NotJsSpace);
    UpperNotSpace(key[0]);
  }

  lemma UpperNotSpace(c: char)
    requires !IsJsSpace(c)
    ensures Filter([ToUpperAscii(c)], NotJsSpace) == [ToUpperAscii(c)]
  {
    assert !IsJsSpace(ToUpperAscii(c));
  }

  /** Every capital after the first character is preceded by a space. */
  lemma LabelSpacing(key: string)
    requires key != []
    ensures var rest := Trim(SpaceBeforeCapitals(key[1..]));
      forall i {:trigger IsAsciiUpper(rest[i])} :: 0 < i < |rest| && IsAsciiUpper(rest[i]) ==> rest[i - 1] == ' '
  {
    var s := SpaceBeforeCapitals(key[1..]);
    SpaceBeforeCapitalsSpaced(key[1..]);
    var t := TrimStart(s);
    var rest := TrimEnd(t);
    var off := |s| - |t|;
    forall i | 0 < i < |rest| && IsAsciiUpper(rest[i]) ensures rest[i - 1] == ' ' {
      assert rest[i] == t[i] == s[off + i];
      assert rest[i - 1] == t[i - 1] == s[off + i - 1];
    }
  }

  /** `nonConforme` is shown as "Non Conforme". */
  lemma LabelExample()
    ensures Label("nonConforme") == "Non Conforme"
  {
    assert "nonConforme"[1..] == "on" + ['C'] + "onforme";
    OneCapitalSpaced("on", 'C', "onforme");
    var s := "on" + [' ', 'C'] + "onforme";
    TrimUnchanged(s);
    assert ToUpperAscii('n') == 'N';
    assert ['N'] + s == "Non Conforme";
  }

  /** A string that neither starts nor ends with whitespace is its own `trim()`. */
  lemma TrimUnchanged(s: string)
    requires s != [] && !IsJsSpace(s[0]) && !IsJsSpace(s[|s| - 1])
    ensures Trim(s) == s
  {
    assert TrimStart(s) == s;
  }

  /** A single capital between two capital-free pieces gets one space before it. */
  lemma OneCapitalSpaced(a: string, c: char, t: string)
    requires NoCapitals(a)
    requires NoCapitals(t)
    requires IsAsciiUpper(c)
    ensures SpaceBeforeCapitals(a + [c] + t) == a + [' ', c] + t
  {
    var u := [c] + t;
    assert a + [c] + t == a + u;
    SpaceBeforeCapitalsAppend(a, u);
    NoCapitalsUnchanged(a);
    CapitalFirst(c, t);
    assert a + ([' ', c] + t) == a + [' ', c] + t;
  }

  lemma CapitalFirst(c: char, t: string)
    requires NoCapitals(t)
    requires IsAsciiUpper(c)
    ensures SpaceBeforeCapitals([c] + t) == [' ', c] + t
  {
    assert ([c] + t)[1..] == t;
    NoCapitalsUnchanged(t);
  }

  /** The line printed for a ticked option. */
  function OptionLine(key: string): (line: string)
    ensures StartsWith(line, "▢ ")
  {
    "▢ " + Label(key)
  }

  /** The lines of a section: one per ticked option, in key order. */
  function SelectedLines(s: Section): (lines: seq<string>)
    ensures |lines| == CountOn(s)
    ensures forall i :: 0 <= i < |lines| ==> StartsWith(lines[i], "▢ ")
  {
    var on := OnKeys(s);
    seq(|on|, i requires 0 <= i < |on| => OptionLine(on[i]))
  }

  /** With distinct keys, every ticked option gets its line, and every
      line is that of a ticked option. */
  lemma SelectedLinesExact(s: Section)
    requires DistinctKeys(s)
    ensures forall key :: IsOn(s, key) ==> OptionLine(key) in SelectedLines(s)
    ensures forall line :: line in SelectedLines(s) ==> exists key :: IsOn(s, key) && line == OptionLine(key)
  {
    OnKeysSound(s);
    var on := OnKeys(s);
    var lines := SelectedLines(s);
    forall key | IsOn(s, key) ensures OptionLine(key) in lines {
      var i :| 0 <= i < |on| && on[i] == key;
      assert lines[i] == OptionLine(key);
    }
    forall line | line in lines ensures exists key :: IsOn(s, key) && line == OptionLine(key) {
      var i :| 0 <= i < |lines| && lines[i] == line;
      assert on[i] in on;
      assert IsOn(s, on[i]) && line == OptionLine(on[i]);
    }
  }
}
