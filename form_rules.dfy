/** The data shapes the two React forms share: a checkbox group is a
    JavaScript object from option keys to booleans, kept here as an ordered
    list of flags because `Object.entries` and `Object.values` follow key
    insertion order; and the required-field check that both forms run before
    submitting. */
module FormRules {
  import opened Util

  datatype Flag = Flag(key: string, on: bool)

  /** One checkbox group (`tipoIspezione`, `esito` or `dl`), in key order. */
  type Section = seq<Flag>

  function Keys(s: Section): (ks: seq<string>)
    ensures |ks| == |s|
  {
    if s == [] then [] else [s[0].key] + Keys(s[1..])
  }

  /** The key at position `i` is the key of the flag there. */
  lemma {:induction false} KeysAt(s: Section, i: nat)
    requires i < |s|
    ensures Keys(s)[i] == s[i].key
  {
    if i > 0 {
      KeysAt(s[1..], i - 1);
    }
  }

  /** A JavaScript object never holds the same key twice. */
  predicate DistinctKeys(s: Section)
  {
    forall i, j :: 0 <= i < j < |s| ==> s[i].key != s[j].key
  }

  /** `s[k]`: the flag under `k`, or `undefined` (None) when the key is absent. */
  function Lookup(s: Section, k: string): (r: Option<bool>)
    ensures r.None? <==> k !in Keys(s)
  {
    if s == [] then None
    else if s[0].key == k then Some(s[0].on)
    else Lookup(s[1..], k)
  }

  /** The truthiness of `s[k]` (`undefined` is falsy). */
  predicate IsOn(s: Section, k: string)
  {
    Lookup(s, k) == Some(true)
  }

  /** `Object.values(s).filter(Boolean).length`. */
  function CountOn(s: Section): (n: nat)
    ensures n <= |s|
  {
    if s == [] then 0 else (if s[0].on then 1 else 0) + CountOn(s[1..])
  }

  /** The keys whose flag is true, in key order (what `Object.entries(s).map(([k, v]) => v && ...)` shows). */
  function OnKeys(s: Section): (ks: seq<string>)
    ensures |ks| == CountOn(s)
    ensures forall k :: k in ks ==> k in Keys(s)
  {
    if s == [] then [] else (if s[0].on then [s[0].key] else []) + OnKeys(s[1..])
  }

  lemma HeadNotInTail(s: Section)
    requires DistinctKeys(s) && s != []
    ensures s[0].key !in Keys(s[1..])
  {
    forall i | 0 <= i < |s| - 1 ensures Keys(s[1..])[i] != s[0].key {
      KeysAt(s[1..], i);
      assert s[i + 1].key != s[0].key;
    }
  }

  /** With distinct keys, a key is listed exactly when its flag is true. */
  lemma {:induction false} OnKeysSound(s: Section)
    requires DistinctKeys(s)
    ensures forall k :: k in OnKeys(s) <==> IsOn(s, k)
  {
    if s != [] {
      OnKeysSound(s[1..]);
      HeadNotInTail(s);
      forall k ensures k in OnKeys(s) <==> IsOn(s, k) {
        if k == s[0].key {
          assert k !in OnKeys(s[1..]);
        }
      }
    }
  }

  /** `{...s, [k]: v}`: an existing key keeps its position, a new key goes last. */
  function Set(s: Section, k: string, v: bool): (r: Section)
    ensures Lookup(r, k) == Some(v)
    ensures forall k' :: k' != k ==> Lookup(r, k') == Lookup(s, k')
    ensures Keys(r) == if k in Keys(s) then Keys(s) else Keys(s) + [k]
  {
    if s == [] then [Flag(k, v)]
    else if s[0].key == k then
      var r := [Flag(k, v)] + s[1..];
      assert r[1..] == s[1..];
      r
    else
      var tail := Set(s[1..], k, v);
      var r := [s[0]] + tail;
      assert r[1..] == tail;
      assert Keys(r) == [s[0].key] + Keys(tail);
      assert k in Keys(s) <==> k in Keys(s[1..]);
      assert [s[0].key] + (Keys(s[1..]) + [k]) == Keys(s) + [k];
      assert forall k' :: k' != k ==> Lookup(r, k') == Lookup(s, k') by {
        forall k' | k' != k
          ensures Lookup(r, k') == Lookup(s, k')
        {
          if k' != s[0].key {
            assert Lookup(r, k') == Lookup(tail, k');
          }
        }
      }
      r
  }

  lemma SetKeepsDistinct(s: Section, k: string, v: bool)
    requires DistinctKeys(s)
    ensures DistinctKeys(Set(s, k, v))
  {
    var r := Set(s, k, v);
    forall i, j | 0 <= i < j < |r| ensures r[i].key != r[j].key {
      KeysAt(r, i);
      KeysAt(r, j);
      KeysAt(s, i);
      if j < |s| {
        KeysAt(s, j);
      } else {
        assert Keys(s)[i] in Keys(s);
      }
    }
  }

  /** A second write to the same key overrides the first. */
  lemma {:induction false} SetSet(s: Section, k: string, a: bool, b: bool)
    ensures Set(Set(s, k, a), k, b) == Set(s, k, b)
  {
    if s != [] && s[0].key != k {
      SetSet(s[1..], k, a, b);
    }
  }

  /** Writing the value a key already holds changes nothing. */
  lemma {:induction false} SetUnchanged(s: Section, k: string, v: bool)
    requires Lookup(s, k) == Some(v)
    ensures Set(s, k, v) == s
  {
    if s[0].key != k {
      SetUnchanged(s[1..], k, v);
    }
  }

  /** The plain toggle: `{...s, [k]: !s[k]}`. */
  function Toggle(s: Section, k: string): (r: Section)
    ensures IsOn(r, k) <==> !IsOn(s, k)
    ensures forall k' :: k' != k ==> Lookup(r, k') == Lookup(s, k')
  {
    Set(s, k, !IsOn(s, k))
  }

  /** Toggling an existing key twice gives the section back. */
  lemma ToggleTwice(s: Section, k: string)
    requires k in Keys(s)
    ensures Toggle(Toggle(s, k), k) == s
  {
    var v := Lookup(s, k).value;
    SetSet(s, k, !v, v);
    SetUnchanged(s, k, v);
  }

  /** `Object.fromEntries(Object.keys(s).map(key => [key, false]))`. */
  function AllOff(s: Section): (r: Section)
    ensures Keys(r) == Keys(s) && CountOn(r) == 0
    ensures forall k :: !IsOn(r, k)
    ensures forall k :: k in Keys(s) ==> Lookup(r, k) == Some(false)
  {
    if s == [] then [] else [Flag(s[0].key, false)] + AllOff(s[1..])
  }

  lemma {:induction false} AllOffTwice(s: Section)
    ensures AllOff(AllOff(s)) == AllOff(s)
  {
    if s != [] {
      AllOffTwice(s[1..]);
    }
  }

  lemma {:induction false} AllOffSet(s: Section, k: string, v: bool)
    ensures AllOff(Set(s, k, v)) == Set(AllOff(s), k, false)
  {
    if s != [] && s[0].key != k {
      AllOffSet(s[1..], k, v);
    }
  }

  /** The exclusive choice: every key off, then `k` on. */
  function SelectOnly(s: Section, k: string): (r: Section)
    ensures IsOn(r, k)
    ensures forall k' :: k' != k ==> !IsOn(r, k')
    ensures Keys(r) == if k in Keys(s) then Keys(s) else Keys(s) + [k]
  {
    Set(AllOff(s), k, true)
  }

  /** Switching one key on in a section with nothing on lists that key alone. */
  lemma {:induction false} SetOnlyOn(t: Section, k: string)
    requires CountOn(t) == 0
    ensures OnKeys(Set(t, k, true)) == [k]
  {
    if t != [] && t[0].key != k {
      SetOnlyOn(t[1..], k);
    }
  }

  /** Exactly one flag is true after an exclusive choice, and it is the chosen one. */
  lemma SelectOnlyCountsOne(s: Section, k: string)
    ensures CountOn(SelectOnly(s, k)) == 1
    ensures OnKeys(SelectOnly(s, k)) == [k]
  {
    SetOnlyOn(AllOff(s), k);
  }

  /** Choosing the same key twice is the same as choosing it once. */
  lemma SelectOnlyIdempotent(s: Section, k: string)
    ensures SelectOnly(SelectOnly(s, k), k) == SelectOnly(s, k)
  {
    AllOffSet(AllOff(s), k, true);
    AllOffTwice(s);
    SetSet(AllOff(s), k, false, true);
  }

  // ---------------------------------------------------------------------------
  // Required fields
  // ---------------------------------------------------------------------------

  const RequiredMessage: string := "Campo obbligatorio"

  /** `!formData[field]` is false: the field is present and not the empty string. */
  predicate Filled(fields: map<string, string>, f: string)
  {
    f in fields && fields[f] != ""
  }

  /** The ten fields that must be filled before the form is accepted. */
  const RequiredFields: seq<string> := [
    "dataIspezione", "dataVerbale", "numero", "nomeProgetto", "lavorazioneVerificata",
    "verificaMateriale", "riferimentoProgetto", "ubicazione", "schedaControllo", "oggettoSopralluogo"]

  /** `validateForm`, shared by the form page and the standalone app: valid
      exactly when all ten required fields are filled, with "Campo
      obbligatorio" recorded for each one that is not. */
  method ValidateForm(text: map<string, string>) returns (isValid: bool, errors: map<string, string>)
    ensures isValid <==> forall field :: field in RequiredFields ==> Filled(text, field)
    ensures errors.Keys == set field | field in RequiredFields && !Filled(text, field)
    ensures forall field :: field in errors ==> errors[field] == "Campo obbligatorio"
  {
    isValid, errors := ValidateRequired(text, RequiredFields);
  }

  /** The `requiredFields.forEach` loop of `validateForm`: collects an error for
      every required field that is missing or empty and reports whether none was. */
  method ValidateRequired(fields: map<string, string>, required: seq<string>)
    returns (isValid: bool, errors: map<string, string>)
    ensures isValid <==> forall f :: f in required ==> Filled(fields, f)
    ensures errors.Keys == set f | f in required && !Filled(fields, f)
    ensures forall f :: f in errors ==> errors[f] == RequiredMessage
  {
    errors := map[];
    isValid := true;
    var i := 0;
    while i < |required|
      invariant 0 <= i <= |required|
      invariant isValid <==> forall f :: f in required[..i] ==> Filled(fields, f)
      invariant errors.Keys == set f | f in required[..i] && !Filled(fields, f)
      invariant forall f :: f in errors ==> errors[f] == RequiredMessage
    {
      var field := required[i];
      if !Filled(fields, field) {
        errors := errors[field := RequiredMessage];
        isValid := false;
      }
      assert required[..i + 1] == required[..i] + [field];
      i := i + 1;
    }
    assert required[..i] == required;
  }
}
