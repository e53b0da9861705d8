/** `LocalizedBooleanField._convert_localized_value`
    (headless_cms/fields/boolean_field.py): the value of every configured
    language is turned into a boolean, "true" and "false" in any letter case
    included; a missing or `None` value is left out, and anything else
    raises. */
module BooleanField {
  import opened Common

  /** A Python value stored for one language. */
  datatype PyValue = PyBool(b: bool) | PyStr(s: string) | PyNone | PyOther(typeName: string)

  /** `value.get(lang_code, None)`. */
  function Get(value: map<string, PyValue>, code: string): PyValue {
    if code in value then value[code] else PyNone
  }

  /** `str.lower` on ASCII letters. No other character lowers to a letter
      of "true" or "false", so the comparisons below come out as Python's. */
  function LowerChar(c: char): char {
    if 'A' <= c <= 'Z' then (c as int + 32) as char else c
  }

  function Lower(s: string): (l: string)
    ensures |l| == |s| && forall i :: 0 <= i < |s| ==> l[i] == LowerChar(s[i])
  {
    seq(|s|, i requires 0 <= i < |s| => LowerChar(s[i]))
  }

  /** One language's value: a boolean (`Some`), nothing to store (`None`),
      or the exception raised. */
  function ConvertOne(v: PyValue): Result<Option<bool>> {
    match v
    case PyBool(b) => Ok(Some(b))
    case PyStr(s) =>
      if Lower(s) == "false" then Ok(Some(false))
      else if Lower(s) == "true" then Ok(Some(true))
      else Err("ValueError")
    case PyNone => Ok(None)
    case PyOther(_) => Err("TypeError")
  }

  /** The conversion over the language codes in order: the first value
      that cannot be converted raises. */
  function Converted(value: map<string, PyValue>, codes: seq<string>): Result<map<string, bool>>
    decreases |codes|
  {
    if codes == [] then Ok(map[])
    else
      var prev := Converted(value, codes[..|codes| - 1]);
      var code := codes[|codes| - 1];
      var one := ConvertOne(Get(value, code));
      if prev.Err? then prev
      else if one.Err? then Err(one.error)
      else if one.value.None? then prev
      else Ok(prev.value[code := one.value.value])
  }

  /** The codes of `settings.LANGUAGES`. */
  function Codes(languages: seq<(string, string)>): (cs: seq<string>)
    ensures |cs| == |languages| && forall i :: 0 <= i < |languages| ==> cs[i] == languages[i].0
  {
    seq(|languages|, i requires 0 <= i < |languages| => languages[i].0)
  }

  /** The loop of `_convert_localized_value`, filling `integer_values`. */
  method ConvertLocalizedValue(value: map<string, PyValue>, languages: seq<(string, string)>)
    returns (r: Result<map<string, bool>>)
    ensures r == Converted(value, Codes(languages))
  {
    var codes := Codes(languages);
    var integerValues: map<string, bool> := map[];
    var i := 0;
    while i < |languages|
      invariant 0 <= i <= |languages|
      invariant Converted(value, codes[..i]) == Ok(integerValues)
    {
      var code := languages[i].0;
      assert codes[..i + 1][..i] == codes[..i];
      var local := Get(value, code);
      match local {
        case PyBool(b) =>
          integerValues := integerValues[code := b];
        case PyStr(s) =>
          var converted: bool;
          if Lower(s) == "false" {
            converted := false;
          } else if Lower(s) == "true" {
            converted := true;
          } else {
            assert Converted(value, codes[..i + 1]) == Err("ValueError");
            ErrorPersists(value, codes, i + 1);
            return Err("ValueError");
          }
          integerValues := integerValues[code := converted];
        case PyNone =>
        case PyOther(_) =>
          assert Converted(value, codes[..i + 1]) == Err("TypeError");
          ErrorPersists(value, codes, i + 1);
          return Err("TypeError");
      }
      i := i + 1;
    }
    assert codes[..i] == codes;
    r := Ok(integerValues);
  }

  /** Once a value raised, later languages are not looked at. */
  lemma {:induction false} ErrorPersists(value: map<string, PyValue>, codes: seq<string>, j: nat)
    requires j <= |codes| && Converted(value, codes[..j]).Err?
    ensures Converted(value, codes) == Converted(value, codes[..j])
    decreases |codes| - j
  {
    if j < |codes| {
      assert codes[..j + 1][..j] == codes[..j];
      ErrorPersists(value, codes, j + 1);
    } else {
      assert codes[..j] == codes;
    }
  }

  /** The output holds exactly the configured languages whose value is set
      and not `None`, each with its converted boolean. */
  lemma {:induction false} ConvertedEntries(value: map<string, PyValue>, codes: seq<string>)
    requires Converted(value, codes).Ok?
    ensures forall c :: c in Converted(value, codes).value <==> c in codes && Get(value, c) != PyNone
    ensures forall c :: c in Converted(value, codes).value ==>
      ConvertOne(Get(value, c)) == Ok(Some(Converted(value, codes).value[c]))
    decreases |codes|
  {
    if codes != [] {
      var init := codes[..|codes| - 1];
      var code := codes[|codes| - 1];
      ConvertedEntries(value, init);
      assert codes == init + [code];
    }
  }

  /** The conversion raises exactly when the value of some configured
      language can be neither kept nor left out. */
  lemma {:induction false} ConvertedFails(value: map<string, PyValue>, codes: seq<string>)
    ensures Converted(value, codes).Err? <==> exists c :: c in codes && ConvertOne(Get(value, c)).Err?
    decreases |codes|
  {
    if codes != [] {
      var init := codes[..|codes| - 1];
      var code := codes[|codes| - 1];
      ConvertedFails(value, init);
      assert codes == init + [code];
      assert forall c :: c in codes <==> c in init || c == code;
    }
  }

  /** Keys outside the configured languages are ignored: two values that
      agree on the configured codes convert alike. */
  lemma {:induction false} ConvertedIgnoresOthers(value: map<string, PyValue>, other: map<string, PyValue>, codes: seq<string>)
    requires forall c :: c in codes ==> Get(value, c) == Get(other, c)
    ensures Converted(value, codes) == Converted(other, codes)
    decreases |codes|
  {
    if codes != [] {
      var init := codes[..|codes| - 1];
      assert forall c :: c in init ==> c in codes;
      ConvertedIgnoresOthers(value, other, init);
    }
  }

  /** Strings are compared without regard to letter case; other strings,
      and values of other types, raise. */
  lemma ConvertOneExamples()
    ensures ConvertOne(PyStr("TRUE")) == Ok(Some(true))
    ensures ConvertOne(PyStr("False")) == Ok(Some(false))
    ensures ConvertOne(PyStr("yes")) == Err("ValueError")
    ensures ConvertOne(PyOther("int")) == Err("TypeError")
  {
    assert Lower("TRUE") == "true";
    assert Lower("False") == "false";
    assert Lower("yes") == "yes";
  }
}
