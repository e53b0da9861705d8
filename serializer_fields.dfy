/** The serializer fields of headless_cms/serializer_fields.py: `UrlField`,
    which puts a language prefix in front of a site-relative URL, and the
    martor field, which substitutes placeholders without the invalid
    marker. */
module SerializerFields {
  import opened Common
  import opened Markdown

  /** An entry of `settings.LANGUAGES`: a code and its display name. */
  type Language = (string, string)

  /** `repr` of a string without quotes or backslashes in it. */
  function StrRepr(s: string): string {
    "'" + s + "'"
  }

  /** `f"/{lang}/"` for a `(code, name)` pair: the tuple is formatted with
      its `repr`, so the prefix is `/('en', 'English')/`. */
  function TuplePrefix(lang: Language): (p: string)
    ensures |p| == |lang.0| + |lang.1| + 10
  {
    "/(" + StrRepr(lang.0) + ", " + StrRepr(lang.1) + ")/"
  }

  /** `LANGUAGE_PREFIXES` as the module builds it. */
  function TuplePrefixes(languages: seq<Language>): (ps: seq<string>)
    ensures |ps| == |languages|
    ensures forall i :: 0 <= i < |languages| ==> ps[i] == TuplePrefix(languages[i])
  {
    seq(|languages|, i requires 0 <= i < |languages| => TuplePrefix(languages[i]))
  }

  /** The prefixes of the language codes, `/en/`, the ones the field's
      documentation describes. */
  function CodePrefixes(languages: seq<Language>): (ps: seq<string>)
    ensures |ps| == |languages|
    ensures forall i :: 0 <= i < |languages| ==> ps[i] == "/" + languages[i].0 + "/"
  {
    seq(|languages|, i requires 0 <= i < |languages| => "/" + languages[i].0 + "/")
  }

  /** `translation.get_language() or settings.LANGUAGE_CODE`: no active
      language, or an empty one, falls back to the default. */
  function ActiveLanguage(active: Option<string>, languageCode: string): (l: string)
    ensures l == languageCode || (active.Some? && l == active.value && l != "")
  {
    if TruthyOpt(active) then active.value else languageCode
  }

  /** `UrlField.to_representation` for the prefixes given: a value that is
      not site-relative, or already carries one of the prefixes, is kept;
      any other gets `/language` in front. */
  function UrlRepresentation(value: string, prefixes: seq<string>, active: Option<string>, languageCode: string): (r: string)
    ensures !StartsWith(value, "/") || StartsWithAny(value, prefixes) ==> r == value
    ensures StartsWith(value, "/") && !StartsWithAny(value, prefixes) ==>
      r == "/" + ActiveLanguage(active, languageCode) + value
  {
    if !StartsWith(value, "/") || StartsWithAny(value, prefixes) then value
    else "/" + ActiveLanguage(active, languageCode) + value
  }

  /** The field only ever adds a prefix: the value comes back unchanged or
      at the end of the result, behind `/` and the language, so that
      dropping the prefix recovers it. */
  lemma UrlKeepsValue(value: string, prefixes: seq<string>, active: Option<string>, languageCode: string)
    ensures var r := UrlRepresentation(value, prefixes, active, languageCode);
      var l := ActiveLanguage(active, languageCode);
      r == value || (|r| == |value| + |l| + 1 && r[|l| + 1..] == value && StartsWith(r, "/" + l + "/"))
  {
    var r := UrlRepresentation(value, prefixes, active, languageCode);
    var l := ActiveLanguage(active, languageCode);
    if r != value {
      assert r == "/" + l + value;
      assert r[|l| + 1..] == value;
      assert r[..|l| + 2] == "/" + l + "/";
    }
  }

  /** A value that starts with `/`, a configured code and `/` carries one
      of the code prefixes. */
  lemma StartsWithCodePrefix(r: string, languages: seq<Language>, k: nat)
    requires k < |languages| && StartsWith(r, "/" + languages[k].0 + "/")
    ensures StartsWithAny(r, CodePrefixes(languages))
  {
    assert CodePrefixes(languages)[k] == "/" + languages[k].0 + "/";
  }

  /** With the code prefixes, a URL is prefixed at most once: formatting the
      result again changes nothing, as long as the language used is one of
      the configured codes. */
  lemma UrlIdempotent(value: string, languages: seq<Language>, active: Option<string>, languageCode: string, k: nat)
    requires k < |languages| && languages[k].0 == ActiveLanguage(active, languageCode)
    ensures var prefixes := CodePrefixes(languages);
      var r := UrlRepresentation(value, prefixes, active, languageCode);
      UrlRepresentation(r, prefixes, active, languageCode) == r
  {
    var prefixes := CodePrefixes(languages);
    var r := UrlRepresentation(value, prefixes, active, languageCode);
    UrlKeepsValue(value, prefixes, active, languageCode);
    if r != value {
      StartsWithCodePrefix(r, languages, k);
    }
  }

  /** With the prefixes `LANGUAGE_PREFIXES` actually holds, an English URL is
      prefixed a second time, and formatting is not idempotent. */
  lemma TuplePrefixesDoublePrefix()
    ensures UrlRepresentation("/en/about", TuplePrefixes([("en", "English")]), Some("en"), "en") == "/en/en/about"
    ensures UrlRepresentation("/about", CodePrefixes([("en", "English")]), Some("en"), "en") == "/en/about"
    ensures UrlRepresentation("/en/about", CodePrefixes([("en", "English")]), Some("en"), "en") == "/en/about"
  {
    var tuples := TuplePrefixes([("en", "English")]);
    var codes := CodePrefixes([("en", "English")]);
    assert StartsWith("/en/about", "/");
    assert !StartsWith("/en/about", tuples[0]);
    assert !StartsWithAny("/en/about", tuples);
    assert codes[0] == "/en/" && "/about"[..4][1] != codes[0][1];
    assert !StartsWith("/about", codes[0]);
    assert !StartsWithAny("/about", codes);
    assert StartsWith("/en/about", codes[0]);
  }

  /** `LocalizedMartorFieldSerializer.to_representation`: the placeholders
      of the text are substituted with `show_invalid` off. */
  method MartorRepresentation(value: string, resolve: string -> Option<AttrValue>)
    returns (res: Result<string>, asked: seq<string>)
    ensures res == Substitute(value, asked, resolve, false)
    ensures NoDup(asked) && Elems(asked) <= Elems(Placeholders(value))
    ensures res.Ok? ==> Elems(asked) == Elems(Placeholders(value))
    ensures res.Err? <==> exists g :: g in Placeholders(value) && Raises(resolve, false, g)
    ensures (forall g :: g in Placeholders(value) ==> resolve(g).None?) ==> res == Ok(value)
  {
    res, asked := ReplacePlaceholder(value, false, resolve);
    if forall g :: g in Placeholders(value) ==> resolve(g).None? {
      forall g | g in asked
        ensures resolve(g).None?
      {
        assert g in Elems(asked);
      }
      UnresolvedKept(value, asked, resolve);
    }
  }
}
