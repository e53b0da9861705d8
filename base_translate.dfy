/** The translation walk behind the admin's translate buttons
    (headless_cms/auto_translate/base_translate.py): every localized field
    whose base-language text is set gets the missing (or, when forced, all)
    other languages filled in, generic children that are localized models are
    translated the same way first, and then the instance is saved. */
module BaseTranslate {
  import opened Common

  type Lang = string

  /** `settings.LANGUAGES` (the codes, in order) and `settings.LANGUAGE_CODE`. */
  datatype Settings = Settings(languages: seq<Lang>, languageCode: Lang)

  /** A `LocalizedValue`: the text stored for each language. */
  type LocalizedValue = map<Lang, string>

  /** `getattr(value, lang)`; a language without text reads as empty (falsy). */
  function Get(v: LocalizedValue, lang: Lang): string {
    if lang in v then v[lang] else ""
  }

  /** A database instance: its primary key and, in `get_fields()` order, the
      value of each field the walk looks at. */
  datatype Node = Node(key: int, fields: seq<FieldValue>)

  /** A localized field and its value; a generic relation with the rows it
      holds, and whether its related model is a `LocalizedModel`; any other field. */
  datatype FieldValue =
    | Localized(name: string, value: LocalizedValue)
    | Generic(name: string, localizedModel: bool, items: seq<Node>)
    | Other(name: string)

  /** A translator class: `can_batch_translate`, `translate(language, text)`
      and `batch_translate(languages, text)`, each of which may raise. */
  datatype Engine = Engine(
    canBatch: bool,
    translate: (Lang, string) -> Result<string>,
    batch: (seq<Lang>, string) -> Result<seq<string>>)

  /** `BaseTranslate` itself: no batching, `translate` returns the text, and
      `batch_translate` raises `NotImplementedError`. */
  const BASE_ENGINE: Engine := Engine(
    false,
    (lang: Lang, text: string) => Ok(text),
    (langs: seq<Lang>, text: string) => Err("NotImplementedError"))

  /** The base `translate` hands back its text for every language. */
  lemma BaseTranslateIsIdentity(lang: Lang, text: string)
    ensures BASE_ENGINE.translate(lang, text) == Ok(text)
    ensures !BASE_ENGINE.canBatch
    ensures BASE_ENGINE.batch([lang], text).Err?
  {
  }

  /** `_handle_translate`: translates the text into `lang` and stores it
      there; every other language keeps its text. */
  function HandleTranslate(e: Engine, v: LocalizedValue, lang: Lang, text: string): (r: Result<LocalizedValue>)
    ensures r.Ok? <==> e.translate(lang, text).Ok?
    ensures r.Ok? ==> Get(r.value, lang) == e.translate(lang, text).value
    ensures r.Ok? ==> r.value.Keys == v.Keys + {lang}
    ensures r.Ok? ==> forall l :: l != lang ==> Get(r.value, l) == Get(v, l)
  {
    var t := e.translate(lang, text);
    if t.Err? then Err(t.error) else Ok(v[lang := t.value])
  }

  /** A language the walk fills in: not the base language, and empty unless forced. */
  predicate IsTarget(code: Lang, v: LocalizedValue, force: bool, lang: Lang) {
    lang != code && (force || Get(v, lang) == "")
  }

  /** The per-language loop of `process`, left to right, stopping at the first
      exception. The emptiness test reads the value as updated so far. */
  function TranslateLangs(e: Engine, code: Lang, langs: seq<Lang>, acc: Result<LocalizedValue>, base: string, force: bool): Result<LocalizedValue>
    decreases langs
  {
    if langs == [] || acc.Err? then acc
    else
      var next := if IsTarget(code, acc.value, force, langs[0]) then HandleTranslate(e, acc.value, langs[0], base) else acc;
      TranslateLangs(e, code, langs[1..], next, base, force)
  }

  /** The languages `_handle_batch_translate` collects, in `LANGUAGES` order. */
  function Targets(langs: seq<Lang>, code: Lang, v: LocalizedValue, force: bool): seq<Lang> {
    if langs == [] then []
    else (if IsTarget(code, v, force, langs[0]) then [langs[0]] else []) + Targets(langs[1..], code, v, force)
  }

  /** `zip(langs, texts)` stored into the value, left to right. */
  function Zip(v: LocalizedValue, langs: seq<Lang>, texts: seq<string>): LocalizedValue
    requires |langs| == |texts|
    decreases |langs|
  {
    if langs == [] then v else Zip(v[langs[0] := texts[0]], langs[1..], texts[1..])
  }

  /** `_handle_batch_translate`: one batch call for all target languages; an
      answer of the wrong length leaves the value as it was. */
  function BatchTranslateField(e: Engine, st: Settings, v: LocalizedValue, base: string, force: bool): Result<LocalizedValue> {
    var targets := Targets(st.languages, st.languageCode, v, force);
    var texts := e.batch(targets, base);
    if texts.Err? then Err(texts.error)
    else if |texts.value| != |targets| then Ok(v)
    else Ok(Zip(v, targets, texts.value))
  }

  /** What `process` does with one field: the field's new value (or the
      exception raised) and the instances saved on the way. */
  function StepField(e: Engine, st: Settings, fv: FieldValue, force: bool): (Result<FieldValue>, seq<Node>)
    decreases fv
  {
    match fv
    case Localized(name, v) =>
      var base := Get(v, st.languageCode);
      if base == "" then (Ok(fv), [])
      else
        var t := if e.canBatch then BatchTranslateField(e, st, v, base, force)
                 else TranslateLangs(e, st.languageCode, st.languages, Ok(v), base, force);
        (if t.Err? then Err(t.error) else Ok(Localized(name, t.value)), [])
    case Generic(_, localizedModel, items) =>
      if localizedModel then
        var c := FoldChildren(e, st, force, (Ok(()), []), items);
        (if c.0.Err? then Err(c.0.error) else Ok(fv), c.1)
      else (Ok(fv), [])
    case Other(_) => (Ok(fv), [])
  }

  /** The field loop of `process`, from an accumulated state. */
  function FoldFields(e: Engine, st: Settings, force: bool, acc: (Result<seq<FieldValue>>, seq<Node>), fields: seq<FieldValue>): (Result<seq<FieldValue>>, seq<Node>)
    decreases fields
  {
    if fields == [] || acc.0.Err? then acc
    else
      var step := StepField(e, st, fields[0], force);
      var next := (if step.0.Err? then Err(step.0.error) else Ok(acc.0.value + [step.0.value]), acc.1 + step.1);
      FoldFields(e, st, force, next, fields[1..])
  }

  /** The loop over the rows of a generic relation, each processed by a new
      translator of the same class with the same `force`. */
  function FoldChildren(e: Engine, st: Settings, force: bool, acc: (Result<()>, seq<Node>), items: seq<Node>): (Result<()>, seq<Node>)
    decreases items
  {
    if items == [] || acc.0.Err? then acc
    else
      var p := ProcessSpec(e, st, items[0], force);
      FoldChildren(e, st, force, (if p.0.Err? then Err(p.0.error) else Ok(()), acc.1 + p.1), items[1..])
  }

  /** `process(force)`: the instance as saved (or the exception) and every
      save, in order; the instance itself is saved last. */
  function ProcessSpec(e: Engine, st: Settings, node: Node, force: bool): (Result<Node>, seq<Node>)
    decreases node
  {
    var f := FoldFields(e, st, force, (Ok([]), []), node.fields);
    if f.0.Err? then (Err(f.0.error), f.1)
    else (Ok(Node(node.key, f.0.value)), f.1 + [Node(node.key, f.0.value)])
  }

  // ---------------------------------------------------------------------
  // The walk, as the source runs it

  /** `process`: the fields in order, then `instance.save()`. */
  method Process(e: Engine, st: Settings, node: Node, force: bool) returns (res: Result<Node>, saved: seq<Node>)
    ensures (res, saved) == ProcessSpec(e, st, node, force)
    decreases node, 2
  {
    var fields := node.fields;
    var out: seq<FieldValue> := [];
    saved := [];
    var i := 0;
    while i < |fields|
      invariant 0 <= i <= |fields|
      invariant FoldFields(e, st, force, (Ok([]), []), fields) == FoldFields(e, st, force, (Ok(out), saved), fields[i..])
    {
      assert fields[i..][1..] == fields[i + 1..];
      var r, s := TranslateField(e, st, fields[i], force);
      saved := saved + s;
      if r.Err? {
        return Err(r.error), saved;
      }
      out := out + [r.value];
      i := i + 1;
    }
    var n := Node(node.key, out);
    saved := saved + [n];
    res := Ok(n);
  }

  /** One iteration of the field loop of `process`. */
  method TranslateField(e: Engine, st: Settings, fv: FieldValue, force: bool) returns (r: Result<FieldValue>, saved: seq<Node>)
    ensures (r, saved) == StepField(e, st, fv, force)
    decreases fv, 1
  {
    saved := [];
    r := Ok(fv);
    match fv
    case Localized(name, v) =>
      var base := Get(v, st.languageCode);
      if base != "" {
        var t;
        if e.canBatch {
          t := HandleBatchTranslate(e, st, v, base, force);
        } else {
          t := TranslateEach(e, st, v, base, force);
        }
        r := if t.Err? then Err(t.error) else Ok(Localized(name, t.value));
      }
    case Generic(_, localizedModel, items) =>
      if localizedModel {
        var c;
        c, saved := ProcessChildren(e, st, items, force);
        if c.Err? {
          r := Err(c.error);
        }
      }
    case Other(_) =>
  }

  /** `for item in sub_items: self.__class__(item).process(force)`. */
  method ProcessChildren(e: Engine, st: Settings, items: seq<Node>, force: bool) returns (r: Result<()>, saved: seq<Node>)
    ensures (r, saved) == FoldChildren(e, st, force, (Ok(()), []), items)
    decreases items, 0
  {
    saved := [];
    var j := 0;
    while j < |items|
      invariant 0 <= j <= |items|
      invariant FoldChildren(e, st, force, (Ok(()), []), items) == FoldChildren(e, st, force, (Ok(()), saved), items[j..])
    {
      assert items[j..][1..] == items[j + 1..];
      var p, s := Process(e, st, items[j], force);
      saved := saved + s;
      if p.Err? {
        return Err(p.error), saved;
      }
      j := j + 1;
    }
    r := Ok(());
  }

  /** The per-language loop of `process` for one field. */
  method TranslateEach(e: Engine, st: Settings, v: LocalizedValue, base: string, force: bool) returns (r: Result<LocalizedValue>)
    ensures r == TranslateLangs(e, st.languageCode, st.languages, Ok(v), base, force)
  {
    var langs := st.languages;
    var cur := v;
    var i := 0;
    while i < |langs|
      invariant 0 <= i <= |langs|
      invariant TranslateLangs(e, st.languageCode, langs, Ok(v), base, force)
        == TranslateLangs(e, st.languageCode, langs[i..], Ok(cur), base, force)
    {
      assert langs[i..][1..] == langs[i + 1..];
      var lang := langs[i];
      if lang != st.languageCode && (force || Get(cur, lang) == "") {
        var t := HandleTranslate(e, cur, lang, base);
        if t.Err? {
          return t;
        }
        cur := t.value;
      }
      i := i + 1;
    }
    r := Ok(cur);
  }

  /** `_handle_batch_translate`. */
  method HandleBatchTranslate(e: Engine, st: Settings, v: LocalizedValue, base: string, force: bool) returns (r: Result<LocalizedValue>)
    ensures r == BatchTranslateField(e, st, v, base, force)
  {
    var targets := CollectTargets(st.languages, st.languageCode, v, force);
    var texts := e.batch(targets, base);
    if texts.Err? {
      return Err(texts.error);
    }
    if |texts.value| != |targets| {
      return Ok(v);
    }
    var cur := SetAll(v, targets, texts.value);
    r := Ok(cur);
  }

  /** The first loop of `_handle_batch_translate`: the languages to ask for. */
  method CollectTargets(langs: seq<Lang>, code: Lang, v: LocalizedValue, force: bool) returns (targets: seq<Lang>)
    ensures targets == Targets(langs, code, v, force)
  {
    targets := [];
    var i := 0;
    while i < |langs|
      invariant 0 <= i <= |langs|
      invariant targets + Targets(langs[i..], code, v, force) == Targets(langs, code, v, force)
    {
      ghost var prev := targets;
      ghost var step := if IsTarget(code, v, force, langs[i]) then [langs[i]] else [];
      assert langs[i..][1..] == langs[i + 1..];
      assert Targets(langs[i..], code, v, force) == step + Targets(langs[i + 1..], code, v, force);
      if langs[i] != code && (force || Get(v, langs[i]) == "") {
        targets := targets + [langs[i]];
      }
      assert targets == prev + step;
      ghost var later := Targets(langs[i + 1..], code, v, force);
      assert (prev + step) + later == prev + (step + later);
      i := i + 1;
    }
    assert langs[i..] == [];
  }

  /** The second loop of `_handle_batch_translate`: `field_value.set` for each pair. */
  method SetAll(v: LocalizedValue, langs: seq<Lang>, texts: seq<string>) returns (cur: LocalizedValue)
    requires |langs| == |texts|
    ensures cur == Zip(v, langs, texts)
  {
    cur := v;
    var k := 0;
    while k < |langs|
      invariant 0 <= k <= |langs|
      invariant Zip(v, langs, texts) == Zip(cur, langs[k..], texts[k..])
    {
      assert langs[k..][1..] == langs[k + 1..];
      assert texts[k..][1..] == texts[k + 1..];
      cur := cur[langs[k] := texts[k]];
      k := k + 1;
    }
  }

  // ---------------------------------------------------------------------
  // Which languages are translated

  /** A language is collected exactly when it is listed, is not the base
      language, and is empty or `force` is set; no language is collected twice. */
  lemma {:induction false} TargetsMembership(langs: seq<Lang>, code: Lang, v: LocalizedValue, force: bool)
    ensures forall l :: l in Targets(langs, code, v, force) <==> l in langs && IsTarget(code, v, force, l)
    ensures NoDup(langs) ==> NoDup(Targets(langs, code, v, force))
  {
    if langs != [] {
      var rest := Targets(langs[1..], code, v, force);
      TargetsMembership(langs[1..], code, v, force);
      assert forall l :: l in langs <==> l == langs[0] || l in langs[1..];
      if NoDup(langs) {
        NoDupTail(langs);
        if IsTarget(code, v, force, langs[0]) {
          var t := [langs[0]] + rest;
          forall i, j | 0 <= i < j < |t|
            ensures t[i] != t[j]
          {
            if i == 0 {
              assert t[j] == rest[j - 1] && rest[j - 1] in rest;
            } else {
              assert t[i] == rest[i - 1] && t[j] == rest[j - 1];
            }
          }
        } else {
          assert Targets(langs, code, v, force) == rest;
        }
      }
    }
  }

  /** Writing a language that is not in the list does not change what is collected. */
  lemma {:induction false} TargetsIgnoreOthers(langs: seq<Lang>, code: Lang, v: LocalizedValue, lang: Lang, text: string, force: bool)
    requires lang !in langs
    ensures Targets(langs, code, v[lang := text], force) == Targets(langs, code, v, force)
  {
    if langs != [] {
      assert langs[0] != lang;
      TargetsIgnoreOthers(langs[1..], code, v, lang, text, force);
    }
  }

  /** The per-language mode: each collected language gets its translation,
      every other language keeps its text, and the field raises exactly when
      translating one of the collected languages raises. */
  lemma {:induction false} TranslateLangsEffect(e: Engine, code: Lang, langs: seq<Lang>, v: LocalizedValue, base: string, force: bool)
    requires NoDup(langs)
    ensures TranslateLangs(e, code, langs, Ok(v), base, force).Err? <==>
      exists l :: l in Targets(langs, code, v, force) && e.translate(l, base).Err?
    ensures TranslateLangs(e, code, langs, Ok(v), base, force).Ok? ==> forall l ::
      Get(TranslateLangs(e, code, langs, Ok(v), base, force).value, l)
        == if l in Targets(langs, code, v, force) then e.translate(l, base).value else Get(v, l)
  {
    if langs != [] {
      var h := langs[0];
      var rest := langs[1..];
      NoDupTail(langs);
      TargetsMembership(rest, code, v, force);
      if IsTarget(code, v, force, h) {
        var next := HandleTranslate(e, v, h, base);
        assert Targets(langs, code, v, force) == [h] + Targets(rest, code, v, force);
        if next.Ok? {
          TranslateLangsEffect(e, code, rest, next.value, base, force);
          TargetsIgnoreOthers(rest, code, v, h, next.value[h], force);
          assert next.value == v[h := next.value[h]];
        } else {
          assert TranslateLangs(e, code, rest, next, base, force) == next;
        }
      } else {
        TranslateLangsEffect(e, code, rest, v, base, force);
      }
    }
  }

  /** Storing the answers: each language gets its own answer, any other
      language keeps its text. */
  lemma {:induction false} ZipEffect(v: LocalizedValue, langs: seq<Lang>, texts: seq<string>)
    requires |langs| == |texts|
    ensures forall l :: l !in langs ==> Get(Zip(v, langs, texts), l) == Get(v, l)
    ensures NoDup(langs) ==> forall i :: 0 <= i < |langs| ==> Get(Zip(v, langs, texts), langs[i]) == texts[i]
    decreases |langs|
  {
    if langs != [] {
      var h := langs[0];
      ZipEffect(v[h := texts[0]], langs[1..], texts[1..]);
      if NoDup(langs) {
        NoDupTail(langs);
        forall i | 0 <= i < |langs|
          ensures Get(Zip(v, langs, texts), langs[i]) == texts[i]
        {
          if i != 0 {
            assert langs[i] == langs[1..][i - 1];
          }
        }
      }
    }
  }

  /** The batch mode: an exception from `batch_translate` propagates; an
      answer of the wrong length changes nothing; otherwise the i-th answer
      goes to the i-th collected language and nothing else changes. */
  lemma BatchEffect(e: Engine, st: Settings, v: LocalizedValue, base: string, force: bool)
    ensures var targets := Targets(st.languages, st.languageCode, v, force);
      var r := BatchTranslateField(e, st, v, base, force);
      && (r.Err? <==> e.batch(targets, base).Err?)
      && (r.Ok? && |e.batch(targets, base).value| != |targets| ==> r.value == v)
      && (r.Ok? ==> forall l :: l !in targets ==> Get(r.value, l) == Get(v, l))
      && (r.Ok? && NoDup(st.languages) && |e.batch(targets, base).value| == |targets| ==>
            forall i :: 0 <= i < |targets| ==> Get(r.value, targets[i]) == e.batch(targets, base).value[i])
  {
    var targets := Targets(st.languages, st.languageCode, v, force);
    TargetsMembership(st.languages, st.languageCode, v, force);
    var texts := e.batch(targets, base);
    if texts.Ok? && |texts.value| == |targets| {
      ZipEffect(v, targets, texts.value);
    }
  }

  /** The per-language loop never writes the base language. */
  lemma {:induction false} TranslateLangsKeepsBase(e: Engine, code: Lang, langs: seq<Lang>, acc: Result<LocalizedValue>, base: string, force: bool)
    requires acc.Ok?
    ensures TranslateLangs(e, code, langs, acc, base, force).Ok? ==>
      Get(TranslateLangs(e, code, langs, acc, base, force).value, code) == Get(acc.value, code)
  {
    if langs != [] {
      var next := if IsTarget(code, acc.value, force, langs[0]) then HandleTranslate(e, acc.value, langs[0], base) else acc;
      if next.Ok? {
        TranslateLangsKeepsBase(e, code, langs[1..], next, base, force);
      }
    }
  }

  /** A field after the walk: a localized field keeps its name and its
      base-language text; any other field is left as it was. */
  predicate Keeps(code: Lang, before: FieldValue, after: FieldValue) {
    if before.Localized? then
      after.Localized? && after.name == before.name && Get(after.value, code) == Get(before.value, code)
    else after == before
  }

  lemma StepFieldKeeps(e: Engine, st: Settings, fv: FieldValue, force: bool)
    ensures StepField(e, st, fv, force).0.Ok? ==> Keeps(st.languageCode, fv, StepField(e, st, fv, force).0.value)
  {
    if fv.Localized? {
      var v := fv.value;
      var base := Get(v, st.languageCode);
      if base != "" {
        if e.canBatch {
          BatchEffect(e, st, v, base, force);
          TargetsMembership(st.languages, st.languageCode, v, force);
        } else {
          TranslateLangsKeepsBase(e, st.languageCode, st.languages, Ok(v), base, force);
        }
      }
    }
  }

  /** The field loop keeps one result per field, in order. */
  lemma {:induction false} FoldFieldsPointwise(e: Engine, st: Settings, force: bool, acc: (Result<seq<FieldValue>>, seq<Node>), fields: seq<FieldValue>)
    requires acc.0.Ok?
    ensures var r := FoldFields(e, st, force, acc, fields);
      r.0.Ok? ==>
        |r.0.value| == |acc.0.value| + |fields| && r.0.value[..|acc.0.value|] == acc.0.value
        && forall i :: 0 <= i < |fields| ==> StepField(e, st, fields[i], force).0 == Ok(r.0.value[|acc.0.value| + i])
    decreases fields
  {
    if fields != [] {
      var step := StepField(e, st, fields[0], force);
      if step.0.Ok? {
        var next := (Ok(acc.0.value + [step.0.value]), acc.1 + step.1);
        FoldFieldsPointwise(e, st, force, next, fields[1..]);
        var r := FoldFields(e, st, force, acc, fields);
        if r.0.Ok? {
          assert r.0.value[..|acc.0.value| + 1] == acc.0.value + [step.0.value];
          assert r.0.value[..|acc.0.value|] == r.0.value[..|acc.0.value| + 1][..|acc.0.value|];
          forall i | 0 <= i < |fields|
            ensures StepField(e, st, fields[i], force).0 == Ok(r.0.value[|acc.0.value| + i])
          {
            if i == 0 {
              assert r.0.value[|acc.0.value|] == r.0.value[..|acc.0.value| + 1][|acc.0.value|];
            } else {
              assert fields[i] == fields[1..][i - 1];
            }
          }
        }
      }
    }
  }

  /** `process` never touches the base language: the saved instance has
      the same fields, every localized one with its base-language text. */
  lemma ProcessKeepsBaseLanguage(e: Engine, st: Settings, node: Node, force: bool)
    ensures var r := ProcessSpec(e, st, node, force);
      r.0.Ok? ==>
        r.0.value.key == node.key && |r.0.value.fields| == |node.fields|
        && forall i :: 0 <= i < |node.fields| ==> Keeps(st.languageCode, node.fields[i], r.0.value.fields[i])
  {
    var f := FoldFields(e, st, force, (Ok([]), []), node.fields);
    FoldFieldsPointwise(e, st, force, (Ok([]), []), node.fields);
    if f.0.Ok? {
      var out := f.0.value;
      assert ProcessSpec(e, st, node, force).0 == Ok(Node(node.key, out));
      forall i | 0 <= i < |node.fields|
        ensures Keeps(st.languageCode, node.fields[i], out[i])
      {
        StepFieldKeeps(e, st, node.fields[i], force);
        assert StepField(e, st, node.fields[i], force).0 == Ok(out[0 + i]);
      }
    }
  }

  /** A field whose every language already has text is left alone without
      `force`: nothing is collected and no translation is asked for. */
  lemma FilledFieldUnchanged(e: Engine, st: Settings, name: string, v: LocalizedValue)
    requires forall l :: l in st.languages ==> Get(v, l) != ""
    ensures Targets(st.languages, st.languageCode, v, false) == []
    ensures !e.canBatch ==> StepField(e, st, Localized(name, v), false) == (Ok(Localized(name, v)), [])
  {
    NoTargets(st.languages, st.languageCode, v);
    NothingToTranslate(e, st.languageCode, st.languages, v, Get(v, st.languageCode));
  }

  lemma {:induction false} NoTargets(langs: seq<Lang>, code: Lang, v: LocalizedValue)
    requires forall l :: l in langs ==> Get(v, l) != ""
    ensures Targets(langs, code, v, false) == []
  {
    if langs != [] {
      assert langs[0] in langs;
      NoTargets(langs[1..], code, v);
    }
  }

  lemma {:induction false} NothingToTranslate(e: Engine, code: Lang, langs: seq<Lang>, v: LocalizedValue, base: string)
    requires forall l :: l in langs ==> Get(v, l) != ""
    ensures TranslateLangs(e, code, langs, Ok(v), base, false) == Ok(v)
  {
    if langs != [] {
      assert langs[0] in langs;
      NothingToTranslate(e, code, langs[1..], v, base);
    }
  }

  // ---------------------------------------------------------------------
  // Saves and exceptions

  /** The number of instances a full walk saves: the instance and, first,
      every row reached through generic relations to localized models. */
  function SaveCount(node: Node): nat
    decreases node
  {
    1 + FieldsSaveCount(node.fields)
  }

  function FieldsSaveCount(fields: seq<FieldValue>): nat
    decreases fields
  {
    if fields == [] then 0 else FieldSaveCount(fields[0]) + FieldsSaveCount(fields[1..])
  }

  function FieldSaveCount(fv: FieldValue): nat
    decreases fv
  {
    if fv.Generic? && fv.localizedModel then ItemsSaveCount(fv.items) else 0
  }

  function ItemsSaveCount(items: seq<Node>): nat
    decreases items
  {
    if items == [] then 0 else SaveCount(items[0]) + ItemsSaveCount(items[1..])
  }

  /** A walk that completes saves every reached instance exactly once, the
      instance itself last, after its children. */
  lemma {:induction false} ProcessSaves(e: Engine, st: Settings, node: Node, force: bool)
    ensures var r := ProcessSpec(e, st, node, force);
      r.0.Ok? ==> |r.1| == SaveCount(node) && r.1[|r.1| - 1] == r.0.value
    decreases node, 1
  {
    FoldFieldsSaves(e, st, force, (Ok([]), []), node.fields);
  }

  lemma {:induction false} FoldFieldsSaves(e: Engine, st: Settings, force: bool, acc: (Result<seq<FieldValue>>, seq<Node>), fields: seq<FieldValue>)
    requires acc.0.Ok?
    ensures var r := FoldFields(e, st, force, acc, fields);
      r.0.Ok? ==> |r.1| == |acc.1| + FieldsSaveCount(fields)
    decreases fields
  {
    if fields != [] {
      var step := StepField(e, st, fields[0], force);
      StepFieldSaves(e, st, fields[0], force);
      if step.0.Ok? {
        FoldFieldsSaves(e, st, force, (Ok(acc.0.value + [step.0.value]), acc.1 + step.1), fields[1..]);
      }
    }
  }

  lemma {:induction false} StepFieldSaves(e: Engine, st: Settings, fv: FieldValue, force: bool)
    ensures StepField(e, st, fv, force).0.Ok? ==> |StepField(e, st, fv, force).1| == FieldSaveCount(fv)
    decreases fv
  {
    if fv.Generic? && fv.localizedModel {
      FoldChildrenSaves(e, st, force, (Ok(()), []), fv.items);
    }
  }

  lemma {:induction false} FoldChildrenSaves(e: Engine, st: Settings, force: bool, acc: (Result<()>, seq<Node>), items: seq<Node>)
    requires acc.0.Ok?
    ensures var r := FoldChildren(e, st, force, acc, items);
      r.0.Ok? ==> |r.1| == |acc.1| + ItemsSaveCount(items)
    decreases items
  {
    if items != [] {
      var p := ProcessSpec(e, st, items[0], force);
      ProcessSaves(e, st, items[0], force);
      if p.0.Ok? {
        FoldChildrenSaves(e, st, force, (Ok(()), acc.1 + p.1), items[1..]);
      }
    }
  }

  /** A translator whose calls never raise. */
  ghost predicate NeverRaises(e: Engine) {
    (!e.canBatch ==> forall l, t :: e.translate(l, t).Ok?)
    && (e.canBatch ==> forall ls, t :: e.batch(ls, t).Ok?)
  }

  /** With such a translator the whole walk completes. */
  lemma {:induction false} ProcessCompletes(e: Engine, st: Settings, node: Node, force: bool)
    requires NeverRaises(e)
    ensures ProcessSpec(e, st, node, force).0.Ok?
    decreases node, 1
  {
    FoldFieldsCompletes(e, st, force, (Ok([]), []), node.fields);
  }

  lemma {:induction false} FoldFieldsCompletes(e: Engine, st: Settings, force: bool, acc: (Result<seq<FieldValue>>, seq<Node>), fields: seq<FieldValue>)
    requires NeverRaises(e) && acc.0.Ok?
    ensures FoldFields(e, st, force, acc, fields).0.Ok?
    decreases fields
  {
    if fields != [] {
      var fv := fields[0];
      StepFieldCompletes(e, st, fv, force);
      var step := StepField(e, st, fv, force);
      FoldFieldsCompletes(e, st, force, (Ok(acc.0.value + [step.0.value]), acc.1 + step.1), fields[1..]);
    }
  }

  lemma {:induction false} StepFieldCompletes(e: Engine, st: Settings, fv: FieldValue, force: bool)
    requires NeverRaises(e)
    ensures StepField(e, st, fv, force).0.Ok?
    decreases fv
  {
    match fv
    case Localized(_, v) =>
      if !e.canBatch {
        TranslateLangsCompletes(e, st.languageCode, st.languages, Ok(v), Get(v, st.languageCode), force);
      }
    case Generic(_, localizedModel, items) =>
      if localizedModel {
        FoldChildrenCompletes(e, st, force, (Ok(()), []), items);
      }
    case Other(_) =>
  }

  lemma {:induction false} FoldChildrenCompletes(e: Engine, st: Settings, force: bool, acc: (Result<()>, seq<Node>), items: seq<Node>)
    requires NeverRaises(e) && acc.0.Ok?
    ensures FoldChildren(e, st, force, acc, items).0.Ok?
    decreases items
  {
    if items != [] {
      ProcessCompletes(e, st, items[0], force);
      var p := ProcessSpec(e, st, items[0], force);
      FoldChildrenCompletes(e, st, force, (Ok(()), acc.1 + p.1), items[1..]);
    }
  }

  lemma {:induction false} TranslateLangsCompletes(e: Engine, code: Lang, langs: seq<Lang>, acc: Result<LocalizedValue>, base: string, force: bool)
    requires forall l, t :: e.translate(l, t).Ok?
    requires acc.Ok?
    ensures TranslateLangs(e, code, langs, acc, base, force).Ok?
    decreases langs
  {
    if langs != [] {
      var next := if IsTarget(code, acc.value, force, langs[0]) then HandleTranslate(e, acc.value, langs[0], base) else acc;
      TranslateLangsCompletes(e, code, langs[1..], next, base, force);
    }
  }

  /** `BaseTranslate(instance).process(force)` always completes, and each
      language it fills in receives the base-language text. */
  lemma BaseProcessCompletes(st: Settings, node: Node, force: bool, v: LocalizedValue)
    requires NoDup(st.languages)
    ensures ProcessSpec(BASE_ENGINE, st, node, force).0.Ok?
    ensures var r := TranslateLangs(BASE_ENGINE, st.languageCode, st.languages, Ok(v), Get(v, st.languageCode), force);
      r.Ok? && forall l :: l in st.languages && IsTarget(st.languageCode, v, force, l) ==>
        Get(r.value, l) == Get(v, st.languageCode)
  {
    assert NeverRaises(BASE_ENGINE);
    ProcessCompletes(BASE_ENGINE, st, node, force);
    TranslateLangsCompletes(BASE_ENGINE, st.languageCode, st.languages, Ok(v), Get(v, st.languageCode), force);
    TranslateLangsEffect(BASE_ENGINE, st.languageCode, st.languages, v, Get(v, st.languageCode), force);
    TargetsMembership(st.languages, st.languageCode, v, force);
  }
}
