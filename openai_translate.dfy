/** The OpenAI translator (headless_cms/auto_translate/openai_translate.py):
    single texts through one chat completion each, and batches of
    `{language: {field: text}}` objects through one JSON-mode completion per
    language, gathered in order. The client and `json` are parameters. */
module OpenAITranslate {
  import opened Common
  import opened BaseTranslate

  datatype Message = Message(role: string, content: string)

  /** `chat.completions.create(...)`: the model, the temperature in tenths,
      the messages, and whether a JSON object is asked for. */
  datatype ChatRequest = ChatRequest(model: string, temperatureTenths: nat, messages: seq<Message>, jsonObject: bool)

  /** The OpenAI client (the contents of the returned choices, or the
      exception), `json.dumps` and `json.loads` on string-valued objects, and
      the `OPENAI_CHAT_MODEL` and `str(AUTO_TRANSLATE_IGNORES)` settings. */
  datatype OpenAI = OpenAI(
    create: ChatRequest -> Result<seq<string>>,
    dumps: map<string, string> -> string,
    loads: string -> Result<map<string, string>>,
    chatModel: string,
    ignores: string)

  /** A JSON object to translate: field name to text. */
  type TextObject = map<string, string>

  const PROMPT_OPENING := "\nYou are a professional translator. Please translate and paraphrase (if needed) this "
  const PROMPT_STYLE := " language with friendly tone, concise and easy to understand. Just translate the content only, keep the HTML or markdown tag as it is, and keep the proper nouns as it is, too. You just response me with translated "
  const PROMPT_IGNORES := " only, do not add any additional comment or explanation.\nAdditionally, keep these term as it is: "

  /** `system_prompt`, with its `{lang}` placeholder. */
  function SystemPrompt(ignores: string): string {
    PROMPT_OPENING + "content into {lang}" + PROMPT_STYLE + "content" + PROMPT_IGNORES + ignores + ".\nHere is your content:\n"
  }

  /** `system_batch_translate_prompt`, with its `{lang}` placeholder. */
  function BatchSystemPrompt(ignores: string): string {
    PROMPT_OPENING + "json object into {lang}" + PROMPT_STYLE + "json object" + PROMPT_IGNORES + ignores + ".\nHere is your json object:\n"
  }

  /** The request `translate` sends: the system prompt for the language,
      then the text, at temperature 0.3. */
  function TranslateRequest(o: OpenAI, language: Lang, text: string): ChatRequest {
    ChatRequest(o.chatModel, 3,
      [Message("system", Replace(SystemPrompt(o.ignores), "{lang}", language)), Message("user", text)], false)
  }

  /** `translate`: the first choice's content; no choice raises `IndexError`. */
  function Translate(o: OpenAI, language: Lang, text: string): (r: Result<string>)
    ensures r.Ok? <==> o.create(TranslateRequest(o, language, text)).Ok? && |o.create(TranslateRequest(o, language, text)).value| > 0
    ensures r.Ok? ==> r.value == o.create(TranslateRequest(o, language, text)).value[0]
  {
    var res := o.create(TranslateRequest(o, language, text));
    if res.Err? then Err(res.error)
    else if |res.value| == 0 then Err("IndexError")
    else Ok(res.value[0])
  }

  /** `prompt.replace("{lang}", language)` on a prompt whose only `{` is the
      one of its placeholder puts the language exactly where `{lang}` stood. */
  lemma PlaceholderReplaced(before: string, after: string, language: string)
    requires '{' !in before && '{' !in after
    ensures Replace(before + "{lang}" + after, "{lang}", language) == before + language + after
  {
    ReplaceSkipsFree(before, "{lang}" + after, "{lang}", language);
    assert before + "{lang}" + after == before + ("{lang}" + after);
    ReplaceAtStart(after, "{lang}", language);
    ReplaceSkipsFree(after, [], "{lang}", language);
    assert after + [] == after;
  }

  /** `chat_gpt_translate`: a JSON-mode request at temperature 0.7, whose
      first choice is parsed as JSON. A failed request, or a reply without
      a choice (`IndexError`), raises. */
  function ChatGptTranslate(o: OpenAI, prompt: seq<Message>): (r: Result<TextObject>)
    ensures var reply := o.create(ChatRequest(o.chatModel, 7, prompt, true));
      if reply.Ok? && |reply.value| > 0 then r == o.loads(reply.value[0]) else r.Err?
    ensures var reply := o.create(ChatRequest(o.chatModel, 7, prompt, true));
      reply.Ok? && |reply.value| == 0 ==> r == Err("IndexError")
  {
    var res := o.create(ChatRequest(o.chatModel, 7, prompt, true));
    if res.Err? then Err(res.error)
    else if |res.value| == 0 then Err("IndexError")
    else o.loads(res.value[0])
  }

  /** The two messages `batch_translate` sends for one language. */
  function BatchPrompt(o: OpenAI, language: Lang, obj: TextObject): seq<Message> {
    [Message("system", Replace(BatchSystemPrompt(o.ignores), "{lang}", language)), Message("user", o.dumps(obj))]
  }

  /** A batch: the items of a dict, so its languages are distinct. */
  predicate DistinctLangs(batches: seq<(Lang, TextObject)>) {
    forall i, j :: 0 <= i < j < |batches| ==> batches[i].0 != batches[j].0
  }

  function Langs(batches: seq<(Lang, TextObject)>): (ls: seq<Lang>)
    ensures |ls| == |batches| && forall k :: 0 <= k < |batches| ==> ls[k] == batches[k].0
  {
    seq(|batches|, k requires 0 <= k < |batches| => batches[k].0)
  }

  function Prompts(o: OpenAI, batches: seq<(Lang, TextObject)>): (ps: seq<seq<Message>>)
    ensures |ps| == |batches| && forall k :: 0 <= k < |batches| ==> ps[k] == BatchPrompt(o, batches[k].0, batches[k].1)
  {
    seq(|batches|, k requires 0 <= k < |batches| => BatchPrompt(o, batches[k].0, batches[k].1))
  }

  /** `asyncio.gather` over the prompts: the answers in prompt order, or
      the first exception. */
  function Gather(o: OpenAI, acc: Result<seq<TextObject>>, prompts: seq<seq<Message>>): Result<seq<TextObject>>
    decreases prompts
  {
    if prompts == [] || acc.Err? then acc
    else
      var a := ChatGptTranslate(o, prompts[0]);
      Gather(o, if a.Err? then Err(a.error) else Ok(acc.value + [a.value]), prompts[1..])
  }

  /** `{lang: translated_objs[idx] for idx, lang in enumerate(langs)}`. */
  function Collect(langs: seq<Lang>, objs: seq<TextObject>, acc: map<Lang, TextObject>): map<Lang, TextObject>
    requires |langs| == |objs|
    decreases |langs|
  {
    if langs == [] then acc else Collect(langs[1..], objs[1..], acc[langs[0] := objs[0]])
  }

  /** What `batch_translate` returns for a batch. */
  function BatchResult(o: OpenAI, batches: seq<(Lang, TextObject)>): Result<map<Lang, TextObject>> {
    var g := Gather(o, Ok([]), Prompts(o, batches));
    GatherLength(o, Ok([]), Prompts(o, batches));
    if g.Err? then Err(g.error) else Ok(Collect(Langs(batches), g.value, map[]))
  }

  lemma {:induction false} GatherLength(o: OpenAI, acc: Result<seq<TextObject>>, prompts: seq<seq<Message>>)
    requires acc.Ok?
    ensures Gather(o, acc, prompts).Ok? ==> |Gather(o, acc, prompts).value| == |acc.value| + |prompts|
    decreases prompts
  {
    if prompts != [] {
      var a := ChatGptTranslate(o, prompts[0]);
      if a.Ok? {
        GatherLength(o, Ok(acc.value + [a.value]), prompts[1..]);
      }
    }
  }

  /** `batch_translate`: one prompt per language, all sent, and the answers
      keyed by language by their position. */
  method BatchTranslate(o: OpenAI, batches: seq<(Lang, TextObject)>) returns (res: Result<map<Lang, TextObject>>)
    ensures res == BatchResult(o, batches)
  {
    var langs: seq<Lang> := [];
    var promptList: seq<seq<Message>> := [];
    var i := 0;
    while i < |batches|
      invariant 0 <= i <= |batches|
      invariant langs == Langs(batches)[..i] && promptList == Prompts(o, batches)[..i]
    {
      langs := langs + [batches[i].0];
      promptList := promptList + [BatchPrompt(o, batches[i].0, batches[i].1)];
      i := i + 1;
    }
    assert langs == Langs(batches) && promptList == Prompts(o, batches);
    var translated := AsyncTranslate(o, promptList);
    if translated.Err? {
      return Err(translated.error);
    }
    GatherLength(o, Ok([]), promptList);
    var m: map<Lang, TextObject> := map[];
    var k := 0;
    while k < |langs|
      invariant 0 <= k <= |langs|
      invariant Collect(langs, translated.value, map[]) == Collect(langs[k..], translated.value[k..], m)
    {
      assert langs[k..][1..] == langs[k + 1..];
      assert translated.value[k..][1..] == translated.value[k + 1..];
      m := m[langs[k] := translated.value[k]];
      k := k + 1;
    }
    res := Ok(m);
  }

  /** `_async_translate`: `chat_gpt_translate` on every prompt, results in order. */
  method AsyncTranslate(o: OpenAI, prompts: seq<seq<Message>>) returns (res: Result<seq<TextObject>>)
    ensures res == Gather(o, Ok([]), prompts)
  {
    var results: seq<TextObject> := [];
    var i := 0;
    while i < |prompts|
      invariant 0 <= i <= |prompts|
      invariant Gather(o, Ok([]), prompts) == Gather(o, Ok(results), prompts[i..])
    {
      assert prompts[i..][1..] == prompts[i + 1..];
      var a := ChatGptTranslate(o, prompts[i]);
      if a.Err? {
        return Err(a.error);
      }
      results := results + [a.value];
      i := i + 1;
    }
    res := Ok(results);
  }

  lemma {:induction false} GatherEffect(o: OpenAI, acc: seq<TextObject>, prompts: seq<seq<Message>>)
    ensures Gather(o, Ok(acc), prompts).Err? <==> exists k :: 0 <= k < |prompts| && ChatGptTranslate(o, prompts[k]).Err?
    ensures Gather(o, Ok(acc), prompts).Ok? ==>
      |Gather(o, Ok(acc), prompts).value| == |acc| + |prompts|
      && Gather(o, Ok(acc), prompts).value[..|acc|] == acc
      && forall k :: 0 <= k < |prompts| ==> Gather(o, Ok(acc), prompts).value[|acc| + k] == ChatGptTranslate(o, prompts[k]).value
    decreases prompts
  {
    if prompts != [] {
      var a := ChatGptTranslate(o, prompts[0]);
      if a.Ok? {
        var acc' := acc + [a.value];
        GatherEffect(o, acc', prompts[1..]);
        var g := Gather(o, Ok(acc), prompts);
        assert forall k :: 0 <= k < |prompts[1..]| ==> prompts[1..][k] == prompts[k + 1];
        if g.Ok? {
          assert g.value[..|acc|] == g.value[..|acc'|][..|acc|];
          forall k | 0 <= k < |prompts|
            ensures g.value[|acc| + k] == ChatGptTranslate(o, prompts[k]).value
          {
            if k == 0 {
              assert g.value[|acc|] == g.value[..|acc'|][|acc|];
            }
          }
        } else {
          var j :| 0 <= j < |prompts[1..]| && ChatGptTranslate(o, prompts[1..][j]).Err?;
          assert prompts[1..][j] == prompts[j + 1];
        }
      }
    }
  }

  lemma {:induction false} CollectEffect(langs: seq<Lang>, objs: seq<TextObject>, acc: map<Lang, TextObject>)
    requires |langs| == |objs| && NoDup(langs)
    ensures Collect(langs, objs, acc).Keys == acc.Keys + Elems(langs)
    ensures forall k :: 0 <= k < |langs| ==> Collect(langs, objs, acc)[langs[k]] == objs[k]
    ensures forall l :: l in acc && l !in langs ==> Collect(langs, objs, acc)[l] == acc[l]
    decreases |langs|
  {
    if langs != [] {
      NoDupTail(langs);
      CollectEffect(langs[1..], objs[1..], acc[langs[0] := objs[0]]);
      assert Elems(langs) == {langs[0]} + Elems(langs[1..]);
      forall k | 0 < k < |langs|
        ensures Collect(langs, objs, acc)[langs[k]] == objs[k]
      {
        assert langs[k] == langs[1..][k - 1] && objs[k] == objs[1..][k - 1];
      }
    }
  }

  /** The answers are correlated with the languages by position: the result
      has exactly the batch's languages, each mapped to the parsed answer to
      its own prompt, and it raises exactly when one of the calls raises. */
  lemma BatchResultCorrelates(o: OpenAI, batches: seq<(Lang, TextObject)>)
    requires DistinctLangs(batches)
    ensures BatchResult(o, batches).Err? <==>
      exists k :: 0 <= k < |batches| && ChatGptTranslate(o, BatchPrompt(o, batches[k].0, batches[k].1)).Err?
    ensures BatchResult(o, batches).Ok? ==> BatchResult(o, batches).value.Keys == Elems(Langs(batches))
    ensures BatchResult(o, batches).Ok? ==> forall k :: 0 <= k < |batches| ==>
      BatchResult(o, batches).value[batches[k].0] == ChatGptTranslate(o, BatchPrompt(o, batches[k].0, batches[k].1)).value
  {
    var ps := Prompts(o, batches);
    GatherEffect(o, [], ps);
    var g := Gather(o, Ok([]), ps);
    if g.Ok? {
      assert NoDup(Langs(batches));
      CollectEffect(Langs(batches), g.value, map[]);
    }
  }

  // ---------------------------------------------------------------------
  // The translator as `process` sees it

  /** `OpenAITranslate` as a translator: batching, `translate` as above,
      and a `batch_translate` that takes a single dict, so the base class's
      call with a language list and a text raises `TypeError`. */
  function OpenAIEngine(o: OpenAI): Engine {
    Engine(true, (lang: Lang, text: string) => Translate(o, lang, text), (langs: seq<Lang>, text: string) => Err("TypeError"))
  }

  /** `OpenAITranslate(instance).process()` on an instance with any localized
      field whose base-language text is set raises instead of translating. */
  lemma OpenAIProcessRaises(o: OpenAI, st: Settings, node: Node, force: bool, i: nat)
    requires i < |node.fields| && node.fields[i].Localized? && Get(node.fields[i].value, st.languageCode) != ""
    ensures ProcessSpec(OpenAIEngine(o), st, node, force).0.Err?
  {
    var e := OpenAIEngine(o);
    FoldFieldsPointwise(e, st, force, (Ok([]), []), node.fields);
    assert StepField(e, st, node.fields[i], force).0.Err?;
  }

  // ---------------------------------------------------------------------
  // One batch per instance, as `batch_translate` expects

  /** Field names are unique within a model. */
  predicate UniqueNames(fields: seq<FieldValue>) {
    forall i, j :: 0 <= i < |fields| && 0 <= j < |fields| && fields[i].name == fields[j].name ==> i == j
  }

  /** Whether a field goes into the object for `lang`: a localized field
      with base-language text that this language needs. */
  predicate Wanted(code: Lang, fv: FieldValue, lang: Lang, force: bool) {
    fv.Localized? && Get(fv.value, code) != "" && IsTarget(code, fv.value, force, lang)
  }

  /** The object to send for one language, `{field.name: base text}` over
      the wanted fields in order (a later name overrides an earlier one, as
      in a dict comprehension). */
  function FieldsToTranslate(code: Lang, fields: seq<FieldValue>, lang: Lang, force: bool): TextObject
    decreases |fields|
  {
    if fields == [] then map[]
    else
      var rest := FieldsToTranslate(code, fields[..|fields| - 1], lang, force);
      var f := fields[|fields| - 1];
      if Wanted(code, f, lang, force) then rest[f.name := Get(f.value, code)] else rest
  }

  /** With unique field names, the object holds exactly the wanted fields,
      each with its base-language text. */
  lemma {:induction false} FieldsToTranslateNames(code: Lang, fields: seq<FieldValue>, lang: Lang, force: bool)
    ensures forall n :: n in FieldsToTranslate(code, fields, lang, force) ==> exists i :: 0 <= i < |fields| && fields[i].name == n
    decreases |fields|
  {
    if fields != [] {
      var init := fields[..|fields| - 1];
      FieldsToTranslateNames(code, init, lang, force);
      var rest := FieldsToTranslate(code, init, lang, force);
      var f := fields[|fields| - 1];
      assert FieldsToTranslate(code, fields, lang, force) == if Wanted(code, f, lang, force) then rest[f.name := Get(f.value, code)] else rest;
      forall n | n in FieldsToTranslate(code, fields, lang, force)
        ensures exists i :: 0 <= i < |fields| && fields[i].name == n
      {
        if n != fields[|fields| - 1].name {
          var i :| 0 <= i < |init| && init[i].name == n;
          assert fields[i].name == n;
        }
      }
    }
  }

  lemma {:induction false} FieldsToTranslateMembership(code: Lang, fields: seq<FieldValue>, lang: Lang, force: bool)
    requires UniqueNames(fields)
    ensures forall i :: 0 <= i < |fields| ==>
      (fields[i].name in FieldsToTranslate(code, fields, lang, force) <==> Wanted(code, fields[i], lang, force))
    ensures forall i :: 0 <= i < |fields| && Wanted(code, fields[i], lang, force) ==>
      FieldsToTranslate(code, fields, lang, force)[fields[i].name] == Get(fields[i].value, code)
    decreases |fields|
  {
    if fields != [] {
      var init := fields[..|fields| - 1];
      var last := |fields| - 1;
      assert UniqueNames(init) by {
        forall i, j | 0 <= i < |init| && 0 <= j < |init| && init[i].name == init[j].name
          ensures i == j
        {
          assert init[i] == fields[i] && init[j] == fields[j];
        }
      }
      FieldsToTranslateMembership(code, init, lang, force);
      FieldsToTranslateNames(code, init, lang, force);
      var rest := FieldsToTranslate(code, init, lang, force);
      var m := FieldsToTranslate(code, fields, lang, force);
      assert m == if Wanted(code, fields[last], lang, force) then rest[fields[last].name := Get(fields[last].value, code)] else rest;
      assert forall j :: 0 <= j < |init| ==> init[j].name != fields[last].name;
      assert fields[last].name !in rest;
      forall i | 0 <= i < |fields|
        ensures (fields[i].name in m <==> Wanted(code, fields[i], lang, force))
        ensures Wanted(code, fields[i], lang, force) ==> m[fields[i].name] == Get(fields[i].value, code)
      {
        if i < last {
          assert fields[i] == init[i];
          assert fields[i].name != fields[last].name;
        }
      }
    }
  }

  /** The batch: each language other than the base one, in `LANGUAGES`
      order, with a non-empty object. */
  function DictRequest(st: Settings, langs: seq<Lang>, fields: seq<FieldValue>, force: bool): seq<(Lang, TextObject)>
  {
    if langs == [] then []
    else
      var obj := FieldsToTranslate(st.languageCode, fields, langs[0], force);
      (if langs[0] != st.languageCode && obj != map[] then [(langs[0], obj)] else []) + DictRequest(st, langs[1..], fields, force)
  }

  /** Stores the answers: each language's object sets that language of the
      fields it names. */
  function Apply(fv: FieldValue, answers: map<Lang, TextObject>): FieldValue {
    if fv.Localized? then
      Localized(fv.name,
        map l | l in fv.value.Keys + (set a | a in answers && fv.name in answers[a]) ::
          if l in answers && fv.name in answers[l] then answers[l][fv.name] else fv.value[l])
    else fv
  }

  /** The batch path with one `batch_translate(batches)` call per instance. */
  function CorrectedBatchFields(st: Settings, fields: seq<FieldValue>, force: bool, o: OpenAI): Result<seq<FieldValue>>
  {
    var answers := BatchResult(o, DictRequest(st, st.languages, fields, force));
    if answers.Err? then Err(answers.error)
    else Ok(seq(|fields|, i requires 0 <= i < |fields| => Apply(fields[i], answers.value)))
  }

  lemma {:induction false} DictRequestEntries(st: Settings, langs: seq<Lang>, fields: seq<FieldValue>, force: bool)
    ensures forall k :: 0 <= k < |DictRequest(st, langs, fields, force)| ==>
      DictRequest(st, langs, fields, force)[k].0 in langs && DictRequest(st, langs, fields, force)[k].0 != st.languageCode
      && DictRequest(st, langs, fields, force)[k].1 == FieldsToTranslate(st.languageCode, fields, DictRequest(st, langs, fields, force)[k].0, force)
  {
    if langs != [] {
      DictRequestEntries(st, langs[1..], fields, force);
    }
  }

  lemma {:induction false} DictRequestDistinct(st: Settings, langs: seq<Lang>, fields: seq<FieldValue>, force: bool)
    requires NoDup(langs)
    ensures DistinctLangs(DictRequest(st, langs, fields, force))
  {
    if langs != [] {
      NoDupTail(langs);
      DictRequestDistinct(st, langs[1..], fields, force);
      DictRequestEntries(st, langs[1..], fields, force);
      var rest := DictRequest(st, langs[1..], fields, force);
      var d := DictRequest(st, langs, fields, force);
      if d != rest {
        assert d == [d[0]] + rest;
        forall i, j | 0 <= i < j < |d|
          ensures d[i].0 != d[j].0
        {
          assert d[j] == rest[j - 1];
          if i > 0 {
            assert d[i] == rest[i - 1];
          }
        }
      }
    }
  }

  lemma {:induction false} DictRequestCovers(st: Settings, langs: seq<Lang>, fields: seq<FieldValue>, force: bool, l: Lang)
    requires l in langs && l != st.languageCode && FieldsToTranslate(st.languageCode, fields, l, force) != map[]
    ensures exists k :: 0 <= k < |DictRequest(st, langs, fields, force)| && DictRequest(st, langs, fields, force)[k].0 == l
  {
    var d := DictRequest(st, langs, fields, force);
    var rest := DictRequest(st, langs[1..], fields, force);
    if l == langs[0] {
      assert d[0].0 == l;
    } else {
      DictRequestCovers(st, langs[1..], fields, force, l);
      var k :| 0 <= k < |rest| && rest[k].0 == l;
      if d == rest {
        assert d[k].0 == l;
      } else {
        assert d == [d[0]] + rest;
        assert d[k + 1].0 == l;
      }
    }
  }

  /** Storing the answers changes a localized field's languages to the
      answers that name it and keeps every other language. */
  lemma ApplyEffect(fv: FieldValue, answers: map<Lang, TextObject>)
    ensures Apply(fv, answers).name == fv.name && Apply(fv, answers).Localized? == fv.Localized?
    ensures fv.Localized? ==>
      forall l :: Get(Apply(fv, answers).value, l) == (if l in answers && fv.name in answers[l] then answers[l][fv.name] else Get(fv.value, l))
  {
  }

  /** With one batch per instance the OpenAI translator completes whenever
      its calls do, and then stores, for each language it asked for, that
      language's answers. */
  lemma CorrectedBatchCompletes(st: Settings, fields: seq<FieldValue>, force: bool, o: OpenAI)
    requires NoDup(st.languages)
    requires forall p :: ChatGptTranslate(o, p).Ok?
    ensures CorrectedBatchFields(st, fields, force, o).Ok?
    ensures var req := DictRequest(st, st.languages, fields, force);
      CorrectedBatchFields(st, fields, force, o).value == seq(|fields|, i requires 0 <= i < |fields| => Apply(fields[i], BatchResult(o, req).value))
      && BatchResult(o, req).value.Keys == Elems(Langs(req))
      && forall k :: 0 <= k < |req| ==>
        req[k].0 != st.languageCode
        && BatchResult(o, req).value[req[k].0] == ChatGptTranslate(o, BatchPrompt(o, req[k].0, FieldsToTranslate(st.languageCode, fields, req[k].0, force))).value
  {
    var req := DictRequest(st, st.languages, fields, force);
    DictRequestDistinct(st, st.languages, fields, force);
    DictRequestEntries(st, st.languages, fields, force);
    BatchResultCorrelates(o, req);
  }

  /** The corrected batch path never writes the base language, and fills
      each field a language needs with that language's answer for it. */
  lemma CorrectedBatchTranslates(st: Settings, fields: seq<FieldValue>, force: bool, o: OpenAI)
    requires NoDup(st.languages)
    requires forall p :: ChatGptTranslate(o, p).Ok?
    ensures CorrectedBatchFields(st, fields, force, o).Ok?
    ensures forall i :: 0 <= i < |fields| && fields[i].Localized? ==>
      var after := CorrectedBatchFields(st, fields, force, o).value[i];
      after.Localized? && after.name == fields[i].name
      && Get(after.value, st.languageCode) == Get(fields[i].value, st.languageCode)
    ensures forall i, l :: 0 <= i < |fields| && fields[i].Localized? && l in st.languages && l != st.languageCode ==>
      var obj := FieldsToTranslate(st.languageCode, fields, l, force);
      var answer := ChatGptTranslate(o, BatchPrompt(o, l, obj)).value;
      (fields[i].name in obj && fields[i].name in answer ==>
        Get(CorrectedBatchFields(st, fields, force, o).value[i].value, l) == answer[fields[i].name])
  {
    CorrectedBatchCompletes(st, fields, force, o);
    var req := DictRequest(st, st.languages, fields, force);
    var answers := BatchResult(o, req).value;
    var out := CorrectedBatchFields(st, fields, force, o).value;
    assert st.languageCode !in answers;
    forall i | 0 <= i < |fields| && fields[i].Localized?
      ensures out[i].Localized? && out[i].name == fields[i].name
      ensures Get(out[i].value, st.languageCode) == Get(fields[i].value, st.languageCode)
    {
      ApplyEffect(fields[i], answers);
    }
    forall i, l | 0 <= i < |fields| && fields[i].Localized? && l in st.languages && l != st.languageCode
      && fields[i].name in FieldsToTranslate(st.languageCode, fields, l, force)
      && fields[i].name in ChatGptTranslate(o, BatchPrompt(o, l, FieldsToTranslate(st.languageCode, fields, l, force))).value
      ensures Get(out[i].value, l) == ChatGptTranslate(o, BatchPrompt(o, l, FieldsToTranslate(st.languageCode, fields, l, force))).value[fields[i].name]
    {
      DictRequestCovers(st, st.languages, fields, force, l);
      ApplyEffect(fields[i], answers);
    }
  }
}
