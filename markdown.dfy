/** Placeholder substitution in markdown (headless_cms/utils/markdown.py): a
    `<getattr>…<getattr/>` tag names a model attribute, and the tag is replaced
    by the attribute's value before the text is rendered. */
module Markdown {
  import opened Common

  const OPEN: string := "<getattr>"
  const CLOSE: string := "<getattr/>"

  /** The text shown for a placeholder that cannot be resolved
      (`_("Invalid placeholder")` without a translation catalogue). */
  const INVALID: string := "Invalid placeholder"

  /** `getattr(obj, attr)` as far as `replace_placeholder` cares: a string,
      or some other value that is truthy or not. */
  datatype AttrValue = Text(s: string) | NonText(truthy: bool)

  /** The position of the first occurrence of `pat` at or after `i`. */
  function FindFrom(s: string, pat: string, i: nat): (r: Option<nat>)
    requires i <= |s|
    ensures r.Some? ==> i <= r.value && r.value + |pat| <= |s|
    decreases |s| - i
  {
    if StartsWith(s[i..], pat) then Some(i)
    else if i == |s| then None
    else FindFrom(s, pat, i + 1)
  }

  /** What is found is an occurrence. */
  lemma {:induction false} FindFromOccurs(s: string, pat: string, i: nat)
    requires i <= |s|
    ensures FindFrom(s, pat, i).Some? ==> s[FindFrom(s, pat, i).value..FindFrom(s, pat, i).value + |pat|] == pat
    decreases |s| - i
  {
    if !StartsWith(s[i..], pat) && i < |s| {
      FindFromOccurs(s, pat, i + 1);
    } else if StartsWith(s[i..], pat) {
      assert s[i..][..|pat|] == s[i..i + |pat|];
    }
  }

  /** No occurrence lies between `i` and the one found; none at all when
      nothing is found. */
  lemma {:induction false} FindFromFirst(s: string, pat: string, i: nat)
    requires i <= |s|
    ensures FindFrom(s, pat, i).Some? ==>
      forall j :: i <= j < FindFrom(s, pat, i).value ==> !StartsWith(s[j..], pat)
    ensures FindFrom(s, pat, i).None? ==> forall j :: i <= j <= |s| ==> !StartsWith(s[j..], pat)
    decreases |s| - i
  {
    if !StartsWith(s[i..], pat) && i < |s| {
      FindFromFirst(s, pat, i + 1);
    }
  }

  /** `re.findall(open + "(.*?)" + close, s[i..], re.DOTALL)` for literal
      delimiters: the leftmost opening delimiter, the text up to the first
      closing delimiter after it (any characters, newlines included), then
      the search goes on after that closing delimiter. An opening delimiter
      with no closing one after it ends the search, since no later opening
      delimiter can have one either. */
  function Matches(s: string, open: string, close: string, i: nat): seq<string>
    requires i <= |s| && |close| > 0
    decreases |s| - i
  {
    var sp := Span(s, open, close, i);
    if sp.None? then []
    else [s[sp.value.0 + |open|..sp.value.1]] + Matches(s, open, close, sp.value.1 + |close|)
  }

  /** The positions of the next opening delimiter and of the first closing
      delimiter after it. */
  function Span(s: string, open: string, close: string, i: nat): (sp: Option<(nat, nat)>)
    requires i <= |s|
    ensures sp.Some? ==> i <= sp.value.0 && sp.value.0 + |open| <= sp.value.1 && sp.value.1 + |close| <= |s|
  {
    var o := FindFrom(s, open, i);
    if o.None? then None
    else
      var c := FindFrom(s, close, o.value + |open|);
      if c.None? then None
      else Some((o.value, c.value))
  }

  /** The placeholders of a text: `pattern.findall(markdown_text)`. */
  function Placeholders(text: string): seq<string> {
    Matches(text, OPEN, CLOSE, 0)
  }

  /** The tag a placeholder was found in. */
  function Tag(g: string): (t: string)
    ensures |t| > 0
  {
    OPEN + g + CLOSE
  }

  lemma {:induction false} ContainsAt(s: string, t: string, k: nat)
    requires k + |t| <= |s| && s[k..k + |t|] == t
    ensures Contains(s, t)
    decreases k
  {
    if k == 0 {
      assert s[..|t|] == t;
    } else {
      assert s[1..][k - 1..k - 1 + |t|] == t;
      ContainsAt(s[1..], t, k - 1);
    }
  }

  /** `g` is the content of a complete `open … close` span of `s` that has no
      closing delimiter inside. */
  ghost predicate Found(s: string, open: string, close: string, g: string) {
    (exists p :: OccursAt(s, open + g + close, p)) && forall p :: !OccursAt(g, close, p)
  }

  /** `t` occurs in `s` at position `p`. */
  predicate OccursAt(s: string, t: string, p: nat) {
    p + |t| <= |s| && s[p..p + |t|] == t
  }

  /** Every element of `ms` is found in `s`. */
  ghost predicate AllFound(s: string, open: string, close: string, ms: seq<string>) {
    forall k :: 0 <= k < |ms| ==> Found(s, open, close, ms[k])
  }

  /** Every match sits in a complete span of the text, and runs only to the
      first closing delimiter: it never contains one. */
  lemma {:induction false} MatchesFound(s: string, open: string, close: string, i: nat)
    requires i <= |s| && |close| > 0
    ensures AllFound(s, open, close, Matches(s, open, close, i))
    decreases |s| - i
  {
    var sp := Span(s, open, close, i);
    if sp.Some? {
      MatchesFound(s, open, close, sp.value.1 + |close|);
      ConsFound(s, open, close, i);
    } else {
      MatchesStep(s, open, close, i);
    }
  }

  /** A match is found, and so are the ones after it. */
  lemma ConsFound(s: string, open: string, close: string, i: nat)
    requires i <= |s| && |close| > 0 && Span(s, open, close, i).Some?
    requires AllFound(s, open, close, Matches(s, open, close, Span(s, open, close, i).value.1 + |close|))
    ensures AllFound(s, open, close, Matches(s, open, close, i))
  {
    var (p, q) := Span(s, open, close, i).value;
    MatchesStep(s, open, close, i);
    SpanFound(s, open, close, i);
    FoundCons(s, open, close, s[p + |open|..q], Matches(s, open, close, q + |close|));
  }

  lemma MatchesStep(s: string, open: string, close: string, i: nat)
    requires i <= |s| && |close| > 0
    ensures Span(s, open, close, i).None? ==> Matches(s, open, close, i) == []
    ensures Span(s, open, close, i).Some? ==>
      var (p, q) := Span(s, open, close, i).value;
      Matches(s, open, close, i) == [s[p + |open|..q]] + Matches(s, open, close, q + |close|)
  {
  }

  /** The text between the delimiters of a span is found. */
  lemma SpanFound(s: string, open: string, close: string, i: nat)
    requires i <= |s| && |close| > 0 && Span(s, open, close, i).Some?
    ensures Found(s, open, close, s[Span(s, open, close, i).value.0 + |open|..Span(s, open, close, i).value.1])
  {
    var p := FindFrom(s, open, i).value;
    FindFromOccurs(s, open, i);
    FindFromOccurs(s, close, p + |open|);
    HeadFound(s, open, close, p, FindFrom(s, close, p + |open|).value);
  }

  lemma FoundCons(s: string, open: string, close: string, g: string, rest: seq<string>)
    requires Found(s, open, close, g)
    requires AllFound(s, open, close, rest)
    ensures AllFound(s, open, close, [g] + rest)
  {
    forall k | 0 <= k < |[g] + rest|
      ensures Found(s, open, close, ([g] + rest)[k])
    {
      if k > 0 {
        assert ([g] + rest)[k] == rest[k - 1];
      }
    }
  }

  lemma HeadFound(s: string, open: string, close: string, p: nat, q: nat)
    requires |close| > 0 && p + |open| <= q && q + |close| <= |s|
    requires s[p..p + |open|] == open && s[q..q + |close|] == close
    requires FindFrom(s, close, p + |open|) == Some(q)
    ensures Found(s, open, close, s[p + |open|..q])
  {
    var g := s[p + |open|..q];
    assert s[p..q] == s[p..p + |open|] + g;
    assert s[p..q + |close|] == s[p..q] + s[q..q + |close|];
    assert OccursAt(s, open + g + close, p);
    NoCloseInside(s, close, p + |open|, q);
  }

  /** The match stops at the first closing delimiter after the opening one. */
  lemma NoCloseInside(s: string, close: string, start: nat, q: nat)
    requires |close| > 0 && start <= q <= |s| && FindFrom(s, close, start) == Some(q)
    ensures forall k :: !OccursAt(s[start..q], close, k)
  {
    FindFromFirst(s, close, start);
    forall k: nat | k + |close| <= q - start
      ensures !OccursAt(s[start..q], close, k)
    {
      SliceStartsWith(s, close, start, k, q);
    }
  }

  lemma SliceStartsWith(s: string, t: string, start: nat, k: nat, q: nat)
    requires start + k + |t| <= q <= |s|
    requires !StartsWith(s[start + k..], t)
    ensures !OccursAt(s[start..q], t, k)
  {
    var a, b := s[start + k..][..|t|], s[start..q][k..k + |t|];
    assert |a| == |b|;
    forall j | 0 <= j < |t|
      ensures a[j] == b[j]
    {
      assert a[j] == s[start + k + j] == b[j];
    }
    assert a == b;
  }

  /** Every placeholder found sits in a complete `<getattr>…<getattr/>` tag
      of the text and runs to the first closing tag only. */
  lemma PlaceholdersFound(text: string)
    ensures AllFound(text, OPEN, CLOSE, Placeholders(text))
  {
    MatchesFound(text, OPEN, CLOSE, 0);
  }

  /** A text without an opening tag has no placeholder. */
  lemma NoTagNoPlaceholder(text: string)
    requires !Contains(text, OPEN)
    ensures Placeholders(text) == []
  {
    var o := FindFrom(text, OPEN, 0);
    FindFromOccurs(text, OPEN, 0);
    if o.Some? {
      ContainsAt(text, OPEN, o.value);
    }
  }

  /** `dt`: the attribute's value, or when the lookup raised, the invalid
      marker under `show_invalid` and `None` otherwise. */
  function Dt(resolve: string -> Option<AttrValue>, showInvalid: bool, g: string): Option<AttrValue> {
    if resolve(g).Some? then resolve(g)
    else if showInvalid then Some(Text(INVALID))
    else None
  }

  /** `if dt`: Python truthiness of the value. */
  predicate TruthyDt(dt: Option<AttrValue>) {
    match dt
    case None => false
    case Some(Text(s)) => s != ""
    case Some(NonText(truthy)) => truthy
  }

  /** The loop body's effect for the placeholders in the order the set
      yields them: a truthy string replaces every occurrence of the tag, a
      falsy value leaves the text alone, and a truthy value that is not a
      string makes `str.replace` raise `TypeError`. */
  function Substitute(res: string, order: seq<string>, resolve: string -> Option<AttrValue>, showInvalid: bool): Result<string>
    decreases |order|
  {
    if order == [] then Ok(res)
    else
      var dt := Dt(resolve, showInvalid, order[0]);
      if !TruthyDt(dt) then Substitute(res, order[1..], resolve, showInvalid)
      else if dt.value.NonText? then Err("TypeError")
      else Substitute(Replace(res, Tag(order[0]), dt.value.s), order[1..], resolve, showInvalid)
  }

  /** `replace_placeholder`: the distinct placeholders of the text are
      resolved one by one, in the order the set yields them (`asked`), each
      exactly once, and each truthy string value replaces every occurrence of
      its tag. */
  method ReplacePlaceholder(text: string, showInvalid: bool, resolve: string -> Option<AttrValue>)
    returns (res: Result<string>, asked: seq<string>)
    ensures res == Substitute(text, asked, resolve, showInvalid)
    ensures NoDup(asked) && Elems(asked) <= Elems(Placeholders(text))
    ensures res.Ok? ==> Elems(asked) == Elems(Placeholders(text))
    ensures res.Err? <==> exists g :: g in Placeholders(text) && Raises(resolve, showInvalid, g)
    ensures Placeholders(text) == [] ==> res == Ok(text)
  {
    res, asked := SubstituteEach(text, Elems(Placeholders(text)), showInvalid, resolve);
  }

  /** The loop of `replace_placeholder` over the set of placeholders. */
  method SubstituteEach(text: string, groups: set<string>, showInvalid: bool, resolve: string -> Option<AttrValue>)
    returns (res: Result<string>, asked: seq<string>)
    ensures res == Substitute(text, asked, resolve, showInvalid)
    ensures NoDup(asked) && Elems(asked) <= groups
    ensures res.Ok? ==> Elems(asked) == groups
    ensures res.Err? <==> exists g :: g in groups && Raises(resolve, showInvalid, g)
    ensures groups == {} ==> res == Ok(text)
  {
    var cur := text;
    var remaining := groups;
    asked := [];
    while remaining != {}
      invariant remaining <= groups
      invariant Elems(asked) == groups - remaining
      invariant NoDup(asked) && |asked| + |remaining| == |groups|
      invariant Substitute(text, asked, resolve, showInvalid) == Ok(cur)
      decreases remaining
    {
      var g :| g in remaining;
      remaining := remaining - {g};
      var dt := Dt(resolve, showInvalid, g);
      SubstituteSnoc(text, asked, g, cur, resolve, showInvalid);
      NoDupSnoc(asked, g);
      asked := asked + [g];
      if TruthyDt(dt) {
        if dt.value.NonText? {
          SubstituteFails(text, asked, resolve, showInvalid);
          assert Raises(resolve, showInvalid, g);
          return Err("TypeError"), asked;
        }
        cur := Replace(cur, Tag(g), dt.value.s);
      }
    }
    res := Ok(cur);
    SubstituteFails(text, asked, resolve, showInvalid);
    forall g | g in groups
      ensures g in asked
    {
      assert g in Elems(asked);
    }
  }

  lemma NoDupSnoc(s: seq<string>, x: string)
    requires NoDup(s) && x !in s
    ensures NoDup(s + [x]) && Elems(s + [x]) == Elems(s) + {x}
  {
  }

  /** One more placeholder continues the substitution from the text reached
      so far. */
  lemma {:induction false} SubstituteSnoc(text: string, order: seq<string>, g: string, cur: string, resolve: string -> Option<AttrValue>, showInvalid: bool)
    requires Substitute(text, order, resolve, showInvalid) == Ok(cur)
    ensures Substitute(text, order + [g], resolve, showInvalid) == Substitute(cur, [g], resolve, showInvalid)
    decreases |order|
  {
    if order != [] {
      var dt := Dt(resolve, showInvalid, order[0]);
      assert (order + [g])[0] == order[0];
      assert (order + [g])[1..] == order[1..] + [g];
      var next := if TruthyDt(dt) then Replace(text, Tag(order[0]), dt.value.s) else text;
      SubstituteSnoc(next, order[1..], g, cur, resolve, showInvalid);
    }
  }

  /** When no placeholder resolves to a truthy value, the text comes back
      unchanged: falsy values leave their tags intact. */
  lemma {:induction false} AllFalsyUnchanged(text: string, order: seq<string>, resolve: string -> Option<AttrValue>, showInvalid: bool)
    requires forall g :: g in order ==> !TruthyDt(Dt(resolve, showInvalid, g))
    ensures Substitute(text, order, resolve, showInvalid) == Ok(text)
    decreases |order|
  {
    if order != [] {
      assert order[0] in order;
      AllFalsyUnchanged(text, order[1..], resolve, showInvalid);
    }
  }

  /** Without `show_invalid`, a text whose every placeholder fails to
      resolve comes back unchanged. */
  lemma UnresolvedKept(text: string, order: seq<string>, resolve: string -> Option<AttrValue>)
    requires forall g :: g in order ==> resolve(g).None?
    ensures Substitute(text, order, resolve, false) == Ok(text)
  {
    AllFalsyUnchanged(text, order, resolve, false);
  }

  /** With `show_invalid`, a placeholder that fails to resolve is replaced
      by the invalid marker. */
  lemma UnresolvedMarked(text: string, g: string, rest: seq<string>, resolve: string -> Option<AttrValue>)
    requires resolve(g).None?
    ensures Substitute(text, [g] + rest, resolve, true) == Substitute(Replace(text, Tag(g), INVALID), rest, resolve, true)
  {
    assert ([g] + rest)[1..] == rest;
  }

  /** The placeholder's value is truthy but no string. */
  predicate Raises(resolve: string -> Option<AttrValue>, showInvalid: bool, g: string) {
    TruthyDt(Dt(resolve, showInvalid, g)) && Dt(resolve, showInvalid, g).value.NonText?
  }

  /** The substitution raises exactly when some placeholder resolves to a
      truthy value that is not a string. */
  lemma {:induction false} SubstituteFails(text: string, order: seq<string>, resolve: string -> Option<AttrValue>, showInvalid: bool)
    ensures Substitute(text, order, resolve, showInvalid).Err? <==>
      exists g :: g in order && Raises(resolve, showInvalid, g)
    decreases |order|
  {
    if order != [] {
      var dt := Dt(resolve, showInvalid, order[0]);
      var next := if TruthyDt(dt) && dt.value.Text? then Replace(text, Tag(order[0]), dt.value.s) else text;
      SubstituteFails(next, order[1..], resolve, showInvalid);
      assert forall g :: g in order <==> g == order[0] || g in order[1..];
      if !Raises(resolve, showInvalid, order[0]) {
        assert Substitute(text, order, resolve, showInvalid) == Substitute(next, order[1..], resolve, showInvalid);
      }
    }
  }

  /** The rendered text, or the exception the substitution raised. */
  function Rendered(s: Result<string>, markdownify: string -> string): Result<string> {
    if s.Ok? then Ok(markdownify(s.value)) else Err(s.error)
  }

  /** `custom_markdownify`: placeholders are substituted with `show_invalid`
      on, then the result is rendered by martor's `markdownify`. */
  method CustomMarkdownify(text: string, resolve: string -> Option<AttrValue>, markdownify: string -> string)
    returns (html: Result<string>)
    ensures exists asked :: (NoDup(asked) && Elems(asked) <= Elems(Placeholders(text))
      && (html.Ok? ==> Elems(asked) == Elems(Placeholders(text)))
      && Rendered(Substitute(text, asked, resolve, true), markdownify) == html)
    ensures html.Err? <==> exists g :: g in Placeholders(text) && Raises(resolve, true, g)
  {
    var res, asked := ReplacePlaceholder(text, true, resolve);
    if res.Err? {
      return Err(res.error);
    }
    html := Ok(markdownify(res.value));
  }
}
