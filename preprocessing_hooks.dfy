/** `preprocessing_filter_spec` (headless_cms/schema/preprocessing_hooks.py):
    the drf-spectacular hook that keeps only the CMS endpoints in the
    generated schema. */
module PreprocessingHooks {
  import opened Common

  /** One endpoint tuple as drf-spectacular passes it: the path, its regex,
      the HTTP method and the view, of which the hook reads only
      `str(view.cls)`. */
  datatype Endpoint = Endpoint(path: string, pathRegex: string, httpMethod: string, viewClass: string)

  /** `"CMS" in str(view.cls)`. */
  predicate IsCms(e: Endpoint) {
    Contains(e.viewClass, "CMS")
  }

  /** The kept endpoints, in their original order. */
  function CmsEndpoints(es: seq<Endpoint>): seq<Endpoint>
    decreases |es|
  {
    if es == [] then []
    else CmsEndpoints(es[..|es| - 1]) + (if IsCms(es[|es| - 1]) then [es[|es| - 1]] else [])
  }

  /** The hook's loop: every tuple whose view class names the CMS is appended
      to `filtered`, unchanged. */
  method PreprocessingFilterSpec(endpoints: seq<Endpoint>) returns (filtered: seq<Endpoint>)
    ensures filtered == CmsEndpoints(endpoints)
  {
    filtered := [];
    var i := 0;
    while i < |endpoints|
      invariant 0 <= i <= |endpoints|
      invariant filtered == CmsEndpoints(endpoints[..i])
    {
      var e := endpoints[i];
      assert endpoints[..i + 1][..i] == endpoints[..i];
      if !IsCms(e) {
        i := i + 1;
        continue;
      }
      filtered := filtered + [e];
      i := i + 1;
    }
    assert endpoints[..i] == endpoints;
  }

  /** Exactly the CMS endpoints are kept: a tuple is in the output if and
      only if it is in the input and its view class contains "CMS". */
  lemma {:induction false} CmsEndpointsMembers(es: seq<Endpoint>)
    ensures forall e :: e in CmsEndpoints(es) <==> e in es && IsCms(e)
    decreases |es|
  {
    if es != [] {
      var init := es[..|es| - 1];
      CmsEndpointsMembers(init);
      assert es == init + [es[|es| - 1]];
    }
  }

  /** `a` is `b` with some elements dropped: the order of what stays is kept. */
  predicate SubsequenceOf<T(==)>(a: seq<T>, b: seq<T>)
    decreases |b|
  {
    a == []
    || (b != [] && ((a[|a| - 1] == b[|b| - 1] && SubsequenceOf(a[..|a| - 1], b[..|b| - 1]))
                    || SubsequenceOf(a, b[..|b| - 1])))
  }

  /** The kept endpoints keep their relative order. */
  lemma {:induction false} CmsEndpointsOrdered(es: seq<Endpoint>)
    ensures SubsequenceOf(CmsEndpoints(es), es)
    decreases |es|
  {
    if es != [] {
      var init := es[..|es| - 1];
      var out := CmsEndpoints(es);
      CmsEndpointsOrdered(init);
      if IsCms(es[|es| - 1]) {
        assert out[..|out| - 1] == CmsEndpoints(init);
      } else if out != [] {
        assert out == CmsEndpoints(init);
      }
    }
  }

  /** Filtering an already filtered list changes nothing. */
  lemma {:induction false} CmsEndpointsIdempotent(es: seq<Endpoint>)
    ensures CmsEndpoints(CmsEndpoints(es)) == CmsEndpoints(es)
    decreases |es|
  {
    if es != [] {
      var init := es[..|es| - 1];
      var last := es[|es| - 1];
      var out := CmsEndpoints(init);
      CmsEndpointsIdempotent(init);
      if IsCms(last) {
        var both := out + [last];
        assert CmsEndpoints(es) == both;
        assert both[..|both| - 1] == out && both[|both| - 1] == last;
        assert CmsEndpoints(both) == CmsEndpoints(out) + [last];
      } else {
        assert CmsEndpoints(es) == out + [];
        assert out + [] == out;
      }
    }
  }
}
