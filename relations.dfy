/** `calculate_prefetch_relation` (headless_cms/utils/relations.py): the
    `prefetch_related` and `select_related` lookups that load a publication
    model together with every publication model reachable from it. */
module PrefetchRelations {
  import opened Common
  import opened Schema

  /** The two lists the function returns. */
  datatype Paths = Paths(prefetch: seq<string>, select: seq<string>)

  /** `[name + "__" + p for p in paths]`. */
  function Prefixed(name: string, paths: seq<string>): seq<string> {
    seq(|paths|, i requires 0 <= i < |paths| => name + "__" + paths[i])
  }

  /** A field is passed over when it has no related model, when its related
      model was already fetched on the way here or is no publication model, or
      when it is an auto-created reverse relation without a `related_name`. */
  predicate Skipped(r: Registry, f: Field, fetched: set<ModelId>) {
    f.related.None?
    || f.related.value in fetched
    || !IsSubclass(r, f.related.value, PublicationModel)
    || (f.autoCreated && !TruthyOpt(f.relatedName))
  }

  /** The entry point: `fetched_models` defaults to `{model}`. */
  function CalculatePrefetchRelation(r: Registry, m: ModelId, fetched: Option<set<ModelId>>): Paths
    requires m in r
  {
    Expand(r, m, if fetched.None? then {m} else fetched.value)
  }

  /** One call of the function on `m`: `published_version` is always selected,
      then each field adds its lookups in `get_fields()` order. */
  function Expand(r: Registry, m: ModelId, fetched: set<ModelId>): Paths
    requires m in r
    decreases r.Keys - (fetched + {m}), 1
  {
    var c := Contributions(r, r[m].fields, fetched + {m});
    Paths(c.prefetch, ["published_version"] + c.select)
  }

  /** The lookups the fields add, in order, each field's after those of the
      fields before it. The fetched set is the one of this call, so siblings
      do not see each other's models. */
  function Contributions(r: Registry, fields: seq<Field>, fetched: set<ModelId>): Paths
    decreases r.Keys - fetched, 0, |fields|
  {
    if fields == [] then Paths([], [])
    else Join(Own(r, fields[0], fetched), Contributions(r, fields[1..], fetched))
  }

  /** The lookups one field adds. A to-many field adds its own name and the
      related model's prefetch and select lookups, all as prefetches; a
      to-one field selects its own name and the related model's selects, and
      prefetches the related model's prefetches. */
  function Own(r: Registry, f: Field, fetched: set<ModelId>): Paths
    decreases r.Keys - fetched, 0, 0
  {
    if Skipped(r, f, fetched) then Paths([], [])
    else
      var child := Expand(r, f.related.value, fetched);
      if IsToMany(f) then Paths([f.name] + Prefixed(f.name, child.prefetch + child.select), [])
      else Paths(Prefixed(f.name, child.prefetch), [f.name] + Prefixed(f.name, child.select))
  }

  /** Both lists of `p` followed by those of `q`. */
  function Join(p: Paths, q: Paths): Paths {
    Paths(p.prefetch + q.prefetch, p.select + q.select)
  }

  /** `calculate_prefetch_relation` as written: the field loop appends to the
      two lists, and a followed field's related model is computed by a
      recursive call with this call's fetched set. */
  method CalculatePrefetchRelationLists(r: Registry, m: ModelId, fetchedModels: Option<set<ModelId>>)
    returns (prefetch: seq<string>, select: seq<string>)
    requires m in r
    ensures Paths(prefetch, select) == CalculatePrefetchRelation(r, m, fetchedModels)
    decreases r.Keys - ((if fetchedModels.None? then {m} else fetchedModels.value) + {m})
  {
    var fetched := if fetchedModels.None? then {m} else fetchedModels.value;
    prefetch := [];
    select := ["published_version"];
    var fields := r[m].fields;
    fetched := fetched + {m};
    var i := 0;
    while i < |fields|
      invariant 0 <= i <= |fields|
      invariant Paths(prefetch, select) == Join(Paths([], ["published_version"]), Contributions(r, fields[..i], fetched))
    {
      var f := fields[i];
      ghost var before := Paths(prefetch, select);
      if !Skipped(r, f, fetched) {
        var child := f.related.value;
        assert r.Keys - (fetched + {child}) < r.Keys - fetched by {
          assert child in r.Keys - fetched;
        }
        if IsToMany(f) {
          prefetch := prefetch + [f.name];
          var childPrefetch, childSelect := CalculatePrefetchRelationLists(r, child, Some(fetched));
          prefetch := prefetch + Prefixed(f.name, childPrefetch + childSelect);
          assert prefetch == before.prefetch + ([f.name] + Prefixed(f.name, childPrefetch + childSelect));
          assert select == before.select + [];
        } else {
          select := select + [f.name];
          var childPrefetch, childSelect := CalculatePrefetchRelationLists(r, child, Some(fetched));
          prefetch := prefetch + Prefixed(f.name, childPrefetch);
          select := select + Prefixed(f.name, childSelect);
          assert select == before.select + ([f.name] + Prefixed(f.name, childSelect));
        }
      } else {
        assert before == Join(before, Paths([], []));
      }
      assert Paths(prefetch, select) == Join(before, Own(r, f, fetched));
      assert fields[..i + 1] == fields[..i] + [f];
      ContributionsSnoc(r, fields[..i], f, fetched);
      JoinAssociative(Paths([], ["published_version"]), Contributions(r, fields[..i], fetched), Own(r, f, fetched));
      i := i + 1;
    }
    assert fields[..i] == fields;
  }

  /** The lookups of one more field follow those of the fields before it. */
  lemma ContributionsSnoc(r: Registry, fields: seq<Field>, f: Field, fetched: set<ModelId>)
    ensures Contributions(r, fields + [f], fetched) == Join(Contributions(r, fields, fetched), Own(r, f, fetched))
  {
    ContributionsConcat(r, fields, [f], fetched);
    assert [f][1..] == [];
  }

  lemma JoinAssociative(p: Paths, q: Paths, u: Paths)
    ensures Join(Join(p, q), u) == Join(p, Join(q, u))
  {
    assert (p.prefetch + q.prefetch) + u.prefetch == p.prefetch + (q.prefetch + u.prefetch);
    assert (p.select + q.select) + u.select == p.select + (q.select + u.select);
  }

  /** `p` is the lookup of field `f` itself or goes through it. */
  predicate Through(p: string, f: Field) {
    p == f.name || StartsWith(p, f.name + "__")
  }

  /** Every lookup starts at a field of the model that was not passed over; a
      bare field name is prefetched only for a to-many field and selected only
      for a to-one field, and apart from `published_version` every select
      goes through a to-one field. */
  lemma {:induction false} ContributionsRooted(r: Registry, fields: seq<Field>, fetched: set<ModelId>)
    ensures forall p :: p in Contributions(r, fields, fetched).prefetch ==>
      exists f :: f in fields && !Skipped(r, f, fetched)
        && ((p == f.name && IsToMany(f)) || StartsWith(p, f.name + "__"))
    ensures forall p :: p in Contributions(r, fields, fetched).select ==>
      exists f :: f in fields && !Skipped(r, f, fetched) && !IsToMany(f) && Through(p, f)
    decreases |fields|
  {
    if fields != [] {
      ContributionsRooted(r, fields[1..], fetched);
      var f := fields[0];
      if !Skipped(r, f, fetched) {
        var child := Expand(r, f.related.value, fetched);
        PrefixedStarts(f.name, child.prefetch + child.select);
        PrefixedStarts(f.name, child.prefetch);
        PrefixedStarts(f.name, child.select);
      }
    }
  }

  lemma PrefixedStarts(name: string, paths: seq<string>)
    ensures forall p :: p in Prefixed(name, paths) ==> StartsWith(p, name + "__")
  {
    forall p | p in Prefixed(name, paths)
      ensures StartsWith(p, name + "__")
    {
      var i :| 0 <= i < |paths| && Prefixed(name, paths)[i] == p;
      assert p == (name + "__") + paths[i];
    }
  }

  /** The result of one call: selects start with `published_version` and every
      other lookup starts at a followed field of the model. */
  lemma ExpandRooted(r: Registry, m: ModelId, fetched: set<ModelId>)
    requires m in r
    ensures Expand(r, m, fetched).select[0] == "published_version"
    ensures forall p :: p in Expand(r, m, fetched).prefetch ==>
      exists f :: f in r[m].fields && !Skipped(r, f, fetched + {m}) && Through(p, f)
    ensures forall p :: p in Expand(r, m, fetched).select[1..] ==>
      exists f :: f in r[m].fields && !Skipped(r, f, fetched + {m}) && !IsToMany(f) && Through(p, f)
  {
    ContributionsRooted(r, r[m].fields, fetched + {m});
    var c := Contributions(r, r[m].fields, fetched + {m});
    assert Expand(r, m, fetched).select[1..] == c.select;
  }

  /** Fields that are all passed over add no lookup; in particular a field
      pointing back at a model already fetched on the path, or at the model
      itself, is never expanded again. */
  lemma {:induction false} SkippedFieldsAddNothing(r: Registry, fields: seq<Field>, fetched: set<ModelId>)
    requires forall f :: f in fields ==> Skipped(r, f, fetched)
    ensures Contributions(r, fields, fetched) == Paths([], [])
    decreases |fields|
  {
    if fields != [] {
      SkippedFieldsAddNothing(r, fields[1..], fetched);
    }
  }

  /** The converse: every field that is not passed over adds its own name,
      as a prefetch when it is to-many and as a select when it is to-one. */
  lemma {:induction false} FollowedFieldsAddTheirName(r: Registry, fields: seq<Field>, fetched: set<ModelId>)
    ensures forall f :: f in fields && !Skipped(r, f, fetched) && IsToMany(f) ==>
      f.name in Contributions(r, fields, fetched).prefetch
    ensures forall f :: f in fields && !Skipped(r, f, fetched) && !IsToMany(f) ==>
      f.name in Contributions(r, fields, fetched).select
    decreases |fields|
  {
    if fields != [] {
      FollowedFieldsAddTheirName(r, fields[1..], fetched);
      forall f | f in fields && !Skipped(r, f, fetched)
        ensures IsToMany(f) ==> f.name in Contributions(r, fields, fetched).prefetch
        ensures !IsToMany(f) ==> f.name in Contributions(r, fields, fetched).select
      {
        if f == fields[0] {
          assert f.name in Own(r, f, fetched).prefetch + Own(r, f, fetched).select;
        } else {
          assert f in fields[1..];
        }
      }
    }
  }

  /** The lookups of consecutive fields are the lookups of the first ones
      followed by those of the rest, as the loop appends them. */
  lemma {:induction false} ContributionsConcat(r: Registry, a: seq<Field>, b: seq<Field>, fetched: set<ModelId>)
    ensures Contributions(r, a + b, fetched) == Join(Contributions(r, a, fetched), Contributions(r, b, fetched))
    decreases |a|
  {
    if a == [] {
      assert a + b == b;
    } else {
      assert (a + b)[0] == a[0];
      assert (a + b)[1..] == a[1..] + b;
      ContributionsConcat(r, a[1..], b, fetched);
      var o := Own(r, a[0], fetched);
      var ra := Contributions(r, a[1..], fetched);
      var rb := Contributions(r, b, fetched);
      assert o.prefetch + (ra.prefetch + rb.prefetch) == (o.prefetch + ra.prefetch) + rb.prefetch;
      assert o.select + (ra.select + rb.select) == (o.select + ra.select) + rb.select;
    }
  }
}
