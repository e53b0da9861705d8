/** Publication models (headless_cms/models.py): a row points, through its
    `published_version`, at one reversion snapshot of itself; readers see the
    snapshot's field dict, never the live row. */
module Publication {
  import opened Common
  import opened Schema

  /** Django auto-field primary keys start at 1, so a stored key is truthy. */
  type Id = i: int | 0 < i witness 1

  /** A row: its model and primary key. */
  datatype ObjectKey = ObjectKey(model: ModelId, pk: int)

  /** A snapshot's field dict: field name to serialised value. */
  type FieldDict = map<string, string>

  /** A reversion `Version`: a snapshot of one row, saved in one revision. */
  datatype Version = Version(id: Id, key: ObjectKey, revision: Id, fieldDict: FieldDict)

  /** A live publication-model row and its `published_version_id`. */
  datatype Obj = Obj(key: ObjectKey, publishedVersion: Option<Id>)

  /** The three states shown in the admin. */
  datatype PubState = Unpublished | PublishedLatest | PublishedOutdated

  /** Primary keys of the version table are unique. */
  predicate UniqueIds(vs: seq<Version>) {
    forall i, j :: 0 <= i < |vs| && 0 <= j < |vs| && vs[i].id == vs[j].id ==> i == j
  }

  /** The version row with primary key `id`, if any (a foreign-key lookup). */
  function VersionById(vs: seq<Version>, id: Id): (r: Option<Version>)
    ensures r.Some? ==> r.value in vs && r.value.id == id
    ensures r.None? <==> forall v :: v in vs ==> v.id != id
  {
    if vs == [] then None
    else if vs[0].id == id then Some(vs[0])
    else VersionById(vs[1..], id)
  }

  /** With unique keys the lookup finds every stored row. */
  lemma {:induction false} VersionByIdUnique(vs: seq<Version>, v: Version)
    requires UniqueIds(vs) && v in vs
    ensures VersionById(vs, v.id) == Some(v)
  {
    if vs[0] != v {
      var k :| 0 <= k < |vs| && vs[k] == v;
      assert UniqueIds(vs[1..]) by {
        forall i, j | 0 <= i < |vs[1..]| && 0 <= j < |vs[1..]| && vs[1..][i].id == vs[1..][j].id
          ensures i == j
        {
          assert vs[i + 1].id == vs[j + 1].id;
        }
      }
      assert v in vs[1..] by {
        assert vs[1..][k - 1] == v;
      }
      VersionByIdUnique(vs[1..], v);
    }
  }

  /** The id of `Version.objects.get_for_object(obj).first()`: versions are
      ordered by descending primary key, so this is the newest snapshot. */
  function LatestVersionId(vs: seq<Version>, key: ObjectKey): (r: Option<Id>)
    ensures r.None? <==> forall v :: v in vs ==> v.key != key
    ensures r.Some? ==> exists v :: v in vs && v.key == key && v.id == r.value
    ensures r.Some? ==> forall v :: v in vs && v.key == key ==> v.id <= r.value
  {
    if vs == [] then None
    else
      var rest := LatestVersionId(vs[1..], key);
      if vs[0].key == key && (rest.None? || rest.value < vs[0].id) then Some(vs[0].id)
      else rest
  }

  /** The published pointer refers to a stored snapshot of the row itself. */
  predicate Consistent(o: Obj, vs: seq<Version>) {
    o.publishedVersion.Some? ==>
      exists v :: v in vs && v.id == o.publishedVersion.value && v.key == o.key
  }

  /** `published_data`: the field dict of the published snapshot, `None` when
      the row was never published. */
  function PublishedData(o: Obj, vs: seq<Version>): (r: Option<FieldDict>)
    requires Consistent(o, vs)
    ensures r.None? <==> o.publishedVersion.None?
    ensures r.Some? ==> exists v :: v in vs && v.id == o.publishedVersion.value && v.fieldDict == r.value
  {
    if o.publishedVersion.None? then None
    else Some(VersionById(vs, o.publishedVersion.value).value.fieldDict)
  }

  /** `published_state`: compares the published snapshot with the newest one. */
  function PublishedState(o: Obj, vs: seq<Version>): (s: PubState)
    requires Consistent(o, vs)
    ensures s == Unpublished <==> o.publishedVersion.None?
    ensures s == PublishedLatest <==>
      o.publishedVersion.Some? && forall v :: v in vs && v.key == o.key ==> v.id <= o.publishedVersion.value
    ensures s == PublishedOutdated <==>
      o.publishedVersion.Some? && exists v :: v in vs && v.key == o.key && v.id > o.publishedVersion.value
  {
    if o.publishedVersion.None? then Unpublished
    else
      var last := LatestVersionId(vs, o.key);
      if last.value == o.publishedVersion.value then PublishedLatest else PublishedOutdated
  }

  /** The HTML the admin column renders for each state. */
  function StateHtml(s: PubState): string {
    match s
    case Unpublished => "<div style=\"color:red;\">unpublished<div>"
    case PublishedLatest => "<div style=\"color:blue;\">published (latest)<div>"
    case PublishedOutdated => "<div style=\"color:orange;\">published (outdated)<div>"
  }

  /** Saving an edit adds a newer snapshot of the row: readers still get the
      published data, and the row becomes "published (outdated)". */
  lemma EditKeepsPublishedData(o: Obj, vs: seq<Version>, edit: Version)
    requires Consistent(o, vs) && o.publishedVersion.Some?
    requires edit.key == o.key
    requires forall v :: v in vs ==> v.id < edit.id
    ensures Consistent(o, vs + [edit])
    ensures PublishedData(o, vs + [edit]) == PublishedData(o, vs)
    ensures PublishedState(o, vs + [edit]) == PublishedOutdated
  {
    var pv := o.publishedVersion.value;
    VersionByIdAppend(vs, edit, pv);
    assert edit in vs + [edit];
  }

  /** Appending a row does not change the lookup of a key already present. */
  lemma {:induction false} VersionByIdAppend(vs: seq<Version>, extra: Version, id: Id)
    requires VersionById(vs, id).Some?
    ensures VersionById(vs + [extra], id) == VersionById(vs, id)
  {
    if vs[0].id != id {
      assert (vs + [extra])[1..] == vs[1..] + [extra];
      VersionByIdAppend(vs[1..], extra, id);
    }
  }

  /** The `published_version__isnull=False` filter of `published()`. */
  function Published(objs: seq<Obj>): (r: seq<Obj>)
    ensures forall o :: o in r <==> o in objs && o.publishedVersion.Some?
    ensures |r| <= |objs|
  {
    if objs == [] then []
    else if objs[0].publishedVersion.Some? then [objs[0]] + Published(objs[1..])
    else Published(objs[1..])
  }

  /** Filtering twice is filtering once. */
  lemma {:induction false} PublishedIdempotent(objs: seq<Obj>)
    ensures Published(Published(objs)) == Published(objs)
  {
    if objs != [] {
      PublishedIdempotent(objs[1..]);
    }
  }

  /** `serialize()`: the published field dict of every row, in order; a row
      without a published snapshot raises `AttributeError`. */
  function Serialize(objs: seq<Obj>, vs: seq<Version>): (r: Result<seq<FieldDict>>)
    requires forall o :: o in objs ==> Consistent(o, vs)
    ensures r.Ok? <==> forall o :: o in objs ==> o.publishedVersion.Some?
    ensures r.Ok? ==> |r.value| == |objs|
    ensures r.Ok? ==> forall i :: 0 <= i < |objs| ==> PublishedData(objs[i], vs) == Some(r.value[i])
  {
    if objs == [] then Ok([])
    else if objs[0].publishedVersion.None? then Err("AttributeError")
    else
      var rest := Serialize(objs[1..], vs);
      if rest.Err? then rest
      else Ok([PublishedData(objs[0], vs).value] + rest.value)
  }

  /** `published().serialize()` never meets an unpublished row. */
  lemma SerializePublishedSucceeds(objs: seq<Obj>, vs: seq<Version>)
    requires forall o :: o in objs ==> Consistent(o, vs)
    ensures Serialize(Published(objs), vs).Ok?
    ensures |Serialize(Published(objs), vs).value| == |Published(objs)|
  {
  }

  /** A reverse relation whose `related_name` is prefetched by `published()`. */
  predicate PrefetchCandidate(r: Registry, f: Field) {
    f.autoCreated && !f.concrete
    && IsSubclass(r, f.model, PublicationModel) && TruthyOpt(f.relatedName)
  }

  /** Django reports a related model for every reverse relation. */
  predicate ReverseFieldsRelated(r: Registry) {
    forall m, f :: m in r && f in r[m].fields && f.autoCreated && !f.concrete ==> f.related.Some?
  }

  /** The queryset `published_objects.published()` returns: the rows of
      `model` that `Published` keeps, with one `Prefetch` per lookup, each
      holding the queryset it prefetches. */
  datatype PublishedQs = PublishedQs(model: ModelId, prefetches: map<string, PublishedQs>)

  /** `published_objects.published()` of `m`, evaluated while the models of
      `stack` are evaluating theirs. `published()` reads its own
      `prefetch_related_list`, which evaluates the related models'
      `published()` at once, so a model met again on the way recurses without
      end and raises `RecursionError`. */
  function PublishedOf(r: Registry, m: ModelId, stack: set<ModelId>): (res: Result<PublishedQs>)
    requires ReverseFieldsRelated(r) && m in r
    ensures res.Ok? ==> res.value.model == m
    decreases r.Keys - stack, 0
  {
    if m in stack then Err("RecursionError")
    else
      match PrefetchesOf(r, r[m].fields, stack + {m})
      case Ok(p) => Ok(PublishedQs(m, p))
      case Err(e) => Err(e)
  }

  /** The loop of `prefetch_related_list` over `fields`: each candidate's
      related queryset is evaluated, then its `Prefetch` added to the set,
      where an equal lookup already present wins. A related model without a
      `published_objects` manager raises `AttributeError`; the first error
      raised ends the loop. */
  function PrefetchesOf(r: Registry, fields: seq<Field>, stack: set<ModelId>): Result<map<string, PublishedQs>>
    requires ReverseFieldsRelated(r)
    requires forall f :: f in fields && f.autoCreated && !f.concrete ==> f.related.Some?
    decreases r.Keys - stack, 1, |fields|
  {
    if fields == [] then Ok(map[])
    else
      var f := fields[|fields| - 1];
      match PrefetchesOf(r, fields[..|fields| - 1], stack)
      case Err(e) => Err(e)
      case Ok(acc) =>
        if !PrefetchCandidate(r, f) then Ok(acc)
        else if !IsSubclass(r, f.related.value, PublicationModel) then Err("AttributeError")
        else
          match PublishedOf(r, f.related.value, stack)
          case Err(e) => Err(e)
          case Ok(q) => Ok(if f.relatedName.value in acc then acc else acc[f.relatedName.value := q])
  }

  /** `published()` of `m`: its prefetch list, evaluated with `m` on the
      stack. `stack` stands for the models whose `published()` the
      interpreter is already evaluating. */
  method PublishedQuerySet(r: Registry, m: ModelId, stack: set<ModelId>) returns (res: Result<PublishedQs>)
    requires ReverseFieldsRelated(r) && m in r
    decreases r.Keys - stack, 0
    ensures res == PublishedOf(r, m, stack)
  {
    if m in stack {
      return Err("RecursionError");
    }
    var p := PrefetchRelatedList(r, m, stack + {m});
    if p.Err? {
      return Err(p.error);
    }
    res := Ok(PublishedQs(m, p.value));
  }

  /** `prefetch_related_list` of a queryset of `m`, while the models of
      `stack` (among them `m`) evaluate their `published()`. */
  method PrefetchRelatedList(r: Registry, m: ModelId, stack: set<ModelId>) returns (res: Result<map<string, PublishedQs>>)
    requires ReverseFieldsRelated(r) && m in r
    decreases r.Keys - stack, 1
    ensures res == PrefetchesOf(r, r[m].fields, stack)
  {
    var fields := r[m].fields;
    var acc: map<string, PublishedQs> := map[];
    var i := 0;
    while i < |fields|
      invariant 0 <= i <= |fields|
      invariant PrefetchesOf(r, fields[..i], stack) == Ok(acc)
    {
      var f := fields[i];
      assert fields[..i + 1][..i] == fields[..i];
      if f.autoCreated && !f.concrete {
        if IsSubclass(r, f.model, PublicationModel) && TruthyOpt(f.relatedName) {
          if !IsSubclass(r, f.related.value, PublicationModel) {
            PrefetchesErrStays(r, fields, i + 1, stack);
            return Err("AttributeError");
          }
          var q := PublishedQuerySet(r, f.related.value, stack);
          if q.Err? {
            PrefetchesErrStays(r, fields, i + 1, stack);
            return Err(q.error);
          }
          var name := f.relatedName.value;
          if name !in acc {
            acc := acc[name := q.value];
          }
        }
      }
      i := i + 1;
    }
    assert fields[..i] == fields;
    res := Ok(acc);
  }

  /** Once a prefix of the fields raises, the whole loop raises the same. */
  lemma {:induction false} PrefetchesErrStays(r: Registry, fields: seq<Field>, k: nat, stack: set<ModelId>)
    requires ReverseFieldsRelated(r)
    requires forall f :: f in fields && f.autoCreated && !f.concrete ==> f.related.Some?
    requires k <= |fields| && PrefetchesOf(r, fields[..k], stack).Err?
    ensures PrefetchesOf(r, fields, stack) == PrefetchesOf(r, fields[..k], stack)
    decreases |fields|
  {
    if k < |fields| {
      var init := fields[..|fields| - 1];
      assert init[..k] == fields[..k];
      PrefetchesErrStays(r, init, k, stack);
    } else {
      assert fields[..k] == fields;
    }
  }

  /** Every model reachable from `m` through candidate reverse relations is a
      publication model, and no path through them comes back to a model on
      it (or on `stack`). */
  ghost predicate PrefetchSafe(r: Registry, m: ModelId, stack: set<ModelId>)
    requires ReverseFieldsRelated(r) && m in r
    decreases r.Keys - stack, 0
  {
    m !in stack && FieldsSafe(r, r[m].fields, stack + {m})
  }

  ghost predicate FieldsSafe(r: Registry, fields: seq<Field>, stack: set<ModelId>)
    requires ReverseFieldsRelated(r)
    requires forall f :: f in fields && f.autoCreated && !f.concrete ==> f.related.Some?
    decreases r.Keys - stack, 1, |fields|
  {
    forall i :: 0 <= i < |fields| && PrefetchCandidate(r, fields[i]) ==>
      IsSubclass(r, fields[i].related.value, PublicationModel)
      && PrefetchSafe(r, fields[i].related.value, stack)
  }

  /** `published()` succeeds exactly when every model reachable through
      candidate reverse relations is a publication model and none of them
      leads back to a model on the way. */
  lemma {:induction false} PublishedOkIff(r: Registry, m: ModelId, stack: set<ModelId>)
    requires ReverseFieldsRelated(r) && m in r
    ensures PublishedOf(r, m, stack).Ok? <==> PrefetchSafe(r, m, stack)
    decreases r.Keys - stack, 0
  {
    if m !in stack {
      PrefetchesOkIff(r, r[m].fields, stack + {m});
    }
  }

  lemma {:induction false} PrefetchesOkIff(r: Registry, fields: seq<Field>, stack: set<ModelId>)
    requires ReverseFieldsRelated(r)
    requires forall f :: f in fields && f.autoCreated && !f.concrete ==> f.related.Some?
    ensures PrefetchesOf(r, fields, stack).Ok? <==> FieldsSafe(r, fields, stack)
    decreases r.Keys - stack, 1, |fields|
  {
    if fields != [] {
      var f := fields[|fields| - 1];
      var init := fields[..|fields| - 1];
      PrefetchesOkIff(r, init, stack);
      if PrefetchCandidate(r, f) && IsSubclass(r, f.related.value, PublicationModel) {
        PublishedOkIff(r, f.related.value, stack);
      }
      assert forall i :: 0 <= i < |init| ==> init[i] == fields[i];
    }
  }

  /** What a successful prefetch list holds: one lookup per candidate's
      `related_name`, the first candidate with that name giving the related
      model, and each lookup's queryset being that model's own `published()`. */
  lemma {:induction false} PrefetchesMeaning(r: Registry, fields: seq<Field>, stack: set<ModelId>)
    requires ReverseFieldsRelated(r)
    requires forall f :: f in fields && f.autoCreated && !f.concrete ==> f.related.Some?
    requires PrefetchesOf(r, fields, stack).Ok?
    ensures forall n :: n in PrefetchesOf(r, fields, stack).value <==>
      exists f :: f in fields && PrefetchCandidate(r, f) && f.relatedName.value == n
    ensures forall n :: n in PrefetchesOf(r, fields, stack).value ==>
      var q := PrefetchesOf(r, fields, stack).value[n];
      FirstWins(r, fields, n, q.model) && q.model in r && PublishedOf(r, q.model, stack) == Ok(q)
    decreases |fields|
  {
    if fields != [] {
      var f := fields[|fields| - 1];
      var init := fields[..|fields| - 1];
      PrefetchesMeaning(r, init, stack);
      assert fields == init + [f];
      var before := PrefetchesOf(r, init, stack).value;
      var acc := PrefetchesOf(r, fields, stack).value;
      AccumulateStep(r, stack, init, f, before, acc);
    }
  }

  /** `target` is the related model of the first candidate named `n`. */
  predicate FirstWins(r: Registry, fields: seq<Field>, n: string, target: ModelId) {
    exists i :: 0 <= i < |fields| && PrefetchCandidate(r, fields[i])
      && fields[i].relatedName.value == n && fields[i].related == Some(target)
      && forall j :: 0 <= j < i ==> !(PrefetchCandidate(r, fields[j]) && fields[j].relatedName.value == n)
  }

  /** One field of the loop: a candidate with a new name is added, anything
      else leaves the map as it was, and the map stays the first-wins map of
      the fields seen so far. */
  lemma AccumulateStep(r: Registry, stack: set<ModelId>, fields: seq<Field>, f: Field,
                       before: map<string, PublishedQs>, acc: map<string, PublishedQs>)
    requires ReverseFieldsRelated(r)
    requires forall n :: n in before <==>
      exists g :: g in fields && PrefetchCandidate(r, g) && g.relatedName.value == n
    requires forall n :: n in before ==>
      FirstWins(r, fields, n, before[n].model) && before[n].model in r && PublishedOf(r, before[n].model, stack) == Ok(before[n])
    requires PrefetchCandidate(r, f) ==> f.related.Some? && f.related.value in r
    requires PrefetchCandidate(r, f) ==> PublishedOf(r, f.related.value, stack).Ok?
    requires acc == if PrefetchCandidate(r, f) && f.relatedName.value !in before
      then before[f.relatedName.value := PublishedOf(r, f.related.value, stack).value] else before
    ensures forall n :: n in acc <==>
      exists g :: g in fields + [f] && PrefetchCandidate(r, g) && g.relatedName.value == n
    ensures forall n :: n in acc ==>
      FirstWins(r, fields + [f], n, acc[n].model) && acc[n].model in r && PublishedOf(r, acc[n].model, stack) == Ok(acc[n])
  {
    forall n | n in acc
      ensures FirstWins(r, fields + [f], n, acc[n].model)
      ensures acc[n].model in r && PublishedOf(r, acc[n].model, stack) == Ok(acc[n])
    {
      if n in before {
        assert acc[n] == before[n];
        FirstWinsExtend(r, fields, f, n, before[n].model);
      } else {
        var q := PublishedOf(r, f.related.value, stack).value;
        assert acc[n] == q && q.model == f.related.value;
        FirstWinsNew(r, fields, f, n);
      }
    }
    forall n | n in acc
      ensures exists g :: g in fields + [f] && PrefetchCandidate(r, g) && g.relatedName.value == n
    {
      if n !in before {
        assert f in fields + [f];
      } else {
        var g :| g in fields && PrefetchCandidate(r, g) && g.relatedName.value == n;
        assert g in fields + [f];
      }
    }
  }

  /** A candidate whose name no earlier candidate has is the first one. */
  lemma FirstWinsNew(r: Registry, fields: seq<Field>, f: Field, n: string)
    requires forall g :: g in fields && PrefetchCandidate(r, g) ==> g.relatedName.value != n
    requires PrefetchCandidate(r, f) && f.relatedName.value == n && f.related.Some?
    ensures FirstWins(r, fields + [f], n, f.related.value)
  {
    var s := fields + [f];
    assert s[|fields|] == f;
    forall j | 0 <= j < |fields|
      ensures !(PrefetchCandidate(r, s[j]) && s[j].relatedName.value == n)
    {
      assert s[j] == fields[j];
    }
  }

  lemma FirstWinsExtend(r: Registry, fields: seq<Field>, f: Field, n: string, target: ModelId)
    requires FirstWins(r, fields, n, target)
    ensures FirstWins(r, fields + [f], n, target)
  {
    var i :| 0 <= i < |fields| && PrefetchCandidate(r, fields[i])
      && fields[i].relatedName.value == n && fields[i].related == Some(target)
      && forall j :: 0 <= j < i ==> !(PrefetchCandidate(r, fields[j]) && fields[j].relatedName.value == n);
    assert (fields + [f])[i] == fields[i];
  }

  /** A publication model with a named reverse relation from itself, such as
      a self-referencing foreign key with a `related_name`, cannot evaluate
      `published()`: its prefetch list needs its own `published()` again. */
  lemma SelfReferenceRecursion(r: Registry, m: ModelId, f: Field)
    requires ReverseFieldsRelated(r) && m in r && IsSubclass(r, m, PublicationModel)
    requires f in r[m].fields && PrefetchCandidate(r, f) && f.related == Some(m)
    ensures PublishedOf(r, m, {}).Err?
  {
    PublishedOkIff(r, m, {});
    var i :| 0 <= i < |r[m].fields| && r[m].fields[i] == f;
    var stack: set<ModelId> := {} + {m};
    assert !PrefetchSafe(r, r[m].fields[i].related.value, stack);
    assert !FieldsSafe(r, r[m].fields, stack);
  }
}
