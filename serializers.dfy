/** The CMS serializers (headless_cms/serializers.py): the representation of
    a row is built from its published snapshot, the `Meta.exclude` list is
    completed on construction, the dynamic-file serializer picks its `src`,
    and `auto_serializer` builds a serializer class per model with nested
    serializers for its relations. DRF's own serialization is a
    parameter. */
module Serializers {
  import opened Common
  import opened Schema
  import opened Publication

  // ---------------------------------------------------------------------
  // `LocalizedModelSerializer.to_representation`

  /** `field.attname`: a foreign key's column carries `_id`. */
  function Attname(f: Field): string {
    if f.kind == ForeignKey then f.name + "_id" else f.name
  }

  /** `rel_fields`: the attnames of the relations declared on the model. */
  function RelAttnames(fields: seq<Field>): set<string> {
    set f | f in fields && IsRelation(f) && !f.autoCreated && f.related.Some? :: Attname(f)
  }

  /** The instance's attributes after the snapshot is copied onto it: every
      snapshot key that is no relation attname takes the snapshot's value,
      every other attribute keeps its live value. */
  function Overlay(attrs: map<string, string>, data: FieldDict, rel: set<string>): map<string, string> {
    map k | k in attrs.Keys + (data.Keys - rel) :: if k in data && k !in rel then data[k] else attrs[k]
  }

  /** A model instance as the serializer sees it: its fields and its
      attributes. */
  class Instance {
    const fields: seq<Field>
    var attrs: map<string, string>

    constructor(fields: seq<Field>, attrs: map<string, string>)
      ensures this.fields == fields && this.attrs == attrs
    {
      this.fields := fields;
      this.attrs := attrs;
    }
  }

  /** `to_representation`: no (or empty) published data gives `None`;
      otherwise the snapshot is copied onto the instance, relation attnames
      excepted, and DRF serializes the instance. */
  method ToRepresentation<R>(instance: Instance, data: Option<FieldDict>, drf: map<string, string> -> R) returns (rep: Option<R>)
    modifies instance
    ensures data.None? || data.value == map[] ==> rep.None? && instance.attrs == old(instance.attrs)
    ensures data.Some? && data.value != map[] ==>
      instance.attrs == Overlay(old(instance.attrs), data.value, RelAttnames(instance.fields))
      && rep == Some(drf(instance.attrs))
  {
    if data.None? || data.value == map[] {
      return None;
    }
    var relFields := RelAttnames(instance.fields);
    var pending := data.value.Keys;
    while pending != {}
      invariant pending <= data.value.Keys
      invariant instance.attrs == Overlay(old(instance.attrs), data.value - pending, relFields)
      decreases pending
    {
      var k :| k in pending;
      OverlayStep(old(instance.attrs), data.value, pending, relFields, k);
      pending := pending - {k};
      if k in relFields {
        continue;
      }
      instance.attrs := instance.attrs[k := data.value[k]];
    }
    assert data.value - {} == data.value;
    rep := Some(drf(instance.attrs));
  }

  lemma OverlayStep(attrs: map<string, string>, data: FieldDict, pending: set<string>, rel: set<string>, k: string)
    requires k in pending && pending <= data.Keys
    ensures var before := Overlay(attrs, data - pending, rel);
      Overlay(attrs, data - (pending - {k}), rel) == if k in rel then before else before[k := data[k]]
  {
  }

  /** The representation reads the snapshot, not the live row: a key of
      the snapshot that is no relation attname shows the snapshot's value;
      relation attnames and attributes the snapshot lacks keep the live
      value. */
  lemma OverlayReadsSnapshot(attrs: map<string, string>, data: FieldDict, rel: set<string>, k: string)
    ensures k in data && k !in rel ==> k in Overlay(attrs, data, rel) && Overlay(attrs, data, rel)[k] == data[k]
    ensures k in attrs && (k !in data || k in rel) ==> k in Overlay(attrs, data, rel) && Overlay(attrs, data, rel)[k] == attrs[k]
    ensures k in Overlay(attrs, data, rel) <==> k in attrs || (k in data && k !in rel)
  {
  }

  /** With the published snapshot of a row: an edit saved after publishing
      does not change what is shown. */
  lemma RepresentationUsesPublished(o: Obj, vs: seq<Version>, edit: Version, attrs: map<string, string>, rel: set<string>)
    requires Consistent(o, vs) && o.publishedVersion.Some?
    requires edit.key == o.key && UniqueIds(vs) && forall v :: v in vs ==> v.id < edit.id
    ensures Consistent(o, vs + [edit])
    ensures Overlay(attrs, PublishedData(o, vs + [edit]).value, rel) == Overlay(attrs, PublishedData(o, vs).value, rel)
  {
    EditKeepsPublishedData(o, vs, edit);
  }

  // ---------------------------------------------------------------------
  // `LocalizedModelSerializer.__init__`: completing `Meta.exclude`

  /** A serializer's `Meta` class attributes. `None` stands for an
      attribute that is not declared. */
  class Meta {
    var fields: Option<seq<string>>
    var exclude: Option<set<string>>
    const extraExclude: Option<seq<string>>
    /** The names of the model's fields (`_meta.get_fields()`). */
    const modelFieldNames: set<string>

    constructor(fields: Option<seq<string>>, exclude: Option<set<string>>, extraExclude: Option<seq<string>>, modelFieldNames: set<string>)
      ensures this.fields == fields && this.exclude == exclude
      ensures this.extraExclude == extraExclude && this.modelFieldNames == modelFieldNames
    {
      this.fields := fields;
      this.exclude := exclude;
      this.extraExclude := extraExclude;
      this.modelFieldNames := modelFieldNames;
    }

    /** The serializer's constructor: without `fields`, `exclude` becomes
        the old exclusions, `published_version`, and those extra
        exclusions that name a field of the model. */
    method Init()
      modifies this`exclude
      ensures fields.Some? ==> exclude == old(exclude)
      ensures fields.None? ==> exclude == Some(CompletedExclude(old(exclude), extraExclude, modelFieldNames))
    {
      if fields.None? {
        var ex: set<string> := {};
        if exclude.Some? {
          ex := exclude.value;
        }
        ex := ex + {"published_version"};
        if extraExclude.Some? {
          ex := ex + (Elems(extraExclude.value) * modelFieldNames);
        }
        assert ex == CompletedExclude(old(exclude), extraExclude, modelFieldNames);
        exclude := Some(ex);
      }
    }
  }

  function CompletedExclude(exclude: Option<set<string>>, extra: Option<seq<string>>, names: set<string>): (ex: set<string>)
    ensures "published_version" in ex
  {
    (if exclude.Some? then exclude.value else {}) + {"published_version"}
      + (if extra.Some? then Elems(extra.value) * names else {})
  }

  /** Exactly these names are excluded: the declared exclusions, the
      version pointer, and the extra exclusions that are model fields. */
  lemma CompletedExcludeMembers(exclude: Option<set<string>>, extra: Option<seq<string>>, names: set<string>, n: string)
    ensures n in CompletedExclude(exclude, extra, names) <==>
      (exclude.Some? && n in exclude.value) || n == "published_version"
      || (extra.Some? && n in extra.value && n in names)
  {
  }

  /** `Meta` belongs to the class, so every construction completes the
      same list: a second construction changes nothing. */
  lemma CompletedExcludeIdempotent(exclude: Option<set<string>>, extra: Option<seq<string>>, names: set<string>)
    ensures var once := CompletedExclude(exclude, extra, names);
      CompletedExclude(Some(once), extra, names) == once
  {
  }

  // ---------------------------------------------------------------------
  // `LocalizedDynamicFileSerializer.get_src`

  /** `get_src`: the translated file (falsy without a name) as an absolute
      URL, else the translated `src_url` when that value is set, else
      `None`. */
  function GetSrc(srcFile: Option<string>, srcUrlSet: bool, srcUrl: Option<string>, absoluteUri: string -> string): (src: Option<string>)
    ensures TruthyOpt(srcFile) ==> src == Some(absoluteUri(srcFile.value))
    ensures !TruthyOpt(srcFile) && !srcUrlSet ==> src.None?
    ensures !TruthyOpt(srcFile) && srcUrlSet ==> src == srcUrl
  {
    if TruthyOpt(srcFile) then Some(absoluteUri(srcFile.value))
    else if srcUrlSet then srcUrl
    else None
  }

  /** The file wins over the URL whenever there is one. */
  lemma SrcPrefersFile(file: string, srcUrl: Option<string>, absoluteUri: string -> string)
    requires file != ""
    ensures GetSrc(Some(file), true, srcUrl, absoluteUri) == GetSrc(Some(file), false, None, absoluteUri)
  {
  }

  // ---------------------------------------------------------------------
  // `_auto_serializer`

  /** The two base serializers. */
  datatype SerializerBase = LocalizedBaseSerializer | LocalizedDynamicFileSerializer

  /** A generated class attribute: a nested serializer instance, the method
      serializing a self many-to-many relation, or a value given by the
      caller's overrides. */
  datatype Relation =
    | Nested(serializer: Serializer, many: bool)
    | SelfMethod(fieldName: string)
    | Declared(value: string)

  /** A generated serializer class: its name, `Meta.model`, base class and
      class attributes. */
  datatype Serializer = Serializer(name: string, model: ModelId, base: SerializerBase, relations: map<string, Relation>)

  type Overrides = map<ModelId, map<string, Relation>>

  /** The class attribute a field produces, by the first branch it meets:
      a foreign key to a localized publication model, a many-to-many field
      to the model itself, a generic relation or many-to-many field to a
      localized publication model. */
  function Key(r: Registry, m: ModelId, f: Field): Option<string> {
    if f.kind == ForeignKey && RelatedIs(r, f, LocalizedPublicationModel) then Some(f.name)
    else if f.kind == ManyToMany && f.related == Some(m) then Some("get_" + f.name)
    else if f.kind in {GenericRelation, ManyToMany} && RelatedIs(r, f, LocalizedPublicationModel) then Some(f.name)
    else None
  }

  /** `_auto_serializer(model, ancestors, overrides)`. The ancestors are
      copied, so a nested call's additions stay on its own path. */
  function AutoSerializer(r: Registry, m: ModelId, ancestors: set<ModelId>, overrides: Overrides): (s: Serializer)
    requires WellFormed(r) && m in r
    ensures s.model == m && s.name == r[m].objectName + "Serializer"
    ensures s.base == LocalizedDynamicFileSerializer <==> IsSubclass(r, m, LocalizedDynamicFileModel)
    ensures m in ancestors ==> s.relations == OverridesOf(overrides, m, map[])
    decreases r.Keys - (ancestors + {m}), if m in ancestors then 0 else 2
  {
    var relations := if m in ancestors then map[] else Relations(r, m, ancestors + {m}, r[m].fields, overrides);
    var base := if IsSubclass(r, m, LocalizedDynamicFileModel) then LocalizedDynamicFileSerializer else LocalizedBaseSerializer;
    Serializer(r[m].objectName + "Serializer", m, base, OverridesOf(overrides, m, relations))
  }

  /** `if overrides.get(model): relations.update(overrides[model])`. */
  function OverridesOf(overrides: Overrides, m: ModelId, relations: map<string, Relation>): map<string, Relation> {
    if m in overrides && overrides[m] != map[] then relations + overrides[m] else relations
  }

  /** The loop over the model's fields, with the model among the
      ancestors. */
  function Relations(r: Registry, m: ModelId, ancestors: set<ModelId>, fields: seq<Field>, overrides: Overrides): map<string, Relation>
    requires WellFormed(r) && m in r && m in ancestors && forall f :: f in fields ==> f in r[m].fields
    decreases r.Keys - ancestors, 1, |fields|
  {
    if fields == [] then map[]
    else
      var init := fields[..|fields| - 1];
      var f := fields[|fields| - 1];
      var prev := Relations(r, m, ancestors, init, overrides);
      var key := Key(r, m, f);
      if key.None? then prev else prev[key.value := Entry(r, m, ancestors, f, overrides)]
  }

  /** The class attribute of a classified field: the related model's
      serializer (a list of them for a to-many relation) or the self
      relation's method. */
  function Entry(r: Registry, m: ModelId, ancestors: set<ModelId>, f: Field, overrides: Overrides): (e: Relation)
    requires WellFormed(r) && m in r && m in ancestors && f in r[m].fields && Key(r, m, f).Some?
    ensures e.Nested? <==> RelatedIs(r, f, LocalizedPublicationModel) && !(f.kind == ManyToMany && f.related == Some(m))
    ensures e.Nested? ==> e.serializer.model == f.related.value && (e.many <==> f.kind != ForeignKey)
    decreases r.Keys - ancestors, 1, 0
  {
    if f.kind == ManyToMany && f.related == Some(m) then SelfMethod(f.name)
    else Nested(AutoSerializer(r, f.related.value, ancestors, overrides), f.kind != ForeignKey)
  }

  /** `_auto_serializer` as written: the ancestors are copied, the model is
      added, the field loop fills `relations` (a nested serializer comes
      from a recursive call), then the overrides and the base are chosen. */
  method BuildSerializer(r: Registry, m: ModelId, ancestors: set<ModelId>, overrides: Overrides) returns (s: Serializer)
    requires WellFormed(r) && m in r
    ensures s == AutoSerializer(r, m, ancestors, overrides)
    decreases r.Keys - (ancestors + {m}), if m in ancestors then 0 else 2
  {
    var seen := ancestors;
    var relations: map<string, Relation> := map[];
    if m !in seen {
      seen := seen + {m};
      var fields := r[m].fields;
      var i := 0;
      while i < |fields|
        invariant 0 <= i <= |fields|
        invariant relations == Relations(r, m, seen, fields[..i], overrides)
      {
        var f := fields[i];
        assert fields[..i + 1][..i] == fields[..i];
        if f.kind == ForeignKey && RelatedIs(r, f, LocalizedPublicationModel) {
          var nested := BuildSerializer(r, f.related.value, seen, overrides);
          relations := relations[f.name := Nested(nested, false)];
        } else if f.kind == ManyToMany && f.related == Some(m) {
          relations := relations["get_" + f.name := SelfMethod(f.name)];
        } else if f.kind in {GenericRelation, ManyToMany} && RelatedIs(r, f, LocalizedPublicationModel) {
          var nested := BuildSerializer(r, f.related.value, seen, overrides);
          relations := relations[f.name := Nested(nested, true)];
        }
        i := i + 1;
      }
      assert fields[..i] == fields;
    }
    if m in overrides && overrides[m] != map[] {
      relations := relations + overrides[m];
    }
    var base := if IsSubclass(r, m, LocalizedDynamicFileModel) then LocalizedDynamicFileSerializer else LocalizedBaseSerializer;
    s := Serializer(r[m].objectName + "Serializer", m, base, relations);
  }

  /** No two classified fields of a model produce the same attribute name
      (Django field names are unique; this also rules out a field named
      like another's `get_` method). */
  predicate DistinctKeys(r: Registry, m: ModelId, fields: seq<Field>) {
    forall i, j :: 0 <= i < j < |fields| && Key(r, m, fields[i]).Some? ==> Key(r, m, fields[i]) != Key(r, m, fields[j])
  }

  /** The generated attributes, field by field: every classified field has
      its attribute with its entry, and there is no other attribute. */
  lemma {:induction false} RelationsEntries(r: Registry, m: ModelId, ancestors: set<ModelId>, fields: seq<Field>, overrides: Overrides)
    requires WellFormed(r) && m in r && m in ancestors && forall f :: f in fields ==> f in r[m].fields
    requires DistinctKeys(r, m, fields)
    ensures var rels := Relations(r, m, ancestors, fields, overrides);
      (forall f :: f in fields && Key(r, m, f).Some? ==>
         Key(r, m, f).value in rels && rels[Key(r, m, f).value] == Entry(r, m, ancestors, f, overrides))
      && (forall k :: k in rels ==> exists f :: f in fields && Key(r, m, f) == Some(k))
    decreases |fields|
  {
    if fields != [] {
      var init := fields[..|fields| - 1];
      var last := fields[|fields| - 1];
      assert DistinctKeys(r, m, init) by {
        forall i, j | 0 <= i < j < |init| && Key(r, m, init[i]).Some?
          ensures Key(r, m, init[i]) != Key(r, m, init[j])
        {
          assert init[i] == fields[i] && init[j] == fields[j];
        }
      }
      RelationsEntries(r, m, ancestors, init, overrides);
      forall f | f in init && Key(r, m, f).Some?
        ensures Key(r, m, f) != Key(r, m, last)
      {
        var i :| 0 <= i < |init| && init[i] == f;
        assert fields[i] == f;
      }
      assert forall f :: f in fields <==> f in init || f == last;
    }
  }

  /** A model already among its ancestors gets no nested serializers: only
      the caller's overrides, so a cycle of relations ends one level in. */
  lemma AncestorNotExpanded(r: Registry, m: ModelId, ancestors: set<ModelId>, overrides: Overrides)
    requires WellFormed(r) && m in r && m in ancestors
    ensures forall k :: k in AutoSerializer(r, m, ancestors, overrides).relations ==>
      m in overrides && k in overrides[m]
  {
  }

  /** For a model met for the first time, each field gets its attribute:
      a single nested serializer for a foreign key, a list for a generic
      relation or a many-to-many field, a method for a relation to itself;
      every nested serializer is built with this model among its ancestors,
      and the overrides replace whatever they name. */
  lemma AutoSerializerFields(r: Registry, m: ModelId, ancestors: set<ModelId>, overrides: Overrides, f: Field)
    requires WellFormed(r) && m in r && m !in ancestors && f in r[m].fields
    requires DistinctKeys(r, m, r[m].fields) && Key(r, m, f).Some?
    ensures var s := AutoSerializer(r, m, ancestors, overrides);
      var k := Key(r, m, f).value;
      k in s.relations
      && (m in overrides && k in overrides[m] ==> s.relations[k] == overrides[m][k])
      && (!(m in overrides && k in overrides[m]) ==>
            s.relations[k] == Entry(r, m, ancestors + {m}, f, overrides)
            && (s.relations[k].Nested? ==>
                  s.relations[k].serializer == AutoSerializer(r, f.related.value, ancestors + {m}, overrides)))
  {
    RelationsEntries(r, m, ancestors + {m}, r[m].fields, overrides);
  }

  /** A many-to-many relation of a model to itself is served by a method,
      never by a nested serializer, even to a localized publication
      model. */
  lemma SelfRelationIsMethod(r: Registry, m: ModelId, ancestors: set<ModelId>, overrides: Overrides, f: Field)
    requires WellFormed(r) && m in r && m in ancestors && f in r[m].fields
    requires f.kind == ManyToMany && f.related == Some(m)
    ensures Key(r, m, f) == Some("get_" + f.name)
    ensures Entry(r, m, ancestors, f, overrides) == SelfMethod(f.name)
  {
  }

  /** `auto_serializer`: no ancestors yet, so the model's own relations are
      always generated (`lru_cache(maxsize=0)` keeps nothing, so every call
      builds a new class). */
  method AutoSerializerTop(r: Registry, m: ModelId, overrides: Overrides) returns (s: Serializer)
    requires WellFormed(r) && m in r
    ensures s.model == m
    ensures s.relations == OverridesOf(overrides, m, Relations(r, m, {m}, r[m].fields, overrides))
  {
    s := BuildSerializer(r, m, {}, overrides);
    assert {} + {m} == {m};
  }
}
