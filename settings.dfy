/** Patching the package settings (headless_cms/settings.py):
    `apply_patches` records each patched attribute's value and overrides it,
    `clear_patches` puts the recorded values back, and `patched_settings`
    wraps a block in the two. Attribute values are of a type parameter `V`;
    `perform_import` is a parameter. */
module Settings {
  import opened Common

  /** The attributes as `getattr` sees them (a missing name raises
      `AttributeError`) and `_original_settings`. */
  datatype State<V> = State(attrs: map<string, V>, original: map<string, V>)

  /** The value an attribute is set to: import strings go through
      `perform_import`, which may raise. */
  function Imported<V>(attr: string, val: V, importStrings: set<string>, performImport: (V, string) -> Result<V>): Result<V> {
    if attr in importStrings then performImport(val, attr) else Ok(val)
  }

  /** One item of `apply_patches`: the converted value, the recorded
      previous value, then the override. */
  function ApplyOne<V>(s: State<V>, attr: string, val: V, importStrings: set<string>, performImport: (V, string) -> Result<V>): (State<V>, Result<()>) {
    var v := Imported(attr, val, importStrings, performImport);
    if v.Err? then (s, Err(v.error))
    else if attr !in s.attrs then (s, Err("AttributeError"))
    else (State(s.attrs[attr := v.value], s.original[attr := s.attrs[attr]]), Ok(()))
  }

  /** `apply_patches` over the items of `patches` in order, stopping at the
      first one that raises. */
  function Apply<V>(s: State<V>, patches: seq<(string, V)>, importStrings: set<string>, performImport: (V, string) -> Result<V>): (State<V>, Result<()>)
    decreases |patches|
  {
    if patches == [] then (s, Ok(()))
    else
      var prev := Apply(s, patches[..|patches| - 1], importStrings, performImport);
      var (attr, val) := patches[|patches| - 1];
      if prev.1.Err? then prev else ApplyOne(prev.0, attr, val, importStrings, performImport)
  }

  /** `clear_patches`: every recorded attribute gets its recorded value back,
      and the record is emptied. */
  function Clear<V>(s: State<V>): State<V> {
    State(s.attrs + s.original, map[])
  }

  /** The attribute names a patch list holds. */
  function Names<V>(patches: seq<(string, V)>): set<string>
    decreases |patches|
  {
    if patches == [] then {} else Names(patches[..|patches| - 1]) + {patches[|patches| - 1].0}
  }

  /** The names of a patch dictionary, which are distinct. */
  predicate DistinctNames<V>(patches: seq<(string, V)>)
    decreases |patches|
  {
    patches == []
    || (DistinctNames(patches[..|patches| - 1]) && patches[|patches| - 1].0 !in Names(patches[..|patches| - 1]))
  }

  /** What applying patches to a state with an empty record leaves: the same
      attribute names, a record holding the first value of every attribute
      it names, and every attribute outside the record untouched. */
  ghost predicate Recorded<V>(s: State<V>, t: State<V>) {
    t.attrs.Keys == s.attrs.Keys
    && (forall k :: k in t.original ==> k in s.attrs && t.original[k] == s.attrs[k])
    && (forall k :: k in s.attrs && k !in t.original ==> t.attrs[k] == s.attrs[k])
  }

  /** Applying records the previous value of each attribute before
      overriding it, and records only the attributes it patches. */
  lemma {:induction false} ApplyRecords<V>(s: State<V>, patches: seq<(string, V)>, importStrings: set<string>, performImport: (V, string) -> Result<V>)
    requires s.original == map[] && DistinctNames(patches)
    ensures Recorded(s, Apply(s, patches, importStrings, performImport).0)
    ensures Apply(s, patches, importStrings, performImport).0.original.Keys <= Names(patches)
    decreases |patches|
  {
    if patches != [] {
      var init := patches[..|patches| - 1];
      ApplyRecords(s, init, importStrings, performImport);
    }
  }

  /** A successful apply sets every patched attribute to its converted
      value. */
  lemma {:induction false} ApplySets<V>(s: State<V>, patches: seq<(string, V)>, importStrings: set<string>, performImport: (V, string) -> Result<V>)
    requires DistinctNames(patches) && Apply(s, patches, importStrings, performImport).1.Ok?
    ensures var t := Apply(s, patches, importStrings, performImport).0;
      forall i :: 0 <= i < |patches| ==>
        patches[i].0 in t.attrs && Imported(patches[i].0, patches[i].1, importStrings, performImport) == Ok(t.attrs[patches[i].0])
    decreases |patches|
  {
    if patches != [] {
      var init := patches[..|patches| - 1];
      ApplySets(s, init, importStrings, performImport);
      forall i | 0 <= i < |init|
        ensures init[i].0 in Names(init) && patches[i] == init[i]
      {
        NamesHas(init, i);
      }
    }
  }

  lemma {:induction false} NamesHas<V>(patches: seq<(string, V)>, i: nat)
    requires i < |patches|
    ensures patches[i].0 in Names(patches)
    decreases |patches|
  {
    if i < |patches| - 1 {
      NamesHas(patches[..|patches| - 1], i);
    }
  }

  /** A single apply followed by a clear restores every attribute, also
      when the apply stopped at an exception part way. */
  lemma ApplyClearRestores<V>(s: State<V>, patches: seq<(string, V)>, importStrings: set<string>, performImport: (V, string) -> Result<V>)
    requires s.original == map[] && DistinctNames(patches)
    ensures Clear(Apply(s, patches, importStrings, performImport).0) == s
  {
    var t := Apply(s, patches, importStrings, performImport).0;
    ApplyRecords(s, patches, importStrings, performImport);
    assert Clear(t).attrs == s.attrs;
  }

  /** `patched_settings` with a falsy (empty) patch dictionary changes
      nothing; otherwise the block runs between apply and clear, and the
      clear runs whether or not the apply raised. */
  function Patched<V>(s: State<V>, patches: seq<(string, V)>, importStrings: set<string>, performImport: (V, string) -> Result<V>): (State<V>, Result<()>) {
    if patches == [] then (s, Ok(()))
    else
      var (t, r) := Apply(s, patches, importStrings, performImport);
      (Clear(t), r)
  }

  /** Nesting, as written: the inner block's clear puts back the outer
      patch's attribute and empties the record, so once both blocks are
      left the outer patch is still in place. */
  lemma NestedPatchLeaks()
    ensures var s0 := State(map["A" := 0], map[]);
      var s1 := Apply(s0, [("A", 1)], {}, (v: int, a: string) => Ok(v)).0;
      var s2 := Apply(s1, [("A", 2)], {}, (v: int, a: string) => Ok(v)).0;
      var s3 := Clear(s2);
      var s4 := Clear(s3);
      s3.attrs["A"] == 1 && s4.attrs["A"] == 1
  {
    var imp := (v: int, a: string) => Ok(v);
    var s0 := State(map["A" := 0], map[]);
    var p1: seq<(string, int)> := [("A", 1)];
    var p2: seq<(string, int)> := [("A", 2)];
    assert p1[..0] == [] && p2[..0] == [];
    var s1 := Apply(s0, p1, {}, imp).0;
    assert s1 == State(map["A" := 1], map["A" := 0]);
    var s2 := Apply(s1, p2, {}, imp).0;
    assert s2 == State(map["A" := 2], map["A" := 1]);
  }

  /** Nesting, as written, with two attributes: leaving the inner block
      also undoes the outer block's patch while the outer block still runs. */
  lemma NestedPatchUndoneEarly()
    ensures var s0 := State(map["A" := 0, "B" := 0], map[]);
      var s1 := Apply(s0, [("A", 1)], {}, (v: int, a: string) => Ok(v)).0;
      var s2 := Apply(s1, [("B", 2)], {}, (v: int, a: string) => Ok(v)).0;
      s1.attrs["A"] == 1 && Clear(s2).attrs["A"] == 0
  {
    var imp := (v: int, a: string) => Ok(v);
    var s0 := State(map["A" := 0, "B" := 0], map[]);
    var p1: seq<(string, int)> := [("A", 1)];
    var p2: seq<(string, int)> := [("B", 2)];
    assert p1[..0] == [] && p2[..0] == [];
    var s1 := Apply(s0, p1, {}, imp).0;
    assert s1.attrs["A"] == 1 && s1.original == map["A" := 0];
    var s2 := Apply(s1, p2, {}, imp).0;
    assert s2.original == map["A" := 0, "B" := 0];
  }

  // ---------------------------------------------------------------------
  // Patching that nests: each block keeps its own record

  /** Entering a block: the patches are applied on an empty record, and the
      block keeps the record for itself. */
  function Enter<V>(attrs: map<string, V>, patches: seq<(string, V)>, importStrings: set<string>, performImport: (V, string) -> Result<V>): (entered: (map<string, V>, map<string, V>, Result<()>)) {
    var (t, r) := Apply(State(attrs, map[]), patches, importStrings, performImport);
    (t.attrs, t.original, r)
  }

  /** Leaving a block: its own record is put back. */
  function Exit<V>(attrs: map<string, V>, saved: map<string, V>): map<string, V> {
    attrs + saved
  }

  /** Each block restores exactly what it found, so nested blocks undo their
      patches innermost first: after the inner block the outer patch is in
      place again, and after the outer block the original settings are. */
  lemma NestedRestores<V>(attrs: map<string, V>, outer: seq<(string, V)>, inner: seq<(string, V)>,
                          importStrings: set<string>, performImport: (V, string) -> Result<V>)
    requires DistinctNames(outer) && DistinctNames(inner)
    ensures var (a1, saved1, _) := Enter(attrs, outer, importStrings, performImport);
      var (a2, saved2, _) := Enter(a1, inner, importStrings, performImport);
      var a3 := Exit(a2, saved2);
      a3 == a1 && Exit(a3, saved1) == attrs
  {
    var (a1, saved1, _) := Enter(attrs, outer, importStrings, performImport);
    ApplyClearRestores(State(attrs, map[]), outer, importStrings, performImport);
    var (a2, saved2, _) := Enter(a1, inner, importStrings, performImport);
    ApplyClearRestores(State(a1, map[]), inner, importStrings, performImport);
  }

  // ---------------------------------------------------------------------
  // The settings object

  class HeadlessCmsSettings<V(==)> {
    var attrs: map<string, V>
    /** `_original_settings`. */
    var original: map<string, V>
    /** `IMPORT_STRINGS` and `perform_import`. */
    const importStrings: set<string>
    const performImport: (V, string) -> Result<V>

    function Current(): State<V>
      reads this
    {
      State(attrs, original)
    }

    constructor(attrs: map<string, V>, importStrings: set<string>, performImport: (V, string) -> Result<V>)
      ensures this.attrs == attrs && original == map[]
      ensures this.importStrings == importStrings && this.performImport == performImport
    {
      this.attrs := attrs;
      original := map[];
      this.importStrings := importStrings;
      this.performImport := performImport;
    }

    /** `apply_patches`. */
    method ApplyPatches(patches: seq<(string, V)>) returns (r: Result<()>)
      modifies this
      ensures (Current(), r) == Apply(old(Current()), patches, importStrings, performImport)
    {
      r := Ok(());
      var i := 0;
      while i < |patches|
        invariant 0 <= i <= |patches|
        invariant (Current(), r) == Apply(old(Current()), patches[..i], importStrings, performImport)
        invariant r.Ok?
      {
        var (attr, val) := patches[i];
        assert patches[..i + 1][..i] == patches[..i];
        if attr in importStrings {
          var v := performImport(val, attr);
          if v.Err? {
            r := Err(v.error);
            ApplyStops(old(Current()), patches, i + 1, importStrings, performImport);
            return;
          }
          val := v.value;
        }
        if attr !in attrs {
          r := Err("AttributeError");
          ApplyStops(old(Current()), patches, i + 1, importStrings, performImport);
          return;
        }
        original := original[attr := attrs[attr]];
        attrs := attrs[attr := val];
        i := i + 1;
      }
      assert patches[..i] == patches;
    }

    /** `clear_patches`: the recorded items are put back one by one. */
    method ClearPatches()
      modifies this
      ensures Current() == Clear(old(Current()))
    {
      var pending := original.Keys;
      while pending != {}
        invariant pending <= original.Keys && original == old(original)
        invariant forall k :: k in attrs <==> k in old(attrs) || k in original.Keys - pending
        invariant forall k :: k in attrs ==> attrs[k] == if k in original.Keys - pending then original[k] else old(attrs)[k]
        decreases pending
      {
        var attr :| attr in pending;
        attrs := attrs[attr := original[attr]];
        pending := pending - {attr};
      }
      assert attrs == old(attrs) + original;
      original := map[];
    }

    /** `patched_settings` around a block that leaves the settings alone:
        `during` is what the block sees. */
    method PatchedSettings(patches: seq<(string, V)>) returns (r: Result<()>, ghost during: map<string, V>)
      modifies this
      ensures (Current(), r) == Patched(old(Current()), patches, importStrings, performImport)
      ensures patches != [] ==> during == Apply(old(Current()), patches, importStrings, performImport).0.attrs
      ensures old(original) == map[] && DistinctNames(patches) ==> attrs == old(attrs) && original == map[]
    {
      during := attrs;
      if patches == [] {
        return Ok(()), during;
      }
      ghost var s := Current();
      r := ApplyPatches(patches);
      during := attrs;
      ClearPatches();
      if s.original == map[] && DistinctNames(patches) {
        ApplyClearRestores(s, patches, importStrings, performImport);
      }
    }
  }

  /** Once an item raised, the later items are not applied. */
  lemma {:induction false} ApplyStops<V>(s: State<V>, patches: seq<(string, V)>, j: nat, importStrings: set<string>, performImport: (V, string) -> Result<V>)
    requires j <= |patches| && Apply(s, patches[..j], importStrings, performImport).1.Err?
    ensures Apply(s, patches, importStrings, performImport) == Apply(s, patches[..j], importStrings, performImport)
    decreases |patches| - j
  {
    if j < |patches| {
      assert patches[..j + 1][..j] == patches[..j];
      ApplyStops(s, patches, j + 1, importStrings, performImport);
    } else {
      assert patches[..j] == patches;
    }
  }
}
