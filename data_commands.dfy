/** What the `import_cms_data` and `export_cms_data` commands follow from a
    model: the relation fields whose target is a localized publication model,
    and the through models of those that are many-to-many. */
module DataCommands {
  import opened Common
  import opened Schema

  /** A `GenericRelation`, `ForeignKey` or `ManyToManyField` whose related
      model is a localized publication model. */
  predicate Followed(r: Registry, f: Field) {
    f.kind in {ForeignKey, GenericRelation, ManyToMany} && RelatedIs(r, f, LocalizedPublicationModel)
  }

  /** A followed many-to-many field, whose through model is handled too. */
  predicate FollowedManyToMany(r: Registry, f: Field) {
    Followed(r, f) && f.kind == ManyToMany && f.through.Some?
  }

  /** The related models a model's handling visits first. */
  function Targets(r: Registry, m: ModelId): set<ModelId>
    requires m in r
  {
    set f | f in r[m].fields && Followed(r, f) :: f.related.value
  }

  /** The through models of its followed many-to-many fields. */
  function Throughs(r: Registry, m: ModelId): set<ModelId>
    requires m in r
  {
    set f | f in r[m].fields && FollowedManyToMany(r, f) :: f.through.value
  }

  /** The through models of the followed many-to-many fields, in field order. */
  function ThroughList(r: Registry, fields: seq<Field>): seq<ModelId>
    decreases |fields|
  {
    if fields == [] then []
    else
      var f := fields[|fields| - 1];
      ThroughList(r, fields[..|fields| - 1]) + (if FollowedManyToMany(r, f) then [f.through.value] else [])
  }

  /** A model is in the list iff some followed many-to-many field goes
      through it. */
  lemma {:induction false} ThroughListMembers(r: Registry, fields: seq<Field>)
    ensures forall p :: p in ThroughList(r, fields) <==>
      exists f :: f in fields && FollowedManyToMany(r, f) && f.through.value == p
    decreases |fields|
  {
    if fields != [] {
      var f := fields[|fields| - 1];
      var init := fields[..|fields| - 1];
      ThroughListMembers(r, init);
      assert fields == init + [f];
    }
  }

  /** The shape the commands' ordering promises rely on: a rank that every
      followed relation descends (no cycle of followed relations), and
      through models that link only their two sides and have no
      many-to-many fields of their own. */
  ghost predicate Layered(r: Registry, rank: ModelId -> nat) {
    WellFormed(r)
    && (forall m, t :: m in r && t in Targets(r, m) ==> rank(t) < rank(m))
    && (forall m, f :: m in r && f in r[m].fields && FollowedManyToMany(r, f) ==>
          f.through.value in r && Throughs(r, f.through.value) == {}
          && Targets(r, f.through.value) <= {m, f.related.value})
  }

  /** The selected models the commands start from: the localized
      publication models among them. */
  function Selected(r: Registry, models: seq<ModelId>): (s: set<ModelId>)
    ensures forall m :: m in s <==> m in models && IsSubclass(r, m, LocalizedPublicationModel)
  {
    set m | m in models && IsSubclass(r, m, LocalizedPublicationModel)
  }

  /** `x` is one step from a model of `from`: a related model one of its
      followed fields visits, or the through model of one of them. */
  ghost predicate Reached(r: Registry, from: set<ModelId>, x: ModelId) {
    exists y :: y in from && y in r && (x in Targets(r, y) || x in Throughs(r, y))
  }

  /** The models of a walk, in the order it entered them: each is a root or
      one step from a model entered before it. */
  ghost predicate Discovered(r: Registry, roots: set<ModelId>, seen: seq<ModelId>)
    decreases |seen|
  {
    seen == [] ||
      var x := seen[|seen| - 1];
      var init := seen[..|seen| - 1];
      Discovered(r, roots, init) && (x in roots || Reached(r, Elems(init), x))
  }

  /** `x` is a root or lies at most `n` followed steps from one. */
  ghost predicate ReachableWithin(r: Registry, roots: set<ModelId>, x: ModelId, n: nat)
    decreases n
  {
    x in roots
    || (n > 0 && exists y :: y in r && ReachableWithin(r, roots, y, n - 1)
                               && (x in Targets(r, y) || x in Throughs(r, y)))
  }

  lemma {:induction false} ReachableWithinMore(r: Registry, roots: set<ModelId>, x: ModelId, n: nat, n': nat)
    requires n <= n' && ReachableWithin(r, roots, x, n)
    ensures ReachableWithin(r, roots, x, n')
    decreases n
  {
    if x !in roots {
      var y :| y in r && ReachableWithin(r, roots, y, n - 1) && (x in Targets(r, y) || x in Throughs(r, y));
      ReachableWithinMore(r, roots, y, n - 1, n' - 1);
      assert y in r && ReachableWithin(r, roots, y, n' - 1);
    }
  }

  lemma DiscoveredAppend(r: Registry, roots: set<ModelId>, seen: seq<ModelId>, x: ModelId)
    requires Discovered(r, roots, seen) && (x in roots || Reached(r, Elems(seen), x))
    ensures Discovered(r, roots, seen + [x])
  {
    assert (seen + [x])[..|seen|] == seen;
  }

  /** Every model a walk entered is a root or reachable from one: the i-th
      lies at most i followed steps from a root. */
  lemma {:induction false} DiscoveredReachable(r: Registry, roots: set<ModelId>, seen: seq<ModelId>)
    requires Discovered(r, roots, seen)
    ensures forall i :: 0 <= i < |seen| ==> ReachableWithin(r, roots, seen[i], i)
    decreases |seen|
  {
    if seen != [] {
      var x := seen[|seen| - 1];
      var init := seen[..|seen| - 1];
      DiscoveredReachable(r, roots, init);
      if x !in roots {
        var y :| y in Elems(init) && y in r && (x in Targets(r, y) || x in Throughs(r, y));
        var j :| 0 <= j < |init| && init[j] == y;
        ReachableWithinMore(r, roots, y, j, |init| - 1);
      }
    }
  }

  /** `data_dir / app_label / f"{object_name}.json"`. */
  function ModelFile(dir: string, info: ModelInfo): (p: string)
    ensures StartsWith(p, dir + "/" + info.appLabel + "/")
  {
    dir + "/" + info.appLabel + "/" + info.objectName + ".json"
  }

  /** Different models of one directory have different files as long as
      their labels contain no separator. */
  lemma ModelFileInjective(dir: string, a: ModelInfo, b: ModelInfo)
    requires '/' !in a.appLabel && '/' !in b.appLabel
    requires ModelFile(dir, a) == ModelFile(dir, b)
    ensures a.appLabel == b.appLabel && a.objectName == b.objectName
  {
    var p := ModelFile(dir, a);
    var n := |dir| + 1;
    var ra := a.appLabel + "/" + (a.objectName + ".json");
    var rb := b.appLabel + "/" + (b.objectName + ".json");
    assert p == (dir + "/") + ra;
    assert p == (dir + "/") + rb;
    assert p[n..] == ra && p[n..] == rb;
    FirstSegment(a.appLabel, a.objectName + ".json", b.appLabel, b.objectName + ".json");
    assert a.objectName == (a.objectName + ".json")[..|a.objectName|];
    assert b.objectName == (b.objectName + ".json")[..|b.objectName|];
  }

  /** The position of the first `/` (the length when there is none). */
  function SlashIndex(s: string): nat {
    if s == [] || s[0] == '/' then 0 else 1 + SlashIndex(s[1..])
  }

  lemma {:induction false} SlashIndexAfter(a: string, x: string)
    requires '/' !in a
    ensures SlashIndex(a + "/" + x) == |a|
  {
    if a != [] {
      assert (a + "/" + x)[1..] == a[1..] + "/" + x;
      SlashIndexAfter(a[1..], x);
    }
  }

  /** Splitting at the first separator. */
  lemma FirstSegment(a: string, x: string, b: string, y: string)
    requires '/' !in a && '/' !in b && a + "/" + x == b + "/" + y
    ensures a == b && x == y
  {
    var s := a + "/" + x;
    SlashIndexAfter(a, x);
    SlashIndexAfter(b, y);
    assert a == s[..|a|] == b;
    assert x == s[|a| + 1..] == y;
  }

  // ---------------------------------------------------------------------
  // The walk log both commands keep

  lemma ElemsAppend<T>(s: seq<T>, x: T)
    ensures Elems(s + [x]) == Elems(s) + {x}
  {
  }

  /** With nothing on the stack, every model entered is done. */
  lemma NoneLeft(entered: set<ModelId>, done: seq<ModelId>)
    requires Elems(done) <= entered && entered - Elems(done) == {}
    ensures Elems(done) == entered
  {
    forall x | x in entered
      ensures x in Elems(done)
    {
      assert x !in entered - Elems(done);
    }
  }

  /** Entering a model pushes it on the stack. */
  lemma EnterOne(entered: set<ModelId>, done: seq<ModelId>, m: ModelId)
    requires m !in entered && Elems(done) <= entered
    ensures (entered + {m}) - Elems(done) == (entered - Elems(done)) + {m}
    ensures m !in entered - Elems(done)
  {
  }

  /** Finishing the model on top of the stack pops it. */
  lemma FinishOne(entered: set<ModelId>, done: seq<ModelId>, m: ModelId, pending0: set<ModelId>)
    requires entered - Elems(done) == pending0 + {m} && m !in pending0
    ensures m in Elems(done + [m]) && entered - Elems(done + [m]) == pending0
  {
    ElemsAppend(done, m);
  }

  /** No model twice, one entry at a time: each is new to those before it. */
  ghost predicate Distinct(s: seq<ModelId>)
    decreases |s|
  {
    s == [] || (Distinct(s[..|s| - 1]) && s[|s| - 1] !in s[..|s| - 1])
  }

  lemma DistinctAppend(s: seq<ModelId>, x: ModelId)
    requires Distinct(s) && x !in s
    ensures Distinct(s + [x])
  {
    assert (s + [x])[..|s|] == s;
  }

  lemma {:induction false} DistinctNoDup(s: seq<ModelId>)
    requires Distinct(s)
    ensures NoDup(s)
    decreases |s|
  {
    if s != [] {
      var init := s[..|s| - 1];
      DistinctNoDup(init);
      forall i, j | 0 <= i < j < |s|
        ensures s[i] != s[j]
      {
        if j < |s| - 1 {
          assert s[i] == init[i] && s[j] == init[j];
        } else {
          assert s[i] == init[i];
        }
      }
    }
  }

  lemma PrefixElems(a: seq<ModelId>, b: seq<ModelId>)
    requires |a| <= |b| && b[..|a|] == a
    ensures Elems(a) <= Elems(b)
  {
    forall x | x in Elems(a)
      ensures x in Elems(b)
    {
      var k :| 0 <= k < |a| && a[k] == x;
      assert b[k] == x;
    }
  }

  /** `now` extends `start` with models none of which was in `avoid`. */
  ghost predicate Grows(start: seq<ModelId>, now: seq<ModelId>, avoid: set<ModelId>) {
    |start| <= |now| && now[..|start|] == start
    && forall x :: x in now[|start|..] ==> x !in avoid
  }

  lemma GrowsRefl(log: seq<ModelId>, avoid: set<ModelId>)
    ensures Grows(log, log, avoid)
  {
    assert log[|log|..] == [];
  }

  lemma GrowsByOne(log: seq<ModelId>, m: ModelId, avoid: set<ModelId>)
    requires m !in avoid
    ensures Grows(log, log + [m], avoid)
  {
    assert (log + [m])[|log|..] == [m];
  }

  /** The entries a nested call adds were not entered before it, so they
      were not entered before the caller either. */
  lemma GrowsTrans(a: seq<ModelId>, b: seq<ModelId>, c: seq<ModelId>, avoid: set<ModelId>, avoid1: set<ModelId>, avoid2: set<ModelId>)
    requires Grows(a, b, avoid1) && Grows(b, c, avoid2) && avoid <= avoid1 && avoid <= avoid2
    ensures Grows(a, c, avoid)
  {
    assert c[|a|..] == b[|a|..] + c[|b|..];
  }

  /** Every followed field of `fields` has its related model in `done`. */
  ghost predicate TargetsDone(r: Registry, fields: seq<Field>, done: set<ModelId>)
    decreases |fields|
  {
    fields == [] ||
      var f := fields[|fields| - 1];
      TargetsDone(r, fields[..|fields| - 1], done) && (Followed(r, f) ==> f.related.value in done)
  }

  /** Every followed many-to-many field of `fields` has its through model
      in `done`. */
  ghost predicate ThroughsDone(r: Registry, fields: seq<Field>, done: set<ModelId>)
    decreases |fields|
  {
    fields == [] ||
      var f := fields[|fields| - 1];
      ThroughsDone(r, fields[..|fields| - 1], done) && (FollowedManyToMany(r, f) ==> f.through.value in done)
  }

  lemma {:induction false} TargetsDoneMeaning(r: Registry, fields: seq<Field>, done: set<ModelId>)
    ensures TargetsDone(r, fields, done) <==> forall f :: f in fields && Followed(r, f) ==> f.related.value in done
    decreases |fields|
  {
    if fields != [] {
      var init := fields[..|fields| - 1];
      TargetsDoneMeaning(r, init, done);
      assert fields == init + [fields[|fields| - 1]];
    }
  }

  lemma {:induction false} ThroughsDoneMeaning(r: Registry, fields: seq<Field>, done: set<ModelId>)
    ensures ThroughsDone(r, fields, done) <==> forall f :: f in fields && FollowedManyToMany(r, f) ==> f.through.value in done
    decreases |fields|
  {
    if fields != [] {
      var init := fields[..|fields| - 1];
      ThroughsDoneMeaning(r, init, done);
      assert fields == init + [fields[|fields| - 1]];
    }
  }

  /** One more field of a loop, with `done` grown meanwhile. */
  lemma TargetsDoneStep(r: Registry, fields: seq<Field>, i: nat, done0: set<ModelId>, done: set<ModelId>)
    requires i < |fields| && done0 <= done && TargetsDone(r, fields[..i], done0)
    requires Followed(r, fields[i]) ==> fields[i].related.value in done
    ensures TargetsDone(r, fields[..i + 1], done)
  {
    TargetsDoneMeaning(r, fields[..i], done0);
    TargetsDoneMeaning(r, fields[..i + 1], done);
    assert fields[..i + 1] == fields[..i] + [fields[i]];
  }

  lemma ThroughsDoneStep(r: Registry, fields: seq<Field>, i: nat, done0: set<ModelId>, done: set<ModelId>)
    requires i < |fields| && done0 <= done && ThroughsDone(r, fields[..i], done0)
    requires FollowedManyToMany(r, fields[i]) ==> fields[i].through.value in done
    ensures ThroughsDone(r, fields[..i + 1], done)
  {
    ThroughsDoneMeaning(r, fields[..i], done0);
    ThroughsDoneMeaning(r, fields[..i + 1], done);
    assert fields[..i + 1] == fields[..i] + [fields[i]];
  }

  /** A loop over all the fields of `m` that is done covers its targets. */
  lemma TargetsDoneAll(r: Registry, m: ModelId, done: set<ModelId>)
    requires m in r && TargetsDone(r, r[m].fields, done)
    ensures Targets(r, m) <= done
  {
    TargetsDoneMeaning(r, r[m].fields, done);
  }

  lemma ThroughsDoneAll(r: Registry, m: ModelId, done: set<ModelId>)
    requires m in r && ThroughsDone(r, r[m].fields, done)
    ensures Throughs(r, m) <= done
  {
    ThroughsDoneMeaning(r, r[m].fields, done);
  }
}
