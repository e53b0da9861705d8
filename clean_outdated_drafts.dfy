/** The `clean_outdated_drafts` management command
    (headless_cms/core/management/commands/clean_outdated_drafts.py): for every
    published row of a localized publication model, the revisions of its
    versions older than the published one are deleted, if they are older than
    the given number of days. Deleting a revision deletes its versions, and a
    row whose published version is deleted loses its pointer (`SET_NULL`). */
module CleanOutdatedDrafts {
  import opened Common
  import opened Schema
  import opened Publication

  /** A reversion `Revision`, with its creation time in seconds. */
  datatype Revision = Revision(id: Id, dateCreated: int)

  const SECONDS_PER_DAY: int := 86400

  /** What the command reads: each model's rows, the version table and the
      revision table. */
  datatype Db = Db(rows: map<ModelId, seq<Obj>>, versions: seq<Version>, revisions: seq<Revision>)

  function Rows(db: Db, m: ModelId): seq<Obj> {
    if m in db.rows then db.rows[m] else []
  }

  /** Only localized publication models are cleaned. */
  predicate Cleaned(r: Registry, m: ModelId) {
    IsSubclass(r, m, LocalizedPublicationModel)
  }

  /** `obj.versions.filter(id__lt=obj.published_version_id)`: the revisions
      of the row's versions older than its published one. */
  function OlderRevisions(o: Obj, vs: seq<Version>): set<Id>
    requires o.publishedVersion.Some?
  {
    set v | v in vs && v.key == o.key && v.id < o.publishedVersion.value :: v.revision
  }

  /** The revisions collected from a model's published rows. */
  function RowsRevisions(objs: seq<Obj>, vs: seq<Version>): set<Id>
    decreases |objs|
  {
    if objs == [] then {}
    else
      var o := objs[|objs| - 1];
      RowsRevisions(objs[..|objs| - 1], vs) + (if o.publishedVersion.Some? then OlderRevisions(o, vs) else {})
  }

  /** `remove_revision_ids` after the models loop. */
  function Candidates(r: Registry, db: Db, models: seq<ModelId>): set<Id>
    decreases |models|
  {
    if models == [] then {}
    else
      var m := models[|models| - 1];
      Candidates(r, db, models[..|models| - 1]) + (if Cleaned(r, m) then RowsRevisions(Rows(db, m), db.versions) else {})
  }

  /** `can_delete`: some selected model is a localized publication model. */
  predicate CanDelete(r: Registry, models: seq<ModelId>) {
    exists m :: m in models && Cleaned(r, m)
  }

  /** The revisions the command deletes, given the clock. */
  function Selected(r: Registry, db: Db, models: seq<ModelId>, now: int, days: int): set<Id> {
    if !CanDelete(r, models) then {}
    else set rv | rv in db.revisions && rv.id in Candidates(r, db, models) && rv.dateCreated < now - days * SECONDS_PER_DAY :: rv.id
  }

  /** A revision is selected exactly when it is old enough and holds a
      version of a published row of a cleaned model that is older than that
      row's published version. */
  lemma CandidatesMeaning(r: Registry, db: Db, models: seq<ModelId>, id: Id)
    ensures id in Candidates(r, db, models) <==>
      exists m, o, v :: m in models && Cleaned(r, m) && o in Rows(db, m) && o.publishedVersion.Some?
        && v in db.versions && v.key == o.key && v.id < o.publishedVersion.value && v.revision == id
  {
    CandidatesMeaningPrefix(r, db, models, |models|, id);
    assert models[..|models|] == models;
  }

  lemma {:induction false} CandidatesMeaningPrefix(r: Registry, db: Db, models: seq<ModelId>, n: nat, id: Id)
    requires n <= |models|
    ensures id in Candidates(r, db, models[..n]) <==>
      exists m, o, v :: m in models[..n] && Cleaned(r, m) && o in Rows(db, m) && o.publishedVersion.Some?
        && v in db.versions && v.key == o.key && v.id < o.publishedVersion.value && v.revision == id
  {
    if n > 0 {
      CandidatesMeaningPrefix(r, db, models, n - 1, id);
      assert models[..n][..n - 1] == models[..n - 1];
      assert models[..n] == models[..n - 1] + [models[n - 1]];
      RowsMeaning(Rows(db, models[n - 1]), db.versions, |Rows(db, models[n - 1])|, id);
      assert Rows(db, models[n - 1])[..|Rows(db, models[n - 1])|] == Rows(db, models[n - 1]);
    }
  }

  lemma {:induction false} RowsMeaning(objs: seq<Obj>, vs: seq<Version>, n: nat, id: Id)
    requires n <= |objs|
    ensures id in RowsRevisions(objs[..n], vs) <==>
      exists o, v :: o in objs[..n] && o.publishedVersion.Some?
        && v in vs && v.key == o.key && v.id < o.publishedVersion.value && v.revision == id
  {
    if n > 0 {
      RowsMeaning(objs, vs, n - 1, id);
      assert objs[..n][..n - 1] == objs[..n - 1];
      assert objs[..n] == objs[..n - 1] + [objs[n - 1]];
    }
  }

  /** `handle`: the models loop collects the candidate revisions, then the
      revision table is filtered by age. */
  method Handle(r: Registry, db: Db, models: seq<ModelId>, now: int, days: int) returns (deleted: set<Id>)
    ensures deleted == Selected(r, db, models, now, days)
  {
    var removeIds: set<Id> := {};
    var canDelete := false;
    var i := 0;
    while i < |models|
      invariant 0 <= i <= |models|
      invariant removeIds == Candidates(r, db, models[..i])
      invariant canDelete <==> exists m :: m in models[..i] && Cleaned(r, m)
    {
      var m := models[i];
      assert models[..i + 1][..i] == models[..i];
      assert models[..i + 1] == models[..i] + [m];
      if !Cleaned(r, m) {
        i := i + 1;
        continue;
      }
      var found := PublishedRowsRevisions(Rows(db, m), db.versions);
      removeIds := removeIds + found;
      canDelete := true;
      i := i + 1;
    }
    assert models[..|models|] == models;
    deleted := {};
    if canDelete {
      var cutoff := now - days * SECONDS_PER_DAY;
      var k := 0;
      while k < |db.revisions|
        invariant 0 <= k <= |db.revisions|
        invariant deleted == set rv | rv in db.revisions[..k] && rv.id in removeIds && rv.dateCreated < cutoff :: rv.id
      {
        var rv := db.revisions[k];
        assert db.revisions[..k + 1] == db.revisions[..k] + [rv];
        if rv.id in removeIds && rv.dateCreated < cutoff {
          deleted := deleted + {rv.id};
        }
        k := k + 1;
      }
      assert db.revisions[..k] == db.revisions;
    }
  }

  /** The inner loop over a model's published rows and their versions. */
  method PublishedRowsRevisions(objs: seq<Obj>, vs: seq<Version>) returns (ids: set<Id>)
    ensures ids == RowsRevisions(objs, vs)
  {
    ids := {};
    var j := 0;
    while j < |objs|
      invariant 0 <= j <= |objs|
      invariant ids == RowsRevisions(objs[..j], vs)
    {
      var o := objs[j];
      assert objs[..j + 1][..j] == objs[..j];
      if o.publishedVersion.Some? {
        var older: set<Id> := {};
        var k := 0;
        while k < |vs|
          invariant 0 <= k <= |vs|
          invariant older == set v | v in vs[..k] && v.key == o.key && v.id < o.publishedVersion.value :: v.revision
        {
          assert vs[..k + 1] == vs[..k] + [vs[k]];
          if vs[k].key == o.key && vs[k].id < o.publishedVersion.value {
            older := older + {vs[k].revision};
          }
          k := k + 1;
        }
        assert vs[..k] == vs;
        ids := ids + older;
      }
      j := j + 1;
    }
    assert objs[..j] == objs;
  }

  /** Without a localized publication model among the selected ones nothing
      is deleted, whatever the clock says. */
  lemma NothingToCleanDeletesNothing(r: Registry, db: Db, models: seq<ModelId>, now: int, days: int)
    requires forall m :: m in models ==> !Cleaned(r, m)
    ensures Selected(r, db, models, now, days) == {}
  {
  }

  /** Deleted revisions are old enough: a larger `--days` never deletes more. */
  lemma MoreDaysDeleteLess(r: Registry, db: Db, models: seq<ModelId>, now: int, days: int, moreDays: int)
    requires days <= moreDays
    ensures Selected(r, db, models, now, moreDays) <= Selected(r, db, models, now, days)
  {
  }

  // ---------------------------------------------------------------------
  // Effect of the deletion

  /** Deleting revisions: their versions go with them, and a row whose
      published version is gone has its pointer set to null. */
  function AfterDelete(db: Db, deleted: set<Id>): Db {
    var gone := set v | v in db.versions && v.revision in deleted :: v.id;
    Db(
      map m | m in db.rows :: ClearPointers(db.rows[m], gone),
      Keep(db.versions, deleted),
      KeepRevisions(db.revisions, deleted))
  }

  function Keep(vs: seq<Version>, deleted: set<Id>): (r: seq<Version>)
    ensures forall v :: v in r <==> v in vs && v.revision !in deleted
  {
    if vs == [] then [] else (if vs[0].revision in deleted then [] else [vs[0]]) + Keep(vs[1..], deleted)
  }

  function KeepRevisions(rs: seq<Revision>, deleted: set<Id>): (r: seq<Revision>)
    ensures forall rv :: rv in r <==> rv in rs && rv.id !in deleted
  {
    if rs == [] then [] else (if rs[0].id in deleted then [] else [rs[0]]) + KeepRevisions(rs[1..], deleted)
  }

  function ClearPointers(objs: seq<Obj>, gone: set<Id>): (r: seq<Obj>)
    ensures |r| == |objs|
    ensures forall i :: 0 <= i < |objs| ==>
      r[i].key == objs[i].key
      && r[i].publishedVersion == (if objs[i].publishedVersion.Some? && objs[i].publishedVersion.value in gone then None else objs[i].publishedVersion)
  {
    seq(|objs|, i requires 0 <= i < |objs| =>
      if objs[i].publishedVersion.Some? && objs[i].publishedVersion.value in gone then objs[i].(publishedVersion := None) else objs[i])
  }

  /** A reversion revision holds at most one version of each row. */
  predicate OneVersionPerRevision(vs: seq<Version>) {
    forall v, w :: v in vs && w in vs && v.key == w.key && v.revision == w.revision ==> v.id == w.id
  }

  /** A row's own older drafts never take its published version with them. */
  lemma OwnPublishedVersionSurvives(o: Obj, vs: seq<Version>, pv: Version)
    requires o.publishedVersion.Some? && OneVersionPerRevision(vs)
    requires pv in vs && pv.id == o.publishedVersion.value && pv.key == o.key
    ensures pv.revision !in OlderRevisions(o, vs)
  {
  }

  // ---------------------------------------------------------------------
  // The scenario of tests/test_commands/test_clean_outdated_drafts.py

  const POST: ModelId := "test_app.Post"
  const POST_KEY := ObjectKey(POST, 1)

  function PostRegistry(): Registry {
    map[POST := ModelInfo("test_app", "Post", {PublicationModel, LocalizedPublicationModel}, [], None, None)]
  }

  /** Created, edited, published at the third version, edited again: four
      snapshots, each in its own revision, all made before `now`. */
  function PostDb(now: int): Db {
    Db(map[POST := [Obj(POST_KEY, Some(3))]],
      [Version(1, POST_KEY, 1, map[]), Version(2, POST_KEY, 2, map[]), Version(3, POST_KEY, 3, map[]), Version(4, POST_KEY, 4, map[])],
      [Revision(1, now - 4), Revision(2, now - 3), Revision(3, now - 2), Revision(4, now - 1)])
  }

  lemma PostCandidates(now: int)
    ensures Candidates(PostRegistry(), PostDb(now), [POST]) == {1, 2}
  {
    var db := PostDb(now);
    var o := Obj(POST_KEY, Some(3));
    assert OlderRevisions(o, db.versions) == {1, 2} by {
      forall v | v in db.versions
        ensures v == db.versions[0] || v == db.versions[1] || v == db.versions[2] || v == db.versions[3]
      {
      }
      assert db.versions[0] in db.versions && db.versions[1] in db.versions;
    }
    assert [o][..0] == [];
    assert RowsRevisions([o], db.versions) == {1, 2};
    assert [POST][..0] == [];
  }

  /** Cleaning with the default of zero days deletes the two drafts older
      than the published snapshot. */
  lemma CleanPostScenario(now: int)
    ensures Selected(PostRegistry(), PostDb(now), [POST], now, 0) == {1, 2}
  {
    var db := PostDb(now);
    PostCandidates(now);
    assert CanDelete(PostRegistry(), [POST]) by {
      assert POST in [POST];
    }
    assert db.revisions[0] in db.revisions && db.revisions[1] in db.revisions;
  }

  /** Deleting those two revisions leaves two versions of the post. */
  lemma CleanPostLeavesTwo(now: int)
    ensures |AfterDelete(PostDb(now), {1, 2}).versions| == 2
  {
    var vs := PostDb(now).versions;
    assert vs[3..][1..] == [];
    assert Keep(vs[3..], {1, 2}) == [vs[3]];
    assert vs[2..][1..] == vs[3..];
    assert Keep(vs[2..], {1, 2}) == [vs[2], vs[3]];
    assert vs[1..][1..] == vs[2..];
    assert Keep(vs[1..], {1, 2}) == Keep(vs[2..], {1, 2});
  }

  // ---------------------------------------------------------------------
  // Revisions shared between rows

  const CHILD: ModelId := "test_app.Child"
  const CHILD_KEY := ObjectKey(CHILD, 1)

  function SharedRegistry(): Registry {
    map[POST := ModelInfo("test_app", "Post", {PublicationModel, LocalizedPublicationModel}, [], None, None),
        CHILD := ModelInfo("test_app", "Child", {PublicationModel, LocalizedPublicationModel}, [], None, None)]
  }

  /** A post and its child published together in revision 1, then the post
      published again alone in revision 2. */
  function SharedDb(now: int): Db {
    Db(map[POST := [Obj(POST_KEY, Some(3))], CHILD := [Obj(CHILD_KEY, Some(2))]],
      [Version(1, POST_KEY, 1, map[]), Version(2, CHILD_KEY, 1, map[]), Version(3, POST_KEY, 2, map[])],
      [Revision(1, now - 2), Revision(2, now - 1)])
  }

  lemma SharedCandidates(now: int)
    ensures Candidates(SharedRegistry(), SharedDb(now), [POST, CHILD]) == {1}
  {
    var db := SharedDb(now);
    var p := Obj(POST_KEY, Some(3));
    var c := Obj(CHILD_KEY, Some(2));
    forall v | v in db.versions
      ensures v == db.versions[0] || v == db.versions[1] || v == db.versions[2]
    {
    }
    assert OlderRevisions(p, db.versions) == {1} by {
      assert db.versions[0] in db.versions;
    }
    assert OlderRevisions(c, db.versions) == {};
    assert [p][..0] == [] && [c][..0] == [];
    assert Rows(db, POST) == [p] && Rows(db, CHILD) == [c];
    assert RowsRevisions([p], db.versions) == {1};
    assert RowsRevisions([c], db.versions) == {};
    assert [POST, CHILD][..1] == [POST] && [POST][..0] == [];
    assert Candidates(SharedRegistry(), db, [POST]) == {1};
  }

  /** As written, cleaning the post's older draft deletes the revision it
      shares with the child's published snapshot, which unpublishes the
      child. */
  lemma SharedRevisionUnpublishes(now: int)
    ensures Selected(SharedRegistry(), SharedDb(now), [POST, CHILD], now, 0) == {1}
    ensures AfterDelete(SharedDb(now), {1}).rows[CHILD][0].publishedVersion.None?
  {
    var db := SharedDb(now);
    SharedCandidates(now);
    assert CanDelete(SharedRegistry(), [POST, CHILD]) by {
      assert POST in [POST, CHILD];
    }
    assert db.revisions[0] in db.revisions;
    assert db.versions[1] in db.versions;
  }

  /** The revisions holding the current published snapshot of some row of
      any model. */
  function PublishedRevisions(db: Db): set<Id> {
    set m, o, v | m in db.rows && o in db.rows[m] && o.publishedVersion.Some? && v in db.versions
      && v.id == o.publishedVersion.value :: v.revision
  }

  /** The selection that spares any revision holding a published snapshot. */
  function SafeSelected(r: Registry, db: Db, models: seq<ModelId>, now: int, days: int): set<Id> {
    Selected(r, db, models, now, days) - PublishedRevisions(db)
  }

  /** The safe selection deletes only what the command would, and keeps the
      published pointer of every row of every model, selected or not. */
  lemma SafeSelectionKeepsPublished(r: Registry, db: Db, models: seq<ModelId>, now: int, days: int, m: ModelId, i: nat)
    requires UniqueIds(db.versions)
    requires m in db.rows && i < |db.rows[m]|
    requires Consistent(db.rows[m][i], db.versions)
    ensures SafeSelected(r, db, models, now, days) <= Selected(r, db, models, now, days)
    ensures AfterDelete(db, SafeSelected(r, db, models, now, days)).rows[m][i] == db.rows[m][i]
  {
    var o := db.rows[m][i];
    var deleted := SafeSelected(r, db, models, now, days);
    var gone := set v | v in db.versions && v.revision in deleted :: v.id;
  }
}
