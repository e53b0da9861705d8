/** The `import_cms_data` management command
    (headless_cms/core/management/commands/import_cms_data.py): a depth-first
    walk over localized publication models that loads each model's
    `app_label/ObjectName.json` after the models it refers to, and the
    through models of its many-to-many fields after it, all in one
    transaction. The files and the row import are parameters. */
module ImportCmsData {
  import opened Common
  import opened Schema
  import opened DataCommands

  /** The files loaded, in order, for the models of a walk. */
  function LoadedFiles(r: Registry, dir: string, files: set<string>, log: seq<ModelId>): seq<string>
    requires forall m :: m in log ==> m in r
    decreases |log|
  {
    if log == [] then []
    else
      var m := log[|log| - 1];
      var path := ModelFile(dir, r[m]);
      LoadedFiles(r, dir, files, log[..|log| - 1]) + (if path in files then [path] else [])
  }

  /** A walk log as `import_model` builds it, one model at a time: each
      model once, after the models it refers to. */
  ghost predicate ImportWalk(r: Registry, log: seq<ModelId>)
    decreases |log|
  {
    log == [] ||
      var m := log[|log| - 1];
      var init := log[..|log| - 1];
      ImportWalk(r, init) && m in r && m !in init && Targets(r, m) <= Elems(init)
  }

  /** A walk in which every model comes after the models it refers to. */
  ghost predicate ImportOrdered(r: Registry, log: seq<ModelId>) {
    forall i :: 0 <= i < |log| && log[i] in r ==> Targets(r, log[i]) <= Elems(log[..i])
  }

  class Importer {
    /** The models and the input directory with the files it holds. */
    const r: Registry
    const dir: string
    const files: set<string>
    /** Whether `import_data(..., raise_errors=True)` accepts a file. */
    const accepts: string -> bool
    /** `imported_models`. */
    var imported: set<ModelId>
    /** The models whose file step has run, in order. */
    var log: seq<ModelId>
    /** The files loaded in the open transaction, in order. */
    var loaded: seq<string>
    /** The files whose rows are committed. */
    var committed: seq<string>
    /** The models in the order the walk entered them, and the models
        `handle` starts it from. */
    ghost var entered: seq<ModelId>
    ghost var roots: set<ModelId>

    /** The visited set: every model is entered once, reached from a root,
        and its file step runs at most once. */
    ghost predicate Valid()
      reads this
    {
      WellFormed(r) && imported <= r.Keys && Elems(log) <= imported && Distinct(log)
      && loaded == LoadedFiles(r, dir, files, log)
      && Elems(entered) == imported && Discovered(r, roots, entered)
      && forall k :: 0 <= k < |log| ==> !Rejects(log[k])
    }

    /** The model's file is in the input and the row import rejects it:
        the one way `import_model` raises. */
    predicate Rejects(x: ModelId) {
      x in r && ModelFile(dir, r[x]) in files && !accepts(ModelFile(dir, r[x]))
    }

    /** On a registry without cycles, the log is in dependency order. */
    ghost predicate Ordered(rank: ModelId -> nat)
      reads this
    {
      Layered(r, rank) ==> ImportWalk(r, log)
    }

    /** The models entered but not finished: those on the walk's stack. */
    ghost function Pending(): set<ModelId>
      reads this
    {
      imported - Elems(log)
    }

    constructor(r: Registry, dir: string, files: set<string>, accepts: string -> bool, committed: seq<string>)
      requires WellFormed(r)
      ensures this.r == r && this.dir == dir && this.files == files && this.accepts == accepts
      ensures imported == {} && log == [] && loaded == [] && this.committed == committed
      ensures Valid()
    {
      this.r := r;
      this.dir := dir;
      this.files := files;
      this.accepts := accepts;
      imported := {};
      log := [];
      loaded := [];
      this.committed := committed;
      entered := [];
      roots := {};
    }

    /** `import_model`: the followed related models first, then the model's
        own file if it exists, then its through models. `false` stands for
        the exception a rejected file raises. A model entered before returns
        at once; one that was not on the stack is finished on return. On a
        layered registry, a model entered from the top of the walk or as a
        through model keeps the log in dependency order. */
    method ImportModel(m: ModelId, ghost rank: ModelId -> nat) returns (ok: bool)
      requires Valid() && Ordered(rank) && m in r
      requires m in roots || Reached(r, imported, m)
      requires Layered(r, rank) ==>
        m in imported
        || (forall x :: x in Pending() ==> rank(m) < rank(x))
        || (Throughs(r, m) == {} && Targets(r, m) <= Elems(log))
      modifies this`imported, this`log, this`loaded, this`entered
      decreases r.Keys - imported, 0
      ensures ok ==> Valid() && Ordered(rank) && m in imported && old(imported) <= imported
      ensures ok ==> Grows(old(log), log, old(imported)) && Pending() == old(Pending())
      ensures ok && m !in old(Pending()) ==> m in Elems(log)
      ensures !ok ==> exists x :: x in imported && Rejects(x)
      ensures m in old(imported) ==>
        ok && imported == old(imported) && log == old(log) && loaded == old(loaded) && entered == old(entered)
    {
      if m in imported {
        return true;
      }
      ghost var pending0 := Pending();
      ghost var ranked := Layered(r, rank) && forall x :: x in pending0 ==> rank(m) < rank(x);
      Enter(m);
      ok := ImportEntered(m, rank, pending0, ranked);
    }

    /** The body of `import_model` once the model is entered. */
    method ImportEntered(m: ModelId, ghost rank: ModelId -> nat, ghost pending0: set<ModelId>, ghost ranked: bool)
      returns (ok: bool)
      requires Valid() && Ordered(rank) && m in r && m in imported && m !in Elems(log)
      requires Pending() == pending0 + {m} && m !in pending0
      requires ranked ==> Layered(r, rank) && forall x :: x in pending0 ==> rank(m) < rank(x)
      requires Layered(r, rank) && !ranked ==> Throughs(r, m) == {} && Targets(r, m) <= Elems(log)
      modifies this`imported, this`log, this`loaded, this`entered
      decreases r.Keys - imported, 3
      ensures ok ==> Valid() && Ordered(rank) && m in Elems(log) && old(imported) <= imported
      ensures ok ==> Grows(old(log), log, old(imported) - {m}) && Pending() == pending0
      ensures !ok ==> exists x :: x in imported && Rejects(x)
    {
      var throughModels;
      ok, throughModels := ImportTargets(m, rank, pending0, ranked);
      if !ok {
        return false;
      }
      ghost var logBefore := log;
      ok := LoadOwnFile(m, rank);
      if !ok {
        return false;
      }
      FinishOne(imported, logBefore, m, pending0);
      GrowsByOne(logBefore, m, old(imported) - {m});
      GrowsTrans(old(log), logBefore, log, old(imported) - {m}, old(imported), old(imported) - {m});
      ThroughListShape(r, rank, m);
      logBefore := log;
      ghost var importedBefore := imported;
      ok := ImportThroughs(m, rank, throughModels, pending0);
      if ok {
        GrowsTrans(old(log), logBefore, log, old(imported) - {m}, old(imported) - {m}, importedBefore);
      }
    }

    /** `imported_models.add(model)`: the model is on the stack. */
    method Enter(m: ModelId)
      requires Valid() && m in r && m !in imported
      requires m in roots || Reached(r, imported, m)
      modifies this`imported, this`entered
      ensures Valid() && imported == old(imported) + {m} && m !in Elems(log)
      ensures Pending() == old(Pending()) + {m}
    {
      EnterOne(imported, log, m);
      DiscoveredAppend(r, roots, entered, m);
      ElemsAppend(entered, m);
      ghost var seen := entered + [m];
      assert Elems(seen) == imported + {m};
      imported := imported + {m};
      entered := seen;
    }

    /** The model's own file: loaded when it exists, and the model is done.
        A file that exists and is rejected raises. */
    method LoadOwnFile(m: ModelId, ghost rank: ModelId -> nat) returns (ok: bool)
      requires Valid() && Ordered(rank) && m in r && m in imported && m !in Elems(log)
      requires Layered(r, rank) ==> Targets(r, m) <= Elems(log)
      modifies this`log, this`loaded
      ensures ok <==> !Rejects(m)
      ensures ok ==> Valid() && Ordered(rank) && log == old(log) + [m]
    {
      var path := ModelFile(dir, r[m]);
      if path in files && !accepts(path) {
        return false;
      }
      LoadedFilesAppend(r, dir, files, log, m);
      ElemsAppend(log, m);
      DistinctAppend(log, m);
      if Layered(r, rank) {
        ImportWalkAppend(r, log, m);
      }
      if path in files {
        loaded := loaded + [path];
      }
      log := log + [m];
      ok := true;
    }

    /** The loop over the fields: each followed related model is imported,
        and the through models are collected. */
    method ImportTargets(m: ModelId, ghost rank: ModelId -> nat, ghost pending0: set<ModelId>, ghost ranked: bool)
      returns (ok: bool, throughModels: seq<ModelId>)
      requires Valid() && Ordered(rank) && m in r && m in imported && m !in Elems(log)
      requires Pending() == pending0 + {m}
      requires ranked ==> Layered(r, rank) && forall x :: x in pending0 ==> rank(m) < rank(x)
      requires Layered(r, rank) && !ranked ==> Targets(r, m) <= Elems(log)
      modifies this`imported, this`log, this`loaded, this`entered
      decreases r.Keys - imported, 2
      ensures ok ==> Valid() && Ordered(rank) && m in imported && m !in Elems(log) && Pending() == pending0 + {m}
      ensures ok ==> old(imported) <= imported && Grows(old(log), log, old(imported))
      ensures ok ==> throughModels == ThroughList(r, r[m].fields)
      ensures ok && Layered(r, rank) ==> Targets(r, m) <= Elems(log)
      ensures !ok ==> exists x :: x in imported && Rejects(x)
    {
      var fields := r[m].fields;
      throughModels := [];
      GrowsRefl(log, old(imported));
      var i := 0;
      while i < |fields|
        invariant 0 <= i <= |fields|
        invariant Valid() && Ordered(rank) && m in imported && m !in Elems(log)
        invariant Pending() == pending0 + {m}
        invariant old(imported) <= imported && Grows(old(log), log, old(imported))
        invariant Layered(r, rank) ==> TargetsDone(r, fields[..i], Elems(log))
        invariant throughModels == ThroughList(r, fields[..i])
      {
        var f := fields[i];
        assert fields[..i + 1] == fields[..i] + [f];
        ghost var done0 := Elems(log);
        if Followed(r, f) {
          ok := ImportRelated(m, rank, pending0, ranked, f, old(log), old(imported));
          if !ok {
            return;
          }
          if f.kind == ManyToMany {
            throughModels := throughModels + [f.through.value];
          }
        }
        if Layered(r, rank) {
          TargetsDoneStep(r, fields, i, done0, Elems(log));
        }
        i := i + 1;
      }
      assert fields[..i] == fields;
      if Layered(r, rank) {
        TargetsDoneAll(r, m, Elems(log));
      }
      ok := true;
    }

    /** One followed relation of the fields loop. */
    method ImportRelated(m: ModelId, ghost rank: ModelId -> nat, ghost pending0: set<ModelId>, ghost ranked: bool, f: Field,
                         ghost start: seq<ModelId>, ghost avoid: set<ModelId>)
      returns (ok: bool)
      requires Grows(start, log, avoid) && avoid <= imported
      requires Valid() && Ordered(rank) && m in r && m in imported && m !in Elems(log)
      requires Pending() == pending0 + {m} && f in r[m].fields && Followed(r, f)
      requires ranked ==> Layered(r, rank) && forall x :: x in pending0 ==> rank(m) < rank(x)
      requires Layered(r, rank) && !ranked ==> Targets(r, m) <= Elems(log)
      modifies this`imported, this`log, this`loaded, this`entered
      decreases r.Keys - imported, 1
      ensures ok ==> Valid() && Ordered(rank) && m in imported && m !in Elems(log) && Pending() == pending0 + {m}
      ensures ok ==> old(imported) <= imported && Grows(start, log, avoid) && Elems(old(log)) <= Elems(log)
      ensures ok ==> f.related.value in imported
      ensures ok && Layered(r, rank) ==> f.related.value in Elems(log)
      ensures !ok ==> exists x :: x in imported && Rejects(x)
    {
      var t := f.related.value;
      assert m in imported && t in Targets(r, m);
      ok := ImportModel(t, rank);
      if ok {
        GrowsTrans(start, old(log), log, avoid, avoid, old(imported));
        PrefixElems(old(log), log);
      }
    }

    /** The loop over the collected through models, once the model's own
        file is done. */
    method ImportThroughs(m: ModelId, ghost rank: ModelId -> nat, throughModels: seq<ModelId>, ghost pending0: set<ModelId>)
      returns (ok: bool)
      requires Valid() && Ordered(rank) && m in r && m in Elems(log) && Pending() == pending0
      requires Layered(r, rank) ==> Targets(r, m) <= Elems(log)
      requires forall p :: p in throughModels ==> p in r && p in Throughs(r, m)
      requires Layered(r, rank) ==>
        forall p :: p in throughModels ==> Throughs(r, p) == {} && Targets(r, p) <= {m} + Targets(r, m)
      modifies this`imported, this`log, this`loaded, this`entered
      decreases r.Keys - imported, 2
      ensures ok ==> Valid() && Ordered(rank) && Pending() == pending0 && old(imported) <= imported
      ensures ok ==> Grows(old(log), log, old(imported))
      ensures ok ==> Elems(throughModels) <= imported
      ensures !ok ==> exists x :: x in imported && Rejects(x)
    {
      var j := 0;
      while j < |throughModels|
        invariant 0 <= j <= |throughModels|
        invariant Valid() && Ordered(rank) && m in Elems(log) && Pending() == pending0
        invariant old(imported) <= imported
        invariant Grows(old(log), log, old(imported))
        invariant Layered(r, rank) ==> Targets(r, m) <= Elems(log)
        invariant forall k :: 0 <= k < j ==> throughModels[k] in imported
      {
        var p := throughModels[j];
        ok := ImportThrough(m, rank, p, pending0, old(log), old(imported));
        if !ok {
          return;
        }
        j := j + 1;
      }
      ok := true;
    }

    /** One through model of that loop. */
    method ImportThrough(m: ModelId, ghost rank: ModelId -> nat, p: ModelId, ghost pending0: set<ModelId>,
                         ghost start: seq<ModelId>, ghost avoid: set<ModelId>)
      returns (ok: bool)
      requires Grows(start, log, avoid) && avoid <= imported
      requires Valid() && Ordered(rank) && m in r && m in Elems(log) && Pending() == pending0
      requires Layered(r, rank) ==> Targets(r, m) <= Elems(log)
      requires p in r && p in Throughs(r, m)
      requires Layered(r, rank) ==> Throughs(r, p) == {} && Targets(r, p) <= {m} + Targets(r, m)
      modifies this`imported, this`log, this`loaded, this`entered
      decreases r.Keys - imported, 1
      ensures ok ==> Valid() && Ordered(rank) && Pending() == pending0 && old(imported) <= imported
      ensures ok ==> Grows(start, log, avoid) && Elems(old(log)) <= Elems(log) && p in imported
      ensures !ok ==> exists x :: x in imported && Rejects(x)
    {
      assert m in imported && p in Throughs(r, m);
      ok := ImportModel(p, rank);
      if ok {
        GrowsTrans(start, old(log), log, avoid, avoid, old(imported));
        PrefixElems(old(log), log);
      }
    }

    /** `handle`: every selected localized publication model, and what it
        reaches, inside one transaction: the loaded files are committed
        together, or none is. Models that are not localized publication
        models are skipped; each model is handled once. */
    method Handle(models: seq<ModelId>, ghost rank: ModelId -> nat) returns (res: Result<()>)
      requires Valid() && imported == {} && log == []
      requires forall m :: m in models ==> m in r
      modifies this
      ensures roots == Selected(r, models)
      ensures res.Err? ==> committed == old(committed)
      ensures res.Ok? ==> Valid() && Elems(log) == imported && NoDup(log)
      ensures res.Ok? ==> committed == old(committed) + LoadedFiles(r, dir, files, log)
      ensures res.Ok? ==> roots <= Elems(log)
      ensures res.Ok? ==> Elems(entered) == Elems(log) && Discovered(r, roots, entered)
      ensures res.Ok? && Layered(r, rank) ==> ImportWalk(r, log)
      ensures res.Err? <==> exists x :: x in imported && Rejects(x)
      ensures (forall f :: f in files ==> accepts(f)) ==> res.Ok?
    {
      var ok := ImportAll(models, rank);
      if !ok {
        return Err("import error");
      }
      DistinctNoDup(log);
      committed := committed + loaded;
      res := Ok(());
    }

    /** The loop of `handle` over the selected models. */
    /** One model of `handle`'s loop, imported with nothing on the stack. */
    method ImportRoot(m: ModelId, ghost rank: ModelId -> nat) returns (ok: bool)
      requires Valid() && Ordered(rank) && Pending() == {} && m in roots && m in r
      requires IsSubclass(r, m, LocalizedPublicationModel)
      modifies this`imported, this`log, this`loaded, this`entered
      ensures ok ==> Valid() && Ordered(rank) && Pending() == {}
      ensures ok ==> m in Elems(log) && Elems(old(log)) <= Elems(log)
      ensures !ok ==> exists x :: x in imported && Rejects(x)
    {
      ok := ImportModel(m, rank);
      if ok {
        PrefixElems(old(log), log);
      }
    }

    /** `handle`'s loop: each selected model in turn, with nothing on the
        stack, until one fails. */
    method ImportRoots(models: seq<ModelId>, ghost rank: ModelId -> nat) returns (ok: bool)
      requires Valid() && Ordered(rank) && Pending() == {} && roots == Selected(r, models)
      requires forall m :: m in models ==> m in r
      modifies this`imported, this`log, this`loaded, this`entered
      ensures ok ==> Valid() && Ordered(rank) && Pending() == {} && roots <= Elems(log)
      ensures !ok ==> exists x :: x in imported && Rejects(x)
    {
      var i := 0;
      while i < |models|
        invariant 0 <= i <= |models|
        invariant Valid() && Ordered(rank) && Pending() == {}
        invariant forall m :: m in models[..i] && IsSubclass(r, m, LocalizedPublicationModel) ==> m in Elems(log)
      {
        var m := models[i];
        assert models[..i + 1] == models[..i] + [m];
        if IsSubclass(r, m, LocalizedPublicationModel) {
          assert m in roots;
          ok := ImportRoot(m, rank);
          if !ok {
            return;
          }
        }
        i := i + 1;
      }
      assert models[..i] == models;
      ok := true;
    }

    method ImportAll(models: seq<ModelId>, ghost rank: ModelId -> nat) returns (ok: bool)
      requires Valid() && imported == {} && log == []
      requires forall m :: m in models ==> m in r
      modifies this`imported, this`log, this`loaded, this`entered, this`roots
      ensures roots == Selected(r, models)
      ensures ok ==> Valid() && Ordered(rank) && Elems(log) == imported && roots <= Elems(log)
      ensures !ok ==> exists x :: x in imported && Rejects(x)
    {
      roots := Selected(r, models);
      entered := [];
      ok := ImportRoots(models, rank);
      if ok {
        NoneLeft(imported, log);
      }
    }
  }

  /** What a walk log promises, position by position: no model twice, and
      every model after the models it refers to. */
  lemma {:induction false} ImportWalkMeaning(r: Registry, log: seq<ModelId>)
    requires ImportWalk(r, log)
    ensures forall m :: m in log ==> m in r
    ensures NoDup(log) && ImportOrdered(r, log)
    decreases |log|
  {
    if log != [] {
      var m := log[|log| - 1];
      var init := log[..|log| - 1];
      ImportWalkMeaning(r, init);
      assert log == init + [m];
      forall i | 0 <= i < |log|
        ensures log[..i] == if i < |init| then init[..i] else init
      {
      }
    }
  }

  lemma ImportWalkAppend(r: Registry, log: seq<ModelId>, m: ModelId)
    requires ImportWalk(r, log) && m in r && m !in log && Targets(r, m) <= Elems(log)
    ensures ImportWalk(r, log + [m])
  {
    assert (log + [m])[..|log|] == log;
  }

  lemma LoadedFilesAppend(r: Registry, dir: string, files: set<string>, log: seq<ModelId>, m: ModelId)
    requires (forall x :: x in log ==> x in r) && m in r
    ensures forall x :: x in log + [m] ==> x in r
    ensures LoadedFiles(r, dir, files, log + [m])
      == LoadedFiles(r, dir, files, log) + (if ModelFile(dir, r[m]) in files then [ModelFile(dir, r[m])] else [])
  {
    assert (log + [m])[..|log|] == log;
  }

  /** Every through model the walk collects is one of the model's, and on a
      layered registry it links only its two sides. */
  lemma ThroughListShape(r: Registry, rank: ModelId -> nat, m: ModelId)
    requires WellFormed(r) && m in r
    ensures forall p :: p in ThroughList(r, r[m].fields) ==> p in r && p in Throughs(r, m)
    ensures Layered(r, rank) ==> forall p :: p in ThroughList(r, r[m].fields) ==>
      Throughs(r, p) == {} && Targets(r, p) <= {m} + Targets(r, m)
  {
    ThroughListMembers(r, r[m].fields);
    forall p | p in ThroughList(r, r[m].fields)
      ensures p in r && p in Throughs(r, m)
      ensures Layered(r, rank) ==> Throughs(r, p) == {} && Targets(r, p) <= {m} + Targets(r, m)
    {
      var f :| f in r[m].fields && FollowedManyToMany(r, f) && f.through.value == p;
      assert f.related.value in Targets(r, m);
    }
  }

  // ---------------------------------------------------------------------
  // `check_input_path`

  /** `url.rsplit("/", 1)[-1]`: what follows the last `/`. */
  function LastSegment(url: string): (s: string)
    ensures '/' !in s
    ensures exists k :: 0 <= k <= |url| && url[k..] == s && (k == 0 || url[k - 1] == '/')
    decreases |url|
  {
    if url == [] then
      assert url[0..] == [];
      []
    else if url[|url| - 1] == '/' then
      assert url[|url|..] == [];
      []
    else
      var init := LastSegment(url[..|url| - 1]);
      var k :| 0 <= k <= |url| - 1 && url[..|url| - 1][k..] == init && (k == 0 || url[..|url| - 1][k - 1] == '/');
      assert url[k..] == init + [url[|url| - 1]];
      init + [url[|url| - 1]]
  }

  const TEMP_DOWNLOAD_DIR := "temp_import"

  /** `check_input_path`: an `https://` input is downloaded into the
      temporary directory under the name its `Content-Disposition` header
      gives (its parameters, when the header is set) or else the last URL
      segment; a name without a `.` raises `ValueError`, and a header without
      a `filename` parameter raises `KeyError`. Any other input is a local
      path and is kept. */
  function CheckInputPath(input: string, disposition: Option<map<string, string>>): (r: Result<string>)
    ensures !StartsWith(input, "https://") ==> r == Ok(input)
    ensures StartsWith(input, "https://") && r.Ok? ==>
      exists name :: r.value == TEMP_DOWNLOAD_DIR + "/" + name && '.' in name
        && (if disposition.Some? then "filename" in disposition.value && disposition.value["filename"] == name
            else name == LastSegment(input))
    ensures StartsWith(input, "https://") && disposition.None? && r.Err? ==> '.' !in LastSegment(input)
    ensures StartsWith(input, "https://") ==>
      (r.Ok? <==> if disposition.Some? then "filename" in disposition.value && '.' in disposition.value["filename"]
                  else '.' in LastSegment(input))
    ensures r == Err("KeyError") <==> StartsWith(input, "https://") && disposition.Some? && "filename" !in disposition.value
    ensures r.Err? ==> r == Err("KeyError") || r == Err("ValueError")
  {
    if !StartsWith(input, "https://") then Ok(input)
    else if disposition.Some? && "filename" !in disposition.value then Err("KeyError")
    else
      var name := if disposition.Some? then disposition.value["filename"] else LastSegment(input);
      if '.' !in name then Err("ValueError")
      else Ok(TEMP_DOWNLOAD_DIR + "/" + name)
  }

  /** A header's file name is used as is, and a URL ending in `/` without
      a header is refused. */
  lemma DownloadNames()
    ensures CheckInputPath("https://example.com/data/", Some(map["filename" := "export.zip"])) == Ok("temp_import/export.zip")
    ensures CheckInputPath("https://example.com/data/", None) == Err("ValueError")
  {
    assert StartsWith("https://example.com/data/", "https://");
    assert LastSegment("https://example.com/data/") == [];
    assert "export.zip"[6] == '.';
    assert TEMP_DOWNLOAD_DIR + "/" + "export.zip" == "temp_import/export.zip";
  }
}
