/** The `export_cms_data` management command
    (headless_cms/core/management/commands/export_cms_data.py): a depth-first
    walk over localized publication models that writes each model's rows to
    `output/<time>/app_label/ObjectName.json` after the models it refers to
    and after the through models of its many-to-many fields, as indented JSON,
    or as compact JSON that is then archived. Reading the rows, the JSON text
    and the archive itself are left to the library and the file system. */
module ExportCmsData {
  import opened Common
  import opened Schema
  import opened DataCommands

  /** `json.dumps(data.dict, indent=2)` or `data.json`. */
  datatype Format = Indented | Compact

  /** One file written: its path, the model whose rows it holds, its format. */
  datatype Output = Output(path: string, model: ModelId, format: Format)

  /** The files written, in order, for the models of a walk. */
  function Outputs(r: Registry, dataDir: string, format: Format, log: seq<ModelId>): (out: seq<Output>)
    requires forall m :: m in log ==> m in r
    ensures |out| == |log|
    decreases |log|
  {
    if log == [] then []
    else
      var m := log[|log| - 1];
      Outputs(r, dataDir, format, log[..|log| - 1]) + [Output(ModelFile(dataDir, r[m]), m, format)]
  }

  /** The i-th file written holds the i-th model of the walk, in its own
      `app_label/ObjectName.json` under the data directory. */
  lemma {:induction false} OutputsMeaning(r: Registry, dataDir: string, format: Format, log: seq<ModelId>)
    requires forall m :: m in log ==> m in r
    ensures forall i :: 0 <= i < |log| ==>
      Outputs(r, dataDir, format, log)[i] == Output(ModelFile(dataDir, r[log[i]]), log[i], format)
    decreases |log|
  {
    if log != [] {
      var init := log[..|log| - 1];
      OutputsMeaning(r, dataDir, format, init);
      forall i | 0 <= i < |init|
        ensures init[i] == log[i]
      {
      }
    }
  }

  /** A walk log as `export_model` builds it, one model at a time: each
      model once, after the models it refers to (a through model may
      precede the model that owns it) and after its through models. */
  ghost predicate ExportWalk(r: Registry, log: seq<ModelId>)
    decreases |log|
  {
    log == [] ||
      var m := log[|log| - 1];
      var init := log[..|log| - 1];
      ExportWalk(r, init) && m in r && m !in init
      && (forall t :: t in Targets(r, m) ==> t in init || m in Throughs(r, t))
      && Throughs(r, m) <= Elems(init)
  }

  /** Every model is written after the models it refers to, except a
      through model, which comes before the model that owns it. */
  ghost predicate ExportOrdered(r: Registry, log: seq<ModelId>) {
    forall i :: 0 <= i < |log| && log[i] in r ==>
      forall t :: t in Targets(r, log[i]) ==> t in Elems(log[..i]) || log[i] in Throughs(r, t)
  }

  /** Every model is written after the through models of its many-to-many
      fields. */
  ghost predicate ThroughsFirst(r: Registry, log: seq<ModelId>) {
    forall i :: 0 <= i < |log| && log[i] in r ==> Throughs(r, log[i]) <= Elems(log[..i])
  }

  /** Through models are plain tables, not localized publication models. */
  predicate PlainThroughs(r: Registry) {
    forall m, f :: m in r && f in r[m].fields && FollowedManyToMany(r, f) ==>
      !IsSubclass(r, f.through.value, LocalizedPublicationModel)
  }

  class Exporter {
    /** The models. */
    const r: Registry
    /** `exported_models`. */
    var exported: set<ModelId>
    /** The models whose file is written, in order. */
    var log: seq<ModelId>
    /** `data_output_dir` and the format `should_compress` selects. */
    var dataDir: string
    var format: Format
    /** The files written. */
    var written: seq<Output>
    /** The archive `compress_output` makes: its base name and format. */
    var archive: Option<(string, string)>
    /** Whether `clean_up` removed the uncompressed directory. */
    var dataDirRemoved: bool
    /** The models in the order the walk entered them, and the models
        `handle` starts it from. */
    ghost var entered: seq<ModelId>
    ghost var roots: set<ModelId>

    /** The visited set: every model is entered once, reached from a root,
        and its file is written at most once. */
    ghost predicate Valid()
      reads this
    {
      WellFormed(r) && exported <= r.Keys && Elems(log) <= exported && Distinct(log)
      && written == Outputs(r, dataDir, format, log)
      && Elems(entered) == exported && Discovered(r, roots, entered)
    }

    /** The registry shape under which the walk keeps dependency order. */
    ghost predicate Shaped(rank: ModelId -> nat) {
      Layered(r, rank) && PlainThroughs(r)
    }

    /** On such a registry, the log is in dependency order. */
    ghost predicate Ordered(rank: ModelId -> nat)
      reads this
    {
      Shaped(rank) ==> ExportWalk(r, log)
    }

    /** The models entered but not finished: those on the walk's stack. */
    ghost function Pending(): set<ModelId>
      reads this
    {
      exported - Elems(log)
    }

    /** `m`, entered above `pending`, lies below everything on the stack. */
    ghost predicate Ranked(rank: ModelId -> nat, m: ModelId, pending: set<ModelId>) {
      Shaped(rank) && IsSubclass(r, m, LocalizedPublicationModel)
      && forall x :: x in pending ==> rank(m) < rank(x) && IsSubclass(r, x, LocalizedPublicationModel)
    }

    constructor(r: Registry)
      requires WellFormed(r)
      ensures this.r == r && exported == {} && log == [] && written == []
      ensures archive == None && !dataDirRemoved
      ensures Valid()
    {
      this.r := r;
      exported := {};
      log := [];
      dataDir := "";
      format := Indented;
      written := [];
      archive := None;
      dataDirRemoved := false;
      entered := [];
      roots := {};
    }

    /** `export_model`. A model entered before returns at once; one that was
        not on the stack is finished on return. On a layered registry, a
        model entered from the walk's top (below everything on the stack) or
        as the through model of the model on top keeps the log in dependency
        order. */
    method ExportModel(m: ModelId, ghost rank: ModelId -> nat)
      requires Valid() && Ordered(rank) && m in r
      requires m in roots || Reached(r, exported, m)
      requires Shaped(rank) ==>
        m in exported
        || Ranked(rank, m, Pending())
        || (Throughs(r, m) == {}
            && forall t :: t in Targets(r, m) ==> t in Elems(log) || (t in Pending() && m in Throughs(r, t)))
      modifies this`exported, this`log, this`written, this`entered
      decreases r.Keys - exported, 0
      ensures Valid() && Ordered(rank) && m in exported && old(exported) <= exported
      ensures Grows(old(log), log, old(exported)) && Pending() == old(Pending())
      ensures m !in old(Pending()) ==> m in Elems(log)
      ensures m in old(exported) ==>
        exported == old(exported) && log == old(log) && written == old(written) && entered == old(entered)
    {
      if m in exported {
        GrowsRefl(log, old(exported));
        return;
      }
      ghost var pending0 := Pending();
      ghost var ranked := Ranked(rank, m, pending0);
      Enter(m);
      ExportEntered(m, rank, pending0, ranked);
    }

    /** `exported_models.add(model)`: the model is on the stack. */
    method Enter(m: ModelId)
      requires Valid() && m in r && m !in exported
      requires m in roots || Reached(r, exported, m)
      modifies this`exported, this`entered
      ensures Valid() && exported == old(exported) + {m} && m !in Elems(log)
      ensures Pending() == old(Pending()) + {m}
    {
      EnterOne(exported, log, m);
      DiscoveredAppend(r, roots, entered, m);
      ElemsAppend(entered, m);
      ghost var seen := entered + [m];
      assert Elems(seen) == exported + {m};
      exported := exported + {m};
      entered := seen;
    }

    /** The body of `export_model` once the model is entered. */
    method ExportEntered(m: ModelId, ghost rank: ModelId -> nat, ghost pending0: set<ModelId>, ghost ranked: bool)
      requires Valid() && Ordered(rank) && m in r && m in exported && m !in Elems(log)
      requires Pending() == pending0 + {m} && m !in pending0
      requires ranked ==> Ranked(rank, m, pending0)
      requires Shaped(rank) && !ranked ==>
        Throughs(r, m) == {} && forall t :: t in Targets(r, m) ==> t in Elems(log) || (t in pending0 && m in Throughs(r, t))
      modifies this`exported, this`log, this`written, this`entered
      decreases r.Keys - exported, 4
      ensures Valid() && Ordered(rank) && m in Elems(log) && old(exported) <= exported
      ensures Grows(old(log), log, old(exported) - {m}) && Pending() == pending0
    {
      if Shaped(rank) && !ranked {
        ThroughTargets(r, m, Elems(log), pending0, Elems(log));
      }
      ExportFields(m, rank, pending0, ranked);
      if Shaped(rank) && !ranked {
        ThroughTargets(r, m, Elems(old(log)), pending0, Elems(log));
      }
      ghost var logBefore := log;
      WriteOwnFile(m, rank);
      FinishOne(exported, logBefore, m, pending0);
      GrowsByOne(logBefore, m, old(exported) - {m});
      GrowsTrans(old(log), logBefore, log, old(exported) - {m}, old(exported), old(exported) - {m});
    }

    /** The loop over the fields: each followed related model is exported,
        and right after a many-to-many field's related model, its through
        model. */
    method ExportFields(m: ModelId, ghost rank: ModelId -> nat, ghost pending0: set<ModelId>, ghost ranked: bool)
      requires Valid() && Ordered(rank) && m in r && m in exported && m !in Elems(log)
      requires Pending() == pending0 + {m}
      requires ranked ==> Ranked(rank, m, pending0)
      requires Shaped(rank) && !ranked ==> Throughs(r, m) == {} && Targets(r, m) <= exported
      modifies this`exported, this`log, this`written, this`entered
      decreases r.Keys - exported, 3
      ensures Valid() && Ordered(rank) && m in exported && m !in Elems(log) && Pending() == pending0 + {m}
      ensures old(exported) <= exported && Grows(old(log), log, old(exported)) && Elems(old(log)) <= Elems(log)
      ensures ranked ==> Targets(r, m) <= Elems(log)
      ensures Shaped(rank) ==> Throughs(r, m) <= Elems(log)
    {
      var fields := r[m].fields;
      GrowsRefl(log, old(exported));
      var i := 0;
      while i < |fields|
        invariant 0 <= i <= |fields|
        invariant Valid() && Ordered(rank) && m in exported && m !in Elems(log)
        invariant Pending() == pending0 + {m}
        invariant old(exported) <= exported && Grows(old(log), log, old(exported))
        invariant ranked ==> TargetsDone(r, fields[..i], Elems(log))
        invariant Shaped(rank) ==> ThroughsDone(r, fields[..i], Elems(log))
        invariant Shaped(rank) && !ranked ==> Targets(r, m) <= exported
      {
        ghost var done0 := Elems(log);
        ExportField(m, rank, pending0, ranked, fields[i], old(log), old(exported));
        if ranked {
          TargetsDoneStep(r, fields, i, done0, Elems(log));
        }
        if Shaped(rank) {
          ThroughsDoneStep(r, fields, i, done0, Elems(log));
        }
        i := i + 1;
      }
      assert fields[..i] == fields;
      PrefixElems(old(log), log);
      if ranked {
        TargetsDoneAll(r, m, Elems(log));
      }
      if Shaped(rank) {
        ThroughsDoneAll(r, m, Elems(log));
      }
    }

    /** One field of the loop. */
    method ExportField(m: ModelId, ghost rank: ModelId -> nat, ghost pending0: set<ModelId>, ghost ranked: bool, f: Field,
                       ghost start: seq<ModelId>, ghost avoid: set<ModelId>)
      requires Grows(start, log, avoid) && avoid <= exported
      requires Valid() && Ordered(rank) && m in r && m in exported && m !in Elems(log)
      requires Pending() == pending0 + {m} && f in r[m].fields
      requires ranked ==> Ranked(rank, m, pending0)
      requires Shaped(rank) && !ranked ==> Throughs(r, m) == {} && Targets(r, m) <= exported
      modifies this`exported, this`log, this`written, this`entered
      decreases r.Keys - exported, 2
      ensures Valid() && Ordered(rank) && m in exported && m !in Elems(log) && Pending() == pending0 + {m}
      ensures old(exported) <= exported && Grows(start, log, avoid) && Elems(old(log)) <= Elems(log)
      ensures ranked && Followed(r, f) ==> f.related.value in Elems(log)
      ensures Shaped(rank) && FollowedManyToMany(r, f) ==> f.through.value in Elems(log)
    {
      if Followed(r, f) {
        var t := f.related.value;
        assert t in Targets(r, m);
        ExportStep(m, rank, pending0, ranked, t, start, avoid);
        if f.kind == ManyToMany {
          assert FollowedManyToMany(r, f);
          assert f.through.value in Throughs(r, m);
          ghost var logBefore := log;
          ExportThrough(m, rank, pending0, ranked, f, start, avoid);
          assert Elems(old(log)) <= Elems(logBefore);
        }
      }
    }

    /** One nested call on a related model, with what it keeps of the
        caller's state. */
    method ExportStep(m: ModelId, ghost rank: ModelId -> nat, ghost pending0: set<ModelId>, ghost ranked: bool, t: ModelId,
                      ghost start: seq<ModelId>, ghost avoid: set<ModelId>)
      requires Grows(start, log, avoid) && avoid <= exported
      requires Valid() && Ordered(rank) && m in r && m in exported && m !in Elems(log)
      requires Pending() == pending0 + {m} && t in Targets(r, m)
      requires ranked ==> Ranked(rank, m, pending0)
      requires Shaped(rank) && !ranked ==> t in exported
      modifies this`exported, this`log, this`written, this`entered
      decreases r.Keys - exported, 1
      ensures Valid() && Ordered(rank) && m in exported && m !in Elems(log) && Pending() == pending0 + {m}
      ensures old(exported) <= exported && Grows(start, log, avoid) && Elems(old(log)) <= Elems(log)
      ensures ranked ==> t in Elems(log)
    {
      assert m in exported && t in Targets(r, m);
      ExportModel(t, rank);
      GrowsTrans(start, old(log), log, avoid, avoid, old(exported));
      PrefixElems(old(log), log);
    }

    /** A many-to-many field's through model, exported while its owner is
        on top of the stack. */
    method ExportThrough(m: ModelId, ghost rank: ModelId -> nat, ghost pending0: set<ModelId>, ghost ranked: bool, f: Field,
                         ghost start: seq<ModelId>, ghost avoid: set<ModelId>)
      requires Grows(start, log, avoid) && avoid <= exported
      requires Valid() && Ordered(rank) && m in r && m in exported && m !in Elems(log)
      requires Pending() == pending0 + {m} && f in r[m].fields && FollowedManyToMany(r, f)
      requires ranked ==> Ranked(rank, m, pending0) && f.related.value in Elems(log)
      requires Shaped(rank) ==> ranked
      modifies this`exported, this`log, this`written, this`entered
      decreases r.Keys - exported, 1
      ensures Valid() && Ordered(rank) && m in exported && m !in Elems(log) && Pending() == pending0 + {m}
      ensures old(exported) <= exported && Grows(start, log, avoid) && Elems(old(log)) <= Elems(log)
      ensures Shaped(rank) ==> f.through.value in Elems(log)
    {
      var p := f.through.value;
      assert m in exported && p in Throughs(r, m);
      if ranked {
        assert !IsSubclass(r, p, LocalizedPublicationModel);
        assert p !in Pending();
      }
      ExportModel(p, rank);
      GrowsTrans(start, old(log), log, avoid, avoid, old(exported));
      PrefixElems(old(log), log);
    }

    /** The model's own file, once what it refers to is written. */
    method WriteOwnFile(m: ModelId, ghost rank: ModelId -> nat)
      requires Valid() && Ordered(rank) && m in r && m in exported && m !in Elems(log)
      requires Shaped(rank) ==>
        (forall t :: t in Targets(r, m) ==> t in Elems(log) || m in Throughs(r, t))
        && Throughs(r, m) <= Elems(log)
      modifies this`log, this`written
      ensures Valid() && Ordered(rank)
      ensures log == old(log) + [m]
      ensures written == old(written) + [Output(ModelFile(dataDir, r[m]), m, format)]
    {
      if Shaped(rank) {
        ExportWalkAppend(r, log, m);
      }
      ElemsAppend(log, m);
      DistinctAppend(log, m);
      OutputsAppend(r, dataDir, format, log, m);
      written := written + [Output(ModelFile(dataDir, r[m]), m, format)];
      log := log + [m];
    }

    /** `handle`, with `compress_output` and `clean_up`: every selected
        localized publication model, and what it reaches, is exported under
        `output/<time>`, each model once; models that are not localized
        publication models are skipped. With compression the files are
        compact, the directory is archived as `output/<time>` and then
        removed. */
    method Handle(models: seq<ModelId>, output: string, currentTime: string, compress: bool,
                  compressFormat: string, ghost rank: ModelId -> nat)
      requires Valid() && exported == {} && log == []
      requires forall m :: m in models ==> m in r
      modifies this
      ensures dataDir == output + "/" + currentTime
      ensures format == (if compress then Compact else Indented)
      ensures roots == Selected(r, models)
      ensures Valid() && Elems(log) == exported && NoDup(log) && roots <= Elems(log)
      ensures Elems(entered) == Elems(log) && Discovered(r, roots, entered)
      ensures Shaped(rank) ==> ExportWalk(r, log)
      ensures archive == (if compress then Some((output + "/" + currentTime, compressFormat)) else old(archive))
      ensures dataDirRemoved == (compress || old(dataDirRemoved))
    {
      dataDir := output + "/" + currentTime;
      format := if compress then Compact else Indented;
      written := [];
      ExportAll(models, rank);
      DistinctNoDup(log);
      if compress {
        archive := Some((output + "/" + currentTime, compressFormat));
        dataDirRemoved := true;
      }
    }

    /** The loop of `handle` over the selected models. */
    /** One model of `handle`'s loop, exported with nothing on the stack. */
    method ExportRoot(m: ModelId, ghost rank: ModelId -> nat)
      requires Valid() && Ordered(rank) && Pending() == {} && m in roots && m in r
      requires IsSubclass(r, m, LocalizedPublicationModel)
      modifies this`exported, this`log, this`written, this`entered
      ensures Valid() && Ordered(rank) && Pending() == {}
      ensures m in Elems(log) && Elems(old(log)) <= Elems(log)
    {
      ExportModel(m, rank);
      PrefixElems(old(log), log);
    }

    /** `handle`'s loop: each selected model in turn, with nothing on the
        stack. */
    method ExportRoots(models: seq<ModelId>, ghost rank: ModelId -> nat)
      requires Valid() && Ordered(rank) && Pending() == {} && roots == Selected(r, models)
      requires forall m :: m in models ==> m in r
      modifies this`exported, this`log, this`written, this`entered
      ensures Valid() && Ordered(rank) && Pending() == {} && roots <= Elems(log)
    {
      var i := 0;
      while i < |models|
        invariant 0 <= i <= |models|
        invariant Valid() && Ordered(rank) && Pending() == {}
        invariant forall m :: m in models[..i] && IsSubclass(r, m, LocalizedPublicationModel) ==> m in Elems(log)
      {
        var m := models[i];
        assert models[..i + 1] == models[..i] + [m];
        if IsSubclass(r, m, LocalizedPublicationModel) {
          assert m in roots;
          ExportRoot(m, rank);
        }
        i := i + 1;
      }
      assert models[..i] == models;
    }

    method ExportAll(models: seq<ModelId>, ghost rank: ModelId -> nat)
      requires Valid() && exported == {} && log == []
      requires forall m :: m in models ==> m in r
      modifies this`exported, this`log, this`written, this`entered, this`roots
      ensures roots == Selected(r, models)
      ensures Valid() && Ordered(rank) && Elems(log) == exported && roots <= Elems(log)
    {
      roots := Selected(r, models);
      entered := [];
      ExportRoots(models, rank);
      NoneLeft(exported, log);
    }
  }

  lemma ExportWalkAppend(r: Registry, log: seq<ModelId>, m: ModelId)
    requires ExportWalk(r, log) && m in r && m !in log
    requires forall t :: t in Targets(r, m) ==> t in Elems(log) || m in Throughs(r, t)
    requires Throughs(r, m) <= Elems(log)
    ensures ExportWalk(r, log + [m])
  {
    assert (log + [m])[..|log|] == log;
  }

  /** What a walk log promises, position by position: no model twice,
      every model after what it refers to (a through model may precede its
      owner) and after its through models. */
  lemma {:induction false} ExportWalkMeaning(r: Registry, log: seq<ModelId>)
    requires ExportWalk(r, log)
    ensures forall m :: m in log ==> m in r
    ensures NoDup(log) && ExportOrdered(r, log) && ThroughsFirst(r, log)
    decreases |log|
  {
    if log != [] {
      var m := log[|log| - 1];
      var init := log[..|log| - 1];
      ExportWalkMeaning(r, init);
      assert log == init + [m];
      forall i | 0 <= i < |log|
        ensures log[..i] == if i < |init| then init[..i] else init
      {
      }
    }
  }

  /** A through model's targets are written, or on the stack with the
      through model as one of theirs. */
  lemma ThroughTargets(r: Registry, m: ModelId, done: set<ModelId>, pending: set<ModelId>, doneNow: set<ModelId>)
    requires m in r && done <= doneNow
    requires forall t :: t in Targets(r, m) ==> t in done || (t in pending && m in Throughs(r, t))
    ensures Targets(r, m) <= done + pending
    ensures forall t :: t in Targets(r, m) ==> t in doneNow || m in Throughs(r, t)
  {
  }

  lemma OutputsAppend(r: Registry, dataDir: string, format: Format, log: seq<ModelId>, m: ModelId)
    requires (forall x :: x in log ==> x in r) && m in r
    ensures forall x :: x in log + [m] ==> x in r
    ensures Outputs(r, dataDir, format, log + [m])
      == Outputs(r, dataDir, format, log) + [Output(ModelFile(dataDir, r[m]), m, format)]
  {
    assert (log + [m])[..|log|] == log;
  }

  /** Each model is exported at most once, and, when no two models share a
      label pair and no app label holds a separator, no file is written
      twice. */
  lemma ExportedOnce(r: Registry, dataDir: string, format: Format, log: seq<ModelId>)
    requires (forall m :: m in log ==> m in r) && NoDup(log)
    requires forall m :: m in r ==> '/' !in r[m].appLabel
    requires forall a, b :: a in r && b in r && a != b ==>
      (r[a].appLabel, r[a].objectName) != (r[b].appLabel, r[b].objectName)
    ensures forall i, j :: 0 <= i < j < |log| ==>
      Outputs(r, dataDir, format, log)[i].path != Outputs(r, dataDir, format, log)[j].path
  {
    var out := Outputs(r, dataDir, format, log);
    OutputsMeaning(r, dataDir, format, log);
    forall i, j | 0 <= i < j < |log|
      ensures out[i].path != out[j].path
    {
      if out[i].path == out[j].path {
        ModelFileInjective(dataDir, r[log[i]], r[log[j]]);
      }
    }
  }

  /** Every file lies in the timestamped directory, under its app label. */
  lemma OutputsUnderDataDir(r: Registry, output: string, currentTime: string, format: Format, log: seq<ModelId>)
    requires forall m :: m in log ==> m in r
    ensures forall i :: 0 <= i < |log| ==>
      StartsWith(Outputs(r, output + "/" + currentTime, format, log)[i].path,
                 output + "/" + currentTime + "/" + r[log[i]].appLabel + "/")
  {
    OutputsMeaning(r, output + "/" + currentTime, format, log);
  }
}
