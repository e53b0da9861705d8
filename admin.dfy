/** The CMS admin (headless_cms/admin.py): the publish and translate buttons of
    the change form, the status column of inlines, the bulk actions, reverting
    to an older revision, and the automatic generation of admin classes. */
module Admin {
  import opened Common
  import opened Schema
  import opened Publication

  const FORCE_TRANSLATE: set<string> := {"_force_translate", "_recursively_force_translate"}
  const RECURSIVELY_TRANSLATE: set<string> := {"_recursively_translate", "_recursively_force_translate"}
  const TRANSLATE_ACTIONS: set<string> := {"_translate"} + FORCE_TRANSLATE + RECURSIVELY_TRANSLATE
  const PUBLISH_ACTIONS: set<string> := {"_publish", "_unpublish", "_recursively_publish"}
  const HEADLESS_CMS_ACTIONS: set<string> := PUBLISH_ACTIONS + TRANSLATE_ACTIONS

  /** The set `response_change` tests against. */
  const CUSTOM_ACTIONS: set<string> := {"_publish", "_unpublish", "_recursively_publish"} + TRANSLATE_ACTIONS

  /** The two sets name the same submit buttons. */
  lemma CustomActionsAreCmsActions()
    ensures CUSTOM_ACTIONS == HEADLESS_CMS_ACTIONS
    ensures |HEADLESS_CMS_ACTIONS| == 7
  {
    assert TRANSLATE_ACTIONS == {"_translate", "_force_translate", "_recursively_force_translate", "_recursively_translate"};
  }

  // ---------------------------------------------------------------------
  // Publish status labels

  /** The plain-text label of a publication state. */
  function StateLabel(s: PubState): string {
    match s
    case Unpublished => "unpublished"
    case PublishedLatest => "published (latest)"
    case PublishedOutdated => "published (outdated)"
  }

  const STATUS_LABELS: set<string> := {"unpublished", "published (latest)", "published (outdated)"}

  /** `_get_publish_status`: the inline label, computed from the newest
      version of the row; it is the label of the row's publication state. */
  function GetPublishStatus(o: Obj, vs: seq<Version>): (text: string)
    requires Consistent(o, vs)
    ensures text == StateLabel(PublishedState(o, vs))
    ensures text in STATUS_LABELS
  {
    if o.publishedVersion.None? then "unpublished"
    else if LatestVersionId(vs, o.key).value == o.publishedVersion.value then "published (latest)"
    else "published (outdated)"
  }

  // ---------------------------------------------------------------------
  // Change form

  /** The flags `render_change_form` adds to the template context. */
  datatype ChangeFormFlags = ChangeFormFlags(
    publishedState: string,
    showPublish: bool,
    showUnpublish: bool,
    showRecursivelyPublish: bool,
    showTranslate: bool)

  /** A forward relation to a localized publication model: the object has
      something to publish recursively. */
  predicate PublishableRelation(r: Registry, f: Field) {
    IsRelation(f) && !f.autoCreated && RelatedIs(r, f, LocalizedPublicationModel)
  }

  function AnyPublishableRelation(r: Registry, fields: seq<Field>): bool {
    if fields == [] then false
    else PublishableRelation(r, fields[0]) || AnyPublishableRelation(r, fields[1..])
  }

  /** `render_change_form`: flags are added for an existing object, except on
      the revert form. "Publish" is offered unless the newest version is the
      published one, "Unpublish" whenever something is published, "Translate"
      always, "Recursively publish" when a forward relation leads to a
      localized publication model. */
  function RenderChangeForm(r: Registry, obj: Option<Obj>, revert: bool, vs: seq<Version>): (c: Option<ChangeFormFlags>)
    requires obj.Some? ==> obj.value.key.model in r && Consistent(obj.value, vs)
    ensures c.Some? <==> obj.Some? && !revert
    ensures c.Some? ==> c.value.publishedState == StateLabel(PublishedState(obj.value, vs))
    ensures c.Some? ==> (c.value.showUnpublish <==> obj.value.publishedVersion.Some?)
    ensures c.Some? ==> (c.value.showPublish <==> PublishedState(obj.value, vs) != PublishedLatest)
    ensures c.Some? ==> c.value.showTranslate
    ensures c.Some? ==> (c.value.showRecursivelyPublish <==>
      exists f :: f in r[obj.value.key.model].fields && PublishableRelation(r, f))
  {
    if obj.None? || revert then None
    else
      var o := obj.value;
      var recursive := AnyPublishableRelation(r, r[o.key.model].fields);
      AnyPublishableRelationMeansExists(r, r[o.key.model].fields);
      if o.publishedVersion.None? then
        Some(ChangeFormFlags("unpublished", true, false, recursive, true))
      else if LatestVersionId(vs, o.key).value == o.publishedVersion.value then
        Some(ChangeFormFlags("published (latest)", false, true, recursive, true))
      else
        Some(ChangeFormFlags("published (outdated)", true, true, recursive, true))
  }

  lemma {:induction false} AnyPublishableRelationMeansExists(r: Registry, fields: seq<Field>)
    ensures AnyPublishableRelation(r, fields) <==> exists f :: f in fields && PublishableRelation(r, f)
  {
    if fields != [] {
      AnyPublishableRelationMeansExists(r, fields[1..]);
      assert forall f :: f in fields <==> f == fields[0] || f in fields[1..];
    }
  }

  // ---------------------------------------------------------------------
  // change_view and response_change

  /** The model method a button (or bulk action) calls. */
  datatype Action =
    | Unpublish
    | Publish
    | RecursivelyPublish
    | Translate(force: bool, recursively: bool)

  /** What `change_view` does: Django's stock view, or `changeform_view`
      followed by at most one action on the object. */
  datatype ChangeView = StockChangeView | CustomChangeView(action: Option<Action>)

  /** `change_view`, by the names of the submitted form fields. */
  function ChangeViewDispatch(keys: set<string>): (d: ChangeView)
    ensures d.StockChangeView? <==> keys !! HEADLESS_CMS_ACTIONS
    ensures d.CustomChangeView? ==> d.action.Some?
    ensures d == CustomChangeView(Some(Unpublish)) <==> "_unpublish" in keys
    ensures d == CustomChangeView(Some(Publish)) <==> "_publish" in keys && "_unpublish" !in keys
    ensures d.CustomChangeView? && d.action.value.Translate? <==>
      (keys !! PUBLISH_ACTIONS) && !(keys !! TRANSLATE_ACTIONS)
    ensures d.CustomChangeView? && d.action.value.Translate? ==>
      (d.action.value.force <==> !(keys !! FORCE_TRANSLATE))
      && (d.action.value.recursively <==> !(keys !! RECURSIVELY_TRANSLATE))
  {
    if keys !! HEADLESS_CMS_ACTIONS then StockChangeView
    else if "_unpublish" in keys then CustomChangeView(Some(Unpublish))
    else if "_publish" in keys then CustomChangeView(Some(Publish))
    else if "_recursively_publish" in keys then CustomChangeView(Some(RecursivelyPublish))
    else if !(keys !! TRANSLATE_ACTIONS) then
      CustomChangeView(Some(Translate(!(keys !! FORCE_TRANSLATE), !(keys !! RECURSIVELY_TRANSLATE))))
    else CustomChangeView(None)
  }

  /** The success message for an action (`name` and `obj` already rendered). */
  function ActionMessage(a: Action, name: string, obj: string): string {
    var subject := "The " + name + " \U{201C}" + obj + "\U{201D} was";
    match a
    case Publish => subject + " published successfully."
    case RecursivelyPublish => subject + " recursively published."
    case Unpublish => subject + " unpublished."
    case Translate(force, recursively) =>
      subject + (if recursively then " recursively" else "") + " translated" + (if force then " (forced)" else "") + "."
  }

  /** `response_change`: `None` is Django's default response; otherwise the
      message shown before redirecting back to the form. Its branch order
      differs from `change_view`: `_publish` and `_recursively_publish` are
      tested before `_unpublish`. */
  function ResponseChangeMessage(keys: set<string>, name: string, obj: string): (m: Option<string>)
    ensures m.None? <==> keys !! HEADLESS_CMS_ACTIONS
    ensures "_publish" in keys ==> m == Some(ActionMessage(Publish, name, obj))
    ensures "_publish" !in keys && "_recursively_publish" in keys ==>
      m == Some(ActionMessage(RecursivelyPublish, name, obj))
    ensures "_publish" !in keys && "_recursively_publish" !in keys && "_unpublish" in keys ==>
      m == Some(ActionMessage(Unpublish, name, obj))
    ensures keys !! PUBLISH_ACTIONS && !(keys !! TRANSLATE_ACTIONS) ==>
      m == Some(ActionMessage(Translate(!(keys !! FORCE_TRANSLATE), !(keys !! RECURSIVELY_TRANSLATE)), name, obj))
    ensures m != Some("Invalid action")
  {
    CustomActionsAreCmsActions();
    if keys !! CUSTOM_ACTIONS then None
    else if "_publish" in keys then Some(ActionMessage(Publish, name, obj))
    else if "_recursively_publish" in keys then Some(ActionMessage(RecursivelyPublish, name, obj))
    else if "_unpublish" in keys then Some(ActionMessage(Unpublish, name, obj))
    else if !(keys !! TRANSLATE_ACTIONS) then
      Some(ActionMessage(Translate(!(keys !! FORCE_TRANSLATE), !(keys !! RECURSIVELY_TRANSLATE)), name, obj))
    else Some("Invalid action")
  }

  /** A form submitted with one button reports the action `change_view`
      took; "Invalid action" is never shown. */
  lemma MessageMatchesAction(keys: set<string>, name: string, obj: string)
    requires |keys * PUBLISH_ACTIONS| <= 1
    ensures ChangeViewDispatch(keys).CustomChangeView? ==>
      ResponseChangeMessage(keys, name, obj) == Some(ActionMessage(ChangeViewDispatch(keys).action.value, name, obj))
    ensures ResponseChangeMessage(keys, name, obj) != Some("Invalid action")
  {
    CustomActionsAreCmsActions();
    if "_unpublish" in keys {
      assert "_unpublish" in keys * PUBLISH_ACTIONS;
      if "_publish" in keys {
        assert {"_unpublish", "_publish"} <= keys * PUBLISH_ACTIONS;
        assert |{"_unpublish", "_publish"}| == 2;
        SubsetCard({"_unpublish", "_publish"}, keys * PUBLISH_ACTIONS);
      }
      if "_recursively_publish" in keys {
        assert {"_unpublish", "_recursively_publish"} <= keys * PUBLISH_ACTIONS;
        assert |{"_unpublish", "_recursively_publish"}| == 2;
        SubsetCard({"_unpublish", "_recursively_publish"}, keys * PUBLISH_ACTIONS);
      }
    }
  }

  lemma SubsetCard(a: set<string>, b: set<string>)
    requires a <= b
    ensures |a| <= |b|
  {
    assert b == a + (b - a);
  }

  /** With both publish buttons in one submission the object is unpublished
      while the message says it was published. */
  lemma PublishAndUnpublishDisagree(name: string, obj: string)
    ensures ChangeViewDispatch({"_publish", "_unpublish"}) == CustomChangeView(Some(Unpublish))
    ensures ResponseChangeMessage({"_publish", "_unpublish"}, name, obj) == Some(ActionMessage(Publish, name, obj))
  {
  }

  // ---------------------------------------------------------------------
  // Bulk actions

  /** A call of a model method on one row. */
  datatype Call = Call(action: Action, key: ObjectKey)

  /** The four list actions of `EnhancedLocalizedVersionAdmin`. */
  datatype BulkAction = PublishSelected | UnpublishSelected | TranslateMissing | ForceTranslate

  function BulkActionCall(b: BulkAction): Action {
    match b
    case PublishSelected => Publish
    case UnpublishSelected => Unpublish
    case TranslateMissing => Translate(false, false)
    case ForceTranslate => Translate(true, false)
  }

  /** Runs a list action over the selected rows, one call per row in order. */
  method RunBulkAction(b: BulkAction, selected: seq<ObjectKey>) returns (calls: seq<Call>)
    ensures |calls| == |selected|
    ensures forall i :: 0 <= i < |selected| ==> calls[i] == Call(BulkActionCall(b), selected[i])
  {
    calls := [];
    var i := 0;
    while i < |selected|
      invariant 0 <= i <= |selected| && |calls| == i
      invariant forall j :: 0 <= j < i ==> calls[j] == Call(BulkActionCall(b), selected[j])
    {
      calls := calls + [Call(BulkActionCall(b), selected[i])];
      i := i + 1;
    }
  }

  /** The list actions and the change-form buttons call the same model
      methods: each list action on one row is the matching button. */
  lemma BulkActionIsButton(b: BulkAction)
    ensures var button := match b
      case PublishSelected => "_publish"
      case UnpublishSelected => "_unpublish"
      case TranslateMissing => "_translate"
      case ForceTranslate => "_force_translate";
      ChangeViewDispatch({button}) == CustomChangeView(Some(BulkActionCall(b)))
  {
  }

  // ---------------------------------------------------------------------
  // Revert

  /** `revision_view`'s `is_published`: the viewed version belongs to the
      revision of the row's published version. A version whose row no longer
      exists raises `AttributeError`. */
  function IsPublishedRevision(v: Version, row: Option<Obj>, vs: seq<Version>): (r: Result<bool>)
    requires UniqueIds(vs)
    requires row.Some? ==> Consistent(row.value, vs)
    ensures r.Ok? <==> row.Some?
    ensures r == Ok(true) <==>
      (row.Some? && row.value.publishedVersion.Some?
       && exists p :: p in vs && p.id == row.value.publishedVersion.value && p.revision == v.revision)
  {
    if row.None? then Err("AttributeError")
    else if row.value.publishedVersion.None? then Ok(false)
    else
      var p := VersionById(vs, row.value.publishedVersion.value).value;
      assert forall q :: q in vs && q.id == p.id ==> q == p by {
        forall q | q in vs && q.id == p.id
          ensures q == p
        {
          VersionByIdUnique(vs, q);
        }
      }
      Ok(v.revision == p.revision)
  }

  /** `_reversion_revisionform_view`: reverting restores the row's fields from
      the snapshot; when the revert redirected (it succeeded) and the row was
      published before, its published pointer is set back to the old one. */
  function PointerAfterRevert(before: Option<Id>, redirected: bool, reverted: Option<Id>): (after: Option<Id>)
    ensures redirected && before.Some? ==> after == before
    ensures !redirected ==> after == reverted
    ensures before.None? ==> after == reverted
  {
    if redirected && before.Some? then before else reverted
  }

  // ---------------------------------------------------------------------
  // Inline publish status

  /** An inline admin: the model of the page it is shown on and its `fk_name`. */
  datatype InlineAdmin = InlineAdmin(parentModel: ModelId, fkName: Option<string>)

  /** A row shown in an inline: its model, the row itself, and for each field
      of its model the object the field points at (`getattr(obj, field.name)`). */
  datatype InlineRow = InlineRow(model: ModelId, self: Obj, links: seq<Link>)
  datatype Link = Link(field: Field, target: Obj)

  /** The relation fields `publish_status` looks at. */
  predicate Considered(r: Registry, l: Link) {
    RelatedIs(r, l.field, LocalizedPublicationModel)
  }

  predicate LinksConsistent(links: seq<Link>, vs: seq<Version>) {
    forall l :: l in links ==> Consistent(l.target, vs)
  }

  /** The first considered link that is not the inline's own foreign key. */
  function FirstOtherThanName(r: Registry, links: seq<Link>, fk: string): (o: Option<Obj>)
    ensures o.Some? ==> exists l :: l in links && l.target == o.value
  {
    if links == [] then None
    else if Considered(r, links[0]) && links[0].field.name != fk then Some(links[0].target)
    else FirstOtherThanName(r, links[1..], fk)
  }

  /** The last considered link whose model is not `parent`. */
  function LastOtherThanModel(r: Registry, links: seq<Link>, parent: ModelId): (o: Option<Obj>)
    ensures o.Some? ==> exists l :: l in links && l.target == o.value
  {
    if links == [] then None
    else
      var last := links[|links| - 1];
      if Considered(r, last) && last.field.related.value != parent then Some(last.target)
      else LastOtherThanModel(r, links[..|links| - 1], parent)
  }

  /** The first considered link whose model is not `parent`. */
  function FirstOtherThanModel(r: Registry, links: seq<Link>, parent: ModelId): (o: Option<Obj>)
    ensures o.Some? ==> exists l :: l in links && l.target == o.value
  {
    if links == [] then None
    else if Considered(r, links[0]) && links[0].field.related.value != parent then Some(links[0].target)
    else FirstOtherThanModel(r, links[1..], parent)
  }

  /** The status of the object found, "unpublished" when none was. */
  function StatusOf(o: Option<Obj>, vs: seq<Version>): (text: string)
    requires o.Some? ==> Consistent(o.value, vs)
    ensures text in STATUS_LABELS
    ensures o.None? ==> text == "unpublished"
    ensures o.Some? ==> text == GetPublishStatus(o.value, vs)
  {
    if o.None? then "unpublished" else GetPublishStatus(o.value, vs)
  }

  /** `publish_status`: for a sorted through row, the status of the object at
      the other end (with a truthy `fk_name`: the first relation not named
      `fk_name`; without: the last relation not to the page's model); for an
      automatic through row, the first relation not to the model that created
      it; otherwise the row's own status. */
  method PublishStatus(r: Registry, inline: InlineAdmin, row: InlineRow, vs: seq<Version>) returns (status: string)
    requires LinksConsistent(row.links, vs) && Consistent(row.self, vs)
    ensures status in STATUS_LABELS
    ensures IsSubclass(r, row.model, M2MSortedOrderThrough) && TruthyOpt(inline.fkName) ==>
      status == StatusOf(FirstOtherThanName(r, row.links, inline.fkName.value), vs)
    ensures IsSubclass(r, row.model, M2MSortedOrderThrough) && !TruthyOpt(inline.fkName) ==>
      status == StatusOf(LastOtherThanModel(r, row.links, inline.parentModel), vs)
    ensures !IsSubclass(r, row.model, M2MSortedOrderThrough) && row.model in r && r[row.model].autoCreatedBy.Some? ==>
      status == StatusOf(FirstOtherThanModel(r, row.links, r[row.model].autoCreatedBy.value), vs)
    ensures !IsSubclass(r, row.model, M2MSortedOrderThrough) && !(row.model in r && r[row.model].autoCreatedBy.Some?) ==>
      status == GetPublishStatus(row.self, vs)
  {
    if IsSubclass(r, row.model, M2MSortedOrderThrough) && TruthyOpt(inline.fkName) {
      status := StatusByName(r, row.links, inline.fkName.value, vs);
    } else if IsSubclass(r, row.model, M2MSortedOrderThrough) {
      status := StatusByLastModel(r, row.links, inline.parentModel, vs);
    } else if row.model in r && r[row.model].autoCreatedBy.Some? {
      status := StatusByFirstModel(r, row.links, r[row.model].autoCreatedBy.value, vs);
    } else {
      status := GetPublishStatus(row.self, vs);
    }
  }

  /** The loop over the relations with a truthy `fk_name`: it stops at the
      first considered relation with another name. */
  method StatusByName(r: Registry, links: seq<Link>, fk: string, vs: seq<Version>) returns (status: string)
    requires LinksConsistent(links, vs)
    ensures status == StatusOf(FirstOtherThanName(r, links, fk), vs)
  {
    var i := 0;
    while i < |links|
      invariant 0 <= i <= |links|
      invariant FirstOtherThanName(r, links[..i], fk).None?
    {
      var l := links[i];
      if Considered(r, l) && l.field.name != fk {
        FirstOtherThanNamePrefix(r, links, i, fk);
        return GetPublishStatus(l.target, vs);
      }
      FirstOtherThanNameAppend(r, links[..i], l, fk);
      assert links[..i + 1] == links[..i] + [l];
      i := i + 1;
    }
    assert links[..i] == links;
    status := "unpublished";
  }

  /** The loop without `fk_name`: it keeps overwriting the status, so the
      last considered relation not to the page's model wins. */
  method StatusByLastModel(r: Registry, links: seq<Link>, parent: ModelId, vs: seq<Version>) returns (status: string)
    requires LinksConsistent(links, vs)
    ensures status == StatusOf(LastOtherThanModel(r, links, parent), vs)
  {
    status := "unpublished";
    ghost var found: Option<Obj> := None;
    var i := 0;
    while i < |links|
      invariant 0 <= i <= |links|
      invariant found == LastOtherThanModel(r, links[..i], parent)
      invariant found.Some? ==> Consistent(found.value, vs)
      invariant status == StatusOf(found, vs)
    {
      var l := links[i];
      assert links[..i + 1] == links[..i] + [l];
      LastOtherThanModelAppend(r, links[..i], l, parent);
      if Considered(r, l) && l.field.related.value != parent {
        status := GetPublishStatus(l.target, vs);
        found := Some(l.target);
      }
      i := i + 1;
    }
    assert links[..i] == links;
  }

  /** The loop for an automatic through model: it stops at the first
      considered relation not to the model that created it. */
  method StatusByFirstModel(r: Registry, links: seq<Link>, parent: ModelId, vs: seq<Version>) returns (status: string)
    requires LinksConsistent(links, vs)
    ensures status == StatusOf(FirstOtherThanModel(r, links, parent), vs)
  {
    var i := 0;
    while i < |links|
      invariant 0 <= i <= |links|
      invariant FirstOtherThanModel(r, links[..i], parent).None?
    {
      var l := links[i];
      if Considered(r, l) && l.field.related.value != parent {
        FirstOtherThanModelPrefix(r, links, i, parent);
        return GetPublishStatus(l.target, vs);
      }
      FirstOtherThanModelAppend(r, links[..i], l, parent);
      assert links[..i + 1] == links[..i] + [l];
      i := i + 1;
    }
    assert links[..i] == links;
    status := "unpublished";
  }

  /** One more relation either becomes the last match or leaves it as it was. */
  lemma LastOtherThanModelAppend(r: Registry, links: seq<Link>, l: Link, parent: ModelId)
    ensures LastOtherThanModel(r, links + [l], parent) ==
      if Considered(r, l) && l.field.related.value != parent then Some(l.target)
      else LastOtherThanModel(r, links, parent)
  {
    assert (links + [l])[..|links|] == links;
  }

  lemma {:induction false} FirstOtherThanNameAppend(r: Registry, links: seq<Link>, l: Link, fk: string)
    requires FirstOtherThanName(r, links, fk).None?
    requires !(Considered(r, l) && l.field.name != fk)
    ensures FirstOtherThanName(r, links + [l], fk).None?
  {
    if links == [] {
      assert links + [l] == [l];
    } else {
      assert (links + [l])[1..] == links[1..] + [l];
      FirstOtherThanNameAppend(r, links[1..], l, fk);
    }
  }

  /** Once the first `i` links hold no match and link `i` matches, it is the first. */
  lemma {:induction false} FirstOtherThanNamePrefix(r: Registry, links: seq<Link>, i: nat, fk: string)
    requires i < |links| && FirstOtherThanName(r, links[..i], fk).None?
    requires Considered(r, links[i]) && links[i].field.name != fk
    ensures FirstOtherThanName(r, links, fk) == Some(links[i].target)
    decreases i
  {
    if i > 0 {
      assert links[..i][1..] == links[1..][..i - 1];
      FirstOtherThanNamePrefix(r, links[1..], i - 1, fk);
    }
  }

  lemma {:induction false} FirstOtherThanModelAppend(r: Registry, links: seq<Link>, l: Link, parent: ModelId)
    requires FirstOtherThanModel(r, links, parent).None?
    requires !(Considered(r, l) && l.field.related.value != parent)
    ensures FirstOtherThanModel(r, links + [l], parent).None?
  {
    if links == [] {
      assert links + [l] == [l];
    } else {
      assert (links + [l])[1..] == links[1..] + [l];
      FirstOtherThanModelAppend(r, links[1..], l, parent);
    }
  }

  lemma {:induction false} FirstOtherThanModelPrefix(r: Registry, links: seq<Link>, i: nat, parent: ModelId)
    requires i < |links| && FirstOtherThanModel(r, links[..i], parent).None?
    requires Considered(r, links[i]) && links[i].field.related.value != parent
    ensures FirstOtherThanModel(r, links, parent) == Some(links[i].target)
    decreases i
  {
    if i > 0 {
      assert links[..i][1..] == links[1..][..i - 1];
      FirstOtherThanModelPrefix(r, links[1..], i - 1, parent);
    }
  }

  /** Mirror of `FirstOtherThanModelPrefix`: a considered link to another
      model after which no link qualifies is the one found. */
  lemma {:induction false} LastOtherThanModelSuffix(r: Registry, links: seq<Link>, i: nat, parent: ModelId)
    requires i < |links| && LastOtherThanModel(r, links[i + 1..], parent).None?
    requires Considered(r, links[i]) && links[i].field.related.value != parent
    ensures LastOtherThanModel(r, links, parent) == Some(links[i].target)
    decreases |links| - i
  {
    if i < |links| - 1 {
      var n := |links|;
      assert links[i + 1..][n - i - 2] == links[n - 1];
      assert links[i + 1..][..n - i - 2] == links[..n - 1][i + 1..];
      LastOtherThanModelSuffix(r, links[..n - 1], i, parent);
      assert links[..n - 1][i] == links[i];
    }
  }

  /** No object is found exactly when no link is a considered link to
      another model. */
  lemma {:induction false} LastOtherThanModelNone(r: Registry, links: seq<Link>, parent: ModelId)
    ensures LastOtherThanModel(r, links, parent).None? <==>
      forall l :: l in links ==> !(Considered(r, l) && l.field.related.value != parent)
  {
    if links != [] {
      var n := |links|;
      LastOtherThanModelNone(r, links[..n - 1], parent);
      assert links == links[..n - 1] + [links[n - 1]];
    }
  }

  // ---------------------------------------------------------------------
  // Automatic admin classes

  /** A generated inline class (`create_m2m_inline_admin` or
      `create_generic_inline_admin`): its class name, model, whether it is
      sortable, whether it is a generic inline, and its `fk_name`. */
  datatype Inline = Inline(name: string, model: ModelId, sortable: bool, generic: bool, fkName: Option<string>)

  datatype AdminBase = SortableAdminBase | EnhancedLocalizedVersionAdmin | SingletonModelAdmin

  /** A generated admin class: name, base classes in order, and attributes. */
  datatype AdminClass = AdminClass(
    name: string,
    bases: seq<AdminBase>,
    historyLatestFirst: bool,
    inlines: seq<Inline>,
    exclude: seq<string>,
    readonlyFields: seq<string>)

  /** A many-to-many field to a localized publication model: it is edited
      through an inline on its through model and excluded from the form. */
  predicate M2MInlineField(r: Registry, f: Field) {
    f.kind == ManyToMany && RelatedIs(r, f, LocalizedPublicationModel)
  }

  /** A generic relation to a localized publication model: a generic inline. */
  predicate GenericInlineField(r: Registry, f: Field) {
    f.kind == GenericRelation && RelatedIs(r, f, LocalizedPublicationModel)
  }

  predicate HasInline(r: Registry, f: Field) {
    M2MInlineField(r, f) || GenericInlineField(r, f)
  }

  /** A field that asks for `SortableAdminBase`: a many-to-many field whose
      through model keeps a sort order, or any generic inline field. */
  predicate WantsSortableBase(r: Registry, f: Field) {
    (M2MInlineField(r, f) && f.through.Some? && IsSubclass(r, f.through.value, M2MSortedOrderThrough))
    || GenericInlineField(r, f)
  }

  predicate FieldsWellFormed(r: Registry, fields: seq<Field>) {
    forall f :: f in fields ==> WellFormedField(r, f)
  }

  /** The inline a field adds, named after its model. */
  function InlineFor(r: Registry, f: Field): (i: Inline)
    requires WellFormedField(r, f) && HasInline(r, f)
    ensures i.generic <==> f.kind == GenericRelation
    ensures i.model in r && i.name == r[i.model].objectName + "Inline"
    ensures f.kind == ManyToMany ==>
      i.model == f.through.value && (i.sortable <==> IsSubclass(r, i.model, M2MSortedOrderThrough)) &&
      i.fkName == r[i.model].fkName
    ensures f.kind == GenericRelation ==>
      i.model == f.related.value && (i.sortable <==> IsSubclass(r, i.model, SortableGenericBaseModel)) &&
      i.fkName.None?
  {
    if M2MInlineField(r, f) then
      var t := f.through.value;
      Inline(r[t].objectName + "Inline", t, IsSubclass(r, t, M2MSortedOrderThrough), false, r[t].fkName)
    else
      var t := f.related.value;
      Inline(r[t].objectName + "Inline", t, IsSubclass(r, t, SortableGenericBaseModel), true, None)
  }

  /** The inlines the fields add, in field order. */
  function Inlines(r: Registry, fields: seq<Field>): seq<Inline>
    requires FieldsWellFormed(r, fields)
  {
    if fields == [] then []
    else
      var f := fields[|fields| - 1];
      Inlines(r, fields[..|fields| - 1]) + (if HasInline(r, f) then [InlineFor(r, f)] else [])
  }

  /** The field names the filter `keep` lets through, in field order. */
  function Names(fields: seq<Field>, keep: Field -> bool): seq<string> {
    if fields == [] then []
    else
      var f := fields[|fields| - 1];
      Names(fields[..|fields| - 1], keep) + (if keep(f) then [f.name] else [])
  }

  /** The admin class `auto_admins` builds for a model. */
  function AdminFor(r: Registry, m: ModelId): AdminClass
    requires m in r && FieldsWellFormed(r, r[m].fields)
  {
    var fields := r[m].fields;
    var sortable := exists f :: f in fields && WantsSortableBase(r, f);
    AdminClass(
      r[m].objectName + "Admin",
      (if sortable then [SortableAdminBase] else [])
        + [EnhancedLocalizedVersionAdmin]
        + (if IsSubclass(r, m, LocalizedSingletonModel) then [SingletonModelAdmin] else []),
      true,
      Inlines(r, fields),
      Names(fields, (f: Field) => M2MInlineField(r, f)),
      Names(fields, (f: Field) => f.kind == LocalizedSlug))
  }

  /** The body of the loop of `auto_admins` for one model. */
  method BuildAdmin(r: Registry, m: ModelId) returns (a: AdminClass)
    requires m in r && FieldsWellFormed(r, r[m].fields)
    ensures a == AdminFor(r, m)
  {
    var fields := r[m].fields;
    var inlines: seq<Inline> := [];
    var exclude: seq<string> := [];
    var readonly: seq<string> := [];
    var hasSortableBase := false;
    var i := 0;
    while i < |fields|
      invariant 0 <= i <= |fields|
      invariant inlines == Inlines(r, fields[..i])
      invariant exclude == Names(fields[..i], (f: Field) => M2MInlineField(r, f))
      invariant readonly == Names(fields[..i], (f: Field) => f.kind == LocalizedSlug)
      invariant hasSortableBase <==> exists f :: f in fields[..i] && WantsSortableBase(r, f)
    {
      var f := fields[i];
      assert fields[..i + 1][..i] == fields[..i];
      assert fields[..i + 1] == fields[..i] + [f];
      assert forall g :: g in fields[..i + 1] <==> g in fields[..i] || g == f;
      assert WellFormedField(r, f) by {
        assert f in fields;
      }
      ghost var hadSortableBase := hasSortableBase;
      if f.kind == LocalizedSlug {
        readonly := readonly + [f.name];
      }
      if M2MInlineField(r, f) {
        var through := f.through.value;
        exclude := exclude + [f.name];
        var canSort := false;
        if IsSubclass(r, through, M2MSortedOrderThrough) {
          canSort := true;
          hasSortableBase := true;
        }
        inlines := inlines + [Inline(r[through].objectName + "Inline", through, canSort, false, r[through].fkName)];
      } else if GenericInlineField(r, f) {
        var canSort := false;
        hasSortableBase := true;
        if IsSubclass(r, f.related.value, SortableGenericBaseModel) {
          canSort := true;
        }
        inlines := inlines + [Inline(r[f.related.value].objectName + "Inline", f.related.value, canSort, true, None)];
      }
      assert hasSortableBase <==> hadSortableBase || WantsSortableBase(r, f);
      i := i + 1;
    }
    assert fields[..i] == fields;
    var bases: seq<AdminBase> := [];
    if hasSortableBase {
      bases := [SortableAdminBase];
    }
    bases := bases + [EnhancedLocalizedVersionAdmin];
    if IsSubclass(r, m, LocalizedSingletonModel) {
      bases := bases + [SingletonModelAdmin];
    }
    a := AdminClass(r[m].objectName + "Admin", bases, true, inlines, exclude, readonly);
  }

  /** A name is kept exactly when a field of that name passes the filter. */
  lemma {:induction false} NamesMembership(fields: seq<Field>, keep: Field -> bool, n: string)
    ensures n in Names(fields, keep) <==> exists f :: f in fields && keep(f) && f.name == n
  {
    if fields != [] {
      var init := fields[..|fields| - 1];
      NamesMembership(init, keep, n);
      assert fields == init + [fields[|fields| - 1]];
      assert forall f :: f in fields <==> f in init || f == fields[|fields| - 1];
    }
  }

  /** Every inline comes from a field that asks for one, and every such
      field has its inline, in field order. */
  lemma {:induction false} InlinesFromFields(r: Registry, fields: seq<Field>)
    requires FieldsWellFormed(r, fields)
    ensures forall i :: i in Inlines(r, fields) ==> exists f :: f in fields && HasInline(r, f) && i == InlineFor(r, f)
    ensures forall f :: f in fields && HasInline(r, f) ==> InlineFor(r, f) in Inlines(r, fields)
  {
    if fields != [] {
      var init := fields[..|fields| - 1];
      InlinesFromFields(r, init);
      assert fields == init + [fields[|fields| - 1]];
      assert forall f :: f in fields <==> f in init || f == fields[|fields| - 1];
    }
  }

  /** The generated admin: the form excludes exactly the many-to-many
      fields to localized publication models, slugs are read-only, every
      inline comes from a field, `SortableAdminBase` comes first when present
      and the enhanced version admin is always a base. */
  lemma AdminForShape(r: Registry, m: ModelId)
    requires m in r && FieldsWellFormed(r, r[m].fields)
    ensures forall n :: n in AdminFor(r, m).exclude <==>
      exists f :: f in r[m].fields && M2MInlineField(r, f) && f.name == n
    ensures forall n :: n in AdminFor(r, m).readonlyFields <==>
      exists f :: f in r[m].fields && f.kind == LocalizedSlug && f.name == n
    ensures forall i :: i in AdminFor(r, m).inlines ==>
      exists f :: f in r[m].fields && HasInline(r, f) && i == InlineFor(r, f)
    ensures forall f :: f in r[m].fields && HasInline(r, f) ==> InlineFor(r, f) in AdminFor(r, m).inlines
    ensures EnhancedLocalizedVersionAdmin in AdminFor(r, m).bases
    ensures SortableAdminBase in AdminFor(r, m).bases <==> AdminFor(r, m).bases[0] == SortableAdminBase
    ensures SortableAdminBase in AdminFor(r, m).bases <==>
      exists f :: f in r[m].fields && WantsSortableBase(r, f)
    ensures SingletonModelAdmin in AdminFor(r, m).bases <==> IsSubclass(r, m, LocalizedSingletonModel)
  {
    var fields := r[m].fields;
    forall n
      ensures n in AdminFor(r, m).exclude <==> exists f :: f in fields && M2MInlineField(r, f) && f.name == n
      ensures n in AdminFor(r, m).readonlyFields <==> exists f :: f in fields && f.kind == LocalizedSlug && f.name == n
    {
      NamesMembership(fields, (f: Field) => M2MInlineField(r, f), n);
      NamesMembership(fields, (f: Field) => f.kind == LocalizedSlug, n);
    }
    InlinesFromFields(r, fields);
  }

  /** Django's admin site: the admin class registered for each model. */
  class AdminSite {
    var registry: map<ModelId, AdminClass>

    constructor()
      ensures registry == map[]
    {
      registry := map[];
    }

    /** `admin.site.register`: a model can be registered once;
        registering it again raises `AlreadyRegistered`. */
    method Register(m: ModelId, a: AdminClass) returns (res: Result<()>)
      modifies this
      ensures res == if m in old(registry) then Err("AlreadyRegistered") else Ok(())
      ensures res.Ok? ==> registry == old(registry)[m := a]
      ensures res.Err? ==> registry == old(registry)
    {
      if m in registry {
        return Err("AlreadyRegistered");
      }
      registry := registry[m := a];
      res := Ok(());
    }

    /** `auto_admins`: builds and registers an admin for each model in turn,
        stopping at the first model that is already registered. */
    method AutoAdmins(r: Registry, models: seq<ModelId>) returns (res: Result<()>)
      requires forall m :: m in models ==> m in r && FieldsWellFormed(r, r[m].fields)
      modifies this
      ensures (res, registry) == AutoAdminsResult(r, old(registry), models)
    {
      var i := 0;
      while i < |models|
        invariant 0 <= i <= |models|
        invariant AutoAdminsResult(r, old(registry), models) == AutoAdminsResult(r, registry, models[i..])
      {
        var a := BuildAdmin(r, models[i]);
        var reg := Register(models[i], a);
        if reg.Err? {
          return reg;
        }
        assert models[i..][1..] == models[i + 1..];
        i := i + 1;
      }
      res := Ok(());
    }
  }

  /** The outcome of `auto_admins` on a registry: the error of the first
      model already registered, and the registry it leaves. */
  function AutoAdminsResult(r: Registry, reg: map<ModelId, AdminClass>, models: seq<ModelId>): (Result<()>, map<ModelId, AdminClass>)
    requires forall m :: m in models ==> m in r && FieldsWellFormed(r, r[m].fields)
    decreases |models|
  {
    if models == [] then (Ok(()), reg)
    else if models[0] in reg then (Err("AlreadyRegistered"), reg)
    else AutoAdminsResult(r, reg[models[0] := AdminFor(r, models[0])], models[1..])
  }

  /** Distinct models not yet registered all get their generated admin, and
      nothing else in the registry changes. */
  lemma {:induction false} AutoAdminsRegistersAll(r: Registry, reg: map<ModelId, AdminClass>, models: seq<ModelId>)
    requires forall m :: m in models ==> m in r && FieldsWellFormed(r, r[m].fields)
    requires NoDup(models) && forall m :: m in models ==> m !in reg
    decreases |models|
    ensures AutoAdminsResult(r, reg, models).0.Ok?
    ensures AutoAdminsResult(r, reg, models).1.Keys == reg.Keys + Elems(models)
    ensures forall m :: m in models ==> AutoAdminsResult(r, reg, models).1[m] == AdminFor(r, m)
    ensures forall m :: m in reg ==> AutoAdminsResult(r, reg, models).1[m] == reg[m]
  {
    if models != [] {
      var m := models[0];
      var reg' := reg[m := AdminFor(r, m)];
      assert NoDup(models[1..]);
      assert forall x :: x in models[1..] ==> x != m;
      AutoAdminsRegistersAll(r, reg', models[1..]);
      assert Elems(models) == {m} + Elems(models[1..]);
    }
  }

  /** Listing a model twice makes `auto_admins` fail on the second one. */
  lemma AutoAdminsTwiceFails(r: Registry, m: ModelId)
    requires m in r && FieldsWellFormed(r, r[m].fields)
    ensures AutoAdminsResult(r, map[], [m, m]).0 == Err("AlreadyRegistered")
  {
    assert [m, m][1..] == [m];
  }
}
