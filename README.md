# django-headless-cms: the publication layer, modelled in Dafny

django-headless-cms is a Django app that turns models into a headless CMS.
Every content row keeps reversion snapshots ("versions") of itself. A
`published_version` pointer marks the snapshot that readers see. Editors
publish, unpublish and translate rows from the Django admin. Serializers
and management commands walk the graph of models to show, export, import
and clean up content.

This project models that layer:

- the publication state and the published snapshot of a row;
- the admin's buttons, form dispatch, messages, inline status column,
  revert handling and generated admin classes;
- the prefetch-path walk;
- the serializers and their field types;
- the localized boolean field;
- the translation walk and the OpenAI translator;
- the import, export and draft-cleaning commands;
- the placeholder substitution in markdown;
- the hash tracker;
- the settings patching;
- the schema filter hook.

Django, reversion, DRF, OpenAI, hashlib and the file system are not
modelled. Models are a registry of field descriptors (`Schema`). Versions
are a sequence of snapshots with positive ids (`Publication`). Library
calls appear as function-typed parameters: translators, the OpenAI client,
`json`, the digest, the placeholder resolver, `markdownify`,
`perform_import`, DRF's serialization and the file loader.

Code that updates state in place is modelled as classes or methods with
loops: the admin site registry, the import and export walkers, the hash
tracker, the settings object, the serializer instance and `Meta`, and the
loops of the commands and helpers. Each such method is proved equal to a
specification function. The properties are stated and proved about those
functions.

## Model

| member | source | states |
|---|---|---|
| Publication.VersionById | headless_cms/models.py:63-64 | The lookup returns a stored version with that id, and returns nothing exactly when no stored version has the id. |
| Publication.VersionByIdUnique | headless_cms/models.py:63-64 | With unique version ids, looking up a stored version's id finds that version. |
| Publication.LatestVersionId | headless_cms/models.py:70 | The newest version of a row is the largest id among the row's versions; there is none exactly when the row has no version. |
| Publication.PublishedData | headless_cms/models.py:61-64 | `published_data` is None exactly when the row is unpublished; otherwise it is the field dict of the stored snapshot whose id `published_version` holds. |
| Publication.PublishedState | headless_cms/models.py:66-76 | The state is unpublished iff there is no pointer, published (latest) iff the newest version is the published one, and published (outdated) otherwise. |
| Publication.EditKeepsPublishedData | headless_cms/models.py:61-76 | After a later edit of a published row, `published_data` is unchanged and the state becomes published (outdated). |
| Publication.VersionByIdAppend | headless_cms/models.py:63-64 | Storing a new version does not change the lookup of an existing id. |
| Publication.Published | headless_cms/models.py:35-38 | `published()` keeps exactly the rows that have a published version, and never more rows than it was given. |
| Publication.PublishedIdempotent | headless_cms/models.py:35-38 | Filtering published rows twice gives the same rows as filtering once. |
| Publication.Serialize | headless_cms/models.py:12-13 | `serialize` succeeds iff every row is published; it gives one published field dict per row, in queryset order. |
| Publication.SerializePublishedSucceeds | headless_cms/models.py:12-13 | Serializing the published rows never fails and gives one dict per published row. |
| Publication.PrefetchRelatedList | headless_cms/models.py:17-33 | The loop returns what the recursive specification gives for the model's fields: one prefetch per candidate reverse relation name (first relation wins), each holding its related model's evaluated `published()`; the first error raised is returned. |
| Publication.AccumulateStep | headless_cms/models.py:25-32 | One loop step keeps the prefetch map's keys equal to the candidate names seen so far, each mapped to the first such relation's evaluated `published()`. |
| Publication.PublishedQuerySet | headless_cms/models.py:17-38 | `published()` first evaluates the model's prefetch list, which evaluates the related models' `published()` at once; a model met again while evaluating raises `RecursionError`. |
| Publication.PrefetchesErrStays | headless_cms/models.py:25-32 | Once a field of the loop raised, the later fields do not change the outcome. |
| Publication.PublishedOkIff | headless_cms/models.py:17-38 | `published()` succeeds iff every model reachable through candidate reverse relations is a publication model and none leads back to a model still evaluating. |
| Publication.PrefetchesOkIff | headless_cms/models.py:25-32 | The prefetch loop succeeds iff each candidate's related model is a publication model whose `published()` succeeds. |
| Publication.PrefetchesMeaning | headless_cms/models.py:19-33 | On success, a name is a key iff some candidate reverse relation has that related name; its prefetch is the first such relation's model's `published()`. |
| Publication.SelfReferenceRecursion | headless_cms/models.py:26-30 | As written, a publication model with a candidate reverse relation to itself cannot evaluate `published()`: it recurses. |
| Admin.CustomActionsAreCmsActions | headless_cms/admin.py:352-356 | The action set of `response_change` equals `HEADLESS_CMS_ACTIONS`, which has seven keys. |
| Admin.GetPublishStatus | headless_cms/admin.py:47-64 | The inline status label is the label of the row's three-way publication state. |
| Admin.RenderChangeForm | headless_cms/admin.py:242-272 | Flags are added only for an object outside the revert form. Unpublish is shown iff the row is published, Publish unless it is published (latest), and Translate always. Recursive publish is shown iff a forward relation targets a localized publication model. |
| Admin.AnyPublishableRelationMeansExists | headless_cms/admin.py:246-252 | The `any(...)` over the fields holds exactly when some field is a forward relation to a localized publication model. |
| Admin.ChangeViewDispatch | headless_cms/admin.py:309-331 | The stock view runs iff no CMS key was posted. `_unpublish` wins, then `_publish`, then `_recursively_publish`, then translate. Translate is forced iff a force key is present and recursive iff a recursive key is present. |
| Admin.ResponseChangeMessage | headless_cms/admin.py:344-393 | The default response happens iff no CMS key was posted. Otherwise, following the if-chain: `_publish` gives the published message; else `_recursively_publish` the recursively published one; else `_unpublish` the unpublished one; else any translate key the translated message, forced iff a force key and recursive iff a recursive key was posted. "Invalid action" is never produced. |
| Admin.MessageMatchesAction | headless_cms/admin.py:316-391 | For a submission with one button, the message reports the action `change_view` took, and "Invalid action" is never shown. |
| Admin.PublishAndUnpublishDisagree | headless_cms/admin.py:316-375 | With both `_publish` and `_unpublish` posted, the row is unpublished while the message says it was published. |
| Admin.RunBulkAction | headless_cms/admin.py:131-192 | A list action makes one model call per selected row, in order. |
| Admin.BulkActionIsButton | headless_cms/admin.py:131-192 | Each list action on one row makes the same model call as the matching change-form button. |
| Admin.IsPublishedRevision | headless_cms/admin.py:419-422 | `is_published` holds iff the viewed version shares its revision with the row's published version; a missing row raises. |
| Admin.PointerAfterRevert | headless_cms/admin.py:448-462 | A revert that redirected restores the row's old published pointer when it had one; otherwise the reverted row is kept as is. |
| Admin.FirstOtherThanName | headless_cms/admin.py:85-89 | The object found is the target of one of the row's links. |
| Admin.LastOtherThanModel | headless_cms/admin.py:90-91 | The object found is the target of one of the row's links; `LastOtherThanModelSuffix` and `LastOtherThanModelNone` say which. |
| Admin.FirstOtherThanModel | headless_cms/admin.py:92-102 | The object found is the target of one of the row's links. |
| Admin.StatusOf | headless_cms/admin.py:57-64 | No object gives "unpublished"; an object gives the label of its own three-way publication state. Either way the status is one of the three labels. |
| Admin.PublishStatus | headless_cms/admin.py:66-105 | A sorted through row shows the status of its other end: with `fk_name`, the first relation not named by it; without, the last relation not to the page's model. An automatic through row shows its first relation not to the model that created it. Any other row shows its own status. |
| Admin.StatusByName | headless_cms/admin.py:79-89 | The loop with `fk_name` returns the status of the first relation with another name. |
| Admin.StatusByLastModel | headless_cms/admin.py:79-91 | The loop without `fk_name` ends with the status of the last relation not to the page's model. |
| Admin.StatusByFirstModel | headless_cms/admin.py:94-102 | The loop for an automatic through model returns the status of the first relation not to the creating model. |
| Admin.LastOtherThanModelAppend | headless_cms/admin.py:90-91 | One more link either becomes the last match or leaves the match unchanged. |
| Admin.FirstOtherThanNamePrefix | headless_cms/admin.py:85-89 | Once earlier links do not match and link i does, link i's target is the one found. |
| Admin.FirstOtherThanModelPrefix | headless_cms/admin.py:101-102 | Once earlier links do not match and link i does, link i's target is the one found. |
| Admin.LastOtherThanModelSuffix | headless_cms/admin.py:90-91 | When link i is a considered link to another model and no later link is, link i's target is the one found. |
| Admin.LastOtherThanModelNone | headless_cms/admin.py:79-91 | Nothing is found iff no link is a considered link to a model other than the page's. |
| Admin.InlineFor | headless_cms/admin.py:489-517 | The inline is generic iff the field is a generic relation and is named after its model with "Inline". For an M2M field its model is the through model, it is sortable iff that model is an `M2MSortedOrderThrough`, and its `fk_name` is the through model's. For a generic relation its model is the related model, it is sortable iff that model is a `SortableGenericBaseModel`, and it has no `fk_name`. |
| Admin.BuildAdmin | headless_cms/admin.py:530-581 | The loop body of `auto_admins` builds the generated admin class of the model. |
| Admin.InlinesFromFields | headless_cms/admin.py:537-566 | Every inline comes from a field that asks for one, and every such field has its inline. |
| Admin.AdminForShape | headless_cms/admin.py:537-581 | The admin excludes exactly the M2M fields to localized publication models, and slugs are read-only. Inlines come from fields. `SortableAdminBase` is present iff a field asks for sorting, and then it comes first. The version admin is always a base; `SingletonModelAdmin` is a base iff the model is a singleton. |
| Admin.AdminSite.Register | headless_cms/admin.py:582 | Registering a new model adds its admin; registering a model twice raises `AlreadyRegistered` and leaves the registry unchanged. |
| Admin.AdminSite.AutoAdmins | headless_cms/admin.py:521-582 | `auto_admins` registers the generated admins in order and stops at the first model that is already registered. |
| Admin.AutoAdminsRegistersAll | headless_cms/admin.py:530-582 | Distinct models not yet registered all get their generated admin, and earlier registrations are untouched. |
| Admin.AutoAdminsTwiceFails | headless_cms/admin.py:530-582 | Listing a model twice fails on the second entry. |
| PrefetchRelations.CalculatePrefetchRelationLists | headless_cms/utils/relations.py:6-45 | The recursive loop builds the lookups of the recursive specification (`fetched_models` defaults to the model). |
| PrefetchRelations.ContributionsSnoc | headless_cms/utils/relations.py:15-43 | A field's lookups are appended after those of the fields before it. |
| PrefetchRelations.ContributionsRooted | headless_cms/utils/relations.py:15-43 | Every lookup starts at a followed field. A bare name is prefetched only for a to-many field and selected only for a to-one field. Every select goes through a to-one field. |
| PrefetchRelations.PrefixedStarts | headless_cms/utils/relations.py:29-42 | Every prefixed child lookup starts with the field name and `__`. |
| PrefetchRelations.ExpandRooted | headless_cms/utils/relations.py:11-43 | The select list starts with `published_version`, and every other lookup starts at a followed field of the model. |
| PrefetchRelations.SkippedFieldsAddNothing | headless_cms/utils/relations.py:16-24 | Fields that are passed over, including those back to a model already on the path, add no lookup. |
| PrefetchRelations.FollowedFieldsAddTheirName | headless_cms/utils/relations.py:16-43 | Every field that is not passed over adds its own name: as a prefetch when it is to-many, as a select when it is to-one. |
| PrefetchRelations.ContributionsConcat | headless_cms/utils/relations.py:15-43 | The lookups of consecutive field lists are concatenated in field order. |
| TestApp.BlogPrefetchRelation | tests/test_utils/test_relations.py:8-34 | For the test app's `Blog`, the computed prefetch and select lookups are exactly those the test asserts. |
| BaseTranslate.BaseTranslateIsIdentity | headless_cms/auto_translate/base_translate.py:22-24 | The base `translate` returns its text for every language. |
| BaseTranslate.HandleTranslate | headless_cms/auto_translate/base_translate.py:30-32 | The translation is stored in exactly the requested language; every other language keeps its text. |
| BaseTranslate.Process | headless_cms/auto_translate/base_translate.py:51-80 | `process` gives the saved instance, or the exception, and the saves made in order, as the specification does. |
| BaseTranslate.TranslateField | headless_cms/auto_translate/base_translate.py:59-79 | One field of the loop is handled as the specification says. |
| BaseTranslate.ProcessChildren | headless_cms/auto_translate/base_translate.py:74-79 | Each generic child is processed by a new translator with the same `force`. |
| BaseTranslate.TranslateEach | headless_cms/auto_translate/base_translate.py:67-73 | The per-language loop matches the specification and stops at the first exception. |
| BaseTranslate.HandleBatchTranslate | headless_cms/auto_translate/base_translate.py:34-49 | `_handle_batch_translate` matches the batch specification. |
| BaseTranslate.CollectTargets | headless_cms/auto_translate/base_translate.py:37-43 | The collected languages are the targets in `LANGUAGES` order. |
| BaseTranslate.SetAll | headless_cms/auto_translate/base_translate.py:48-49 | The zip loop stores each answer in its own language. |
| BaseTranslate.TargetsMembership | headless_cms/auto_translate/base_translate.py:37-43 | A language is collected iff it is listed, is not the base language, and is empty or forced; none is collected twice. |
| BaseTranslate.TargetsIgnoreOthers | headless_cms/auto_translate/base_translate.py:37-43 | Writing an unlisted language does not change what is collected. |
| BaseTranslate.TranslateLangsEffect | headless_cms/auto_translate/base_translate.py:67-73 | In per-field mode each target language gets its translation and every other language keeps its text. The field raises iff translating a target raises. |
| BaseTranslate.ZipEffect | headless_cms/auto_translate/base_translate.py:48-49 | Each language gets its own answer and every other language keeps its text. |
| BaseTranslate.BatchEffect | headless_cms/auto_translate/base_translate.py:34-49 | An exception from the batch call propagates, and an answer of the wrong length changes nothing. Otherwise the i-th answer goes to the i-th target and nothing else changes. |
| BaseTranslate.TranslateLangsKeepsBase | headless_cms/auto_translate/base_translate.py:67-73 | The per-language loop never writes the base language. |
| BaseTranslate.ProcessKeepsBaseLanguage | headless_cms/auto_translate/base_translate.py:59-80 | The saved instance has the same fields, each localized one with its base-language text. |
| BaseTranslate.FilledFieldUnchanged | headless_cms/auto_translate/base_translate.py:67-73 | Without `force`, a field whose every language has text collects no target and is left alone. |
| BaseTranslate.NoTargets | headless_cms/auto_translate/base_translate.py:37-43 | When every language has text and `force` is off, nothing is collected. |
| BaseTranslate.NothingToTranslate | headless_cms/auto_translate/base_translate.py:67-73 | When every language has text and `force` is off, the per-language loop changes nothing. |
| BaseTranslate.ProcessSaves | headless_cms/auto_translate/base_translate.py:74-80 | A walk that completes makes one save per reached instance, and its last save is the instance returned. |
| BaseTranslate.ProcessCompletes | headless_cms/auto_translate/base_translate.py:51-80 | With a translator that never raises, the whole walk completes. |
| BaseTranslate.BaseProcessCompletes | headless_cms/auto_translate/base_translate.py:22-24 | `BaseTranslate(...).process(force)` completes, and each target language receives the base-language text. |
| OpenAITranslate.Translate | headless_cms/auto_translate/openai_translate.py:38-49 | `translate` returns the first choice of the reply to the language's request. It raises when the call raises or the reply has no choice. |
| OpenAITranslate.PlaceholderReplaced | headless_cms/auto_translate/openai_translate.py:40 | Replacing `{lang}` puts the language exactly where the placeholder stood. |
| OpenAITranslate.ChatGptTranslate | headless_cms/auto_translate/openai_translate.py:51-59 | A JSON-mode request at temperature 0.7 whose reply has a choice gives that first choice parsed as JSON (its parse error included). A failed request raises, and a reply without a choice raises `IndexError`. |
| OpenAITranslate.Langs | headless_cms/auto_translate/openai_translate.py:71-74 | The languages are the batch's keys, in order. |
| OpenAITranslate.Prompts | headless_cms/auto_translate/openai_translate.py:72-85 | There is one two-message prompt per language: the batch system prompt for it, then the JSON of its object. |
| OpenAITranslate.BatchTranslate | headless_cms/auto_translate/openai_translate.py:70-93 | `batch_translate` sends one prompt per language and keys the answers by position. |
| OpenAITranslate.AsyncTranslate | headless_cms/auto_translate/openai_translate.py:61-68 | `_async_translate` gives the answers in prompt order, or the first exception. |
| OpenAITranslate.GatherEffect | headless_cms/auto_translate/openai_translate.py:61-68 | Gathering succeeds iff every call succeeds, and then the i-th answer is the reply to the i-th prompt. |
| OpenAITranslate.CollectEffect | headless_cms/auto_translate/openai_translate.py:91 | The dict comprehension maps the i-th language to the i-th answer. |
| OpenAITranslate.BatchResultCorrelates | headless_cms/auto_translate/openai_translate.py:70-93 | The result has exactly the batch's languages, each mapped to the parsed reply to its own prompt; it raises iff a call raises. |
| OpenAITranslate.OpenAIProcessRaises | headless_cms/auto_translate/base_translate.py:44 | `OpenAITranslate(...).process()` raises as soon as any localized field has base-language text. |
| OpenAITranslate.FieldsToTranslateNames | tests/test_translation/test_base_translation.py:49-58 | Every key of a language's object is the name of one of the fields. |
| OpenAITranslate.FieldsToTranslateMembership | tests/test_translation/test_base_translation.py:49-58 | With unique names, a field is in a language's object iff it is wanted, and then it carries its base-language text. |
| OpenAITranslate.DictRequestEntries | tests/test_translation/test_base_translation.py:55-60 | Every entry of the corrected batch is a listed, non-base language with the object of the fields it needs. |
| OpenAITranslate.DictRequestDistinct | tests/test_translation/test_base_translation.py:55-60 | The corrected batch has no language twice. |
| OpenAITranslate.DictRequestCovers | tests/test_translation/test_base_translation.py:55-60 | Every language that needs a field is in the corrected batch. |
| OpenAITranslate.ApplyEffect | tests/test_translation/test_base_translation.py:64-73 | Storing the answers sets each language to the answers that name the field and keeps every other language. |
| OpenAITranslate.CorrectedBatchCompletes | tests/test_translation/test_base_translation.py:39-73 | With a client that answers, the corrected batch path completes and stores each language's answers. |
| OpenAITranslate.CorrectedBatchTranslates | tests/test_translation/test_base_translation.py:62-73 | The corrected path never writes the base language and fills each needed field with its language's answer. |
| CleanOutdatedDrafts.CandidatesMeaning | headless_cms/core/management/commands/clean_outdated_drafts.py:45-66 | A revision is collected iff it holds a version of a published row of a cleaned model that is older than that row's published version. |
| CleanOutdatedDrafts.RowsMeaning | headless_cms/core/management/commands/clean_outdated_drafts.py:53-63 | The revisions of one model's published rows are exactly those of their versions older than the published one. |
| CleanOutdatedDrafts.Handle | headless_cms/core/management/commands/clean_outdated_drafts.py:36-82 | `handle` deletes exactly the selection: the collected revisions created before now minus the days. |
| CleanOutdatedDrafts.PublishedRowsRevisions | headless_cms/core/management/commands/clean_outdated_drafts.py:53-63 | The inner loop collects the revisions of the rows' older versions. |
| CleanOutdatedDrafts.NothingToCleanDeletesNothing | headless_cms/core/management/commands/clean_outdated_drafts.py:67-77 | Without a localized publication model among the selected models, nothing is deleted. |
| CleanOutdatedDrafts.MoreDaysDeleteLess | headless_cms/core/management/commands/clean_outdated_drafts.py:68-73 | Deleted revisions are older than the cut-off, and a larger `--days` never deletes more. |
| CleanOutdatedDrafts.Keep | headless_cms/core/management/commands/clean_outdated_drafts.py:82 | Deleting revisions removes exactly their versions. |
| CleanOutdatedDrafts.KeepRevisions | headless_cms/core/management/commands/clean_outdated_drafts.py:82 | Deleting revisions removes exactly the selected revisions. |
| CleanOutdatedDrafts.ClearPointers | headless_cms/core/management/commands/clean_outdated_drafts.py:82 | A row whose published version was deleted loses its pointer, and the other rows keep theirs. |
| CleanOutdatedDrafts.OwnPublishedVersionSurvives | headless_cms/core/management/commands/clean_outdated_drafts.py:58-63 | A row's own older drafts never take its published version with them. |
| CleanOutdatedDrafts.PostCandidates | tests/test_commands/test_clean_outdated_drafts.py:10-26 | For the test's post, the two drafts older than the published snapshot are selected. |
| CleanOutdatedDrafts.CleanPostScenario | tests/test_commands/test_clean_outdated_drafts.py:10-24 | With `--days 0`, the command selects exactly the revisions of the post's two older drafts. |
| CleanOutdatedDrafts.CleanPostLeavesTwo | tests/test_commands/test_clean_outdated_drafts.py:24-28 | Cleaning leaves two versions of the post. |
| CleanOutdatedDrafts.SharedRevisionUnpublishes | headless_cms/core/management/commands/clean_outdated_drafts.py:58-82 | As written, cleaning one row's older draft can delete a revision shared with another row's published snapshot, and that unpublishes the other row. |
| CleanOutdatedDrafts.SafeSelectionKeepsPublished | headless_cms/core/management/commands/clean_outdated_drafts.py:58-82 | Sparing revisions that hold any row's published snapshot deletes a subset of the command's selection and keeps the published pointer of every row of every model, selected or not. |
| DataCommands.ThroughListMembers | headless_cms/core/management/commands/import_cms_data.py:65-76 | A model is in the through list iff some followed M2M field goes through it. |
| DataCommands.ModelFile | headless_cms/core/management/commands/import_cms_data.py:81-85 | A model's file lies under `data_dir/app_label/`. |
| DataCommands.ModelFileInjective | headless_cms/core/management/commands/export_cms_data.py:87-89 | Different models have different files when their labels contain no separator. |
| DataCommands.Selected | headless_cms/core/management/commands/import_cms_data.py:143-147 | The models `handle` starts from are exactly the given models that are localized publication models. |
| DataCommands.DiscoveredReachable | headless_cms/core/management/commands/import_cms_data.py:59-99 | Every model a walk entered is a root, or lies a bounded number of followed relations or through models away from one. |
| ImportCmsData.Importer.ImportModel | headless_cms/core/management/commands/import_cms_data.py:59-99 | On any registry: a model already entered returns at once, succeeding with nothing changed. Otherwise the model is entered. A failure means some entered model's file is present and rejected by the row import. On success the model is finished (in the walk's log) unless it was on the stack, the walk only appends models not imported before, and the stack is as it was. On a layered registry the log stays in dependency order. |
| ImportCmsData.Importer.Enter | headless_cms/core/management/commands/import_cms_data.py:60-62 | `imported_models.add(model)` puts a model reached from a root on the stack, and every model entered stays reachable. |
| ImportCmsData.Importer.ImportEntered | headless_cms/core/management/commands/import_cms_data.py:63-99 | Once entered, the import fails only when some entered model's present file is rejected. On success it finishes the model, pops it from the stack and appends only models new to the walk. |
| ImportCmsData.Importer.LoadOwnFile | headless_cms/core/management/commands/import_cms_data.py:81-96 | The load fails iff the model's file exists and the import rejects it. A successful load appends the model to the walk and records its file when the directory holds it. |
| ImportCmsData.Importer.ImportTargets | headless_cms/core/management/commands/import_cms_data.py:65-76 | The field loop fails only when some entered model's present file is rejected. On success the through models collected are `ThroughList` of the fields, and on a layered registry every followed related model is finished. |
| ImportCmsData.Importer.ImportRelated | headless_cms/core/management/commands/import_cms_data.py:66-76 | Importing one followed relation fails only on a rejected present file. On success the related model is imported (finished, on a layered registry) and the walk's invariants are kept. |
| ImportCmsData.Importer.ImportThroughs | headless_cms/core/management/commands/import_cms_data.py:98-99 | Importing the collected through models after the model's own file fails only on a rejected present file. On success it imports every one of them, keeps the walk's invariants and only appends new models. |
| ImportCmsData.Importer.ImportThrough | headless_cms/core/management/commands/import_cms_data.py:98-99 | One through model is imported while its owner is finished. The import fails only on a rejected present file, and on success the walk's invariants are kept. |
| ImportCmsData.Importer.Handle | headless_cms/core/management/commands/import_cms_data.py:137-147 | The walk starts from exactly the selected localized publication models; the others are skipped. The command fails iff some model it entered has a present file that the row import rejects, so it succeeds when every file is accepted. Failure commits nothing. Success commits all loaded files and imports every model entered exactly once, each a root or reached from a model entered before it, and on a layered registry in dependency order. |
| ImportCmsData.Importer.ImportRoot | headless_cms/core/management/commands/import_cms_data.py:143-147 | A selected model imported with an empty stack fails only on a rejected present file. On success it is finished and nothing already finished is lost. |
| ImportCmsData.Importer.ImportRoots | headless_cms/core/management/commands/import_cms_data.py:143-147 | The loop of `handle` fails only when some entered model's present file is rejected. On success every selected model is finished. |
| ImportCmsData.Importer.ImportAll | headless_cms/core/management/commands/import_cms_data.py:142-147 | The walk starts from the selected models and fails only on a rejected present file. On success every model entered is finished, the selected ones among them. |
| ImportCmsData.ImportWalkMeaning | headless_cms/core/management/commands/import_cms_data.py:59-99 | No model is imported twice, and every model comes after the models it refers to. |
| ImportCmsData.LastSegment | headless_cms/core/management/commands/import_cms_data.py:111 | `rsplit("/", 1)[-1]` is the text after the last `/` and contains no `/`. |
| ImportCmsData.CheckInputPath | headless_cms/core/management/commands/import_cms_data.py:101-121 | A non-https input is kept. A download succeeds iff its name contains ".": the header's `filename` parameter when a header is set (a header without one raises `KeyError`), else the last URL segment. It is then saved under `temp_import/<name>`. Any other refusal is `ValueError`. |
| ImportCmsData.DownloadNames | headless_cms/core/management/commands/import_cms_data.py:105-114 | A header's file name is used as is, and a URL ending in "/" without a header is refused. |
| ExportCmsData.Outputs | headless_cms/core/management/commands/export_cms_data.py:87-96 | One file per model of the walk. |
| ExportCmsData.OutputsMeaning | headless_cms/core/management/commands/export_cms_data.py:87-96 | The i-th file holds the i-th model of the walk, at its own `app_label/ObjectName.json` under the data directory, in the chosen format. |
| ExportCmsData.Exporter.ExportModel | headless_cms/core/management/commands/export_cms_data.py:63-96 | On any registry: a model already entered returns at once with the walk's state unchanged. Otherwise the model is entered and, unless it was on the stack, its file is written. The walk only appends models not exported before and leaves the stack as it was. On a layered registry with plain through models, the log stays in dependency order. |
| ExportCmsData.Exporter.Enter | headless_cms/core/management/commands/export_cms_data.py:64-66 | `exported_models.add(model)` puts a model reached from a root on the stack, and every model entered stays reachable. |
| ExportCmsData.Exporter.ExportEntered | headless_cms/core/management/commands/export_cms_data.py:67-96 | Once entered, the model's file is written after its fields are walked; it is popped from the stack and only models new to the walk are appended. |
| ExportCmsData.Exporter.ExportFields | headless_cms/core/management/commands/export_cms_data.py:68-78 | On a layered registry with plain through models, the field loop leaves the through models of the M2M fields written, and every related model too when the model was entered below the whole stack. |
| ExportCmsData.Exporter.ExportField | headless_cms/core/management/commands/export_cms_data.py:69-78 | One field leaves its through model written when it is a followed M2M field on such a registry, and its related model written when the model was entered below the whole stack. |
| ExportCmsData.Exporter.ExportStep | headless_cms/core/management/commands/export_cms_data.py:72-76 | One nested call on a related model keeps the caller's state and, from `handle`, leaves that model written. |
| ExportCmsData.Exporter.ExportThrough | headless_cms/core/management/commands/export_cms_data.py:77-78 | On a layered registry with plain through models, the through model of a followed M2M field is written while its owner is on top of the stack. |
| ExportCmsData.Exporter.WriteOwnFile | headless_cms/core/management/commands/export_cms_data.py:80-96 | The model's file is appended to the written files at `app_label/ObjectName.json` under the data directory, in the chosen format. |
| ExportCmsData.Exporter.Handle | headless_cms/core/management/commands/export_cms_data.py:98-129 | Every selected localized publication model is exported under `output/<time>`; the others are skipped, and the walk starts from exactly them. Each model entered is written once, each a root or reached from a model entered before it; on a layered registry with plain through models, in dependency order. With compression the files are compact, the directory is archived and then removed. |
| ExportCmsData.Exporter.ExportRoot | headless_cms/core/management/commands/export_cms_data.py:112-116 | A selected model exported with an empty stack is written, and nothing already written is lost. |
| ExportCmsData.Exporter.ExportRoots | headless_cms/core/management/commands/export_cms_data.py:112-116 | The loop of `handle` writes every selected model. |
| ExportCmsData.Exporter.ExportAll | headless_cms/core/management/commands/export_cms_data.py:112-116 | The walk starts from exactly the selected models, and every model entered is written, the selected ones among them. |
| ExportCmsData.ExportWalkMeaning | headless_cms/core/management/commands/export_cms_data.py:63-96 | No model is written twice. Every model comes after what it refers to and after its through models; a through model may precede its owner. |
| ExportCmsData.ThroughTargets | headless_cms/core/management/commands/export_cms_data.py:73-78 | A through model's targets are written before it, or are on the stack. |
| ExportCmsData.ExportedOnce | headless_cms/core/management/commands/export_cms_data.py:63-66 | Each model is exported at most once; with distinct labels no file is written twice. |
| ExportCmsData.OutputsUnderDataDir | headless_cms/core/management/commands/export_cms_data.py:87-101 | Every file lies in the timestamped directory, under its app label. |
| PreprocessingHooks.PreprocessingFilterSpec | headless_cms/schema/preprocessing_hooks.py:1-7 | The loop appends every tuple whose view class contains "CMS", unchanged and in order. |
| PreprocessingHooks.CmsEndpointsMembers | headless_cms/schema/preprocessing_hooks.py:3-6 | A tuple is in the output iff it is in the input and its view class contains "CMS". |
| PreprocessingHooks.CmsEndpointsOrdered | headless_cms/schema/preprocessing_hooks.py:3-6 | The output is a subsequence of the input, so the kept tuples keep their relative order. |
| PreprocessingHooks.CmsEndpointsIdempotent | headless_cms/schema/preprocessing_hooks.py:1-7 | Filtering twice is filtering once. |
| Markdown.FindFrom | headless_cms/utils/markdown.py:11 | The search position found lies between the start and the end. |
| Markdown.FindFromOccurs | headless_cms/utils/markdown.py:11 | What is found is an occurrence of the pattern. |
| Markdown.FindFromFirst | headless_cms/utils/markdown.py:11 | No occurrence lies between the start and the one found, and there is none when nothing is found. |
| Markdown.Span | headless_cms/utils/markdown.py:11 | The next span's closing tag comes after its opening tag. |
| Markdown.MatchesFound | headless_cms/utils/markdown.py:11-12 | Every match sits in a complete span of the text and contains no closing tag. |
| Markdown.HeadFound | headless_cms/utils/markdown.py:11 | The text between the delimiters of a span is found. |
| Markdown.NoCloseInside | headless_cms/utils/markdown.py:11 | The non-greedy match stops at the first closing tag after the opening one. |
| Markdown.PlaceholdersFound | headless_cms/utils/markdown.py:11-12 | Every placeholder sits in a complete `<getattr>…<getattr/>` tag of the text and runs to the first closing tag only. |
| Markdown.NoTagNoPlaceholder | headless_cms/utils/markdown.py:10-12 | A text without an opening tag has no placeholder. |
| Markdown.ReplacePlaceholder | headless_cms/utils/markdown.py:9-26 | Each distinct placeholder is resolved at most once, all of them when the call succeeds, and the result is the substitution in the order they were asked. The call raises iff some placeholder resolves to a truthy value that is not a string. A text without placeholders comes back unchanged. |
| Markdown.SubstituteEach | headless_cms/utils/markdown.py:13-24 | The set loop asks each placeholder at most once, all of them when it succeeds, and matches the substitution in the order it asked. It raises iff some placeholder resolves to a truthy non-string. |
| Markdown.SubstituteSnoc | headless_cms/utils/markdown.py:13-24 | One more placeholder continues the substitution from the text reached so far. |
| Markdown.AllFalsyUnchanged | headless_cms/utils/markdown.py:24 | When no placeholder resolves to a truthy value, the text comes back unchanged. |
| Markdown.UnresolvedKept | headless_cms/utils/markdown.py:22-24 | Without `show_invalid`, a text whose placeholders all fail to resolve is unchanged. |
| Markdown.UnresolvedMarked | headless_cms/utils/markdown.py:22-24 | With `show_invalid`, a placeholder that fails to resolve is replaced by "Invalid placeholder". |
| Markdown.SubstituteFails | headless_cms/utils/markdown.py:24 | The substitution raises iff some placeholder resolves to a truthy value that is not a string. |
| Markdown.CustomMarkdownify | headless_cms/utils/markdown.py:29-31 | Placeholders are substituted with `show_invalid` on, each asked at most once and all of them on success, then the result is rendered. The call raises iff some placeholder resolves to a truthy value that is not a string. |
| SerializerFields.TuplePrefix | headless_cms/serializer_fields.py:9 | The formatted tuple is the code and the name plus the ten characters of `/('', '')/`. |
| SerializerFields.TuplePrefixes | headless_cms/serializer_fields.py:9 | `LANGUAGE_PREFIXES` has one formatted tuple per configured language. |
| SerializerFields.CodePrefixes | headless_cms/serializer_fields.py:9 | The code prefixes are `/code/`, one per language. |
| SerializerFields.ActiveLanguage | headless_cms/serializer_fields.py:21 | The active language is used when it is set and non-empty; otherwise `LANGUAGE_CODE`. |
| SerializerFields.UrlRepresentation | headless_cms/serializer_fields.py:16-23 | A value not starting with "/", or starting with a prefix, is kept; any other gets "/" and the language in front. |
| SerializerFields.UrlKeepsValue | headless_cms/serializer_fields.py:16-23 | The result is the value, or the value behind `/language/`, so dropping the prefix recovers it. |
| SerializerFields.UrlIdempotent | headless_cms/serializer_fields.py:12-23 | With code prefixes, formatting a result again changes nothing. |
| SerializerFields.TuplePrefixesDoublePrefix | headless_cms/serializer_fields.py:9-23 | With the prefixes as written, "/en/about" becomes "/en/en/about"; with code prefixes it is kept. |
| SerializerFields.MartorRepresentation | headless_cms/serializer_fields.py:26-28 | The Martor field substitutes with `show_invalid` off, asking each placeholder at most once and all of them on success. It raises iff some placeholder resolves to a truthy non-string, and a text whose placeholders all fail is unchanged. |
| BooleanField.Lower | headless_cms/fields/boolean_field.py:20-22 | Lower-casing keeps the length and lowers each character. |
| BooleanField.Codes | headless_cms/fields/boolean_field.py:14 | The codes are the first items of `LANGUAGES`, in order. |
| BooleanField.ConvertLocalizedValue | headless_cms/fields/boolean_field.py:7-35 | The loop returns the conversion of the specification, including the first error raised. |
| BooleanField.ErrorPersists | headless_cms/fields/boolean_field.py:25-33 | Once a value raised, later languages are not looked at. |
| BooleanField.ConvertedEntries | headless_cms/fields/boolean_field.py:14-30 | After a successful conversion, a configured language is in the output iff its value is not None, and it maps to what its value converts to. |
| BooleanField.ConvertedFails | headless_cms/fields/boolean_field.py:17-33 | The conversion raises iff some configured language holds another string or a non-bool, non-str value. |
| BooleanField.ConvertedIgnoresOthers | headless_cms/fields/boolean_field.py:14-15 | Keys outside the configured languages are ignored. |
| BooleanField.ConvertOneExamples | headless_cms/fields/boolean_field.py:17-33 | "TRUE" gives True and "False" gives False. "yes" raises `ValueError`, and an int raises `TypeError`. |
| HashUtils.Combine | headless_cms/utils/hash_utils.py:35-45 | The combined hash is as long as the shorter of the two; `zip` drops the rest. |
| HashUtils.CombineCommutes | headless_cms/utils/hash_utils.py:45 | Combining is symmetric. |
| HashUtils.CombineCancels | headless_cms/utils/hash_utils.py:45 | Combining a digest in twice cancels it, up to the shorter length. |
| HashUtils.AccumulatedPresent | headless_cms/utils/hash_utils.py:55-62 | There is a hash exactly once some non-None data was fed. |
| HashUtils.AccumulatedLength | headless_cms/utils/hash_utils.py:58-62 | With fixed-length digests, the hash has that length. |
| HashUtils.AccumulatedBytes | headless_cms/utils/hash_utils.py:16-18 | Each byte of the hash is the XOR of that byte of the cumulative digests, since one hasher is reused. |
| HashUtils.Hex | headless_cms/utils/hash_utils.py:72 | `hex()` gives two lower-case hex digits per byte. |
| HashUtils.HexRoundTrip | headless_cms/utils/hash_utils.py:72 | Decoding the hex form gives back the bytes. |
| HashUtils.HashTracker.constructor | headless_cms/utils/hash_utils.py:6-21 | A new tracker has been fed exactly the initial data when there is some, and nothing otherwise; its hash is the one those updates build. |
| HashUtils.HashTracker.HashFunction | headless_cms/utils/hash_utils.py:23-33 | The data is fed to the hasher, and the digest covers everything fed so far. |
| HashUtils.HashTracker.UpdateHash | headless_cms/utils/hash_utils.py:47-62 | None changes nothing. Other data is fed; its digest becomes the hash, or is XOR-combined into it. |
| HashUtils.HashTracker.CurrentHash | headless_cms/utils/hash_utils.py:64-72 | The hex is present iff there is a non-empty hash. It has two lower-case hex digits per byte and decodes to the hash's bytes. |
| HashUtils.InitialDataIsAnUpdate | headless_cms/utils/hash_utils.py:20-21 | Constructing with data equals constructing empty and updating once; the hash is then the data's digest. |
| Settings.ApplyRecords | headless_cms/settings.py:22-28 | Applying records each attribute's previous value before overriding it, and records only patched attributes. |
| Settings.ApplySets | headless_cms/settings.py:22-28 | A successful apply sets every patched attribute to its converted value. |
| Settings.ApplyStops | headless_cms/settings.py:22-28 | Once an item raised, the later items are not applied. |
| Settings.ApplyClearRestores | headless_cms/settings.py:22-33 | One apply followed by a clear restores every attribute, also when the apply stopped part way. |
| Settings.NestedPatchLeaks | headless_cms/settings.py:30-53 | As written, nested blocks leave the outer patch in place after both are left. |
| Settings.NestedPatchUndoneEarly | headless_cms/settings.py:30-53 | As written, leaving the inner block undoes the outer patch while the outer block still runs. |
| Settings.NestedRestores | headless_cms/settings.py:43-53 | With one record per block, nested blocks restore innermost first and end with the original settings. |
| Settings.HeadlessCmsSettings.ApplyPatches | headless_cms/settings.py:22-28 | `apply_patches` leaves the state and outcome the specification gives. |
| Settings.HeadlessCmsSettings.ClearPatches | headless_cms/settings.py:30-33 | `clear_patches` puts every recorded value back and empties the record. |
| Settings.HeadlessCmsSettings.PatchedSettings | headless_cms/settings.py:43-53 | Falsy patches change nothing. Otherwise the block runs between apply and clear, and settings that started unpatched are restored. |
| Serializers.ToRepresentation | headless_cms/serializers.py:69-88 | No or empty published data gives None and leaves the instance alone. Otherwise the snapshot is copied onto it except relation attnames, and DRF serializes the result. |
| Serializers.OverlayStep | headless_cms/serializers.py:83-86 | Copying one more key updates it unless it is a relation attname. |
| Serializers.OverlayReadsSnapshot | headless_cms/serializers.py:83-86 | A snapshot key outside the relation attnames shows the snapshot's value; other attributes keep their live value. |
| Serializers.RepresentationUsesPublished | headless_cms/serializers.py:70-86 | An edit saved after publishing does not change what is shown. |
| Serializers.Meta.Init | headless_cms/serializers.py:90-102 | Without `fields`, `exclude` becomes the old exclusions, `published_version`, and the extra exclusions that name a model field; with `fields`, it is untouched. |
| Serializers.CompletedExclude | headless_cms/serializers.py:92-101 | `published_version` is always excluded. |
| Serializers.CompletedExcludeMembers | headless_cms/serializers.py:92-101 | A name is excluded iff it was excluded, is `published_version`, or is an extra exclusion that names a model field. |
| Serializers.CompletedExcludeIdempotent | headless_cms/serializers.py:93-101 | Constructing a second time yields the same exclusions. |
| Serializers.GetSrc | headless_cms/serializers.py:143-157 | A truthy file gives its absolute URL; else a set `src_url` gives its translation; else None. |
| Serializers.SrcPrefersFile | headless_cms/serializers.py:153-157 | The file wins over the URL whenever there is one. |
| Serializers.AutoSerializer | headless_cms/serializers.py:167-232 | The class is named after the model and serves it. Its base is the dynamic-file serializer iff the model is a dynamic-file model. A model among its ancestors gets only the overrides. |
| Serializers.Entry | headless_cms/serializers.py:196-217 | A classified field is nested iff it targets a localized publication model and is no self-M2M. A nested entry serves the related model and is many iff the field is not a foreign key. |
| Serializers.BuildSerializer | headless_cms/serializers.py:167-232 | The recursive loop builds the class of the specification. |
| Serializers.RelationsEntries | headless_cms/serializers.py:195-217 | Every classified field has its attribute with its entry, and there are no other attributes. |
| Serializers.AncestorNotExpanded | headless_cms/serializers.py:187-220 | A model already among its ancestors gets no nested serializer, only the overrides. |
| Serializers.AutoSerializerFields | headless_cms/serializers.py:187-220 | For a new model each classified field gets its attribute, built with the model among the ancestors, and the overrides win. |
| Serializers.SelfRelationIsMethod | headless_cms/serializers.py:203-210 | A self-M2M field is served by a `get_<name>` method, never a nested serializer. |
| Serializers.AutoSerializerTop | headless_cms/serializers.py:235-257 | `auto_serializer` starts with no ancestors, so the model's own relations are always generated. |

## Left out

- I/O is left out: file reads and writes, `urlopen`/`urlretrieve`, archives, `mkdir`, `rmtree`, stdout messages and verbosity. The commands record which files they would load or write, with their paths and formats.
- tablib and django-import-export datasets are left out: the row import is a parameter that accepts or rejects a file. So the import-then-export round trip of the tests is not modelled.
- The database, its transactions and `SET_NULL` cascades are modelled only as state: lists of rows, versions and revisions, and a committed/pending split for the import's transaction.
- The bodies of `publish`, `unpublish`, `recursively_publish`, `translate` and `recursively_translate` are not part of this model. The admin model records only which of them is called.
- `asyncio` is left out: the executor fan-out is an order-preserving map over the client.
- The OpenAI client and `json` are parameters. The prompts' literal text is kept only around the `{lang}` placeholder.
- hashlib is left out: the algorithm is a digest function of everything fed so far.
- `str(new_data)` of non-string data is not modelled.
- `literal_eval`, app and model lookup, and `getattr` in placeholder resolution are one resolver parameter. martor's `markdownify` is a parameter.
- `gettext` is left out; messages are the untranslated strings.
- Python's set iteration order is unknown. The model chooses an order nondeterministically and proves its properties for every order: the placeholder set, the dict copy in `to_representation`, `clear_patches`.
- `lru_cache(maxsize=0)` caches nothing, so it is modelled as a plain call.
- Clocks are left out: `timezone.now()` and `datetime.now()` are parameters, and creation times are whole seconds.
- `Meta.exclude` is a set in the model; the source stores it as a list whose order comes from a set.
- DRF's field serialization is a parameter of `to_representation`.
- BooleanField.Lower: lower-cases ASCII letters only. No other character lowers to a letter of "true" or "false", so the comparisons agree with Python's `str.lower`.
- SerializerFields.StrRepr: quotes with `'` and does not escape quotes or backslashes in language names.
- Dependency order of the import and export logs is proved only on a layered registry: followed relations descend a rank (no cycle) and through models link only their two sides. For export, through models must also not be localized publication models themselves, or a selected through model is written before the model that owns it. The code checks none of this. Termination, at-most-once, reachability from the selected models and the skipping of other models are proved on every registry.
- UI code is not part of this model: widgets, forms, JavaScript, templates, `changelist_view` and `get_resource_classes`.

## Findings

| source | as written | input that shows it | evidently intended | confidence | as-written member | corrected member |
|---|---|---|---|---|---|---|
| headless_cms/serializer_fields.py:9 | `LANGUAGE_PREFIXES` formats each `(code, name)` entry of `LANGUAGES`, so a prefix is `/('en', 'English')/` | "/en/about" with `LANGUAGES = [("en", "English")]` becomes "/en/en/about" | prefixes `/en/`, so a prefixed URL is kept and formatting is idempotent | not executed | SerializerFields.TuplePrefixesDoublePrefix | SerializerFields.UrlIdempotent |
| headless_cms/settings.py:30-33 | `clear_patches` empties the single shared record, so an inner `patched_settings` block forgets the outer block's saved values | patch A inside a block that patched A; after both blocks A keeps the outer patch | each block restores what it found, innermost first | not executed | Settings.NestedPatchLeaks | Settings.NestedRestores |
| headless_cms/auto_translate/base_translate.py:44 | `process` calls `batch_translate(langs, text)`, but `OpenAITranslate.batch_translate` takes one dict | any instance with a localized field whose base-language text is set raises `TypeError` | one `{lang: {field: text}}` batch per instance, as the tests call it | not executed | OpenAITranslate.OpenAIProcessRaises | OpenAITranslate.CorrectedBatchTranslates |
| headless_cms/core/management/commands/clean_outdated_drafts.py:58-73 | a revision holding an older draft of one row is deleted even if it also holds another row's published version | a post and its child published in revision 1, then the post republished in revision 2: revision 1 is deleted and the child is unpublished | spare revisions that hold any row's published snapshot | not executed | CleanOutdatedDrafts.SharedRevisionUnpublishes | CleanOutdatedDrafts.SafeSelectionKeepsPublished |
