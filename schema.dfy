/** The part of Django's model metadata (`Model._meta.get_fields()`) that the
    CMS reads: each model's fields with their relation kind and target, and the
    CMS base classes each model inherits from. */
module Schema {
  import opened Common

  /** A model class, identified by its `app_label.ModelName`. */
  type ModelId = string

  /** The relation shape of a field, as Django reports it. */
  datatype Kind =
    | ForeignKey        // many_to_one or one_to_one forward field
    | ManyToMany        // many_to_many forward field (with a through model)
    | GenericRelation   // one_to_many, declared on the model
    | ReverseToOne      // the reverse side of a one-to-one field
    | ReverseToMany     // the reverse side of a foreign key or a many-to-many field
    | LocalizedText     // a localized field that is not a slug
    | LocalizedSlug     // LocalizedUniqueNormalizedSlugField
    | Plain             // any other concrete field

  /** One entry of `get_fields()`. `model` is Django's `field.model`, which for a
      reverse relation is the model the relation is reported on. */
  datatype Field = Field(
    name: string,
    kind: Kind,
    autoCreated: bool,
    concrete: bool,
    related: Option<ModelId>,
    relatedName: Option<string>,
    through: Option<ModelId>,
    model: ModelId)

  /** The CMS base classes a model can inherit from. */
  datatype Base =
    | PublicationModel
    | LocalizedPublicationModel
    | LocalizedModel
    | LocalizedDynamicFileModel
    | LocalizedSingletonModel
    | M2MSortedOrderThrough
    | SortableGenericBaseModel

  /** A model: its label parts, every CMS base class it is a subclass of
      (directly or not), its fields in `get_fields()` order, the model that
      created it when it is an automatic many-to-many through model
      (`_meta.auto_created`), and its `fk_name` class attribute, if any. */
  datatype ModelInfo = ModelInfo(
    appLabel: string,
    objectName: string,
    bases: set<Base>,
    fields: seq<Field>,
    autoCreatedBy: Option<ModelId>,
    fkName: Option<string>)

  type Registry = map<ModelId, ModelInfo>

  /** `issubclass(model, base)`; a model outside the registry is no CMS model. */
  predicate IsSubclass(r: Registry, m: ModelId, b: Base) {
    m in r && b in r[m].bases
  }

  /** `field.related_model` is a subclass of `b`. */
  predicate RelatedIs(r: Registry, f: Field, b: Base) {
    f.related.Some? && IsSubclass(r, f.related.value, b)
  }

  predicate IsRelation(f: Field) {
    f.kind in {ForeignKey, ManyToMany, GenericRelation, ReverseToOne, ReverseToMany}
  }

  /** `f.many_to_many or f.one_to_many`. */
  predicate IsToMany(f: Field) {
    f.kind in {ManyToMany, GenericRelation, ReverseToMany}
  }

  predicate IsLocalized(f: Field) {
    f.kind in {LocalizedText, LocalizedSlug}
  }

  /** What Django guarantees of field metadata and of the CMS class hierarchy:
      relation fields and only they have a related model, many-to-many fields
      have a through model that is itself a registered model, every related
      model is registered, and a localized publication model is a publication
      model. */
  predicate WellFormedField(r: Registry, f: Field) {
    (IsRelation(f) <==> f.related.Some?)
    && (f.related.Some? ==> f.related.value in r)
    && (f.kind == ManyToMany <==> f.through.Some?)
    && (f.through.Some? ==> f.through.value in r)
  }

  predicate WellFormed(r: Registry) {
    forall m :: m in r ==>
      (LocalizedPublicationModel in r[m].bases ==> PublicationModel in r[m].bases)
      && (forall f :: f in r[m].fields ==> WellFormedField(r, f))
  }
}
