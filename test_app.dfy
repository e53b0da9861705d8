/** The models of the repository's test application (tests/test_app/models.py)
    as field metadata, and the lookups `calculate_prefetch_relation` computes
    for its `Blog` model. */
module TestApp {
  import opened Common
  import opened Schema
  import opened PrefetchRelations

  const Version: ModelId := "Version"
  const ContentType: ModelId := "ContentType"
  const Item: ModelId := "Item"
  const Post: ModelId := "Post"
  const Category: ModelId := "Category"
  const PostTag: ModelId := "PostTag"
  const Article: ModelId := "Article"
  const ArticleImage: ModelId := "ArticleImage"
  const ArticleImageThrough: ModelId := "ArticleImageThrough"
  const Blog: ModelId := "Blog"
  const BlogPosts: ModelId := "Blog_posts"
  const BlogArticles: ModelId := "Blog_articles"
  const Domain: ModelId := "Domain"

  const PublicationBases: set<Base> := {PublicationModel, LocalizedPublicationModel, LocalizedModel}

  function Concrete(name: string, model: ModelId, kind: Kind): Field {
    Field(name, kind, false, true, None, None, None, model)
  }

  function ForeignKeyTo(name: string, model: ModelId, to: ModelId, relatedName: Option<string>): Field {
    Field(name, ForeignKey, false, true, Some(to), relatedName, None, model)
  }

  function ManyToManyTo(name: string, model: ModelId, to: ModelId, relatedName: Option<string>, through: ModelId): Field {
    Field(name, ManyToMany, false, true, Some(to), relatedName, Some(through), model)
  }

  function GenericRelationTo(name: string, model: ModelId, to: ModelId): Field {
    Field(name, GenericRelation, false, false, Some(to), None, None, model)
  }

  /** The reverse side of a relation declared on `from`, reported on `model`. */
  function Reverse(name: string, model: ModelId, from: ModelId, relatedName: Option<string>): Field {
    Field(name, ReverseToMany, true, false, Some(from), relatedName, None, model)
  }

  /** The concrete fields every publication model inherits. Field lists
      follow `get_fields()`: reverse relations, then concrete fields, then
      many-to-many fields, then private fields such as generic relations. */
  function PublicationFields(model: ModelId): seq<Field> {
    [ Concrete("id", model, Plain),
      ForeignKeyTo("published_version", model, Version, None) ]
  }

  /** `PublicationModel.versions`, a private field. */
  function VersionsField(model: ModelId): Field {
    GenericRelationTo("versions", model, Version)
  }

  /** A `LocalizedTitleSlugModel` with one reverse relation and no fields of its own. */
  function TitleSlugModelFields(model: ModelId, reverse: Field): seq<Field> {
    [reverse] + TitleSlugFields(model) + [VersionsField(model)]
  }

  /** Fields of `LocalizedTitleSlugModel`. */
  function TitleSlugFields(model: ModelId): seq<Field> {
    PublicationFields(model) + [Concrete("title", model, LocalizedText), Concrete("slug", model, LocalizedSlug)]
  }

  /** Concrete fields of the abstract `News` model; its `items` generic
      relation is private and comes after the subclass's fields. */
  function NewsFields(model: ModelId): seq<Field> {
    PublicationFields(model)
    + [ Concrete("title", model, LocalizedText),
        Concrete("subtitle", model, LocalizedText) ]
  }

  function ItemFields(): seq<Field> {
    PublicationFields(Item)
    + [ ForeignKeyTo("content_type", Item, ContentType, None),
        Concrete("object_id", Item, Plain),
        Concrete("title", Item, LocalizedText),
        Concrete("description", Item, LocalizedText),
        Concrete("icon", Item, Plain),
        VersionsField(Item) ]
  }

  function PostFields(): seq<Field> {
    [ Reverse("blog", Post, Blog, None) ]
    + NewsFields(Post)
    + [ Concrete("description", Post, LocalizedText),
        Concrete("body", Post, LocalizedText),
        Concrete("href", Post, LocalizedText),
        ForeignKeyTo("category", Post, Category, Some("posts")),
        ManyToManyTo("tags", Post, PostTag, Some("posts"), "Post_tags"),
        VersionsField(Post),
        GenericRelationTo("items", Post, Item) ]
  }

  function ArticleFields(): seq<Field> {
    [ Reverse("blog", Article, Blog, None),
      Reverse("articleimagethrough", Article, ArticleImageThrough, None) ]
    + NewsFields(Article)
    + [ Concrete("story", Article, LocalizedText),
        ManyToManyTo("images", Article, ArticleImage, None, ArticleImageThrough),
        VersionsField(Article),
        GenericRelationTo("items", Article, Item) ]
  }

  function ArticleImageFields(): seq<Field> {
    [ Reverse("article", ArticleImage, Article, None),
      Reverse("articleimagethrough", ArticleImage, ArticleImageThrough, None) ]
    + PublicationFields(ArticleImage) + [VersionsField(ArticleImage)]
  }

  function ArticleImageThroughFields(): seq<Field> {
    [ Concrete("id", ArticleImageThrough, Plain),
      Concrete("position", ArticleImageThrough, Plain),
      ForeignKeyTo("article", ArticleImageThrough, Article, None),
      ForeignKeyTo("article_image", ArticleImageThrough, ArticleImage, None) ]
  }

  function BlogFields(): seq<Field> {
    TitleSlugFields(Blog)
    + [ Concrete("name", Blog, LocalizedText),
        ForeignKeyTo("domain", Blog, Domain, Some("blog")),
        ManyToManyTo("posts", Blog, Post, None, BlogPosts),
        ManyToManyTo("articles", Blog, Article, None, BlogArticles),
        VersionsField(Blog) ]
  }

  function Models(): Registry {
    map[
      Item := ModelInfo("test_app", "Item", PublicationBases + {SortableGenericBaseModel}, ItemFields(), None, None),
      Post := ModelInfo("test_app", "Post", PublicationBases, PostFields(), None, None),
      Category := ModelInfo("test_app", "Category", PublicationBases,
        TitleSlugModelFields(Category, Reverse("posts", Category, Post, Some("posts"))), None, None),
      PostTag := ModelInfo("test_app", "PostTag", PublicationBases,
        TitleSlugModelFields(PostTag, Reverse("posts", PostTag, Post, Some("posts"))), None, None),
      Article := ModelInfo("test_app", "Article", PublicationBases, ArticleFields(), None, None),
      ArticleImage := ModelInfo("test_app", "ArticleImage", PublicationBases + {LocalizedDynamicFileModel},
        ArticleImageFields(), None, None),
      ArticleImageThrough := ModelInfo("test_app", "ArticleImageThrough", {M2MSortedOrderThrough},
        ArticleImageThroughFields(), None, None),
      Blog := ModelInfo("test_app", "Blog", PublicationBases, BlogFields(), None, None),
      Domain := ModelInfo("test_app", "Domain", PublicationBases,
        TitleSlugModelFields(Domain, Reverse("blog", Domain, Blog, Some("blog"))), None, None)
    ]
  }

  const PV: seq<string> := ["published_version"]

  /** The stored metadata of each model the Blog walk visits. */
  lemma Stored()
    ensures Models()[Item].fields == ItemFields()
    ensures Models()[Post].fields == PostFields()
    ensures Models()[Category].fields == TitleSlugModelFields(Category, Reverse("posts", Category, Post, Some("posts")))
    ensures Models()[PostTag].fields == TitleSlugModelFields(PostTag, Reverse("posts", PostTag, Post, Some("posts")))
    ensures Models()[Article].fields == ArticleFields()
    ensures Models()[ArticleImage].fields == ArticleImageFields()
    ensures Models()[Blog].fields == BlogFields()
    ensures Models()[Domain].fields == TitleSlugModelFields(Domain, Reverse("blog", Domain, Blog, Some("blog")))
    ensures Version !in Models() && ContentType !in Models()
  {
  }

  lemma Publications()
    ensures forall m :: m in {Item, Post, Category, PostTag, Article, ArticleImage, Blog, Domain} ==>
      IsSubclass(Models(), m, PublicationModel)
    ensures !IsSubclass(Models(), ArticleImageThrough, PublicationModel)
  {
  }

  /** A model whose every field is passed over selects only its own snapshot. */
  lemma Leaf(m: ModelId, fields: seq<Field>, fetched: set<ModelId>)
    requires m in Models() && Models()[m].fields == fields
    requires forall f :: f in fields ==> Skipped(Models(), f, fetched + {m})
    ensures Expand(Models(), m, fetched) == Paths([], PV)
  {
    SkippedFieldsAddNothing(Models(), fields, fetched + {m});
    assert ["published_version"] + [] == PV;
  }

  lemma ItemLeaf(fetched: set<ModelId>)
    ensures Expand(Models(), Item, fetched) == Paths([], PV)
  {
    Stored();
    forall f | f in ItemFields() ensures Skipped(Models(), f, fetched + {Item}) {}
    Leaf(Item, ItemFields(), fetched);
  }

  lemma PostTagLeaf(fetched: set<ModelId>)
    requires Post in fetched
    ensures Expand(Models(), PostTag, fetched) == Paths([], PV)
  {
    Stored();
    var fs := TitleSlugModelFields(PostTag, Reverse("posts", PostTag, Post, Some("posts")));
    forall f | f in fs ensures Skipped(Models(), f, fetched + {PostTag}) {}
    Leaf(PostTag, fs, fetched);
  }

  lemma CategoryLeaf(fetched: set<ModelId>)
    requires Post in fetched
    ensures Expand(Models(), Category, fetched) == Paths([], PV)
  {
    Stored();
    var fs := TitleSlugModelFields(Category, Reverse("posts", Category, Post, Some("posts")));
    forall f | f in fs ensures Skipped(Models(), f, fetched + {Category}) {}
    Leaf(Category, fs, fetched);
  }

  lemma ArticleImageLeaf(fetched: set<ModelId>)
    ensures Expand(Models(), ArticleImage, fetched) == Paths([], PV)
  {
    Stored();
    Publications();
    forall f | f in ArticleImageFields() ensures Skipped(Models(), f, fetched + {ArticleImage}) {}
    Leaf(ArticleImage, ArticleImageFields(), fetched);
  }

  lemma DomainLeaf(fetched: set<ModelId>)
    requires Blog in fetched
    ensures Expand(Models(), Domain, fetched) == Paths([], PV)
  {
    Stored();
    var fs := TitleSlugModelFields(Domain, Reverse("blog", Domain, Blog, Some("blog")));
    forall f | f in fs ensures Skipped(Models(), f, fetched + {Domain}) {}
    Leaf(Domain, fs, fetched);
  }

  /** A followed field adds its name and the related model's lookups. */
  lemma FollowedField(f: Field, fetched: set<ModelId>, child: Paths)
    requires !Skipped(Models(), f, fetched)
    requires Expand(Models(), f.related.value, fetched) == child
    ensures IsToMany(f) ==>
      Contributions(Models(), [f], fetched) == Paths([f.name] + Prefixed(f.name, child.prefetch + child.select), [])
    ensures !IsToMany(f) ==>
      Contributions(Models(), [f], fetched) == Paths(Prefixed(f.name, child.prefetch), [f.name] + Prefixed(f.name, child.select))
  {
    assert [f][1..] == [];
  }

  /** A to-many field to a model that selects only its own snapshot. */
  lemma ToManyLeaf(f: Field, fetched: set<ModelId>, expected: string)
    requires !Skipped(Models(), f, fetched) && IsToMany(f)
    requires Expand(Models(), f.related.value, fetched) == Paths([], PV)
    requires f.name + "__" + "published_version" == expected
    ensures Contributions(Models(), [f], fetched) == Paths([f.name, expected], [])
  {
    FollowedField(f, fetched, Paths([], PV));
    assert Prefixed(f.name, [] + PV) == [expected];
  }

  /** A to-one field to a model that selects only its own snapshot. */
  lemma ToOneLeaf(f: Field, fetched: set<ModelId>, expected: string)
    requires !Skipped(Models(), f, fetched) && !IsToMany(f)
    requires Expand(Models(), f.related.value, fetched) == Paths([], PV)
    requires f.name + "__" + "published_version" == expected
    ensures Contributions(Models(), [f], fetched) == Paths([], [f.name, expected])
  {
    FollowedField(f, fetched, Paths([], PV));
    assert Prefixed(f.name, PV) == [expected];
    assert Prefixed(f.name, []) == [];
  }

  const PostItems: Field := GenericRelationTo("items", Post, Item)
  const PostTags: Field := ManyToManyTo("tags", Post, PostTag, Some("posts"), "Post_tags")
  const PostCategory: Field := ForeignKeyTo("category", Post, Category, Some("posts"))
  const ArticleItems: Field := GenericRelationTo("items", Article, Item)
  const ArticleImages: Field := ManyToManyTo("images", Article, ArticleImage, None, ArticleImageThrough)
  const BlogPostsField: Field := ManyToManyTo("posts", Blog, Post, None, BlogPosts)
  const BlogArticlesField: Field := ManyToManyTo("articles", Blog, Article, None, BlogArticles)
  const BlogDomain: Field := ForeignKeyTo("domain", Blog, Domain, Some("blog"))

  function PostHead(): seq<Field> {
    [Reverse("blog", Post, Blog, None)] + PublicationFields(Post)
    + [ Concrete("title", Post, LocalizedText),
        Concrete("subtitle", Post, LocalizedText),
        Concrete("description", Post, LocalizedText),
        Concrete("body", Post, LocalizedText),
        Concrete("href", Post, LocalizedText) ]
  }

  lemma PostShape()
    ensures Models()[Post].fields == PostHead() + ([PostCategory] + ([PostTags] + ([VersionsField(Post)] + [PostItems])))
  {
    Stored();
  }

  lemma PostSkipped(fetched: set<ModelId>)
    requires Blog in fetched
    ensures Contributions(Models(), PostHead(), fetched) == Paths([], [])
    ensures Contributions(Models(), [VersionsField(Post)], fetched) == Paths([], [])
  {
    Stored();
    forall f | f in PostHead() ensures Skipped(Models(), f, fetched) {}
    SkippedFieldsAddNothing(Models(), PostHead(), fetched);
    SkippedFieldsAddNothing(Models(), [VersionsField(Post)], fetched);
  }

  lemma PostItemsPaths(fetched: set<ModelId>)
    requires fetched == {Blog, Post}
    ensures Contributions(Models(), [PostItems], fetched) == Paths(["items", "items__published_version"], [])
  {
    Publications();
    ItemLeaf(fetched);
    assert PostItems.related == Some(Item);
    assert !Skipped(Models(), PostItems, fetched);
    assert "items" + "__" + "published_version" == "items__published_version";
    ToManyLeaf(PostItems, fetched, "items__published_version");
  }

  lemma PostTagsPaths(fetched: set<ModelId>)
    requires fetched == {Blog, Post}
    ensures Contributions(Models(), [PostTags], fetched) == Paths(["tags", "tags__published_version"], [])
  {
    Publications();
    PostTagLeaf(fetched);
    assert PostTags.related == Some(PostTag);
    assert !Skipped(Models(), PostTags, fetched);
    assert "tags" + "__" + "published_version" == "tags__published_version";
    ToManyLeaf(PostTags, fetched, "tags__published_version");
  }

  lemma PostCategoryPaths(fetched: set<ModelId>)
    requires fetched == {Blog, Post}
    ensures Contributions(Models(), [PostCategory], fetched) == Paths([], ["category", "category__published_version"])
  {
    Publications();
    CategoryLeaf(fetched);
    assert PostCategory.related == Some(Category);
    assert !Skipped(Models(), PostCategory, fetched);
    assert "category" + "__" + "published_version" == "category__published_version";
    ToOneLeaf(PostCategory, fetched, "category__published_version");
  }

  lemma PostExpansion()
    ensures Expand(Models(), Post, {Blog}) == Paths(
      ["tags", "tags__published_version", "items", "items__published_version"],
      ["published_version", "category", "category__published_version"])
  {
    var r := Models();
    var fetched := {Blog} + {Post};
    assert fetched == {Blog, Post};
    PostShape();
    PostSkipped(fetched);
    PostItemsPaths(fetched);
    PostTagsPaths(fetched);
    PostCategoryPaths(fetched);
    var a, v := PostHead(), [VersionsField(Post)];
    ContributionsConcat(r, v, [PostItems], fetched);
    ContributionsConcat(r, [PostTags], v + [PostItems], fetched);
    ContributionsConcat(r, [PostCategory], [PostTags] + (v + [PostItems]), fetched);
    ContributionsConcat(r, a, [PostCategory] + ([PostTags] + (v + [PostItems])), fetched);
  }

  function ArticleHead(): seq<Field> {
    [ Reverse("blog", Article, Blog, None), Reverse("articleimagethrough", Article, ArticleImageThrough, None) ]
    + PublicationFields(Article)
    + [ Concrete("title", Article, LocalizedText),
        Concrete("subtitle", Article, LocalizedText),
        Concrete("story", Article, LocalizedText) ]
  }

  lemma ArticleShape()
    ensures Models()[Article].fields == ArticleHead() + ([ArticleImages] + ([VersionsField(Article)] + [ArticleItems]))
  {
    Stored();
  }

  lemma ArticleSkipped(fetched: set<ModelId>)
    requires Blog in fetched
    ensures Contributions(Models(), ArticleHead(), fetched) == Paths([], [])
    ensures Contributions(Models(), [VersionsField(Article)], fetched) == Paths([], [])
  {
    Publications();
    forall f | f in ArticleHead() ensures Skipped(Models(), f, fetched) {}
    SkippedFieldsAddNothing(Models(), ArticleHead(), fetched);
    SkippedFieldsAddNothing(Models(), [VersionsField(Article)], fetched);
  }

  lemma ArticleItemsPaths(fetched: set<ModelId>)
    requires fetched == {Blog, Article}
    ensures Contributions(Models(), [ArticleItems], fetched) == Paths(["items", "items__published_version"], [])
  {
    Publications();
    ItemLeaf(fetched);
    assert ArticleItems.related == Some(Item);
    assert !Skipped(Models(), ArticleItems, fetched);
    assert "items" + "__" + "published_version" == "items__published_version";
    ToManyLeaf(ArticleItems, fetched, "items__published_version");
  }

  lemma ArticleImagesPaths(fetched: set<ModelId>)
    requires fetched == {Blog, Article}
    ensures Contributions(Models(), [ArticleImages], fetched) == Paths(["images", "images__published_version"], [])
  {
    Publications();
    ArticleImageLeaf(fetched);
    assert ArticleImages.related == Some(ArticleImage);
    assert !Skipped(Models(), ArticleImages, fetched);
    assert "images" + "__" + "published_version" == "images__published_version";
    ToManyLeaf(ArticleImages, fetched, "images__published_version");
  }

  lemma ArticleExpansion()
    ensures Expand(Models(), Article, {Blog}) == Paths(
      ["images", "images__published_version", "items", "items__published_version"],
      ["published_version"])
  {
    var r := Models();
    var fetched := {Blog} + {Article};
    assert fetched == {Blog, Article};
    ArticleShape();
    ArticleSkipped(fetched);
    ArticleItemsPaths(fetched);
    ArticleImagesPaths(fetched);
    var a, v := ArticleHead(), [VersionsField(Article)];
    ContributionsConcat(r, v, [ArticleItems], fetched);
    ContributionsConcat(r, [ArticleImages], v + [ArticleItems], fetched);
    ContributionsConcat(r, a, [ArticleImages] + (v + [ArticleItems]), fetched);
  }

  function BlogHead(): seq<Field> {
    TitleSlugFields(Blog) + [Concrete("name", Blog, LocalizedText)]
  }

  lemma BlogShape()
    ensures Models()[Blog].fields == BlogHead() + ([BlogDomain] + ([BlogPostsField] + ([BlogArticlesField] + [VersionsField(Blog)])))
  {
    Stored();
  }

  lemma BlogSkipped()
    ensures Contributions(Models(), BlogHead(), {Blog}) == Paths([], [])
    ensures Contributions(Models(), [VersionsField(Blog)], {Blog}) == Paths([], [])
  {
    Stored();
    forall f | f in BlogHead() ensures Skipped(Models(), f, {Blog}) {}
    SkippedFieldsAddNothing(Models(), BlogHead(), {Blog});
    SkippedFieldsAddNothing(Models(), [VersionsField(Blog)], {Blog});
  }

  lemma PrefixedIs(name: string, paths: seq<string>, expected: seq<string>)
    requires |paths| == |expected|
    requires forall i :: 0 <= i < |paths| ==> name + "__" + paths[i] == expected[i]
    ensures Prefixed(name, paths) == expected
  {
  }

  lemma PostsTagsLookups()
    ensures "posts" + "__" + "tags" == "posts__tags"
    ensures "posts" + "__" + "tags__published_version" == "posts__tags__published_version"
    ensures "posts" + "__" + "items" == "posts__items"
  {
  }

  lemma PostsItemsLookups()
    ensures "posts" + "__" + "items__published_version" == "posts__items__published_version"
    ensures "posts" + "__" + "published_version" == "posts__published_version"
  {
  }

  lemma PostsCategoryLookups()
    ensures "posts" + "__" + "category" == "posts__category"
    ensures "posts" + "__" + "category__published_version" == "posts__category__published_version"
  {
  }

  lemma ArticlesImagesLookups()
    ensures "articles" + "__" + "images" == "articles__images"
    ensures "articles" + "__" + "images__published_version" == "articles__images__published_version"
    ensures "articles" + "__" + "items" == "articles__items"
  {
  }

  lemma ArticlesItemsLookups()
    ensures "articles" + "__" + "items__published_version" == "articles__items__published_version"
    ensures "articles" + "__" + "published_version" == "articles__published_version"
  {
  }

  lemma PostsPrefixed()
    ensures Prefixed("posts", ["tags", "tags__published_version", "items", "items__published_version", "published_version", "category", "category__published_version"])
      == ["posts__tags", "posts__tags__published_version", "posts__items", "posts__items__published_version", "posts__published_version", "posts__category", "posts__category__published_version"]
  {
    PostsTagsLookups();
    PostsItemsLookups();
    PostsCategoryLookups();
    PrefixedIs("posts", ["tags", "tags__published_version", "items", "items__published_version", "published_version", "category", "category__published_version"],
      ["posts__tags", "posts__tags__published_version", "posts__items", "posts__items__published_version", "posts__published_version", "posts__category", "posts__category__published_version"]);
  }

  lemma ArticlesPrefixed()
    ensures Prefixed("articles", ["images", "images__published_version", "items", "items__published_version", "published_version"])
      == ["articles__images", "articles__images__published_version", "articles__items", "articles__items__published_version", "articles__published_version"]
  {
    ArticlesImagesLookups();
    ArticlesItemsLookups();
    PrefixedIs("articles", ["images", "images__published_version", "items", "items__published_version", "published_version"],
      ["articles__images", "articles__images__published_version", "articles__items", "articles__items__published_version", "articles__published_version"]);
  }

  /** A to-many field to a model whose own lookups are `child`. */
  lemma ToManyExpanded(r: Registry, f: Field, fetched: set<ModelId>, child: seq<string>, expected: seq<string>)
    requires !Skipped(r, f, fetched) && IsToMany(f)
    requires Expand(r, f.related.value, fetched).prefetch + Expand(r, f.related.value, fetched).select == child
    requires Prefixed(f.name, child) == expected
    ensures Contributions(r, [f], fetched) == Paths([f.name] + expected, [])
  {
    assert [f][1..] == [];
  }

  lemma BlogPostsPaths()
    ensures Contributions(Models(), [BlogPostsField], {Blog}) == Paths([
      "posts", "posts__tags", "posts__tags__published_version",
      "posts__items", "posts__items__published_version", "posts__published_version",
      "posts__category", "posts__category__published_version"], [])
  {
    Publications();
    PostExpansion();
    PostsPrefixed();
    assert BlogPostsField.related == Some(Post) && BlogPostsField.name == "posts";
    assert !Skipped(Models(), BlogPostsField, {Blog});
    ToManyExpanded(Models(), BlogPostsField, {Blog},
      ["tags", "tags__published_version", "items", "items__published_version", "published_version", "category", "category__published_version"],
      ["posts__tags", "posts__tags__published_version", "posts__items", "posts__items__published_version", "posts__published_version", "posts__category", "posts__category__published_version"]);
  }

  lemma BlogArticlesPaths()
    ensures Contributions(Models(), [BlogArticlesField], {Blog}) == Paths([
      "articles", "articles__images", "articles__images__published_version",
      "articles__items", "articles__items__published_version", "articles__published_version"], [])
  {
    Publications();
    ArticleExpansion();
    ArticlesPrefixed();
    assert BlogArticlesField.related == Some(Article) && BlogArticlesField.name == "articles";
    assert !Skipped(Models(), BlogArticlesField, {Blog});
    var e := Expand(Models(), Article, {Blog});
    assert e.prefetch + e.select == ["images", "images__published_version", "items", "items__published_version"] + ["published_version"];
    ToManyExpanded(Models(), BlogArticlesField, {Blog},
      ["images", "images__published_version", "items", "items__published_version", "published_version"],
      ["articles__images", "articles__images__published_version", "articles__items", "articles__items__published_version", "articles__published_version"]);
  }

  lemma BlogDomainPaths()
    ensures Contributions(Models(), [BlogDomain], {Blog}) == Paths([], ["domain", "domain__published_version"])
  {
    Publications();
    DomainLeaf({Blog});
    assert BlogDomain.related == Some(Domain);
    assert !Skipped(Models(), BlogDomain, {Blog});
    assert "domain" + "__" + "published_version" == "domain__published_version";
    ToOneLeaf(BlogDomain, {Blog}, "domain__published_version");
  }

  /** tests/test_utils/test_relations.py: the lookups computed for `Blog`,
      in the order the loop appends them. */
  lemma BlogPrefetchRelation()
    ensures CalculatePrefetchRelation(Models(), Blog, None).prefetch == [
      "posts", "posts__tags", "posts__tags__published_version",
      "posts__items", "posts__items__published_version", "posts__published_version",
      "posts__category", "posts__category__published_version",
      "articles", "articles__images", "articles__images__published_version",
      "articles__items", "articles__items__published_version", "articles__published_version" ]
    ensures CalculatePrefetchRelation(Models(), Blog, None).select ==
      ["published_version", "domain", "domain__published_version"]
  {
    var r := Models();
    assert {Blog} + {Blog} == {Blog};
    BlogShape();
    BlogSkipped();
    BlogPostsPaths();
    BlogArticlesPaths();
    BlogDomainPaths();
    var a, v := BlogHead(), [VersionsField(Blog)];
    ContributionsConcat(r, [BlogArticlesField], v, {Blog});
    ContributionsConcat(r, [BlogPostsField], [BlogArticlesField] + v, {Blog});
    ContributionsConcat(r, [BlogDomain], [BlogPostsField] + ([BlogArticlesField] + v), {Blog});
    ContributionsConcat(r, a, [BlogDomain] + ([BlogPostsField] + ([BlogArticlesField] + v)), {Blog});
  }
}
