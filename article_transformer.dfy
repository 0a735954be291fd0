/** Turns an article into the array the API encodes as JSON. */
module ArticleTransformer {
  import opened Php
  import opened Entities
  import opened Repository

  const NOT_AN_ARTICLE: string := "Entity is not instanceof App\\Entity\\Article"

  const KEYS: set<string> := {"id", "title", "content", "author_id", "created_at", "updated_at"}

  /** The six fields of a stored article; `format` stands for
      `DateTimeImmutable::format('Y-m-d H:i:s')`. */
  function View(row: ArticleRow, format: Timestamp -> string): JsonObject
  {
    map["id" := JInt(row.id),
        "title" := JString(row.title),
        "content" := OptionalString(row.content),
        "author_id" := JInt(row.authorId),
        "created_at" := JString(format(row.createdAt)),
        "updated_at" := if row.updatedAt.Some? then JString(format(row.updatedAt.value)) else JNull]
  }

  /** `transform(object $entity)`: a non-object is a TypeError, an object
      that is no Article is rejected, and an article gives exactly the six
      keys, each taken from the matching getter. */
  function Transform(entity: Value, format: Timestamp -> string): (r: Result<JsonObject>)
    reads Footprint(entity)
    ensures !entity.Obj? ==> r == Err(TypeError)
    ensures entity.Obj? && !entity.obj.ArticleObject? ==> r == Err(InvalidArgument(NOT_AN_ARTICLE))
    ensures IsArticle(entity) ==> (r.Err? <==> entity.obj.article.author == null)
    ensures IsArticle(entity) && entity.obj.article.author == null ==> r == Err(Error(AUTHOR_UNSET))
    ensures r.Ok? ==> IsArticle(entity) && r.value.Keys == KEYS
    ensures r.Ok? ==> var a := entity.obj.article;
                      && r.value["id"] == JInt(a.id)
                      && r.value["title"] == JString(a.title)
                      && r.value["content"] == OptionalString(a.content)
                      && r.value["author_id"] == JInt(a.author.id)
                      && r.value["created_at"] == JString(format(a.createdAt))
                      && (r.value["updated_at"] == JNull <==> a.updatedAt.None?)
                      && (a.updatedAt.Some? ==> r.value["updated_at"] == JString(format(a.updatedAt.value)))
  {
    match entity
    case Obj(ArticleObject(a)) =>
      if a.author == null then Err(Error(AUTHOR_UNSET)) else Ok(View(ArticleRowOf(a), format))
    case Obj(_) => Err(InvalidArgument(NOT_AN_ARTICLE))
    case _ => Err(TypeError)
  }

  /** What `transform` gives for a loaded article is the view of its row. */
  lemma TransformIsView(a: Article, format: Timestamp -> string)
    requires a.author != null
    ensures Transform(Obj(ArticleObject(a)), format) == Ok(View(ArticleRowOf(a), format))
  {
  }

  /** Nothing of the stored article is lost: with a formatter that tells
      instants apart, two rows with the same output are the same row. */
  lemma {:induction false} ViewDeterminesRow(r1: ArticleRow, r2: ArticleRow, format: Timestamp -> string)
    requires forall t1, t2 :: format(t1) == format(t2) ==> t1 == t2
    requires View(r1, format) == View(r2, format)
    ensures r1 == r2
  {
    var v1, v2 := View(r1, format), View(r2, format);
    assert v1["id"] == v2["id"] && v1["title"] == v2["title"] && v1["author_id"] == v2["author_id"];
    assert v1["created_at"] == v2["created_at"];
    assert r1.content == r2.content by {
      assert OptionalString(r1.content) == v1["content"] == v2["content"] == OptionalString(r2.content);
    }
    assert r1.updatedAt == r2.updatedAt by {
      assert v1["updated_at"] == v2["updated_at"];
    }
  }
}
