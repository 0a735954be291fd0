/** The partial update of an article. */
module ArticleFactory {
  import opened Php
  import opened Entities
  import opened Repository
  import opened Dto

  /** The stored article after `updateFromDto` at time `now`: each
      non-null field replaces the current one, and the update time is set
      exactly when some field was given. */
  function Patched(row: ArticleRow, dto: ArticleUpdateDto, now: Timestamp): ArticleRow
  {
    row.(title := ValueOr(dto.title, row.title),
         content := if dto.content.Some? then dto.content else row.content,
         updatedAt := if dto.title.Some? || dto.content.Some? then Some(now) else row.updatedAt)
  }

  /** `updateFromDto` on the article object itself; `now` is the time
      `new \DateTimeImmutable()` reads. */
  method UpdateFromDto(article: Article, dto: ArticleUpdateDto, now: Timestamp) returns (self: Article)
    modifies article
    ensures self == article
    ensures article.title == ValueOr(dto.title, old(article.title))
    ensures article.content == if dto.content.Some? then dto.content else old(article.content)
    ensures article.updatedAt == if dto.title.Some? || dto.content.Some? then Some(now) else old(article.updatedAt)
    ensures article.author == old(article.author) && article.createdAt == old(article.createdAt)
    ensures old(article.author) != null ==> ArticleRowOf(article) == Patched(old(ArticleRowOf(article)), dto, now)
  {
    var isUpdated := false;
    if dto.title.Some? {
      var _ := article.SetTitle(dto.title.value);
      isUpdated := true;
    }
    if dto.content.Some? {
      var _ := article.SetContent(dto.content);
      isUpdated := true;
    }
    if isUpdated {
      var _ := article.SetUpdatedAt(Some(now));
    }
    return article;
  }

  /** With both fields null the article is left exactly as it was. */
  lemma EmptyPatchChangesNothing(row: ArticleRow, now: Timestamp)
    ensures Patched(row, ArticleUpdateDto(None, None), now) == row
  {
  }

  /** The update time moves exactly when something was applied, and the
      id, author and creation time never change. */
  lemma PatchTouchesOnlyWhatWasGiven(row: ArticleRow, dto: ArticleUpdateDto, now: Timestamp)
    ensures Patched(row, dto, now).updatedAt != row.updatedAt ==> dto.title.Some? || dto.content.Some?
    ensures dto.title.Some? || dto.content.Some? ==> Patched(row, dto, now).updatedAt == Some(now)
    ensures Patched(row, dto, now).title != row.title ==> dto.title.Some?
    ensures Patched(row, dto, now).content != row.content ==> dto.content.Some?
    ensures Patched(row, dto, now).id == row.id && Patched(row, dto, now).authorId == row.authorId
    ensures Patched(row, dto, now).createdAt == row.createdAt
  {
  }

  /** Applying the same update twice at the same time is applying it once. */
  lemma PatchIsIdempotent(row: ArticleRow, dto: ArticleUpdateDto, now: Timestamp)
    ensures Patched(Patched(row, dto, now), dto, now) == Patched(row, dto, now)
  {
  }
}
