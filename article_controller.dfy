/** The article routes. Each action first passes its route's role gate,
    then looks the article up (404 before any authorisation), then asks the
    ArticleVoter, and only then changes and flushes anything. */
module ArticleController {
  import opened Php
  import opened Entities
  import opened Security
  import opened Repository
  import opened Dto
  import opened Http
  import RoleConverter
  import AccessDecisionManager
  import ArticleVoter
  import ArticleTransformer
  import ArticleFactory

  const ARTICLE_NOT_FOUND: string := "Article not found."

  /** What the ArticleVoter answers for `edit` or `delete` on the loaded
      article with this row, stated on ids: an administrator, or the
      author. */
  predicate MayChange(token: Token, row: ArticleRow)
  {
    token.user != null && (HasRole(token, RoleConverter.ROLE_ADMIN) || token.user.id == row.authorId)
  }

  /** `#[IsGranted(role)]` on a route. */
  predicate Gate(token: Token, role: string)
  {
    AccessDecisionManager.Decide(token, role, Null)
  }

  /** `GET /articles`: readers get every stored article, transformed. */
  function Index(store: Store, token: Token, format: Timestamp -> string): (r: Response)
    reads store
    ensures !HasRole(token, RoleConverter.ROLE_READER) ==> r == AccessRefused()
    ensures HasRole(token, RoleConverter.ROLE_READER) ==> r.status == OK && r.body.Items?
    ensures r.body.Items? ==> r.body.entries.Keys == store.articles.Keys
    ensures r.body.Items? ==> forall id :: id in store.articles ==>
              r.body.entries[id] == ArticleTransformer.View(store.articles[id], format)
  {
    AccessDecisionManager.RoleGate(token, RoleConverter.ROLE_READER, Null);
    if !Gate(token, RoleConverter.ROLE_READER) then AccessRefused()
    else Response(OK, Items(map id | id in store.articles :: ArticleTransformer.View(store.articles[id], format)))
  }

  /** `GET /articles/{id}`. */
  function Show(store: Store, token: Token, id: int, format: Timestamp -> string): (r: Response)
    reads store
    ensures !HasRole(token, RoleConverter.ROLE_READER) ==> r == AccessRefused()
    ensures HasRole(token, RoleConverter.ROLE_READER) && id !in store.articles ==>
              r == Response(NOT_FOUND, ErrorMessage(ARTICLE_NOT_FOUND))
    ensures HasRole(token, RoleConverter.ROLE_READER) && id in store.articles ==>
              r == Response(OK, Item(ArticleTransformer.View(store.articles[id], format)))
  {
    AccessDecisionManager.RoleGate(token, RoleConverter.ROLE_READER, Null);
    if !Gate(token, RoleConverter.ROLE_READER) then AccessRefused()
    else if id !in store.articles then Response(NOT_FOUND, ErrorMessage(ARTICLE_NOT_FOUND))
    else Response(OK, Item(ArticleTransformer.View(store.articles[id], format)))
  }

  /** `POST /articles`: a new article by the current user, created now,
      with the DTO's title and content, stored under the next id. */
  method Create(store: Store, token: Token, dto: ArticleCreateDto, now: Timestamp, format: Timestamp -> string)
    returns (r: Response)
    requires store.Valid()
    requires token.user != null ==> token.user.id in store.users
    modifies store
    ensures store.Valid() && store.users == old(store.users) && store.nextUserId == old(store.nextUserId)
    ensures !HasRole(token, RoleConverter.ROLE_AUTHOR) ==>
              r == AccessRefused() && unchanged(store)
    ensures HasRole(token, RoleConverter.ROLE_AUTHOR) && token.user == null ==>
              r == Thrown(TypeError) && unchanged(store)
    ensures HasRole(token, RoleConverter.ROLE_AUTHOR) && token.user != null ==>
              var row := ArticleRow(old(store.nextArticleId), dto.title, Some(dto.content), token.user.id, now, None);
              && row.id !in old(store.articles)
              && store.articles == old(store.articles)[row.id := row]
              && store.nextArticleId == old(store.nextArticleId) + 1
              && r == Response(CREATED, Item(ArticleTransformer.View(row, format)))
  {
    AccessDecisionManager.RoleGate(token, RoleConverter.ROLE_AUTHOR, Null);
    if !Gate(token, RoleConverter.ROLE_AUTHOR) {
      return AccessRefused();
    }
    var user := token.user;
    var article := new Article(store.nextArticleId, now);
    var _ := article.SetTitle(dto.title);
    var _ := article.SetContent(Some(dto.content));
    if user == null {
      // setAuthor(null) violates the declared parameter type
      return Thrown(TypeError);
    }
    var _ := article.SetAuthor(user);
    store.InsertArticle(ArticleRowOf(article));
    var t := ArticleTransformer.Transform(Obj(ArticleObject(article)), format);
    return Response(CREATED, Item(t.value));
  }

  /** `PUT /articles/{id}`: the non-null DTO fields, with the update time,
      flushed only once the voter has granted `edit`. */
  method Update(store: Store, token: Token, id: int, dto: ArticleUpdateDto, now: Timestamp,
                format: Timestamp -> string)
    returns (r: Response)
    requires store.Valid()
    modifies store
    ensures store.Valid() && store.users == old(store.users)
    ensures store.nextUserId == old(store.nextUserId) && store.nextArticleId == old(store.nextArticleId)
    ensures !HasRole(token, RoleConverter.ROLE_AUTHOR) ==> r == AccessRefused() && unchanged(store)
    ensures HasRole(token, RoleConverter.ROLE_AUTHOR) && id !in old(store.articles) ==>
              r == Response(NOT_FOUND, ErrorMessage(ARTICLE_NOT_FOUND)) && unchanged(store)
    ensures HasRole(token, RoleConverter.ROLE_AUTHOR) && id in old(store.articles) && !MayChange(token, old(store.articles[id])) ==>
              r == AccessRefused() && unchanged(store)
    ensures HasRole(token, RoleConverter.ROLE_AUTHOR) && id in old(store.articles) && MayChange(token, old(store.articles[id])) ==>
              && store.articles == old(store.articles)[id := ArticleFactory.Patched(old(store.articles[id]), dto, now)]
              && r == Response(OK, Item(ArticleTransformer.View(store.articles[id], format)))
  {
    AccessDecisionManager.RoleGate(token, RoleConverter.ROLE_AUTHOR, Null);
    if !Gate(token, RoleConverter.ROLE_AUTHOR) {
      return AccessRefused();
    }
    if id !in store.articles {
      return Response(NOT_FOUND, ErrorMessage(ARTICLE_NOT_FOUND));
    }
    var article := store.LoadArticle(id, token.user);
    AccessDecisionManager.ArticleAttributesFollowArticleVoter(token, ArticleVoter.EDIT, Obj(ArticleObject(article)));
    if !AccessDecisionManager.Decide(token, ArticleVoter.EDIT, Obj(ArticleObject(article))) {
      return AccessRefused();
    }
    // lines 96-110 of the controller repeat the factory's update verbatim
    var _ := ArticleFactory.UpdateFromDto(article, dto, now);
    store.ReplaceArticle(ArticleRowOf(article));
    var t := ArticleTransformer.Transform(Obj(ArticleObject(article)), format);
    return Response(OK, Item(t.value));
  }

  /** `DELETE /articles/{id}`: exactly that article goes, once the voter
      has granted `delete`. */
  method Delete(store: Store, token: Token, id: int) returns (r: Response)
    requires store.Valid()
    modifies store
    ensures store.Valid() && store.users == old(store.users)
    ensures store.nextUserId == old(store.nextUserId) && store.nextArticleId == old(store.nextArticleId)
    ensures !HasRole(token, RoleConverter.ROLE_AUTHOR) ==> r == AccessRefused() && unchanged(store)
    ensures HasRole(token, RoleConverter.ROLE_AUTHOR) && id !in old(store.articles) ==>
              r == Response(NOT_FOUND, ErrorMessage(ARTICLE_NOT_FOUND)) && unchanged(store)
    ensures HasRole(token, RoleConverter.ROLE_AUTHOR) && id in old(store.articles) && !MayChange(token, old(store.articles[id])) ==>
              r == AccessRefused() && unchanged(store)
    ensures HasRole(token, RoleConverter.ROLE_AUTHOR) && id in old(store.articles) && MayChange(token, old(store.articles[id])) ==>
              store.articles == old(store.articles) - {id} && r == Response(NO_CONTENT, NoContent)
  {
    AccessDecisionManager.RoleGate(token, RoleConverter.ROLE_AUTHOR, Null);
    if !Gate(token, RoleConverter.ROLE_AUTHOR) {
      return AccessRefused();
    }
    if id !in store.articles {
      return Response(NOT_FOUND, ErrorMessage(ARTICLE_NOT_FOUND));
    }
    var article := store.LoadArticle(id, token.user);
    AccessDecisionManager.ArticleAttributesFollowArticleVoter(token, ArticleVoter.DELETE, Obj(ArticleObject(article)));
    if !AccessDecisionManager.Decide(token, ArticleVoter.DELETE, Obj(ArticleObject(article))) {
      return AccessRefused();
    }
    store.RemoveArticle(id);
    return Response(NO_CONTENT, NoContent);
  }

  /** A reader who is no author can change nothing: all three mutations
      answer 403 and leave the store alone. */
  lemma ReaderCannotMutate(token: Token)
    requires !HasRole(token, RoleConverter.ROLE_AUTHOR)
    ensures !Gate(token, RoleConverter.ROLE_AUTHOR)
  {
    AccessDecisionManager.RoleGate(token, RoleConverter.ROLE_AUTHOR, Null);
  }

  /** As written, an `edit` or `delete` request that has passed the role
      gate and found its article throws at `denyAccessUnlessGranted` for
      every authenticated user, so administrators and the article's own
      author alike get a 500, where the intended check grants them, and so
      does another author, whom the intended check refuses with a 403. */
  lemma ChangeFailsAsWritten(token: Token, attribute: string, article: Article)
    requires attribute == ArticleVoter.EDIT || attribute == ArticleVoter.DELETE
    requires token.user != null
    ensures AccessDecisionManager.DecideAsWritten(token, attribute, Obj(ArticleObject(article))).Err?
    ensures Thrown(AccessDecisionManager.DecideAsWritten(token, attribute, Obj(ArticleObject(article))).error) ==
              Response(INTERNAL_SERVER_ERROR, Failure(Error(ArticleVoter.PRIVATE_ROLE_ADMIN)))
    ensures HasRole(token, RoleConverter.ROLE_ADMIN) || token.user == article.author ==>
              AccessDecisionManager.Decide(token, attribute, Obj(ArticleObject(article)))
    ensures !HasRole(token, RoleConverter.ROLE_ADMIN) && token.user != article.author ==>
              !AccessDecisionManager.Decide(token, attribute, Obj(ArticleObject(article)))
  {
    AccessDecisionManager.ArticleAttributesFollowArticleVoter(token, attribute, Obj(ArticleObject(article)));
  }
}
