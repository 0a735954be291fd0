/** The voter that decides `edit` and `delete` on an article. */
module ArticleVoter {
  import opened Php
  import opened Entities
  import opened Security
  import RoleConverter

  const EDIT: string := "edit"
  const DELETE: string := "delete"

  /** The private-constant error PHP raises at the class-constant fetch
      in `canEdit`. */
  const PRIVATE_ROLE_ADMIN: string := "Cannot access private constant App\\Service\\RoleConverter::ROLE_ADMIN"

  predicate Supports(attribute: string, subject: Value)
  {
    (attribute == EDIT || attribute == DELETE) && IsArticle(subject)
  }

  /** `canEdit` as intended: the decision manager is asked about ROLE_ADMIN
      with no subject, which the RoleVoter alone decides (see
      AccessDecisionManager.RoleGate), and otherwise the user must be the
      very object that is the article's author. Doctrine's identity map
      makes that object identity the same as equal ids for loaded
      entities. */
  predicate CanEdit(token: Token, article: Article, user: User)
    reads article
  {
    HasRole(token, RoleConverter.ROLE_ADMIN) || user == article.author
  }

  /** `canEdit` as written: the constant `RoleConverter::ROLE_ADMIN` is
      declared private, so fetching it from this class throws an Error
      before the decision manager is consulted, whoever asks. */
  function CanEditAsWritten(token: Token, article: Article, user: User): (r: Result<bool>)
    ensures r == Err(Error(PRIVATE_ROLE_ADMIN))
  {
    Err(Error(PRIVATE_ROLE_ADMIN))
  }

  /** The discrepancy: an author editing their own article, which the
      integration tests expect to be allowed, is refused with an Error
      (a 500 response) by the code as written, and granted by the
      intended check. */
  lemma OwnerEditFailsAsWritten(token: Token, article: Article, user: User)
    requires article.author == user && !HasRole(token, RoleConverter.ROLE_ADMIN)
    ensures CanEditAsWritten(token, article, user).Err?
    ensures CanEdit(token, article, user)
  {
  }

  predicate CanDelete(token: Token, article: Article, user: User)
    reads article
  {
    CanEdit(token, article, user)
  }

  /** `voteOnAttribute`, called only for supported questions: no user on
      the token means false; otherwise the attribute selects the check. */
  predicate VoteOnAttribute(attribute: string, subject: Value, token: Token)
    requires Supports(attribute, subject)
    reads Footprint(subject)
  {
    var article := subject.obj.article;
    if token.user == null then false
    else if attribute == EDIT then CanEdit(token, article, token.user)
    else if attribute == DELETE then CanDelete(token, article, token.user)
    else false
  }

  /** `Voter::vote`: abstain on anything unsupported, otherwise grant or
      deny by `voteOnAttribute`. */
  function Vote(token: Token, attribute: string, subject: Value): (v: Access)
    reads Footprint(subject)
    ensures v == Abstain <==> !((attribute == EDIT || attribute == DELETE) && IsArticle(subject))
    ensures v == Granted <==>
      (attribute == EDIT || attribute == DELETE) && IsArticle(subject) &&
      token.user != null &&
      (HasRole(token, RoleConverter.ROLE_ADMIN) || token.user == subject.obj.article.author)
  {
    if !Supports(attribute, subject) then Abstain
    else if VoteOnAttribute(attribute, subject, token) then Granted
    else Denied
  }

  /** The vote with the exception `getAuthor()` raises: for a user without
      ROLE_ADMIN, `canEdit` reads the article's author, which throws an Error
      when it was never set. Otherwise it is the verdict of `Vote`. */
  function VoteOutcome(token: Token, attribute: string, subject: Value): (r: Result<Access>)
    reads Footprint(subject)
    ensures r.Err? <==> Supports(attribute, subject) && token.user != null &&
                        !HasRole(token, RoleConverter.ROLE_ADMIN) && subject.obj.article.author == null
    ensures r.Err? ==> r.error == Error(AUTHOR_UNSET)
    ensures r.Ok? ==> r.value == Vote(token, attribute, subject)
  {
    if !Supports(attribute, subject) then Ok(Abstain)
    else if token.user == null then Ok(Denied)
    else if HasRole(token, RoleConverter.ROLE_ADMIN) then Ok(Granted)
    else if subject.obj.article.author == null then Err(Error(AUTHOR_UNSET))
    else if token.user == subject.obj.article.author then Ok(Granted)
    else Ok(Denied)
  }

  /** On an article with an author, as every loaded article has, the vote
      never throws and is the verdict of `Vote`. */
  lemma AuthoredArticleVoteIsVote(token: Token, attribute: string, article: Article)
    requires article.author != null
    ensures VoteOutcome(token, attribute, Obj(ArticleObject(article))) == Ok(Vote(token, attribute, Obj(ArticleObject(article))))
  {
  }

  /** `Voter::vote` over `voteOnAttribute` as written, with `canEdit` and
      `canDelete` both reaching the private-constant fetch. */
  function VoteAsWritten(token: Token, attribute: string, subject: Value): (r: Result<Access>)
    reads Footprint(subject)
    ensures r.Err? <==> Supports(attribute, subject) && token.user != null
    ensures r.Err? ==> r.error == Error(PRIVATE_ROLE_ADMIN)
    ensures r.Ok? ==> r.value == Vote(token, attribute, subject) && r.value != Granted
  {
    if !Supports(attribute, subject) then Ok(Abstain)
    else if token.user == null then Ok(Denied)
    else
      // both arms of the attribute match reach `canEdit`
      match CanEditAsWritten(token, subject.obj.article, token.user)
      case Err(e) => Err(e)
      case Ok(b) => Ok(if b then Granted else Denied)
  }

  /** `canDelete` is `canEdit`: the two attributes always get the same
      vote. */
  lemma DeleteIsEdit(token: Token, article: Article)
    ensures Vote(token, DELETE, Obj(ArticleObject(article))) == Vote(token, EDIT, Obj(ArticleObject(article)))
  {
  }

  /** An administrator may edit and delete every article, whoever wrote it. */
  lemma AdminMayChangeAnyArticle(token: Token, attribute: string, article: Article)
    requires attribute == EDIT || attribute == DELETE
    requires token.user != null && HasRole(token, RoleConverter.ROLE_ADMIN)
    ensures Vote(token, attribute, Obj(ArticleObject(article))) == Granted
  {
  }

  /** Without ROLE_ADMIN, only the article's own author is granted. */
  lemma OthersMayChangeOnlyTheirOwn(token: Token, attribute: string, article: Article)
    requires attribute == EDIT || attribute == DELETE
    requires token.user != null && !HasRole(token, RoleConverter.ROLE_ADMIN)
    ensures Vote(token, attribute, Obj(ArticleObject(article))) == Granted <==> token.user == article.author
    ensures Vote(token, attribute, Obj(ArticleObject(article))) != Abstain
  {
  }
}
