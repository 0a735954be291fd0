/** The voter for the user-management attributes: administrators only. */
module UserVoter {
  import opened Entities
  import opened Security

  const VIEW: string := "ARTICLE_VIEW"
  const EDIT: string := "ARTICLE_EDIT"
  const CREATE: string := "ARTICLE_CREATE"
  const DELETE: string := "ARTICLE_DELETE"
  /** `User::class`. */
  const USER_CLASS: string := "App\\Entity\\User"

  predicate Supports(attribute: string, subject: Value)
  {
    attribute in [VIEW, EDIT, CREATE, DELETE] &&
    (IsUser(subject) || subject == Str(USER_CLASS))
  }

  /** `voteOnAttribute` asks the decision manager about the literal
      'ROLE_ADMIN' with no subject and ignores attribute and subject. */
  predicate VoteOnAttribute(token: Token)
  {
    HasRole(token, "ROLE_ADMIN")
  }

  function Vote(token: Token, attribute: string, subject: Value): (v: Access)
    ensures v == Abstain <==>
      !(attribute in {VIEW, EDIT, CREATE, DELETE} &&
        (IsUser(subject) || subject == Str(USER_CLASS)))
    ensures v != Abstain ==> (v == Granted <==> "ROLE_ADMIN" in token.granted)
  {
    if !Supports(attribute, subject) then Abstain
    else if VoteOnAttribute(token) then Granted
    else Denied
  }

  /** The verdict does not depend on which user (or the class name) is the
      subject: there is no path by which users may manage themselves. */
  lemma VerdictIgnoresSubject(token: Token, attribute: string, u: User, w: User)
    requires attribute in {VIEW, EDIT, CREATE, DELETE}
    ensures Vote(token, attribute, Obj(UserObject(u))) == Vote(token, attribute, Obj(UserObject(w)))
    ensures Vote(token, attribute, Obj(UserObject(u))) == Vote(token, attribute, Str(USER_CLASS))
  {
  }
}
