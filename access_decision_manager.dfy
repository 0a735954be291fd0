/** Symfony's AccessDecisionManager with the default affirmative strategy
    over the voters this application registers: access is granted as soon
    as one voter grants, and refused when every voter abstains. */
module AccessDecisionManager {
  import opened Php
  import opened Strings
  import opened Security
  import opened Entities
  import ArticleVoter
  import UserVoter

  function Votes(token: Token, attribute: string, subject: Value): (vs: seq<Access>)
    reads Footprint(subject)
  {
    [RoleVote(token, attribute),
     ArticleVoter.Vote(token, attribute, subject),
     UserVoter.Vote(token, attribute, subject)]
  }

  predicate Decide(token: Token, attribute: string, subject: Value)
    reads Footprint(subject)
  {
    Granted in Votes(token, attribute, subject)
  }

  /** When no voter has an opinion, access is denied. */
  lemma AllAbstainDenies(token: Token, attribute: string, subject: Value)
    requires forall v :: v in Votes(token, attribute, subject) ==> v == Abstain
    ensures !Decide(token, attribute, subject)
  {
  }

  /** A role attribute, as in `#[IsGranted('ROLE_READER')]` or the
      `decide($token, ['ROLE_ADMIN'])` call of both voters, is decided by
      the token's roles alone: neither application voter supports it. */
  lemma RoleGate(token: Token, role: string, subject: Value)
    requires StartsWith(role, ROLE_PREFIX)
    ensures Decide(token, role, subject) <==> HasRole(token, role)
  {
    assert ArticleVoter.Vote(token, role, subject) == Abstain by {
      assert role[0] == role[..|ROLE_PREFIX|][0] == 'R';
    }
    assert UserVoter.Vote(token, role, subject) == Abstain by {
      assert role[0] == role[..|ROLE_PREFIX|][0] == 'R';
      assert role !in {UserVoter.VIEW, UserVoter.EDIT, UserVoter.CREATE, UserVoter.DELETE};
    }
  }

  /** `edit` and `delete` are the ArticleVoter's to decide. */
  lemma ArticleAttributesFollowArticleVoter(token: Token, attribute: string, subject: Value)
    requires attribute == ArticleVoter.EDIT || attribute == ArticleVoter.DELETE
    ensures Decide(token, attribute, subject) <==> ArticleVoter.Vote(token, attribute, subject) == Granted
  {
    assert RoleVote(token, attribute) == Abstain by {
      assert attribute[0] != ROLE_PREFIX[0];
    }
  }

  /** The four ARTICLE_* attributes are the UserVoter's to decide. */
  lemma UserAttributesFollowUserVoter(token: Token, attribute: string, subject: Value)
    requires attribute in {UserVoter.VIEW, UserVoter.EDIT, UserVoter.CREATE, UserVoter.DELETE}
    ensures Decide(token, attribute, subject) <==> UserVoter.Vote(token, attribute, subject) == Granted
  {
    assert RoleVote(token, attribute) == Abstain by {
      assert attribute[0] != ROLE_PREFIX[0];
    }
  }

  /** `decide` over the voters as written: the ArticleVoter's exception
      leaves the decision manager, and without it nothing grants `edit`
      or `delete`. */
  function DecideAsWritten(token: Token, attribute: string, subject: Value): (r: Result<bool>)
    reads Footprint(subject)
    ensures r.Err? <==> ArticleVoter.Supports(attribute, subject) && token.user != null
    ensures r.Err? ==> r.error == Error(ArticleVoter.PRIVATE_ROLE_ADMIN)
    ensures (attribute == ArticleVoter.EDIT || attribute == ArticleVoter.DELETE) && r.Ok? ==> !r.value
  {
    match ArticleVoter.VoteAsWritten(token, attribute, subject)
    case Err(e) => Err(e)
    case Ok(v) =>
      assert attribute == ArticleVoter.EDIT || attribute == ArticleVoter.DELETE ==> attribute[0] != ROLE_PREFIX[0];
      Ok(Granted in [RoleVote(token, attribute), v, UserVoter.Vote(token, attribute, subject)])
  }
}
