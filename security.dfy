/** What the Symfony security component hands to the application's voters:
    the authentication token and the three possible votes. The subject of
    an authorisation question is an `Entities.Value`; the route-level
    `#[IsGranted('ROLE_...')]` gates ask with a null subject. */
module Security {
  import opened Strings
  import opened Entities

  /** An authenticated (or anonymous) request. `user` is what
      `getUser()` returns; `granted` is the set of roles the token holds
      once the role hierarchy of the security configuration has been
      applied, which is why it is a parameter of the model rather than
      derived from `User::getRoles`. */
  datatype Token = Token(user: User?, granted: set<string>)

  /** VoterInterface::ACCESS_GRANTED, ACCESS_ABSTAIN and ACCESS_DENIED. */
  datatype Access = Granted | Abstain | Denied

  predicate HasRole(token: Token, role: string)
  {
    role in token.granted
  }

  const ROLE_PREFIX: string := "ROLE_"

  /** Symfony's RoleVoter: it abstains on any attribute that does not
      start with "ROLE_", and otherwise grants exactly when the token holds
      that role. */
  function RoleVote(token: Token, attribute: string): Access
  {
    if !StartsWith(attribute, ROLE_PREFIX) then Abstain
    else if HasRole(token, attribute) then Granted
    else Denied
  }
}
