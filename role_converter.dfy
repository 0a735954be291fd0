/** The role catalogue: a closed, two-way mapping between the display roles
    a client sends and reads back ("admin", "author", "reader") and the
    system roles stored on a user ("ROLE_ADMIN", "ROLE_AUTHOR",
    "ROLE_READER"). Input is ASCII case-folded before it is looked up, and
    anything outside the three raises InvalidRoleException. */
module RoleConverter {
  import opened Php
  import opened Strings

  /** The three roles of the catalogue. No role implies another here. */
  datatype Role = Admin | Author | Reader

  const ROLE_ADMIN: string := "ROLE_ADMIN"
  const ROLE_AUTHOR: string := "ROLE_AUTHOR"
  const ROLE_READER: string := "ROLE_READER"

  /** The system spelling of a role, as stored in `User::$role`. */
  function SystemName(role: Role): string {
    match role
    case Admin => ROLE_ADMIN
    case Author => ROLE_AUTHOR
    case Reader => ROLE_READER
  }

  /** The display spelling of a role, as accepted in DTOs and returned by
      the user transformer. */
  function PrettyName(role: Role): string {
    match role
    case Admin => "admin"
    case Author => "author"
    case Reader => "reader"
  }

  predicate IsSystemRole(s: string) {
    s == ROLE_ADMIN || s == ROLE_AUTHOR || s == ROLE_READER
  }

  /** `toSystemRole`: lower-case the input, reject it unless it is one of the
      three display roles, and map it to the matching system role. */
  function ToSystemRole(prettyRole: string): (r: Result<string>)
    ensures forall role: Role :: r == Ok(SystemName(role)) <==> ToLower(prettyRole) == PrettyName(role)
    ensures r.Err? <==> forall role: Role :: ToLower(prettyRole) != PrettyName(role)
    ensures r.Err? ==> r.error == InvalidRole("Role " + ToLower(prettyRole) + " not found.")
  {
    var lowered := ToLower(prettyRole);
    if lowered !in ["admin", "author", "reader"] then
      Err(InvalidRole("Role " + lowered + " not found."))
    else if lowered == "admin" then assert lowered == PrettyName(Admin); Ok(ROLE_ADMIN)
    else if lowered == "author" then assert lowered == PrettyName(Author); Ok(ROLE_AUTHOR)
    else assert lowered == PrettyName(Reader); Ok(ROLE_READER)
  }

  /** `toPrettyRole`: upper-case the input, reject it unless it is one of the
      three system roles, and map it to the matching display role. */
  function ToPrettyRole(systemRole: string): (r: Result<string>)
    ensures forall role: Role :: r == Ok(PrettyName(role)) <==> ToUpper(systemRole) == SystemName(role)
    ensures r.Err? <==> forall role: Role :: ToUpper(systemRole) != SystemName(role)
    ensures r.Err? ==> r.error == InvalidRole("Role " + ToUpper(systemRole) + " not found.")
  {
    var raised := ToUpper(systemRole);
    if raised !in [ROLE_ADMIN, ROLE_AUTHOR, ROLE_READER] then
      Err(InvalidRole("Role " + raised + " not found."))
    else if raised == ROLE_ADMIN then assert raised == SystemName(Admin); Ok("admin")
    else if raised == ROLE_AUTHOR then assert raised == SystemName(Author); Ok("author")
    else assert raised == SystemName(Reader); Ok("reader")
  }

  /** Both spellings are fixed by case folding: the display names are
      lower-case and the system names upper-case. */
  lemma {:induction false} NamesAreCaseFolded(role: Role)
    ensures ToLower(PrettyName(role)) == PrettyName(role)
    ensures ToUpper(SystemName(role)) == SystemName(role)
  {
    LowerOfLowerCase(PrettyName(role));
    UpperOfUpperCase(SystemName(role));
  }

  /** The catalogue in both directions: each display role maps to its
      system role and back. */
  lemma {:induction false} Catalogue(role: Role)
    ensures ToSystemRole(PrettyName(role)) == Ok(SystemName(role))
    ensures ToPrettyRole(SystemName(role)) == Ok(PrettyName(role))
  {
    NamesAreCaseFolded(role);
  }

  /** `toSystemRole` never defaults: it succeeds only with one of the three
      system roles, and each system role comes from exactly one display role
      (so the mapping is injective on the case-folded input). */
  lemma ToSystemRoleIsInjective(s: string, t: string)
    requires ToSystemRole(s).Ok? && ToSystemRole(t).Ok?
    ensures IsSystemRole(ToSystemRole(s).value)
    ensures ToSystemRole(s) == ToSystemRole(t) <==> ToLower(s) == ToLower(t)
  {
    var rs :| ToLower(s) == PrettyName(rs);
    var rt :| ToLower(t) == PrettyName(rt);
    assert ToSystemRole(s) == Ok(SystemName(rs));
    assert ToSystemRole(t) == Ok(SystemName(rt));
  }

  /** `toSystemRole` ignores case: any two inputs that agree after ASCII
      folding, in either direction, give the same result. */
  lemma ToSystemRoleIgnoresCase(s: string)
    ensures ToSystemRole(ToUpper(s)) == ToSystemRole(s)
    ensures ToSystemRole(ToLower(s)) == ToSystemRole(s)
  {
    LowerAfterUpper(s);
  }

  /** `toPrettyRole` ignores case in the same way. */
  lemma ToPrettyRoleIgnoresCase(s: string)
    ensures ToPrettyRole(ToLower(s)) == ToPrettyRole(s)
    ensures ToPrettyRole(ToUpper(s)) == ToPrettyRole(s)
  {
    UpperAfterLower(s);
  }

  /** Round trip from a display role: its system role converts back to the
      lower-cased input. */
  lemma {:induction false} PrettyRoundTrip(s: string)
    requires ToSystemRole(s).Ok?
    ensures ToPrettyRole(ToSystemRole(s).value) == Ok(ToLower(s))
  {
    var role :| ToLower(s) == PrettyName(role);
    Catalogue(role);
  }

  /** Round trip from a system role: its display role converts back to the
      upper-cased input. */
  lemma {:induction false} SystemRoundTrip(s: string)
    requires ToPrettyRole(s).Ok?
    ensures ToSystemRole(ToPrettyRole(s).value) == Ok(ToUpper(s))
  {
    var role :| ToUpper(s) == SystemName(role);
    Catalogue(role);
  }

  /** `toSystemRole` on an input whose lower-case form is spelled out. */
  lemma SystemRoleOfSpelled(s: string, lowered: string, role: Role)
    requires |s| == |lowered| && forall i :: 0 <= i < |s| ==> LowerChar(s[i]) == lowered[i]
    requires lowered == PrettyName(role)
    ensures ToSystemRole(s) == Ok(SystemName(role))
  {
    LowerIs(s, lowered);
  }

  /** `toPrettyRole` on an input whose upper-case form is spelled out. */
  lemma PrettyRoleOfSpelled(s: string, raised: string, role: Role)
    requires |s| == |raised| && forall i :: 0 <= i < |s| ==> UpperChar(s[i]) == raised[i]
    requires raised == SystemName(role)
    ensures ToPrettyRole(s) == Ok(PrettyName(role))
  {
    UpperIs(s, raised);
  }

  /** `toSystemRole` on the inputs of the role converter's unit tests. */
  lemma {:induction false} ToSystemRoleExamples()
    ensures ToSystemRole("ADMIN") == Ok(ROLE_ADMIN)
    ensures ToSystemRole("Author") == Ok(ROLE_AUTHOR)
    ensures ToSystemRole("ReAdeR") == Ok(ROLE_READER)
  {
    SystemRoleOfSpelled("ADMIN", "admin", Admin);
    SystemRoleOfSpelled("Author", "author", Author);
    SystemRoleOfSpelled("ReAdeR", "reader", Reader);
  }

  /** `toSystemRole` on the invalid input of the role converter's unit tests
      (passed as a parameter: the verifier's unfolding of a long literal
      argument is expensive). */
  lemma ToSystemRoleRejectsExample(s: string)
    requires s == "invalid_role"
    ensures ToSystemRole(s) == Err(InvalidRole("Role invalid_role not found."))
  {
  }

  /** `toPrettyRole` on the inputs of the role converter's unit tests. */
  lemma {:induction false} ToPrettyRoleExamples(admin: string, author: string, reader: string)
    requires admin == "role_admin" && author == "ROLE_author" && reader == "role_READER"
    ensures ToPrettyRole(admin) == Ok("admin")
    ensures ToPrettyRole(author) == Ok("author")
    ensures ToPrettyRole(reader) == Ok("reader")
  {
    PrettyRoleOfSpelled(admin, ROLE_ADMIN, Admin);
    PrettyRoleOfSpelled(author, ROLE_AUTHOR, Author);
    PrettyRoleOfSpelled(reader, ROLE_READER, Reader);
  }

  /** `toPrettyRole` on the invalid input of the role converter's unit tests. */
  lemma ToPrettyRoleRejectsExample(s: string)
    requires s == "ROLE_INVALID"
    ensures ToPrettyRole(s) == Err(InvalidRole("Role ROLE_INVALID not found."))
  {
  }
}
