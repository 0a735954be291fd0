/** Builds users from request data and applies partial updates to them.
    The repository the factory queries is the current user table; the
    password hasher is the function `hash`. */
module UserFactory {
  import opened Php
  import opened Strings
  import opened RoleConverter
  import opened Entities
  import opened Repository
  import opened Dto

  const EMAIL_EXISTS: string := "User with this email already exists."

  /** The first check of `createFromParameters` that throws, in source
      order: the email lookup, the User constructor, then the role
      converter. */
  function CreateFailure(users: map<int, UserRow>, email: string, role: string): (f: Option<Exception>)
    ensures f.None? <==> !EmailTaken(users, email) && !IsBlank(email) && ToSystemRole(role).Ok?
    ensures EmailTaken(users, email) ==> f == Some(InvalidArgument(EMAIL_EXISTS))
    ensures !EmailTaken(users, email) && IsBlank(email) ==> f == Some(InvalidArgument(USER_EMAIL_EMPTY))
    ensures !EmailTaken(users, email) && !IsBlank(email) && ToSystemRole(role).Err? ==>
              f == Some(ToSystemRole(role).error)
  {
    if EmailTaken(users, email) then Some(InvalidArgument(EMAIL_EXISTS))
    else if Trim(email) == "" then Some(InvalidArgument(USER_EMAIL_EMPTY))
    else match ToSystemRole(role)
      case Err(e) => Some(e)
      case Ok(_) => None
  }

  /** `createFromParameters`: refuse a taken email before building
      anything, then build the user, hash the password and convert the
      role. The id is the one the store will assign on flush. */
  method CreateFromParameters(users: map<int, UserRow>, id: int, name: string, email: string,
                              password: string, role: string, hash: string -> string)
    returns (r: Result<User>)
    ensures r.Err? <==> CreateFailure(users, email, role).Some?
    ensures r.Err? ==> r.error == CreateFailure(users, email, role).value
    ensures r.Ok? ==> fresh(r.value) && r.value.articles == [] && ToSystemRole(role).Ok?
    ensures r.Ok? ==> UserRowOf(r.value) == UserRow(id, email, ToSystemRole(role).value, hash(password), name)
  {
    if EmailTaken(users, email) {
      return Err(InvalidArgument(EMAIL_EXISTS));
    }
    var created := User.New(id, name, email);
    if created.Err? {
      return Err(created.error);
    }
    var user := created.value;
    var hashedPassword := hash(password);
    var systemRole := ToSystemRole(role);
    if systemRole.Err? {
      return Err(systemRole.error);
    }
    var _ := user.SetPassword(hashedPassword);
    var _ := user.SetRole(systemRole.value);
    return Ok(user);
  }

  /** `createFromDto` is `createFromParameters` on the DTO's fields. */
  method CreateFromDto(users: map<int, UserRow>, id: int, dto: UserCreateDto, hash: string -> string)
    returns (r: Result<User>)
    ensures r.Err? <==> CreateFailure(users, dto.email, dto.role).Some?
    ensures r.Err? ==> r.error == CreateFailure(users, dto.email, dto.role).value
    ensures r.Ok? ==> fresh(r.value) && r.value.articles == [] && ToSystemRole(dto.role).Ok?
    ensures r.Ok? ==> UserRowOf(r.value) == UserRow(id, dto.email, ToSystemRole(dto.role).value, hash(dto.password), dto.name)
  {
    r := CreateFromParameters(users, id, dto.name, dto.email, dto.password, dto.role, hash);
  }

  /** A user the factory creates can be added to a valid table: its email
      is free and non-blank, and its role is one of the three. */
  lemma CreatedRowFits(users: map<int, UserRow>, email: string, role: string)
    requires CreateFailure(users, email, role).None?
    ensures !EmailTaken(users, email) && !IsBlank(email)
    ensures IsSystemRole(ToSystemRole(role).value)
  {
    ToSystemRoleIsInjective(role, role);
  }

  /** The email step of `updateFromDto`: the uniqueness lookup runs only for
      an email that differs from the current one, then `setEmail` refuses a
      blank one. */
  function EmailFailure(users: map<int, UserRow>, current: string, dto: UserUpdateDto): (f: Option<Exception>)
    ensures f.Some? ==> dto.email.Some?
    ensures f.None? <==>
              (dto.email.None? ||
               (!(dto.email.value != current && EmailTaken(users, dto.email.value)) && !IsBlank(dto.email.value)))
  {
    if dto.email.None? then None
    else if dto.email.value != current && EmailTaken(users, dto.email.value) then Some(InvalidArgument(EMAIL_EXISTS))
    else if Trim(dto.email.value) == "" then Some(InvalidArgument(USER_EMAIL_EMPTY))
    else None
  }

  /** The first step of `updateFromDto` that throws, if any: the name step
      cannot fail, the email step can, and the role step last. */
  function UpdateFailure(users: map<int, UserRow>, current: string, dto: UserUpdateDto): (f: Option<Exception>)
    ensures f.None? <==> EmailFailure(users, current, dto).None? && (dto.role.Some? ==> ToSystemRole(dto.role.value).Ok?)
  {
    if EmailFailure(users, current, dto).Some? then EmailFailure(users, current, dto)
    else if dto.role.Some? && ToSystemRole(dto.role.value).Err? then Some(ToSystemRole(dto.role.value).error)
    else None
  }

  /** The stored user after a successful update: each non-null field of the
      DTO replaces the current one, the role in its system form. */
  function Updated(row: UserRow, dto: UserUpdateDto): UserRow
    requires dto.role.Some? ==> ToSystemRole(dto.role.value).Ok?
  {
    row.(name := ValueOr(dto.name, row.name),
         email := ValueOr(dto.email, row.email),
         role := if dto.role.Some? then ToSystemRole(dto.role.value).value else row.role)
  }

  /** `updateFromDto`, applying name, email and role in that order on the
      object itself. A failure does not undo the steps before it: after a
      refused email the new name is already set, after a refused role the
      new name and email are. */
  method UpdateFromDto(user: User, dto: UserUpdateDto, users: map<int, UserRow>) returns (r: Result<User>)
    modifies user
    ensures r.Err? <==> UpdateFailure(users, old(user.email), dto).Some?
    ensures r.Err? ==> r.error == UpdateFailure(users, old(user.email), dto).value
    ensures r.Ok? ==> r.value == user && UserRowOf(user) == Updated(old(UserRowOf(user)), dto)
    ensures r.Err? ==> user.name == ValueOr(dto.name, old(user.name))
    ensures r.Err? ==> user.email == if EmailFailure(users, old(user.email), dto).Some? then old(user.email)
                                     else ValueOr(dto.email, old(user.email))
    ensures r.Err? ==> user.role == old(user.role)
    ensures user.password == old(user.password) && user.articles == old(user.articles)
  {
    if dto.name.Some? {
      var _ := user.SetName(dto.name.value);
    }
    if dto.email.Some? {
      if dto.email.value != user.email {
        if EmailTaken(users, dto.email.value) {
          return Err(InvalidArgument(EMAIL_EXISTS));
        }
      }
      var changed := user.SetEmail(dto.email.value);
      if changed.Err? {
        return Err(changed.error);
      }
    }
    if dto.role.Some? {
      var systemRole := ToSystemRole(dto.role.value);
      if systemRole.Err? {
        return Err(systemRole.error);
      }
      var _ := user.SetRole(systemRole.value);
    }
    return Ok(user);
  }

  /** Re-submitting a user's own non-blank email never trips the
      uniqueness check, although the table holds that email. */
  lemma ResubmittedEmailIsAccepted(users: map<int, UserRow>, current: string, dto: UserUpdateDto)
    requires dto.email == Some(current) && !IsBlank(current)
    ensures EmailFailure(users, current, dto).None?
  {
  }

  /** An update with every field null succeeds and changes nothing. */
  lemma EmptyUpdateChangesNothing(users: map<int, UserRow>, row: UserRow)
    ensures UpdateFailure(users, row.email, UserUpdateDto(None, None, None)).None?
    ensures Updated(row, UserUpdateDto(None, None, None)) == row
  {
  }

  /** A successful update keeps a valid table valid at that row: the new
      email is free unless it is the user's own, it is not blank, and the
      role is one of the three. */
  lemma {:induction false} UpdatedRowFits(users: map<int, UserRow>, row: UserRow, dto: UserUpdateDto)
    requires !IsBlank(row.email)
    requires UpdateFailure(users, row.email, dto).None?
    ensures Updated(row, dto).email == row.email || !EmailTaken(users, Updated(row, dto).email)
    ensures !IsBlank(Updated(row, dto).email)
    ensures dto.role.Some? ==> IsSystemRole(Updated(row, dto).role)
    ensures Updated(row, dto).id == row.id && Updated(row, dto).password == row.password
  {
    if dto.role.Some? {
      ToSystemRoleIsInjective(dto.role.value, dto.role.value);
    }
  }
}
