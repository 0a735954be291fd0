/** `POST /auth/register`: open to anyone, no role gate. */
module AuthRegisterController {
  import opened Php
  import opened Repository
  import opened Dto
  import opened Http
  import RoleConverter
  import UserFactory

  const REGISTERED: string := "User registered successfully."

  /** The user provider finds a user by email first and answers 409 when it
      does; otherwise the user `createFromDto` builds is stored. Because of
      that first lookup, the factory's own duplicate check can never fire
      here: a 500 never carries its message. */
  method Register(store: Store, dto: UserCreateDto, hash: string -> string) returns (r: Response)
    requires store.Valid()
    modifies store
    ensures store.Valid() && store.articles == old(store.articles) && store.nextArticleId == old(store.nextArticleId)
    ensures EmailTaken(old(store.users), dto.email) ==>
              r == Response(CONFLICT, ErrorMessage(UserFactory.EMAIL_EXISTS)) && unchanged(store)
    ensures !EmailTaken(old(store.users), dto.email) && UserFactory.CreateFailure(old(store.users), dto.email, dto.role).Some? ==>
              r == Thrown(UserFactory.CreateFailure(old(store.users), dto.email, dto.role).value) && unchanged(store)
    ensures !EmailTaken(old(store.users), dto.email) && UserFactory.CreateFailure(old(store.users), dto.email, dto.role).None? ==>
              var row := UserRow(old(store.nextUserId), dto.email, RoleConverter.ToSystemRole(dto.role).value,
                                 hash(dto.password), dto.name);
              && row.id !in old(store.users)
              && store.users == old(store.users)[row.id := row]
              && store.nextUserId == old(store.nextUserId) + 1
              && r == Response(CREATED, Message(REGISTERED))
    ensures r.body != Failure(InvalidArgument(UserFactory.EMAIL_EXISTS))
  {
    if EmailTaken(store.users, dto.email) {
      return Response(CONFLICT, ErrorMessage(UserFactory.EMAIL_EXISTS));
    }
    var created := UserFactory.CreateFromDto(store.users, store.nextUserId, dto, hash);
    if created.Err? {
      return Thrown(created.error);
    }
    var user := created.value;
    UserFactory.CreatedRowFits(store.users, dto.email, dto.role);
    store.InsertUser(UserRowOf(user));
    return Response(CREATED, Message(REGISTERED));
  }
}
