/** The user-management routes, all behind ROLE_ADMIN. */
module UserController {
  import opened Php
  import opened Strings
  import opened Entities
  import opened Security
  import opened Repository
  import opened Dto
  import opened Http
  import RoleConverter
  import AccessDecisionManager
  import UserTransformer
  import UserFactory

  const USER_NOT_FOUND: string := "User not found."
  const USER_HAS_ARTICLES: string := "Cannot delete user with articles."

  predicate Gate(token: Token)
  {
    AccessDecisionManager.Decide(token, RoleConverter.ROLE_ADMIN, Null)
  }

  /** `GET /users`: every stored user, transformed; one stored role outside
      the catalogue makes the whole listing fail. */
  method Index(store: Store, token: Token) returns (r: Response)
    ensures !HasRole(token, RoleConverter.ROLE_ADMIN) ==> r == AccessRefused()
    ensures HasRole(token, RoleConverter.ROLE_ADMIN) && (forall id :: id in store.users ==> UserTransformer.View(store.users[id]).Ok?) ==>
              r.status == OK && r.body.Items? && r.body.entries.Keys == store.users.Keys &&
              forall id :: id in store.users ==> r.body.entries[id] == UserTransformer.View(store.users[id]).value
    ensures HasRole(token, RoleConverter.ROLE_ADMIN) && (exists id :: id in store.users && UserTransformer.View(store.users[id]).Err?) ==>
              exists id :: id in store.users && UserTransformer.View(store.users[id]).Err? &&
                           r == Thrown(UserTransformer.View(store.users[id]).error)
  {
    AccessDecisionManager.RoleGate(token, RoleConverter.ROLE_ADMIN, Null);
    if !Gate(token) {
      return AccessRefused();
    }
    if exists id :: id in store.users && UserTransformer.View(store.users[id]).Err? {
      var id :| id in store.users && UserTransformer.View(store.users[id]).Err?;
      return Thrown(UserTransformer.View(store.users[id]).error);
    }
    return Response(OK, Items(map id | id in store.users :: UserTransformer.View(store.users[id]).value));
  }

  /** `GET /users/{id}`. */
  function Show(store: Store, token: Token, id: int): (r: Response)
    reads store
    ensures !HasRole(token, RoleConverter.ROLE_ADMIN) ==> r == AccessRefused()
    ensures HasRole(token, RoleConverter.ROLE_ADMIN) && id !in store.users ==>
              r == Response(NOT_FOUND, ErrorMessage(USER_NOT_FOUND))
    ensures HasRole(token, RoleConverter.ROLE_ADMIN) && id in store.users ==>
              match UserTransformer.View(store.users[id])
              case Ok(fields) => r == Response(OK, Item(fields))
              case Err(e) => r == Thrown(e)
  {
    AccessDecisionManager.RoleGate(token, RoleConverter.ROLE_ADMIN, Null);
    if !Gate(token) then AccessRefused()
    else if id !in store.users then Response(NOT_FOUND, ErrorMessage(USER_NOT_FOUND))
    else match UserTransformer.View(store.users[id])
      case Ok(fields) => Response(OK, Item(fields))
      case Err(e) => Thrown(e)
  }

  /** `POST /users`: the user `createFromDto` builds, stored under the next
      id; a factory exception stores nothing. */
  method Create(store: Store, token: Token, dto: UserCreateDto, hash: string -> string) returns (r: Response)
    requires store.Valid()
    modifies store
    ensures store.Valid() && store.articles == old(store.articles) && store.nextArticleId == old(store.nextArticleId)
    ensures !HasRole(token, RoleConverter.ROLE_ADMIN) ==> r == AccessRefused() && unchanged(store)
    ensures HasRole(token, RoleConverter.ROLE_ADMIN) && UserFactory.CreateFailure(old(store.users), dto.email, dto.role).Some? ==>
              r == Thrown(UserFactory.CreateFailure(old(store.users), dto.email, dto.role).value) && unchanged(store)
    ensures HasRole(token, RoleConverter.ROLE_ADMIN) && UserFactory.CreateFailure(old(store.users), dto.email, dto.role).None? ==>
              var row := UserRow(old(store.nextUserId), dto.email, RoleConverter.ToSystemRole(dto.role).value,
                                 hash(dto.password), dto.name);
              && row.id !in old(store.users)
              && store.users == old(store.users)[row.id := row]
              && store.nextUserId == old(store.nextUserId) + 1
              && UserTransformer.View(row).Ok?
              && r == Response(CREATED, Item(UserTransformer.View(row).value))
  {
    AccessDecisionManager.RoleGate(token, RoleConverter.ROLE_ADMIN, Null);
    if !Gate(token) {
      return AccessRefused();
    }
    var created := UserFactory.CreateFromDto(store.users, store.nextUserId, dto, hash);
    if created.Err? {
      return Thrown(created.error);
    }
    var user := created.value;
    var row := UserRowOf(user);
    UserFactory.CreatedRowFits(store.users, dto.email, dto.role);
    UserTransformer.ConvertedRoleTransforms(user, dto.role);
    UserTransformer.TransformIsView(user);
    var t := UserTransformer.Transform(Obj(UserObject(user)));
    assert t == UserTransformer.View(row);
    store.InsertUser(row);
    return Response(CREATED, Item(t.value));
  }

  /** `PUT /users/{id}`: `updateFromDto` on the loaded user, then flush,
      then transform. A factory exception flushes nothing; a stored role
      the transformer cannot show fails after the flush. */
  method Update(store: Store, token: Token, id: int, dto: UserUpdateDto) returns (r: Response)
    requires store.Valid()
    modifies store
    ensures store.Valid() && store.articles == old(store.articles)
    ensures store.nextUserId == old(store.nextUserId) && store.nextArticleId == old(store.nextArticleId)
    ensures !HasRole(token, RoleConverter.ROLE_ADMIN) ==> r == AccessRefused() && unchanged(store)
    ensures HasRole(token, RoleConverter.ROLE_ADMIN) && id !in old(store.users) ==>
              r == Response(NOT_FOUND, ErrorMessage(USER_NOT_FOUND)) && unchanged(store)
    ensures HasRole(token, RoleConverter.ROLE_ADMIN) && id in old(store.users) &&
            UserFactory.UpdateFailure(old(store.users), old(store.users[id].email), dto).Some? ==>
              r == Thrown(UserFactory.UpdateFailure(old(store.users), old(store.users[id].email), dto).value) &&
              unchanged(store)
    ensures HasRole(token, RoleConverter.ROLE_ADMIN) && id in old(store.users) &&
            UserFactory.UpdateFailure(old(store.users), old(store.users[id].email), dto).None? ==>
              var row := UserFactory.Updated(old(store.users[id]), dto);
              && store.users == old(store.users)[id := row]
              && match UserTransformer.View(row)
                 case Ok(fields) => r == Response(OK, Item(fields))
                 case Err(e) => r == Thrown(e)
  {
    AccessDecisionManager.RoleGate(token, RoleConverter.ROLE_ADMIN, Null);
    if !Gate(token) {
      return AccessRefused();
    }
    if id !in store.users {
      return Response(NOT_FOUND, ErrorMessage(USER_NOT_FOUND));
    }
    var user := store.LoadUser(id);
    var updated := UserFactory.UpdateFromDto(user, dto, store.users);
    if updated.Err? {
      return Thrown(updated.error);
    }
    UserFactory.UpdatedRowFits(store.users, store.users[id], dto);
    store.ReplaceUser(UserRowOf(user));
    UserTransformer.TransformIsView(user);
    var t := UserTransformer.Transform(Obj(UserObject(user)));
    if t.Err? {
      return Thrown(t.error);
    }
    return Response(OK, Item(t.value));
  }

  /** `DELETE /users/{id}`: refused with 409 while the user owns an
      article, even for an administrator; otherwise exactly that user
      goes. */
  method Delete(store: Store, token: Token, id: int) returns (r: Response)
    requires store.Valid()
    modifies store
    ensures store.Valid() && store.articles == old(store.articles)
    ensures store.nextUserId == old(store.nextUserId) && store.nextArticleId == old(store.nextArticleId)
    ensures !HasRole(token, RoleConverter.ROLE_ADMIN) ==> r == AccessRefused() && unchanged(store)
    ensures HasRole(token, RoleConverter.ROLE_ADMIN) && id !in old(store.users) ==>
              r == Response(NOT_FOUND, ErrorMessage(USER_NOT_FOUND)) && unchanged(store)
    ensures HasRole(token, RoleConverter.ROLE_ADMIN) && id in old(store.users) && OwnsArticles(old(store.articles), id) ==>
              r == Response(CONFLICT, ErrorMessage(USER_HAS_ARTICLES)) && unchanged(store)
    ensures HasRole(token, RoleConverter.ROLE_ADMIN) && id in old(store.users) && !OwnsArticles(old(store.articles), id) ==>
              store.users == old(store.users) - {id} && r == Response(NO_CONTENT, NoContent)
  {
    AccessDecisionManager.RoleGate(token, RoleConverter.ROLE_ADMIN, Null);
    if !Gate(token) {
      return AccessRefused();
    }
    if id !in store.users {
      return Response(NOT_FOUND, ErrorMessage(USER_NOT_FOUND));
    }
    if OwnsArticles(store.articles, id) {
      return Response(CONFLICT, ErrorMessage(USER_HAS_ARTICLES));
    }
    store.RemoveUser(id);
    return Response(NO_CONTENT, NoContent);
  }
}
