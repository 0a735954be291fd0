/** Turns a user into the array the API encodes as JSON, showing the role
    in its display form. */
module UserTransformer {
  import opened Php
  import opened Entities
  import opened Repository
  import opened Strings
  import opened RoleConverter

  const NOT_A_USER: string := "Entity is not instanceof App\\Entity\\User"

  const KEYS: set<string> := {"id", "name", "email", "role"}

  /** The four fields of a stored user, or the role converter's error. */
  function View(row: UserRow): Result<JsonObject>
  {
    match ToPrettyRole(row.role)
    case Err(e) => Err(e)
    case Ok(pretty) =>
      Ok(map["id" := JInt(row.id), "name" := JString(row.name),
             "email" := JString(row.email), "role" := JString(pretty)])
  }

  /** `transform(object $entity)`: a non-object is a TypeError, an object
      that is no User is rejected, a stored role outside the catalogue
      propagates InvalidRoleException, and otherwise the result has exactly
      the four keys, with id, name and email copied and the role
      prettified. The password never appears. */
  function Transform(entity: Value): (r: Result<JsonObject>)
    reads Footprint(entity)
    ensures !entity.Obj? ==> r == Err(TypeError)
    ensures entity.Obj? && !entity.obj.UserObject? ==> r == Err(InvalidArgument(NOT_A_USER))
    ensures IsUser(entity) ==> (r.Err? <==> ToPrettyRole(entity.obj.user.role).Err?)
    ensures IsUser(entity) && r.Err? ==> r == Err(ToPrettyRole(entity.obj.user.role).error)
    ensures r.Ok? ==> IsUser(entity) && r.value.Keys == KEYS
    ensures r.Ok? ==> var u := entity.obj.user;
                      && r.value["id"] == JInt(u.id)
                      && r.value["name"] == JString(u.name)
                      && r.value["email"] == JString(u.email)
                      && r.value["role"] == JString(ToPrettyRole(u.role).value)
  {
    match entity
    case Obj(UserObject(u)) => View(UserRowOf(u))
    case Obj(_) => Err(InvalidArgument(NOT_A_USER))
    case _ => Err(TypeError)
  }

  lemma TransformIsView(u: User)
    ensures Transform(Obj(UserObject(u))) == View(UserRowOf(u))
  {
  }

  /** Every role the factory stores can be shown: a user whose role came
      from `toSystemRole` always transforms, with the lower-cased input as
      its role. */
  lemma {:induction false} ConvertedRoleTransforms(u: User, prettyRole: string)
    requires ToSystemRole(prettyRole) == Ok(u.role)
    ensures Transform(Obj(UserObject(u))).Ok?
    ensures Transform(Obj(UserObject(u))).value["role"] == JString(ToLower(prettyRole))
  {
    PrettyRoundTrip(prettyRole);
  }

  /** The displayed role can be read back: `toSystemRole` of it is the
      stored role, upper-cased. */
  lemma {:induction false} DisplayedRoleRoundTrips(u: User)
    requires Transform(Obj(UserObject(u))).Ok?
    ensures Transform(Obj(UserObject(u))).value["role"].JString?
    ensures ToSystemRole(Transform(Obj(UserObject(u))).value["role"].s) == Ok(ToUpper(u.role))
  {
    SystemRoundTrip(u.role);
  }

  /** Two stored users with the same output agree on id, name and email,
      and on their role up to case. */
  lemma {:induction false} ViewDeterminesIdentity(r1: UserRow, r2: UserRow)
    requires View(r1).Ok? && View(r1) == View(r2)
    ensures r1.id == r2.id && r1.name == r2.name && r1.email == r2.email
    ensures ToUpper(r1.role) == ToUpper(r2.role)
  {
    var v := View(r1).value;
    assert v["id"] == JInt(r1.id) == JInt(r2.id);
    assert v["name"] == JString(r1.name) == JString(r2.name);
    assert v["email"] == JString(r1.email) == JString(r2.email);
    SystemRoundTrip(r1.role);
    SystemRoundTrip(r2.role);
    assert v["role"] == JString(ToPrettyRole(r1.role).value) == JString(ToPrettyRole(r2.role).value);
  }
}
