// The JWT strategy: the user a valid access token stands for, with its
// permissions recomputed from the stored roles.
module JwtStrategy {
  import opened Common
  import opened Accounts
  import opened Auth
  import opened PermissionsGuard

  /** The claims of an access token that `validate` reads. */
  datatype JwtPayload = JwtPayload(sub: int, roles: Option<seq<string>>, permissions: Option<seq<string>>)

  /** The request user `validate` returns. */
  datatype AuthUser = AuthUser(id: int, email: string, name: Option<string>, roles: seq<string>, permissions: seq<string>)

  /** `validate`: Unauthorized for a missing user, then for an inactive
      one; otherwise the user with the token's roles (or none) and the
      permissions of its stored roles, whatever the token claims. */
  method Validate(users: seq<User>, links: seq<UsuarioRol>, catalog: RoleCatalog, payload: JwtPayload)
    returns (r: Result<AuthUser>)
    ensures FindUser(users, payload.sub).None? ==> r == Err(Unauthorized("user"))
    ensures FindUser(users, payload.sub).Some? && !FindUser(users, payload.sub).value.activo
      ==> r == Err(Unauthorized("inactive"))
    ensures r.Ok? <==> FindUser(users, payload.sub).Some? && FindUser(users, payload.sub).value.activo
    ensures r.Ok? ==>
      r.value.id == payload.sub && r.value.email == FindUser(users, payload.sub).value.email
      && r.value.name == FindUser(users, payload.sub).value.name
      && r.value.roles == Coalesce(payload.roles, [])
      && r.value.permissions == PermissionUnion(LoadRoles(links, catalog, payload.sub))
  {
    var user := FindUser(users, payload.sub);
    if user.None? {
      return Err(Unauthorized("user"));
    }
    if !user.value.activo {
      return Err(Unauthorized("inactive"));
    }
    var permissions := ExtractPermissions(LoadRoles(links, catalog, user.value.id));
    r := Ok(AuthUser(user.value.id, user.value.email, user.value.name, Coalesce(payload.roles, []), permissions));
  }

  /** The guard on a request authenticated by this strategy: with
      permissions required, it is allowed exactly when one of its stored
      roles grants one of them. */
  lemma GuardOnStoredRoles(required: seq<string>, roles: seq<LoadedRole>)
    requires required != []
    ensures CanActivate(Some(required), Some(RequestUser(Some(PermissionUnion(roles)))))
      <==> exists p, i :: p in required && 0 <= i < |roles| && p in roles[i].codigos
  {
    var granted := PermissionUnion(roles);
    if CanActivate(Some(required), Some(RequestUser(Some(granted)))) {
      var p :| p in required && p in granted;
      var i :| 0 <= i < |roles| && p in roles[i].codigos;
    }
    if exists p, i :: p in required && 0 <= i < |roles| && p in roles[i].codigos {
      var p, i :| p in required && 0 <= i < |roles| && p in roles[i].codigos;
      assert p in granted;
    }
  }
}
