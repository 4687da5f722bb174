// The authentication service: the permission set of a user, the checks of
// `validateUser` in their order, the login and refresh answers, and the
// refresh-token record a login writes. Password comparison (bcrypt), token
// signing and random tokens are inputs.
module Auth {
  import opened Common
  import opened Accounts
  import opened UsersRepository

  /** Every permission code of every role, in role order, repeats kept. */
  function AllCodes(roles: seq<LoadedRole>): (r: seq<string>)
  {
    if roles == [] then [] else AllCodes(roles[..|roles| - 1]) + roles[|roles| - 1].codigos
  }

  lemma {:induction false} AllCodesMembers(roles: seq<LoadedRole>, code: string)
    ensures code in AllCodes(roles) <==> exists i :: 0 <= i < |roles| && code in roles[i].codigos
  {
    if roles != [] {
      var front := roles[..|roles| - 1];
      AllCodesMembers(front, code);
      if exists i :: 0 <= i < |roles| && code in roles[i].codigos {
        var i :| 0 <= i < |roles| && code in roles[i].codigos;
        if i < |roles| - 1 {
          assert code in front[i].codigos;
        }
      }
    }
  }

  /** The permission set of a user: each code granted by some role, once,
      in the order `Set` insertion gives (first grant first). */
  function PermissionUnion(roles: seq<LoadedRole>): (r: seq<string>)
    ensures NoDup(r)
    ensures forall code :: code in r <==> exists i :: 0 <= i < |roles| && code in roles[i].codigos
  {
    forall code ensures code in AllCodes(roles) <==> exists i :: 0 <= i < |roles| && code in roles[i].codigos {
      AllCodesMembers(roles, code);
    }
    Dedup(AllCodes(roles))
  }

  /** `extractPermissions` (the same code in the auth service and in the
      JWT strategy): codes added to a `Set` role by role, then the set as
      an array. */
  method ExtractPermissions(roles: seq<LoadedRole>) returns (permissions: seq<string>)
    ensures permissions == PermissionUnion(roles)
  {
    permissions := [];
    var i := 0;
    while i < |roles|
      invariant 0 <= i <= |roles|
      invariant permissions == Dedup(AllCodes(roles[..i]))
    {
      var codigos := roles[i].codigos;
      var j := 0;
      assert AllCodes(roles[..i]) + codigos[..0] == AllCodes(roles[..i]);
      while j < |codigos|
        invariant 0 <= j <= |codigos|
        invariant permissions == Dedup(AllCodes(roles[..i]) + codigos[..j])
      {
        var s := AllCodes(roles[..i]) + codigos[..j];
        assert AllCodes(roles[..i]) + codigos[..j + 1] == s + [codigos[j]];
        DedupSnoc(s, codigos[j]);
        if codigos[j] !in permissions {
          permissions := permissions + [codigos[j]];
        }
        j := j + 1;
      }
      assert codigos[..j] == codigos;
      assert roles[..i + 1][..i] == roles[..i];
      i := i + 1;
    }
    assert roles[..i] == roles;
  }

  /** The checks of `validateUser`, in order: an unknown email, an inactive
      user, a wrong password; each is Unauthorized. */
  function CheckCredentials(users: seq<User>, email: string, password: string,
                            compare: (string, string) -> bool): (r: Result<User>)
    ensures FindUserByEmail(users, email).None? ==> r == Err(Unauthorized("credentials"))
    ensures FindUserByEmail(users, email).Some? && !FindUserByEmail(users, email).value.activo
      ==> r == Err(Unauthorized("inactive"))
    ensures r.Ok? <==>
      (FindUserByEmail(users, email).Some? && FindUserByEmail(users, email).value.activo
       && compare(password, FindUserByEmail(users, email).value.password))
    ensures r.Ok? ==> r.value == FindUserByEmail(users, email).value
    ensures r.Err? ==> r.error.Unauthorized?
  {
    var user := FindUserByEmail(users, email);
    if user.None? then Err(Unauthorized("credentials"))
    else if !user.value.activo then Err(Unauthorized("inactive"))
    else if !compare(password, user.value.password) then Err(Unauthorized("credentials"))
    else Ok(user.value)
  }

  /** `validateUser`: `ultimo_acceso` is written only once all three checks
      pass; the user as read before the write is returned. */
  method ValidateUser(table: UserTable, email: string, password: string, compare: (string, string) -> bool, now: int)
    returns (r: Result<User>)
    requires table.Valid()
    modifies table
    ensures table.Valid() && table.links == old(table.links)
    ensures r == CheckCredentials(old(table.users), email, password, compare)
    ensures r.Err? ==> table.users == old(table.users)
    ensures r.Ok? ==> UserUpdated(old(table.users), table.users, r.value.id, (u: User) => u.(ultimoAcceso := Some(now)))
  {
    r := CheckCredentials(table.users, email, password, compare);
    if r.Err? {
      return;
    }
    var user := r.value;
    FindUserOfMember(table.users, user);
    var written := table.UpdateRow(user.id, (u: User) => u.(ultimoAcceso := Some(now)));
  }

  /** The 30 minutes of an access token, in milliseconds. */
  const AccessTokenLifetime := 30 * 60 * 1000

  /** The 7 days of a refresh token, in milliseconds. */
  const RefreshTokenLifetime := 7 * 24 * 60 * 60 * 1000

  datatype SessionUser = SessionUser(id: int, email: string, name: string, roles: seq<string>, permissions: seq<string>)

  datatype LoginResponse = LoginResponse(accessToken: string, refreshToken: string, expiresIn: int, user: SessionUser)

  /** What a request tells about its origin. */
  datatype RequestInfo = RequestInfo(ip: Option<string>, forwardedFor: Option<string>, userAgent: Option<string>)

  /** The answer of `login` and `refreshToken`: the role names in link
      order, the permission set, the name falling back to the email, and
      an expiry 30 minutes after `now`. */
  function Session(user: User, roles: seq<LoadedRole>, accessToken: string, refreshToken: string, now: int)
    : (r: LoginResponse)
    ensures r.expiresIn == now + AccessTokenLifetime
    ensures r.user.name == (if TruthyStr(user.name) then user.name.value else user.email)
    ensures r.user.roles == RoleNames(roles) && r.user.permissions == PermissionUnion(roles)
    ensures r.user.id == user.id && r.refreshToken == refreshToken
  {
    LoginResponse(accessToken, refreshToken, now + AccessTokenLifetime,
                  SessionUser(user.id, user.email, OrElse(user.name, user.email), RoleNames(roles), PermissionUnion(roles)))
  }

  /** The record `generateRefreshToken` stores: active, expiring seven days
      after `now`, with the request's IP, else its forwarded-for header,
      else "unknown", and its user agent, else "unknown". */
  function NewRefreshToken(id: int, userId: int, token: string, req: RequestInfo, now: int): (t: RefreshToken)
    ensures t.activo && t.fechaExpiracion == t.fechaCreacion + RefreshTokenLifetime && t.fechaCreacion == now
    ensures t.usuarioId == userId && t.tokenHash == token
    ensures TruthyStr(req.ip) ==> t.ipOrigen == req.ip.value
    ensures !TruthyStr(req.ip) && TruthyStr(req.forwardedFor) ==> t.ipOrigen == req.forwardedFor.value
    ensures !TruthyStr(req.ip) && !TruthyStr(req.forwardedFor) ==> t.ipOrigen == "unknown"
    ensures TruthyStr(req.userAgent) ==> t.userAgent == req.userAgent.value
    ensures !TruthyStr(req.userAgent) ==> t.userAgent == "unknown"
  {
    var ip := if TruthyStr(req.ip) then req.ip.value else OrElse(req.forwardedFor, "unknown");
    RefreshToken(id, userId, token, ip, OrElse(req.userAgent, "unknown"), now + RefreshTokenLifetime, true, now)
  }

  /** The refresh-token table. */
  class TokenTable {
    var tokens: seq<RefreshToken>

    constructor (tokens: seq<RefreshToken>)
      ensures this.tokens == tokens
    {
      this.tokens := tokens;
    }

    method Create(t: RefreshToken)
      modifies this
      ensures tokens == old(tokens) + [t]
    {
      tokens := tokens + [t];
    }
  }

  /** `login`: the credentials are validated (writing `ultimo_acceso`), then
      a refresh-token record is stored, and the session returned. A failed
      check writes nothing. */
  method Login(table: UserTable, store: TokenTable, catalog: RoleCatalog, email: string, password: string,
               compare: (string, string) -> bool, req: RequestInfo, now: int,
               accessToken: string, randomToken: string, tokenId: int)
    returns (r: Result<LoginResponse>)
    requires table.Valid()
    modifies table, store
    ensures table.Valid() && table.links == old(table.links)
    ensures var checked := CheckCredentials(old(table.users), email, password, compare);
      if checked.Err? then
        r == Err(checked.error) && table.users == old(table.users) && store.tokens == old(store.tokens)
      else
        var user := checked.value;
        r == Ok(Session(user, LoadRoles(old(table.links), catalog, user.id), accessToken, randomToken, now))
        && UserUpdated(old(table.users), table.users, user.id, (u: User) => u.(ultimoAcceso := Some(now)))
        && store.tokens == old(store.tokens) + [NewRefreshToken(tokenId, user.id, randomToken, req, now)]
  {
    var validated := ValidateUser(table, email, password, compare, now);
    if validated.Err? {
      return Err(validated.error);
    }
    var user := validated.value;
    var roles := LoadRoles(table.links, catalog, user.id);
    var permissions := ExtractPermissions(roles);
    store.Create(NewRefreshToken(tokenId, user.id, randomToken, req, now));
    r := Ok(LoginResponse(accessToken, randomToken, now + AccessTokenLifetime,
                          SessionUser(user.id, user.email, OrElse(user.name, user.email), RoleNames(roles), permissions)));
  }

  /** A stored token that `refreshToken` accepts: the same token, active,
      and not yet expired. */
  predicate UsableToken(t: RefreshToken, token: string, now: int)
  {
    t.tokenHash == token && t.activo && t.fechaExpiracion > now
  }

  /** `refreshToken.findFirst` with the token, `activo` and the expiry in
      its `where`. */
  function FindUsableToken(tokens: seq<RefreshToken>, token: string, now: int): (r: Option<RefreshToken>)
    ensures r.Some? ==> r.value in tokens && UsableToken(r.value, token, now)
    ensures r.None? ==> forall t :: t in tokens ==> !UsableToken(t, token, now)
  {
    if tokens == [] then None
    else if UsableToken(tokens[0], token, now) then Some(tokens[0])
    else FindUsableToken(tokens[1..], token, now)
  }

  /** The checks of `refreshToken`, in order: a usable token, then an
      active owner. A token whose owner is missing, which the foreign key
      rules out, is treated as an unusable token. */
  function CheckRefresh(users: seq<User>, tokens: seq<RefreshToken>, token: string, now: int): (r: Result<User>)
    ensures r.Ok? <==>
      (FindUsableToken(tokens, token, now).Some?
       && FindUser(users, FindUsableToken(tokens, token, now).value.usuarioId).Some?
       && FindUser(users, FindUsableToken(tokens, token, now).value.usuarioId).value.activo)
    ensures r.Ok? ==> exists t :: t in tokens && UsableToken(t, token, now) && t.usuarioId == r.value.id
    ensures r.Ok? ==> r.value in users && r.value.activo
    ensures r.Err? ==> r.error.Unauthorized?
  {
    var record := FindUsableToken(tokens, token, now);
    if record.None? then Err(Unauthorized("token"))
    else
      var user := FindUser(users, record.value.usuarioId);
      if user.None? then Err(Unauthorized("token"))
      else if !user.value.activo then Err(Unauthorized("inactive"))
      else Ok(user.value)
  }

  /** `refreshToken`: a new access token for the same refresh token, after
      writing `ultimo_acceso`; no token record is written. */
  method Refresh(table: UserTable, store: TokenTable, catalog: RoleCatalog, token: string, now: int, accessToken: string)
    returns (r: Result<LoginResponse>)
    requires table.Valid()
    modifies table
    ensures table.Valid() && table.links == old(table.links)
    ensures var checked := CheckRefresh(old(table.users), store.tokens, token, now);
      if checked.Err? then r == Err(checked.error) && table.users == old(table.users)
      else
        var user := checked.value;
        r == Ok(Session(user, LoadRoles(old(table.links), catalog, user.id), accessToken, token, now))
        && r.value.refreshToken == token
        && UserUpdated(old(table.users), table.users, user.id, (u: User) => u.(ultimoAcceso := Some(now)))
  {
    var checked := CheckRefresh(table.users, store.tokens, token, now);
    if checked.Err? {
      return Err(checked.error);
    }
    var user := checked.value;
    var roles := LoadRoles(table.links, catalog, user.id);
    var permissions := ExtractPermissions(roles);
    var written := table.UpdateRow(user.id, (u: User) => u.(ultimoAcceso := Some(now)));
    r := Ok(LoginResponse(accessToken, token, now + AccessTokenLifetime,
                          SessionUser(user.id, user.email, OrElse(user.name, user.email), RoleNames(roles), permissions)));
  }
}
