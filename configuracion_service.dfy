// The configuration service: a user's own profile and its update, the two-step
// password change through a six-digit verification code, the access log
// and the two-factor switch. bcrypt, the clock and `Math.random` are
// inputs.
module ConfiguracionService {
  import opened Common
  import opened Strings
  import opened Accounts
  import opened UsersRepository
  import opened ConfiguracionRepository

  datatype UpdateProfileDto = UpdateProfileDto(
    name: Option<string>,
    fotoPerfil: Option<string>,
    areaDepartamento: Option<string>,
    telefono: Option<string>)

  /** The fields `updateProfile` answers with. */
  datatype ProfileView = ProfileView(
    id: int,
    email: string,
    name: Option<string>,
    fotoPerfil: Option<string>,
    areaDepartamento: Option<string>,
    telefono: Option<string>)

  const PhotoExtensions: seq<string> := [".jpg", ".jpeg", ".png"]

  /** The photo rule: an empty value is accepted, any other must end, in
      lower case, with one of the image extensions. */
  predicate ValidPhoto(foto: string)
  {
    foto == "" || exists k :: 0 <= k < |PhotoExtensions| && EndsWith(ToLower(foto), PhotoExtensions[k])
  }

  /** The photo rule ignores case: a name and its lower-case form are
      accepted or refused together. */
  lemma PhotoRuleIgnoresCase(foto: string)
    ensures ValidPhoto(ToLower(foto)) <==> ValidPhoto(foto)
  {
    ToLowerIdempotent(foto);
    assert ToLower(foto) == "" <==> foto == "";
  }

  /** The guards of `updateProfile`, in order: NotFound, Forbidden when the
      profile is not the caller's own, then a defined photo that breaks the
      photo rule. */
  function ProfileCheck(users: seq<User>, userId: int, currentUserId: int, dto: UpdateProfileDto): (r: Result<User>)
    ensures FindUser(users, userId).None? ==> r == Err(NotFound)
    ensures FindUser(users, userId).Some? && userId != currentUserId ==> r == Err(Forbidden)
    ensures r.Ok? <==>
      (FindUser(users, userId).Some? && userId == currentUserId
       && (dto.fotoPerfil.None? || ValidPhoto(dto.fotoPerfil.value)))
    ensures r.Ok? ==> r.value == FindUser(users, userId).value
    ensures r == Err(BadRequest("photo")) <==>
      (FindUser(users, userId).Some? && userId == currentUserId
       && dto.fotoPerfil.Some? && !ValidPhoto(dto.fotoPerfil.value))
  {
    var user := FindUser(users, userId);
    if user.None? then Err(NotFound)
    else if user.value.id != currentUserId then Err(Forbidden)
    else if dto.fotoPerfil.Some? && !ValidPhoto(dto.fotoPerfil.value) then Err(BadRequest("photo"))
    else Ok(user.value)
  }

  /** The row `updateProfile` writes: the defined profile fields and the
      user as its own modifier. */
  function ApplyProfile(u: User, dto: UpdateProfileDto, userId: int): User
  {
    u.(name := if dto.name.Some? then dto.name else u.name,
       fotoPerfil := if dto.fotoPerfil.Some? then dto.fotoPerfil else u.fotoPerfil,
       areaDepartamento := if dto.areaDepartamento.Some? then dto.areaDepartamento else u.areaDepartamento,
       telefono := if dto.telefono.Some? then dto.telefono else u.telefono,
       usuarioModifId := Some(userId))
  }

  /** `updateProfile` writes only the profile fields the DTO defines and
      the modifier: e-mail, password, roles flags and activity are never
      touched. */
  lemma ProfileOnlyGivenFields(u: User, dto: UpdateProfileDto, userId: int)
    ensures var v := ApplyProfile(u, dto, userId);
      v.usuarioModifId == Some(userId)
      && v.id == u.id && v.email == u.email && v.password == u.password && v.activo == u.activo
      && v.requiere2fa == u.requiere2fa && v.dependenciaId == u.dependenciaId
      && (dto.name.None? ==> v.name == u.name) && (dto.name.Some? ==> v.name == dto.name)
      && (dto.fotoPerfil.None? ==> v.fotoPerfil == u.fotoPerfil) && (dto.fotoPerfil.Some? ==> v.fotoPerfil == dto.fotoPerfil)
      && (dto.areaDepartamento.None? ==> v.areaDepartamento == u.areaDepartamento)
      && (dto.telefono.None? ==> v.telefono == u.telefono)
  {
  }

  function ToProfileView(u: User): (v: ProfileView)
    ensures v.id == u.id && v.email == u.email && v.fotoPerfil == u.fotoPerfil
    ensures v.name == u.name && v.areaDepartamento == u.areaDepartamento && v.telefono == u.telefono
  {
    ProfileView(u.id, u.email, u.name, u.fotoPerfil, u.areaDepartamento, u.telefono)
  }

  /** The fields `getProfile` answers with: the user as read before its
      last access is stamped, and the roles linked to it. */
  datatype FullProfile = FullProfile(
    id: int,
    email: string,
    name: Option<string>,
    fotoPerfil: Option<string>,
    areaDepartamento: Option<string>,
    telefono: Option<string>,
    requiere2fa: bool,
    activo: bool,
    ultimoAcceso: Option<int>,
    fechaCreacion: int,
    roles: seq<Rol>)

  function ToFullProfile(u: User, roles: seq<Rol>): FullProfile
  {
    FullProfile(u.id, u.email, u.name, u.fotoPerfil, u.areaDepartamento, u.telefono,
                u.requiere2fa, u.activo, u.ultimoAcceso, u.fechaCreacion, roles)
  }

  /** `getProfile`: NotFound for a missing user; otherwise the user's last
      access is stamped with `now` and the profile is answered as read
      before that, so it shows the previous access, with exactly the roles
      the user is linked to. */
  method GetProfile(table: UserTable, roles: seq<Rol>, userId: int, now: int) returns (r: Result<FullProfile>)
    requires table.Valid()
    modifies table
    ensures table.Valid() && table.links == old(table.links)
    ensures FindUser(old(table.users), userId).None? ==> r == Err(NotFound) && table.users == old(table.users)
    ensures FindUser(old(table.users), userId).Some? ==>
      var u := FindUser(old(table.users), userId).value;
      r == Ok(ToFullProfile(u, RolesOf(table.links, roles, userId)))
      && r.value.ultimoAcceso == u.ultimoAcceso
      && (forall x :: x in r.value.roles <==> exists l :: l in table.links && LinksTo(l, roles, userId, x))
      && UserUpdated(old(table.users), table.users, userId, (x: User) => x.(ultimoAcceso := Some(now)))
  {
    var found := FindUser(table.users, userId);
    if found.None? {
      return Err(NotFound);
    }
    var _ := table.UpdateRow(userId, (x: User) => x.(ultimoAcceso := Some(now)));
    r := Ok(ToFullProfile(found.value, RolesOf(table.links, roles, userId)));
  }

  /** `updateProfile`: a failed guard writes nothing; otherwise the row is
      patched and its profile fields answered. */
  method UpdateProfile(table: UserTable, userId: int, dto: UpdateProfileDto, currentUserId: int)
    returns (r: Result<ProfileView>)
    requires table.Valid()
    modifies table
    ensures table.Valid() && table.links == old(table.links)
    ensures ProfileCheck(old(table.users), userId, currentUserId, dto).Err? ==>
      r == Err(ProfileCheck(old(table.users), userId, currentUserId, dto).error) && table.users == old(table.users)
    ensures ProfileCheck(old(table.users), userId, currentUserId, dto).Ok? ==>
      r == Ok(ToProfileView(ApplyProfile(FindUser(old(table.users), userId).value, dto, userId)))
      && UserUpdated(old(table.users), table.users, userId, (u: User) => ApplyProfile(u, dto, userId))
  {
    var check := ProfileCheck(table.users, userId, currentUserId, dto);
    if check.Err? {
      return Err(check.error);
    }
    var updated := table.UpdateRow(userId, (u: User) => ApplyProfile(u, dto, userId));
    r := Ok(ToProfileView(updated.value));
  }

  datatype ChangePasswordDto = ChangePasswordDto(currentPassword: string, newPassword: string, confirmPassword: string)

  /** The guards of `requestPasswordChange`, in order: NotFound, a wrong
      current password, a new password equal to the current one, and a
      confirmation that differs. */
  function PasswordChangeCheck(users: seq<User>, userId: int, dto: ChangePasswordDto,
                               compare: (string, string) -> bool): (r: Result<()>)
    ensures FindUser(users, userId).None? ==> r == Err(NotFound)
    ensures r.Ok? <==>
      (FindUser(users, userId).Some? && VerifyPassword(users, userId, dto.currentPassword, compare)
       && dto.currentPassword != dto.newPassword && dto.newPassword == dto.confirmPassword)
    ensures FindUser(users, userId).Some? && !VerifyPassword(users, userId, dto.currentPassword, compare) ==>
      r == Err(BadRequest("current"))
  {
    if FindUser(users, userId).None? then Err(NotFound)
    else if !VerifyPassword(users, userId, dto.currentPassword, compare) then Err(BadRequest("current"))
    else if dto.currentPassword == dto.newPassword then Err(BadRequest("same"))
    else if dto.newPassword != dto.confirmPassword then Err(BadRequest("confirm"))
    else Ok(())
  }

  /** `generateVerificationCode`: `Math.floor(100000 + Math.random() *
      900000)` written in decimal; `draw` is the integer part of the random
      product. */
  function GenerateVerificationCode(draw: nat): (code: string)
    requires draw < 900000
    ensures |code| == 6
    ensures forall i :: 0 <= i < |code| ==> IsDigit(code[i])
    ensures 100000 <= DigitsValue(code) <= 999999
    ensures JsParseInt(code) == Some(100000 + draw)
  {
    var n := 100000 + draw;
    assert Pow10(5) == 100000 by {
      assert Pow10(1) == 10;
      assert Pow10(2) == 100;
      assert Pow10(3) == 1000;
      assert Pow10(4) == 10000;
    }
    assert Pow10(6) == 1000000;
    NatToStringLength(n, 6);
    NatToStringLengthAtLeast(n, 6);
    DigitsValueOfNatToString(n);
    ParseIntOfNatString(n, []);
    assert NatToString(n) + [] == NatToString(n);
    NatToString(n)
  }

  const PasswordChange := "password_change"

  /** Five minutes, in milliseconds. */
  const CodeLifetime := 5 * 60 * 1000

  datatype CodeResponse = CodeResponse(code: string, expiresAt: int)

  /** `requestPasswordChange`: after the guards, a fresh six-digit code of
      type `password_change` expiring five minutes from now is stored
      (retiring the user's earlier unused ones) and answered; a failed guard
      writes nothing. */
  method RequestPasswordChange(users: UserTable, codes: CodeTable, userId: int, dto: ChangePasswordDto,
                               compare: (string, string) -> bool, draw: nat, now: int, codeId: string)
    returns (r: Result<CodeResponse>)
    requires codes.Valid() && FindCode(codes.codes, codeId).None?
    requires draw < 900000
    modifies codes
    ensures codes.Valid()
    ensures PasswordChangeCheck(users.users, userId, dto, compare).Err? ==>
      r == Err(PasswordChangeCheck(users.users, userId, dto, compare).error) && codes.codes == old(codes.codes)
    ensures PasswordChangeCheck(users.users, userId, dto, compare).Ok? ==>
      var code := GenerateVerificationCode(draw);
      r == Ok(CodeResponse(code, now + CodeLifetime))
      && codes.codes == InvalidatePending(old(codes.codes), userId, PasswordChange, now)
                        + [VerificationCode(codeId, userId, code, PasswordChange, now + CodeLifetime, false, None)]
  {
    var check := PasswordChangeCheck(users.users, userId, dto, compare);
    if check.Err? {
      return Err(check.error);
    }
    var code := GenerateVerificationCode(draw);
    var expiresAt := now + CodeLifetime;
    var _ := codes.CreateVerificationCode(codeId, userId, code, PasswordChange, expiresAt, now);
    r := Ok(CodeResponse(code, expiresAt));
  }

  /** The guards of `verifyAndChangePassword`, in order: NotFound, no valid
      `password_change` code with that value, a wrong current password, and
      a confirmation that differs. The valid code is the result. Unlike the
      request, equality of the new and the current password is not checked
      again. */
  function VerifyCheck(users: seq<User>, codes: seq<VerificationCode>, userId: int, code: string,
                       dto: ChangePasswordDto, compare: (string, string) -> bool, now: int)
    : (r: Result<VerificationCode>)
    ensures FindUser(users, userId).None? ==> r == Err(NotFound)
    ensures r.Ok? <==>
      (FindUser(users, userId).Some? && FindValidCode(codes, userId, code, PasswordChange, now).Some?
       && VerifyPassword(users, userId, dto.currentPassword, compare) && dto.newPassword == dto.confirmPassword)
    ensures r.Ok? ==> r.value in codes && IsValidCode(r.value, userId, code, PasswordChange, now)
    ensures FindUser(users, userId).Some? && (forall c :: c in codes ==> !IsValidCode(c, userId, code, PasswordChange, now))
      ==> r == Err(BadRequest("code"))
  {
    var valid := FindValidCode(codes, userId, code, PasswordChange, now);
    if FindUser(users, userId).None? then Err(NotFound)
    else if valid.None? then Err(BadRequest("code"))
    else if !VerifyPassword(users, userId, dto.currentPassword, compare) then Err(BadRequest("current"))
    else if dto.newPassword != dto.confirmPassword then Err(BadRequest("confirm"))
    else Ok(valid.value)
  }

  /** `verifyAndChangePassword`: after the guards the code is marked used
      and then the new password is hashed and written; a failed guard writes
      nothing. */
  method VerifyAndChangePassword(users: UserTable, codes: CodeTable, userId: int, code: string, dto: ChangePasswordDto,
                                 compare: (string, string) -> bool, hash: string -> string, now: int)
    returns (r: Result<int>)
    requires users.Valid() && codes.Valid()
    modifies users, codes
    ensures users.Valid() && codes.Valid() && users.links == old(users.links)
    ensures var check := VerifyCheck(old(users.users), old(codes.codes), userId, code, dto, compare, now);
      check.Err? ==>
        r == Err(check.error) && users.users == old(users.users) && codes.codes == old(codes.codes)
    ensures var check := VerifyCheck(old(users.users), old(codes.codes), userId, code, dto, compare, now);
      check.Ok? ==>
        r == Ok(userId)
        && codes.codes == MarkUsed(old(codes.codes), check.value.id, now)
        && UserUpdated(old(users.users), users.users, userId, (u: User) => WithPassword(u, hash(dto.newPassword), userId))
  {
    var check := VerifyCheck(users.users, codes.codes, userId, code, dto, compare, now);
    if check.Err? {
      return Err(check.error);
    }
    var _ := codes.MarkCodeAsUsed(check.value.id, now);
    var updated := UpdatePassword(users, userId, dto.newPassword, hash);
    r := Ok(updated.value.id);
  }

  /** A code accepted once is refused at every later attempt: after a
      successful change its id is never the valid code of a lookup. */
  lemma CodeIsSingleUse(users: seq<User>, codes: seq<VerificationCode>, userId: int, code: string,
                        dto: ChangePasswordDto, compare: (string, string) -> bool, now: int,
                        users': seq<User>, dto': ChangePasswordDto, later: int)
    requires VerifyCheck(users, codes, userId, code, dto, compare, now).Ok?
    ensures var used := VerifyCheck(users, codes, userId, code, dto, compare, now).value;
      var again := VerifyCheck(users', MarkUsed(codes, used.id, now), userId, code, dto', compare, later);
      again.Ok? ==> again.value.id != used.id
  {
    var used := VerifyCheck(users, codes, userId, code, dto, compare, now).value;
    MarkedCodeNeverValid(codes, used.id, now, userId, code, PasswordChange, later);
  }

  /** The code `requestPasswordChange` answers passes the code guard of
      `verifyAndChangePassword` for the next five minutes. */
  lemma RequestedCodeVerifies(codes: seq<VerificationCode>, userId: int, draw: nat, codeId: string,
                              created: int, now: int)
    requires OnePendingPerKind(codes)
    requires draw < 900000
    requires created <= now < created + CodeLifetime
    ensures var c := VerificationCode(codeId, userId, GenerateVerificationCode(draw), PasswordChange,
                                      created + CodeLifetime, false, None);
      FindValidCode(InvalidatePending(codes, userId, PasswordChange, created) + [c],
                    userId, GenerateVerificationCode(draw), PasswordChange, now) == Some(c)
  {
    var c := VerificationCode(codeId, userId, GenerateVerificationCode(draw), PasswordChange,
                              created + CodeLifetime, false, None);
    CreatedCodeIsFound(codes, c, created, now);
  }

  /** `getAccessLogs`: NotFound, else the user's access log. */
  function GetAccessLogs(users: seq<User>, tokens: seq<RefreshToken>, userId: int, limit: Option<nat>)
    : (r: Result<seq<AccessLog>>)
    ensures FindUser(users, userId).None? <==> r == Err(NotFound)
    ensures r.Ok? ==> r.value == GetUserAccessLogs(tokens, userId, limit)
  {
    if FindUser(users, userId).None? then Err(NotFound) else Ok(GetUserAccessLogs(tokens, userId, limit))
  }

  datatype TwoFactorResponse = TwoFactorResponse(message: string, requiere2fa: bool)

  /** `toggle2FA`: NotFound, else `requiere_2fa` is set to the requested
      value with the user as its own modifier, and the message names what
      was done. */
  method Toggle2FA(table: UserTable, userId: int, enable: bool) returns (r: Result<TwoFactorResponse>)
    requires table.Valid()
    modifies table
    ensures table.Valid() && table.links == old(table.links)
    ensures FindUser(old(table.users), userId).None? ==> r == Err(NotFound) && table.users == old(table.users)
    ensures FindUser(old(table.users), userId).Some? ==>
      r == Ok(TwoFactorResponse(if enable then "2FA habilitado" else "2FA deshabilitado", enable))
      && UserUpdated(old(table.users), table.users, userId,
                     (u: User) => u.(requiere2fa := enable, usuarioModifId := Some(userId)))
  {
    var updated := table.UpdateRow(userId, (u: User) => u.(requiere2fa := enable, usuarioModifId := Some(userId)));
    if updated.Err? {
      return Err(updated.error);
    }
    r := Ok(TwoFactorResponse(if enable then "2FA habilitado" else "2FA deshabilitado", updated.value.requiere2fa));
  }
}
