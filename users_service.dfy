// The users service: the e-mail guards of create and update, the fields
// each of them writes, soft delete and restore, and the list and count
// queries. Password hashing (bcrypt) is an input.
module UsersService {
  import opened Common
  import opened Strings
  import opened Ordering
  import opened Accounts
  import opened UsersRepository

  datatype CreateUserDto = CreateUserDto(
    email: string,
    password: string,
    name: Option<string>,
    dependenciaId: Option<int>,
    areaDepartamento: Option<string>,
    telefono: Option<string>,
    requiere2fa: Option<bool>,
    roleIds: Option<seq<int>>,
    activo: Option<bool>,
    fotoPerfil: Option<string>)

  datatype UpdateUserDto = UpdateUserDto(
    name: Option<string>,
    email: Option<string>,
    dependenciaId: Option<int>,
    areaDepartamento: Option<string>,
    telefono: Option<string>,
    requiere2fa: Option<bool>,
    activo: Option<bool>,
    fotoPerfil: Option<string>,
    roleIds: Option<seq<int>>)

  /** A user as the service answers: every column but `password`, and the
      roles when they were loaded. */
  datatype UserView = UserView(
    id: int,
    email: string,
    name: Option<string>,
    dependenciaId: Option<int>,
    areaDepartamento: Option<string>,
    telefono: Option<string>,
    fotoPerfil: Option<string>,
    requiere2fa: bool,
    activo: bool,
    ultimoAcceso: Option<int>,
    fechaCreacion: int,
    fechaUltimoCambioPass: Option<int>,
    usuarioCreacionId: Option<int>,
    usuarioModifId: Option<int>,
    roles: Option<seq<Rol>>)

  /** `const { password, ...rest } = user`: every column of the user but the
      password, with the roles given. */
  function WithoutPassword(u: User, roles: Option<seq<Rol>>): (v: UserView)
    ensures v.id == u.id && v.email == u.email && v.activo == u.activo && v.roles == roles
    ensures v.name == u.name && v.dependenciaId == u.dependenciaId && v.areaDepartamento == u.areaDepartamento
    ensures v.telefono == u.telefono && v.fotoPerfil == u.fotoPerfil && v.requiere2fa == u.requiere2fa
    ensures v.ultimoAcceso == u.ultimoAcceso && v.fechaCreacion == u.fechaCreacion
    ensures v.fechaUltimoCambioPass == u.fechaUltimoCambioPass
    ensures v.usuarioCreacionId == u.usuarioCreacionId && v.usuarioModifId == u.usuarioModifId
  {
    UserView(u.id, u.email, u.name, u.dependenciaId, u.areaDepartamento, u.telefono, u.fotoPerfil,
             u.requiere2fa, u.activo, u.ultimoAcceso, u.fechaCreacion, u.fechaUltimoCambioPass,
             u.usuarioCreacionId, u.usuarioModifId, roles)
  }

  /** The row `create` inserts: the DTO's profile fields, the hashed
      password, `requiere_2fa` defaulting to false, the creating user and
      the password date; `activo` and `foto_perfil` are never taken from the
      DTO (the column defaults apply). */
  function NewUser(dto: CreateUserDto, hashed: string, currentUserId: int, id: int, now: int, activoDefault: bool)
    : (u: User)
    ensures u.email == dto.email && u.password == hashed
    ensures u.requiere2fa == Coalesce(dto.requiere2fa, false)
    ensures u.activo == activoDefault && u.fotoPerfil.None?
    ensures u.usuarioCreacionId == Some(currentUserId) && u.usuarioModifId.None?
  {
    User(id, dto.email, hashed, dto.name, dto.dependenciaId, dto.areaDepartamento, dto.telefono, None,
         Coalesce(dto.requiere2fa, false), activoDefault, None, now, Some(now), Some(currentUserId), None)
  }

  /** `create`: Conflict when the e-mail is registered, before anything is
      hashed or written; otherwise the user is inserted with its role links
      and returned without its password. */
  method Create(table: UserTable, catalog: RoleCatalog, dto: CreateUserDto, currentUserId: int,
                hash: string -> string, id: int, now: int, activoDefault: bool)
    returns (r: Result<UserView>)
    requires table.Valid() && FindUser(table.users, id).None?
    modifies table
    ensures table.Valid()
    ensures FindUserByEmail(old(table.users), dto.email).Some? ==>
      r == Err(Conflict) && table.users == old(table.users) && table.links == old(table.links)
    ensures FindUserByEmail(old(table.users), dto.email).None? && !Connectable(catalog.roles, dto.roleIds) ==>
      r == Err(ConnectFailed) && table.users == old(table.users) && table.links == old(table.links)
    ensures FindUserByEmail(old(table.users), dto.email).None? && Connectable(catalog.roles, dto.roleIds) ==>
      var u := NewUser(dto, hash(dto.password), currentUserId, id, now, activoDefault);
      table.users == old(table.users) + [u]
      && table.links == old(table.links)
           + (if dto.roleIds.Some? && |dto.roleIds.value| > 0 then NewLinks(id, dto.roleIds.value) else [])
      && r == Ok(WithoutPassword(u, Some(RolesOf(table.links, catalog.roles, id))))
  {
    var existing := FindUserByEmail(table.users, dto.email);
    if existing.Some? {
      return Err(Conflict);
    }
    var u := NewUser(dto, hash(dto.password), currentUserId, id, now, activoDefault);
    var created := table.Create(u, dto.roleIds, catalog);
    if created.Err? {
      return Err(created.error);
    }
    r := Ok(WithoutPassword(created.value.user, Some(created.value.roles)));
  }

  /** A new user's roles are exactly those its role ids name, in order. */
  lemma NewUserRoles(links: seq<UsuarioRol>, roles: seq<Rol>, id: int, roleIds: seq<int>)
    requires forall l :: l in links ==> l.usuarioId != id
    ensures RolesOf(links + (if |roleIds| > 0 then NewLinks(id, roleIds) else []), roles, id) == RolesById(roles, roleIds)
  {
    RolesOfAppend(links, if |roleIds| > 0 then NewLinks(id, roleIds) else [], roles, id);
    RolesOfUnlinked(links, roles, id);
    RolesOfNewLinks(roles, id, roleIds);
  }

  /** The guards of `update`: NotFound, then Conflict when a truthy new
      e-mail differs from the stored one and belongs to another user. */
  function UpdateCheck(users: seq<User>, id: int, dto: UpdateUserDto): (r: Result<User>)
    ensures FindUser(users, id).None? ==> r == Err(NotFound)
    ensures r.Ok? <==>
      (FindUser(users, id).Some?
       && !(TruthyStr(dto.email) && dto.email.value != FindUser(users, id).value.email
            && FindUserByEmail(users, dto.email.value).Some? && FindUserByEmail(users, dto.email.value).value.id != id))
    ensures r.Ok? ==> r.value == FindUser(users, id).value
    ensures r.Err? && FindUser(users, id).Some? ==> r == Err(Conflict)
  {
    var existing := FindUser(users, id);
    if existing.None? then Err(NotFound)
    else if TruthyStr(dto.email) && dto.email.value != existing.value.email
            && FindUserByEmail(users, dto.email.value).Some? && FindUserByEmail(users, dto.email.value).value.id != id
    then Err(Conflict)
    else Ok(existing.value)
  }

  /** The row `update` writes: every field the DTO defines, and the
      modifying user. */
  function ApplyUserUpdate(u: User, dto: UpdateUserDto, currentUserId: int): User
  {
    u.(name := if dto.name.Some? then dto.name else u.name,
       email := Patch(u.email, dto.email),
       dependenciaId := if dto.dependenciaId.Some? then dto.dependenciaId else u.dependenciaId,
       areaDepartamento := if dto.areaDepartamento.Some? then dto.areaDepartamento else u.areaDepartamento,
       telefono := if dto.telefono.Some? then dto.telefono else u.telefono,
       requiere2fa := Patch(u.requiere2fa, dto.requiere2fa),
       activo := Patch(u.activo, dto.activo),
       fotoPerfil := if dto.fotoPerfil.Some? then dto.fotoPerfil else u.fotoPerfil,
       usuarioModifId := Some(currentUserId))
  }

  /** `update` writes only what the DTO defines, and always the modifying
      user; the password, the id and the creation data never change. */
  lemma UserUpdateOnlyGivenFields(u: User, dto: UpdateUserDto, currentUserId: int)
    ensures var v := ApplyUserUpdate(u, dto, currentUserId);
      v.id == u.id && v.password == u.password && v.fechaCreacion == u.fechaCreacion
      && v.usuarioCreacionId == u.usuarioCreacionId && v.ultimoAcceso == u.ultimoAcceso
      && v.usuarioModifId == Some(currentUserId)
      && (dto.name.None? ==> v.name == u.name) && (dto.name.Some? ==> v.name == dto.name)
      && (dto.email.None? ==> v.email == u.email) && (dto.email.Some? ==> v.email == dto.email.value)
      && (dto.activo.None? ==> v.activo == u.activo) && (dto.activo.Some? ==> v.activo == dto.activo.value)
      && (dto.requiere2fa.None? ==> v.requiere2fa == u.requiere2fa)
      && (dto.fotoPerfil.None? ==> v.fotoPerfil == u.fotoPerfil)
      && (dto.telefono.None? ==> v.telefono == u.telefono)
      && (dto.areaDepartamento.None? ==> v.areaDepartamento == u.areaDepartamento)
      && (dto.dependenciaId.None? ==> v.dependenciaId == u.dependenciaId)
  {
  }

  /** `update`: the guards, then the row and, with `roleIds`, the role
      links are replaced; a failed guard writes nothing. */
  method Update(table: UserTable, catalog: RoleCatalog, id: int, dto: UpdateUserDto, currentUserId: int)
    returns (r: Result<UserView>)
    requires table.Valid()
    modifies table
    ensures table.Valid()
    ensures UpdateCheck(old(table.users), id, dto).Err? ==>
      r == Err(UpdateCheck(old(table.users), id, dto).error)
      && table.users == old(table.users) && table.links == old(table.links)
    ensures UpdateCheck(old(table.users), id, dto).Ok? && !Connectable(catalog.roles, dto.roleIds) ==>
      r == Err(ConnectFailed) && table.users == old(table.users)
      && table.links == LinksWithout(old(table.links), id)
    ensures UpdateCheck(old(table.users), id, dto).Ok? && Connectable(catalog.roles, dto.roleIds) ==>
      var u := ApplyUserUpdate(UpdateCheck(old(table.users), id, dto).value, dto, currentUserId);
      r == Ok(WithoutPassword(u, Some(RolesOf(table.links, catalog.roles, id))))
      && UserUpdated(old(table.users), table.users, id, (x: User) => ApplyUserUpdate(x, dto, currentUserId))
      && table.links == (if dto.roleIds.Some? then LinksWithout(old(table.links), id) + NewLinks(id, dto.roleIds.value)
                         else old(table.links))
  {
    var check := UpdateCheck(table.users, id, dto);
    if check.Err? {
      return Err(check.error);
    }
    var updated := table.Update(id, (x: User) => ApplyUserUpdate(x, dto, currentUserId), dto.roleIds, catalog);
    if updated.Err? {
      return Err(updated.error);
    }
    r := Ok(WithoutPassword(updated.value.user, Some(updated.value.roles)));
  }

  /** `remove`: NotFound, else a soft delete. */
  method Remove(table: UserTable, id: int) returns (r: Result<()>)
    requires table.Valid()
    modifies table
    ensures table.Valid() && table.links == old(table.links)
    ensures FindUser(old(table.users), id).None? ==> r == Err(NotFound) && table.users == old(table.users)
    ensures FindUser(old(table.users), id).Some? ==>
      r == Ok(()) && UserUpdated(old(table.users), table.users, id, (u: User) => u.(activo := false))
  {
    var deleted := table.SoftDelete(id);
    if deleted.Err? {
      return Err(deleted.error);
    }
    r := Ok(());
  }

  /** `restore`: NotFound, else `activo` is set again. */
  method Restore(table: UserTable, id: int) returns (r: Result<UserView>)
    requires table.Valid()
    modifies table
    ensures table.Valid() && table.links == old(table.links)
    ensures FindUser(old(table.users), id).None? ==> r == Err(NotFound) && table.users == old(table.users)
    ensures FindUser(old(table.users), id).Some? ==>
      r == Ok(WithoutPassword(FindUser(old(table.users), id).value.(activo := true), None))
      && UserUpdated(old(table.users), table.users, id, (u: User) => u.(activo := true))
  {
    var restored := table.Restore(id);
    if restored.Err? {
      return Err(restored.error);
    }
    r := Ok(WithoutPassword(restored.value, None));
  }

  /** The `where` of `findAll`: a truthy search in `name` or `email`
      (case-insensitive), and `activo` only when given. */
  predicate UserMatches(u: User, search: Option<string>, activo: Option<bool>)
  {
    (!TruthyStr(search)
     || (u.name.Some? && ContainsInsensitive(u.name.value, search.value))
     || ContainsInsensitive(u.email, search.value))
    && (activo.None? || u.activo == activo.value)
  }

  function UserCreationKey(u: User): Key
  {
    Key(u.fechaCreacion, 0, "")
  }

  /** The matching users, newest first. */
  function NewestUsers(users: seq<User>, search: Option<string>, activo: Option<bool>): (r: seq<User>)
    ensures forall u :: u in r <==> u in users && UserMatches(u, search, activo)
    ensures forall i, j :: 0 <= i < j < |r| ==> r[i].fechaCreacion >= r[j].fechaCreacion
    ensures |r| == |Filter(users, (u: User) => UserMatches(u, search, activo))|
  {
    var matching := Filter(users, (u: User) => UserMatches(u, search, activo));
    SortByKeyDescSorted(matching, UserCreationKey);
    SortByKeyDesc(matching, UserCreationKey)
  }

  /** The rows of a `findAll` page: the `skip`/`take` window of the
      matching users, newest first. */
  function FindAllRows(users: seq<User>, skip: nat, take: Option<nat>, search: Option<string>, activo: Option<bool>)
    : (r: seq<User>)
    ensures IsPage(r, NewestUsers(users, search, activo), skip, take)
    ensures forall u :: u in r ==> u in users && UserMatches(u, search, activo)
    ensures forall i, j :: 0 <= i < j < |r| ==> r[i].fechaCreacion >= r[j].fechaCreacion
    ensures take.Some? ==> |r| <= take.value
  {
    Page(NewestUsers(users, search, activo), skip, take)
  }

  /** `findAll`: the page of matching users, without their passwords, with
      their roles when asked for. */
  function FindAll(users: seq<User>, links: seq<UsuarioRol>, catalog: RoleCatalog, skip: nat, take: Option<nat>,
                   search: Option<string>, activo: Option<bool>, includeRoles: bool): (r: seq<UserView>)
    ensures |r| == |FindAllRows(users, skip, take, search, activo)|
    ensures forall i :: 0 <= i < |r| ==>
      r[i] == WithoutPassword(FindAllRows(users, skip, take, search, activo)[i],
                              if includeRoles then Some(RolesOf(links, catalog.roles, r[i].id)) else None)
  {
    var rows := FindAllRows(users, skip, take, search, activo);
    seq(|rows|, i requires 0 <= i < |rows| =>
      WithoutPassword(rows[i], if includeRoles then Some(RolesOf(links, catalog.roles, rows[i].id)) else None))
  }

  /** `count`: the users, with `activo` as filter only when given. */
  function CountUsers(users: seq<User>, activo: Option<bool>): (n: nat)
    ensures activo.None? ==> n == |users|
    ensures n <= |users|
    ensures n == |NewestUsers(users, None, activo)|
    ensures activo.Some? ==> n + |NewestUsers(users, None, Some(!activo.value))| == |users|
  {
    if activo.None? then
      CountAllUsers(users);
      |users|
    else
      CountUsersSplit(users, activo.value);
      Count(users, (u: User) => u.activo == activo.value)
  }

  /** Without a filter every user is listed. */
  lemma CountAllUsers(users: seq<User>)
    ensures |NewestUsers(users, None, None)| == |users|
  {
    FilterAll(users, (u: User) => UserMatches(u, None, None));
  }

  /** With `activo` given, the users listed under it and under its negation
      share the table between them. */
  lemma CountUsersSplit(users: seq<User>, activo: bool)
    ensures Count(users, (u: User) => u.activo == activo) == |NewestUsers(users, None, Some(activo))|
    ensures Count(users, (u: User) => u.activo == activo) + |NewestUsers(users, None, Some(!activo))| == |users|
  {
    var p := (u: User) => u.activo == activo;
    var q := (u: User) => UserMatches(u, None, Some(activo));
    var nq := (u: User) => UserMatches(u, None, Some(!activo));
    FilterExt(users, p, q);
    CountComplement(users, p, nq);
  }
}
