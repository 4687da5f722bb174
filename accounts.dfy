// Rows of the account tables: users, roles, permissions, the two link
// tables between them, refresh tokens and verification codes, with the
// lookups the services run on them. Timestamps are milliseconds since the
// epoch; nullable columns are `Option`s.
module Accounts {
  import opened Common

  datatype User = User(
    id: int,
    email: string,
    password: string,
    name: Option<string>,
    dependenciaId: Option<int>,
    areaDepartamento: Option<string>,
    telefono: Option<string>,
    fotoPerfil: Option<string>,
    requiere2fa: bool,
    activo: bool,
    ultimoAcceso: Option<int>,
    fechaCreacion: int,
    fechaUltimoCambioPass: Option<int>,
    usuarioCreacionId: Option<int>,
    usuarioModifId: Option<int>)

  datatype Rol = Rol(id: int, nombre: string, activo: bool)

  datatype Permiso = Permiso(id: int, codigo: string)

  /** A row of `usuario_rol`. */
  datatype UsuarioRol = UsuarioRol(usuarioId: int, rolId: int)

  /** A row of `rol_permiso`. */
  datatype RolPermiso = RolPermiso(rolId: int, permisoId: int)

  /** The role and permission tables, which the services only read. */
  datatype RoleCatalog = RoleCatalog(roles: seq<Rol>, grants: seq<RolPermiso>, permisos: seq<Permiso>)

  datatype RefreshToken = RefreshToken(
    id: int,
    usuarioId: int,
    tokenHash: string,
    ipOrigen: string,
    userAgent: string,
    fechaExpiracion: int,
    activo: bool,
    fechaCreacion: int)

  datatype VerificationCode = VerificationCode(
    id: string,
    usuarioId: int,
    codigo: string,
    tipo: string,
    fechaExpiracion: int,
    usado: bool,
    fechaUso: Option<int>)

  predicate UniqueUserIds(users: seq<User>)
  {
    forall i, j :: 0 <= i < j < |users| ==> users[i].id != users[j].id
  }

  /** `findUnique({ where: { id } })`. */
  function FindUser(users: seq<User>, id: int): (r: Option<User>)
    ensures r.Some? ==> r.value in users && r.value.id == id
    ensures r.None? ==> forall u :: u in users ==> u.id != id
  {
    if users == [] then None
    else if users[0].id == id then Some(users[0])
    else FindUser(users[1..], id)
  }

  /** `findUnique({ where: { email } })`. */
  function FindUserByEmail(users: seq<User>, email: string): (r: Option<User>)
    ensures r.Some? ==> r.value in users && r.value.email == email
    ensures r.None? ==> forall u :: u in users ==> u.email != email
  {
    if users == [] then None
    else if users[0].email == email then Some(users[0])
    else FindUserByEmail(users[1..], email)
  }

  lemma {:induction false} FindUserOfMember(users: seq<User>, u: User)
    requires u in users
    ensures FindUser(users, u.id).Some?
  {
    if users[0] != u {
      FindUserOfMember(users[1..], u);
    }
  }

  function UserIndex(users: seq<User>, id: int): (k: nat)
    requires FindUser(users, id).Some?
    ensures k < |users| && users[k].id == id && users[k] == FindUser(users, id).value
  {
    if users[0].id == id then 0 else 1 + UserIndex(users[1..], id)
  }

  function FindRol(roles: seq<Rol>, id: int): (r: Option<Rol>)
    ensures r.Some? ==> r.value in roles && r.value.id == id
    ensures r.None? ==> forall x :: x in roles ==> x.id != id
  {
    if roles == [] then None
    else if roles[0].id == id then Some(roles[0])
    else FindRol(roles[1..], id)
  }

  function FindPermiso(permisos: seq<Permiso>, id: int): (r: Option<Permiso>)
    ensures r.Some? ==> r.value in permisos && r.value.id == id
  {
    if permisos == [] then None
    else if permisos[0].id == id then Some(permisos[0])
    else FindPermiso(permisos[1..], id)
  }

  /** A link of user `userId` whose role row is `x`. */
  predicate LinksTo(l: UsuarioRol, roles: seq<Rol>, userId: int, x: Rol)
  {
    l.usuarioId == userId && FindRol(roles, l.rolId) == Some(x)
  }

  /** `user.roles.map(ur => ur.rol)`: the roles linked to a user, in link
      order. */
  function RolesOf(links: seq<UsuarioRol>, roles: seq<Rol>, userId: int): (r: seq<Rol>)
    ensures forall x :: x in r ==> x in roles
    ensures forall x :: x in r <==> exists l :: l in links && LinksTo(l, roles, userId, x)
    ensures |r| <= |links|
  {
    if links == [] then []
    else
      var rest := RolesOf(links[1..], roles, userId);
      var rol := FindRol(roles, links[0].rolId);
      assert forall l :: l in links <==> l == links[0] || l in links[1..];
      if links[0].usuarioId == userId && rol.Some? then
        assert LinksTo(links[0], roles, userId, rol.value);
        [rol.value] + rest
      else
        assert forall x :: !LinksTo(links[0], roles, userId, x);
        rest
  }

  /** `rol.permisos.map(rp => rp.permiso.codigo)`: the codes granted to a
      role, in link order. */
  function CodesOf(grants: seq<RolPermiso>, permisos: seq<Permiso>, rolId: int): (r: seq<string>)
    ensures |r| <= |grants|
  {
    if grants == [] then []
    else
      var rest := CodesOf(grants[1..], permisos, rolId);
      var permiso := FindPermiso(permisos, grants[0].permisoId);
      if grants[0].rolId == rolId && permiso.Some? then [permiso.value.codigo] + rest else rest
  }

  /** A role as the authentication queries load it: its name and the codes
      of its permissions. */
  datatype LoadedRole = LoadedRole(nombre: string, codigos: seq<string>)

  /** The roles of a user, with their permissions, as `include: { roles: {
      include: { rol: { include: { permisos: ... } } } } }` loads them. */
  function LoadRoles(links: seq<UsuarioRol>, catalog: RoleCatalog, userId: int): (r: seq<LoadedRole>)
    ensures |r| == |RolesOf(links, catalog.roles, userId)|
    ensures forall i :: 0 <= i < |r| ==>
      r[i] == LoadedRole(RolesOf(links, catalog.roles, userId)[i].nombre,
                         CodesOf(catalog.grants, catalog.permisos, RolesOf(links, catalog.roles, userId)[i].id))
  {
    var rs := RolesOf(links, catalog.roles, userId);
    seq(|rs|, i requires 0 <= i < |rs| => LoadedRole(rs[i].nombre, CodesOf(catalog.grants, catalog.permisos, rs[i].id)))
  }

  /** `user.roles.map(ur => ur.rol.nombre)`. */
  function RoleNames(roles: seq<LoadedRole>): (r: seq<string>)
    ensures |r| == |roles|
    ensures forall i :: 0 <= i < |r| ==> r[i] == roles[i].nombre
  {
    seq(|roles|, i requires 0 <= i < |roles| => roles[i].nombre)
  }

  /** `after` is `before` with the user whose id is `id` replaced by `f` of
      it and every other row as it was. */
  ghost predicate UserUpdated(before: seq<User>, after: seq<User>, id: int, f: User -> User)
  {
    |after| == |before|
    && forall i :: 0 <= i < |before| ==>
      after[i] == if before[i].id == id then f(before[i]) else before[i]
  }
}
