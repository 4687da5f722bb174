// The users repository: the user table and its role links, updated in
// place by `create`, `update`, `softDelete` and `restore`; the role query;
// and the temporary password generator.
module UsersRepository {
  import opened Common
  import opened Ordering
  import opened Accounts

  /** A user as the repository returns it with `includeRoles`: the row and
      the role objects of its links. */
  datatype UserWithRoles = UserWithRoles(user: User, roles: seq<Rol>)

  /** The links a list of role ids creates, in list order. */
  function NewLinks(userId: int, roleIds: seq<int>): (r: seq<UsuarioRol>)
    ensures |r| == |roleIds|
    ensures forall i :: 0 <= i < |r| ==> r[i] == UsuarioRol(userId, roleIds[i])
  {
    if roleIds == [] then [] else [UsuarioRol(userId, roleIds[0])] + NewLinks(userId, roleIds[1..])
  }

  /** `usuarioRol.deleteMany({ where: { usuario_id } })`. */
  function LinksWithout(links: seq<UsuarioRol>, userId: int): (r: seq<UsuarioRol>)
    ensures forall l :: l in r <==> l in links && l.usuarioId != userId
  {
    if links == [] then []
    else if links[0].usuarioId == userId then LinksWithout(links[1..], userId)
    else [links[0]] + LinksWithout(links[1..], userId)
  }

  /** The roles a list of ids names, in list order; ids of no role are
      skipped. */
  function RolesById(roles: seq<Rol>, roleIds: seq<int>): (r: seq<Rol>)
  {
    if roleIds == [] then []
    else
      var rest := RolesById(roles, roleIds[1..]);
      var rol := FindRol(roles, roleIds[0]);
      if rol.Some? then [rol.value] + rest else rest
  }

  /** Every id of the list names a role: what the nested `connect` of each
      new link needs. */
  predicate RolesExist(roles: seq<Rol>, roleIds: seq<int>)
  {
    forall k :: 0 <= k < |roleIds| ==> FindRol(roles, roleIds[k]).Some?
  }

  /** The role ids a write can link: none given, an empty list, or ids that
      all name roles. Otherwise the ORM's `connect` throws, the nested write
      is rolled back, and the request ends as an internal error. */
  predicate Connectable(roles: seq<Rol>, roleIds: Option<seq<int>>)
  {
    roleIds.None? || |roleIds.value| == 0 || RolesExist(roles, roleIds.value)
  }

  /** Ids that all name roles yield one role per id, in list order. */
  lemma {:induction false} RolesByIdExact(roles: seq<Rol>, roleIds: seq<int>)
    requires RolesExist(roles, roleIds)
    ensures |RolesById(roles, roleIds)| == |roleIds|
    ensures forall k :: 0 <= k < |roleIds| ==> RolesById(roles, roleIds)[k] == FindRol(roles, roleIds[k]).value
  {
    if roleIds != [] {
      assert RolesExist(roles, roleIds[1..]) by {
        forall k | 0 <= k < |roleIds[1..]| ensures FindRol(roles, roleIds[1..][k]).Some? {
          assert roleIds[1..][k] == roleIds[k + 1];
        }
      }
      RolesByIdExact(roles, roleIds[1..]);
      assert FindRol(roles, roleIds[0]).Some?;
      forall k | 1 <= k < |roleIds|
        ensures RolesById(roles, roleIds)[k] == FindRol(roles, roleIds[k]).value
      {
        assert roleIds[1..][k - 1] == roleIds[k];
      }
    }
  }

  lemma {:induction false} RolesOfAppend(a: seq<UsuarioRol>, b: seq<UsuarioRol>, roles: seq<Rol>, userId: int)
    ensures RolesOf(a + b, roles, userId) == RolesOf(a, roles, userId) + RolesOf(b, roles, userId)
  {
    if a == [] {
      assert a + b == b;
    } else {
      assert (a + b)[1..] == a[1..] + b;
      RolesOfAppend(a[1..], b, roles, userId);
    }
  }

  lemma {:induction false} RolesOfUnlinked(links: seq<UsuarioRol>, roles: seq<Rol>, userId: int)
    requires forall l :: l in links ==> l.usuarioId != userId
    ensures RolesOf(links, roles, userId) == []
  {
    if links != [] {
      assert links[0] in links;
      RolesOfUnlinked(links[1..], roles, userId);
    }
  }

  lemma {:induction false} RolesOfNewLinks(roles: seq<Rol>, userId: int, roleIds: seq<int>)
    ensures RolesOf(NewLinks(userId, roleIds), roles, userId) == RolesById(roles, roleIds)
  {
    if roleIds != [] {
      var links := NewLinks(userId, roleIds);
      assert links[1..] == NewLinks(userId, roleIds[1..]);
      RolesOfNewLinks(roles, userId, roleIds[1..]);
    }
  }

  /** Replacing the links of a user leaves it exactly the roles the new
      list names, in list order, and no role of before; an empty list
      leaves it none. */
  lemma ReplacedLinksRoles(links: seq<UsuarioRol>, roles: seq<Rol>, userId: int, roleIds: seq<int>)
    ensures RolesOf(LinksWithout(links, userId) + NewLinks(userId, roleIds), roles, userId) == RolesById(roles, roleIds)
    ensures roleIds == [] ==> RolesOf(LinksWithout(links, userId) + NewLinks(userId, roleIds), roles, userId) == []
  {
    RolesOfAppend(LinksWithout(links, userId), NewLinks(userId, roleIds), roles, userId);
    RolesOfUnlinked(LinksWithout(links, userId), roles, userId);
    RolesOfNewLinks(roles, userId, roleIds);
  }

  /** Replacing the links of a user leaves the links of every other user
      as they were. */
  lemma ReplacedLinksKeepOthers(links: seq<UsuarioRol>, roles: seq<Rol>, userId: int, other: int, roleIds: seq<int>)
    requires other != userId
    ensures RolesOf(LinksWithout(links, userId) + NewLinks(userId, roleIds), roles, other) == RolesOf(links, roles, other)
  {
    RolesOfAppend(LinksWithout(links, userId), NewLinks(userId, roleIds), roles, other);
    RolesOfUnlinked(NewLinks(userId, roleIds), roles, other);
    RolesOfWithoutOther(links, roles, userId, other);
  }

  lemma {:induction false} RolesOfWithoutOther(links: seq<UsuarioRol>, roles: seq<Rol>, userId: int, other: int)
    requires other != userId
    ensures RolesOf(LinksWithout(links, userId), roles, other) == RolesOf(links, roles, other)
  {
    if links != [] {
      RolesOfWithoutOther(links[1..], roles, userId, other);
    }
  }

  /** The user table with its role links. */
  class UserTable {
    var users: seq<User>
    var links: seq<UsuarioRol>

    ghost predicate Valid()
      reads this
    {
      UniqueUserIds(users)
    }

    constructor (users: seq<User>, links: seq<UsuarioRol>)
      requires UniqueUserIds(users)
      ensures Valid() && this.users == users && this.links == links
    {
      this.users := users;
      this.links := links;
    }

    /** `prisma.user.update({ where: { id }, data })`: the user with that
        id is replaced by `f` of it; a missing id writes nothing and is
        answered NotFound here. Prisma raises P2025 there, which the
        global filter answers with a 500; every service checks the id first,
        so no service call reaches this branch. */
    method UpdateRow(id: int, f: User -> User) returns (r: Result<User>)
      requires Valid()
      requires forall u :: f(u).id == u.id
      modifies this
      ensures Valid() && links == old(links)
      ensures FindUser(old(users), id).None? ==> r == Err(NotFound) && users == old(users)
      ensures FindUser(old(users), id).Some? ==>
        r == Ok(f(FindUser(old(users), id).value)) && UserUpdated(old(users), users, id, f)
    {
      var found := FindUser(users, id);
      if found.None? {
        return Err(NotFound);
      }
      var k := UserIndex(users, id);
      var before := users;
      users := users[k := f(users[k])];
      forall i | 0 <= i < |before| && i != k ensures before[i].id != id {
        if i < k { assert before[i].id != before[k].id; } else { assert before[k].id != before[i].id; }
      }
      r := Ok(f(before[k]));
    }

    /** `create(data, roleIds)`: the new row, and one link per role id when
        the list is non-empty; an id that names no role makes the whole
        nested create fail and write nothing. */
    method Create(u: User, roleIds: Option<seq<int>>, catalog: RoleCatalog) returns (r: Result<UserWithRoles>)
      requires Valid()
      requires FindUser(users, u.id).None?
      modifies this
      ensures Valid()
      ensures !Connectable(catalog.roles, roleIds) ==>
        r == Err(ConnectFailed) && users == old(users) && links == old(links)
      ensures Connectable(catalog.roles, roleIds) ==>
        users == old(users) + [u]
        && links == old(links) + (if roleIds.Some? && |roleIds.value| > 0 then NewLinks(u.id, roleIds.value) else [])
        && r == Ok(UserWithRoles(u, RolesOf(links, catalog.roles, u.id)))
    {
      if !Connectable(catalog.roles, roleIds) {
        return Err(ConnectFailed);
      }
      users := users + [u];
      if roleIds.Some? && |roleIds.value| > 0 {
        links := links + NewLinks(u.id, roleIds.value);
      }
      r := Ok(UserWithRoles(u, RolesOf(links, catalog.roles, u.id)));
    }

    /** `update(where, data, roleIds)`: a defined `roleIds` first deletes
        every link of the user (even when the update then fails) and links
        exactly the listed roles with the update; an undefined one leaves
        the links alone. A missing user is NotFound; an id that names no
        role fails the update after the links were deleted. */
    method Update(id: int, f: User -> User, roleIds: Option<seq<int>>, catalog: RoleCatalog)
      returns (r: Result<UserWithRoles>)
      requires Valid()
      requires forall u :: f(u).id == u.id
      modifies this
      ensures Valid()
      ensures roleIds.None? ==> links == old(links)
      ensures roleIds.Some? && (FindUser(old(users), id).None? || !Connectable(catalog.roles, roleIds)) ==>
        links == LinksWithout(old(links), id)
      ensures roleIds.Some? && FindUser(old(users), id).Some? && Connectable(catalog.roles, roleIds) ==>
        links == LinksWithout(old(links), id) + NewLinks(id, roleIds.value)
      ensures FindUser(old(users), id).None? ==> r == Err(NotFound) && users == old(users)
      ensures FindUser(old(users), id).Some? && !Connectable(catalog.roles, roleIds) ==>
        r == Err(ConnectFailed) && users == old(users)
      ensures FindUser(old(users), id).Some? && Connectable(catalog.roles, roleIds) ==>
        r == Ok(UserWithRoles(f(FindUser(old(users), id).value), RolesOf(links, catalog.roles, id)))
        && UserUpdated(old(users), users, id, f)
    {
      if roleIds.Some? {
        links := LinksWithout(links, id);
      }
      if FindUser(users, id).Some? && !Connectable(catalog.roles, roleIds) {
        return Err(ConnectFailed);
      }
      var updated := UpdateRow(id, f);
      if updated.Err? {
        return Err(updated.error);
      }
      if roleIds.Some? && |roleIds.value| > 0 {
        links := links + NewLinks(id, roleIds.value);
      }
      r := Ok(UserWithRoles(updated.value, RolesOf(links, catalog.roles, id)));
    }

    /** `softDelete`: only `activo` is cleared. */
    method SoftDelete(id: int) returns (r: Result<User>)
      requires Valid()
      modifies this
      ensures Valid() && links == old(links)
      ensures FindUser(old(users), id).None? ==> r == Err(NotFound) && users == old(users)
      ensures FindUser(old(users), id).Some? ==>
        r == Ok(FindUser(old(users), id).value.(activo := false))
        && UserUpdated(old(users), users, id, (u: User) => u.(activo := false))
    {
      r := UpdateRow(id, (u: User) => u.(activo := false));
    }

    /** `restore`: only `activo` is set. */
    method Restore(id: int) returns (r: Result<User>)
      requires Valid()
      modifies this
      ensures Valid() && links == old(links)
      ensures FindUser(old(users), id).None? ==> r == Err(NotFound) && users == old(users)
      ensures FindUser(old(users), id).Some? ==>
        r == Ok(FindUser(old(users), id).value.(activo := true))
        && UserUpdated(old(users), users, id, (u: User) => u.(activo := true))
    {
      r := UpdateRow(id, (u: User) => u.(activo := true));
    }
  }

  function NombreKey(r: Rol): Key
  {
    Key(0, 0, r.nombre)
  }

  /** `findAllRoles`: the roles, filtered on `activo` only when it is
      given, ordered by `nombre`. */
  function FindAllRoles(roles: seq<Rol>, activo: Option<bool>): (r: seq<Rol>)
    ensures forall x :: x in r <==> x in roles && (activo.None? || x.activo == activo.value)
    ensures SortedBy(r, NombreKey)
    ensures multiset(r) <= multiset(roles)
  {
    var matching := Filter(roles, (x: Rol) => activo.None? || x.activo == activo.value);
    SortByKeySorted(matching, NombreKey);
    SortByKey(matching, NombreKey)
  }

  const Charset := "abcdefghijklmnopqrstuvwxyzABCDEFGHIJKLMNOPQRSTUVWXYZ0123456789!@#$%^&*"

  /** `generateTemporaryPassword`: twelve characters, each picked from the
      charset by `Math.floor(Math.random() * charset.length)`; `draws`
      holds those picks, in order. */
  method GenerateTemporaryPassword(draws: seq<nat>) returns (password: string)
    requires |draws| >= 12
    requires forall i :: 0 <= i < |draws| ==> draws[i] < |Charset|
    ensures |password| == 12
    ensures forall i :: 0 <= i < 12 ==> password[i] == Charset[draws[i]]
    ensures forall c :: c in password ==> c in Charset
  {
    password := "";
    var i := 0;
    while i < 12
      invariant 0 <= i <= 12
      invariant |password| == i
      invariant forall k :: 0 <= k < i ==> password[k] == Charset[draws[k]]
    {
      password := password + [Charset[draws[i]]];
      i := i + 1;
    }
  }
}
