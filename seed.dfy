// The seed script: the eight permission codes, the three roles with their
// grants, the administrator account linked to ADMIN and the four document
// types. Every row is upserted by its unique key and every link row is
// created only when it is absent, so the script can be run again.
module Seed {
  import opened Common
  import opened Accounts
  import opened Schema

  // ---------------------------------------------------------------- rows

  datatype PermisoRow = PermisoRow(id: int, codigo: string, descripcion: string)

  /** A role row; `activo` keeps its column default and is not written. */
  datatype RolRow = RolRow(id: int, nombre: string, descripcion: string)

  datatype PermisoData = PermisoData(codigo: string, descripcion: string)

  /** A role the script creates and the permission codes it links to it. */
  datatype RolePlan = RolePlan(nombre: string, descripcion: string, codes: seq<string>)

  datatype TipoData = TipoData(nombre: string, descripcion: string, extensiones: string)

  /** The tables the script writes, with the next identity value of each
      table that has one. */
  datatype Db = Db(
    permisos: seq<PermisoRow>,
    roles: seq<RolRow>,
    grants: seq<RolPermiso>,
    users: seq<User>,
    links: seq<UsuarioRol>,
    tipos: seq<TipoDocumento>,
    nextPermisoId: int,
    nextRolId: int,
    nextUserId: int,
    nextTipoId: int)

  // ----------------------------------------------------------- constants

  const Permisos: seq<PermisoData> := [
    PermisoData("USUARIO_REGISTRAR", "Crear nuevos usuarios en el sistema"),
    PermisoData("USUARIO_CAMBIAR_PASSWORD", "Resetear contraseñas de otros usuarios"),
    PermisoData("USUARIO_DESACTIVAR", "Suspender o desactivar cuentas de usuario"),
    PermisoData("DOCUMENTO_CARGAR", "Subir nuevos documentos al sistema"),
    PermisoData("DOCUMENTO_EDITAR", "Modificar documentos ya cargados"),
    PermisoData("DOCUMENTO_ELIMINAR", "Borrar documentos del sistema"),
    PermisoData("REPORTE_VER", "Acceder a reportes y estadísticas"),
    PermisoData("ROL_GESTIONAR", "Asignar y modificar roles de usuarios")]

  const AllCodes: seq<string> := [
    "USUARIO_REGISTRAR", "USUARIO_CAMBIAR_PASSWORD", "USUARIO_DESACTIVAR", "DOCUMENTO_CARGAR",
    "DOCUMENTO_EDITAR", "DOCUMENTO_ELIMINAR", "REPORTE_VER", "ROL_GESTIONAR"]

  const AdminPlan: RolePlan := RolePlan("ADMIN", "Administrador del sistema - Control total", AllCodes)

  const CargaPlan: RolePlan :=
    RolePlan("CARGA", "Usuario de carga - Solo puede cargar documentos", ["DOCUMENTO_CARGAR", "REPORTE_VER"])

  const EdicionPlan: RolePlan :=
    RolePlan("EDICION", "Usuario de edición - Puede cargar y editar documentos",
             ["DOCUMENTO_CARGAR", "DOCUMENTO_EDITAR", "REPORTE_VER"])

  const AdminEmail: string := "admin@morelos.gob.mx"
  const AdminName: string := "Administrador del Sistema"

  /** The administrator's password before hashing. */
  const AdminPassword: string := "Admin123"

  const Tipos: seq<TipoData> := [
    TipoData("CSV", "Archivo de valores separados por comas", "csv"),
    TipoData("JSON", "Archivo de notación de objetos JavaScript", "json"),
    TipoData("XML", "Archivo de lenguaje de marcado extensible", "xml"),
    TipoData("Excel", "Archivo de hoja de cálculo Excel", "xlsx,xls")]

  // ------------------------------------------------------------- lookups

  /** `permiso.findUnique({ where: { codigo } })`. */
  function PermisoByCodigo(ps: seq<PermisoRow>, codigo: string): (r: Option<PermisoRow>)
    ensures r.Some? ==> r.value in ps && r.value.codigo == codigo
    ensures r.None? ==> forall p :: p in ps ==> p.codigo != codigo
  {
    if ps == [] then None
    else if ps[0].codigo == codigo then Some(ps[0])
    else PermisoByCodigo(ps[1..], codigo)
  }

  function RolByNombre(rs: seq<RolRow>, nombre: string): (r: Option<RolRow>)
    ensures r.Some? ==> r.value in rs && r.value.nombre == nombre
    ensures r.None? ==> forall x :: x in rs ==> x.nombre != nombre
  {
    if rs == [] then None
    else if rs[0].nombre == nombre then Some(rs[0])
    else RolByNombre(rs[1..], nombre)
  }

  function TipoByNombre(ts: seq<TipoDocumento>, nombre: string): (r: Option<TipoDocumento>)
    ensures r.Some? ==> r.value in ts && r.value.nombre == nombre
    ensures r.None? ==> forall t :: t in ts ==> t.nombre != nombre
  {
    if ts == [] then None
    else if ts[0].nombre == nombre then Some(ts[0])
    else TipoByNombre(ts[1..], nombre)
  }

  // ------------------------------------------------------------- upserts

  function SetPermiso(ps: seq<PermisoRow>, p: PermisoData): (r: seq<PermisoRow>)
    ensures |r| == |ps|
    ensures forall i :: 0 <= i < |ps| ==>
      r[i] == if ps[i].codigo == p.codigo then ps[i].(descripcion := p.descripcion) else ps[i]
  {
    seq(|ps|, i requires 0 <= i < |ps| =>
      if ps[i].codigo == p.codigo then ps[i].(descripcion := p.descripcion) else ps[i])
  }

  /** `permiso.upsert` by code: the description is rewritten when the code
      exists, otherwise a row is inserted with the next id. */
  function WithPermiso(db: Db, p: PermisoData): Db
  {
    if PermisoByCodigo(db.permisos, p.codigo).Some? then db.(permisos := SetPermiso(db.permisos, p))
    else db.(permisos := db.permisos + [PermisoRow(db.nextPermisoId, p.codigo, p.descripcion)],
             nextPermisoId := db.nextPermisoId + 1)
  }

  function WithPermisos(db: Db, list: seq<PermisoData>): Db
    decreases |list|
  {
    if list == [] then db else WithPermiso(WithPermisos(db, list[..|list| - 1]), list[|list| - 1])
  }

  function SetRol(rs: seq<RolRow>, nombre: string, descripcion: string): (r: seq<RolRow>)
    ensures |r| == |rs|
    ensures forall i :: 0 <= i < |rs| ==>
      r[i] == if rs[i].nombre == nombre then rs[i].(descripcion := descripcion) else rs[i]
  {
    seq(|rs|, i requires 0 <= i < |rs| =>
      if rs[i].nombre == nombre then rs[i].(descripcion := descripcion) else rs[i])
  }

  /** `rol.upsert` by name, with the id of the role row. */
  function WithRol(db: Db, nombre: string, descripcion: string): (Db, int)
  {
    var found := RolByNombre(db.roles, nombre);
    if found.Some? then (db.(roles := SetRol(db.roles, nombre, descripcion)), found.value.id)
    else (db.(roles := db.roles + [RolRow(db.nextRolId, nombre, descripcion)], nextRolId := db.nextRolId + 1),
          db.nextRolId)
  }

  /** One pass of a grant loop: the permission is looked up by code and the
      link is created unless the permission is missing or already linked. */
  function WithGrant(db: Db, rolId: int, codigo: string): Db
  {
    var p := PermisoByCodigo(db.permisos, codigo);
    if p.None? || RolPermiso(rolId, p.value.id) in db.grants then db
    else db.(grants := db.grants + [RolPermiso(rolId, p.value.id)])
  }

  function WithGrants(db: Db, rolId: int, codes: seq<string>): Db
    decreases |codes|
  {
    if codes == [] then db else WithGrant(WithGrants(db, rolId, codes[..|codes| - 1]), rolId, codes[|codes| - 1])
  }

  /** A role upsert followed by its grant loop. */
  function WithRole(db: Db, plan: RolePlan): (Db, int)
  {
    var (d, id) := WithRol(db, plan.nombre, plan.descripcion);
    (WithGrants(d, id, plan.codes), id)
  }

  function AdminUser(id: int, hash: string, now: int): User
  {
    User(id, AdminEmail, hash, Some(AdminName), None, None, None, None, false, true, None, now, None, None, None)
  }

  function SetAdmin(us: seq<User>, hash: string): (r: seq<User>)
    ensures |r| == |us|
    ensures forall i :: 0 <= i < |us| ==>
      r[i] == if us[i].email == AdminEmail
              then us[i].(name := Some(AdminName), password := hash, activo := true) else us[i]
  {
    seq(|us|, i requires 0 <= i < |us| =>
      if us[i].email == AdminEmail then us[i].(name := Some(AdminName), password := hash, activo := true) else us[i])
  }

  /** `user.upsert` by e-mail: name, password hash and `activo` are
      rewritten, or the account is created; with the id of the account. */
  function WithAdmin(db: Db, hash: string, now: int): (Db, int)
  {
    var found := FindUserByEmail(db.users, AdminEmail);
    if found.Some? then (db.(users := SetAdmin(db.users, hash)), found.value.id)
    else (db.(users := db.users + [AdminUser(db.nextUserId, hash, now)], nextUserId := db.nextUserId + 1),
          db.nextUserId)
  }

  /** The `usuarioRol` check-then-create. */
  function WithLink(db: Db, usuarioId: int, rolId: int): Db
  {
    if UsuarioRol(usuarioId, rolId) in db.links then db
    else db.(links := db.links + [UsuarioRol(usuarioId, rolId)])
  }

  function SetTipo(ts: seq<TipoDocumento>, t: TipoData): (r: seq<TipoDocumento>)
    ensures |r| == |ts|
    ensures forall i :: 0 <= i < |ts| ==>
      r[i] == if ts[i].nombre == t.nombre
              then ts[i].(descripcion := Some(t.descripcion), extensiones := t.extensiones) else ts[i]
  {
    seq(|ts|, i requires 0 <= i < |ts| =>
      if ts[i].nombre == t.nombre then ts[i].(descripcion := Some(t.descripcion), extensiones := t.extensiones)
      else ts[i])
  }

  /** `tipoDocumento.upsert` by name: the update writes the listed fields
      only; a created type records `creador` as the user who created it. */
  function WithTipo(db: Db, t: TipoData, creador: int): Db
  {
    if TipoByNombre(db.tipos, t.nombre).Some? then db.(tipos := SetTipo(db.tipos, t))
    else db.(tipos := db.tipos + [TipoDocumento(db.nextTipoId, t.nombre, Some(t.descripcion), t.extensiones, true,
                                                Some(creador))],
             nextTipoId := db.nextTipoId + 1)
  }

  function WithTipos(db: Db, list: seq<TipoData>, creador: int): Db
    decreases |list|
  {
    if list == [] then db else WithTipo(WithTipos(db, list[..|list| - 1], creador), list[|list| - 1], creador)
  }

  /** The three role upserts with their grant loops, with the id of ADMIN. */
  function WithRoles(d1: Db): (Db, int)
  {
    var (d2, adminRol) := WithRole(d1, AdminPlan);
    var (d3, _) := WithRole(d2, CargaPlan);
    var (d4, _) := WithRole(d3, EdicionPlan);
    (d4, adminRol)
  }

  /** The administrator, its ADMIN link and the document types. */
  function WithTail(d4: Db, adminRol: int, hash: string, now: int): Db
  {
    var (d5, adminId) := WithAdmin(d4, hash, now);
    WithTipos(WithLink(d5, adminId, adminRol), Tipos, adminId)
  }

  /** The whole script: permissions, the three roles with their grants, the
      administrator and its ADMIN link, the document types. */
  function Seeded(db: Db, hash: string, now: int): Db
  {
    var (d4, adminRol) := WithRoles(WithPermisos(db, Permisos));
    WithTail(d4, adminRol, hash, now)
  }

  // ------------------------------------------------------------ database

  /** The database as the script sees it through the ORM client. */
  class SeedDatabase {
    var permisos: seq<PermisoRow>
    var roles: seq<RolRow>
    var grants: seq<RolPermiso>
    var users: seq<User>
    var links: seq<UsuarioRol>
    var tipos: seq<TipoDocumento>
    var nextPermisoId: int
    var nextRolId: int
    var nextUserId: int
    var nextTipoId: int

    function State(): Db
      reads this
    {
      Db(permisos, roles, grants, users, links, tipos, nextPermisoId, nextRolId, nextUserId, nextTipoId)
    }

    constructor (db: Db)
      ensures State() == db
    {
      permisos, roles, grants := db.permisos, db.roles, db.grants;
      users, links, tipos := db.users, db.links, db.tipos;
      nextPermisoId, nextRolId, nextUserId, nextTipoId := db.nextPermisoId, db.nextRolId, db.nextUserId, db.nextTipoId;
    }

    method UpsertPermiso(p: PermisoData)
      modifies this
      ensures State() == WithPermiso(old(State()), p)
    {
      if PermisoByCodigo(permisos, p.codigo).Some? {
        permisos := SetPermiso(permisos, p);
      } else {
        permisos := permisos + [PermisoRow(nextPermisoId, p.codigo, p.descripcion)];
        nextPermisoId := nextPermisoId + 1;
      }
    }

    /** The permission loop. */
    method CreatePermisos(list: seq<PermisoData>)
      modifies this
      ensures State() == WithPermisos(old(State()), list)
    {
      for i := 0 to |list|
        invariant State() == WithPermisos(old(State()), list[..i])
      {
        UpsertPermiso(list[i]);
        assert list[..i + 1][..i] == list[..i];
      }
      assert list[..|list|] == list;
    }

    method UpsertRol(nombre: string, descripcion: string) returns (id: int)
      modifies this
      ensures (State(), id) == WithRol(old(State()), nombre, descripcion)
    {
      var found := RolByNombre(roles, nombre);
      if found.Some? {
        roles := SetRol(roles, nombre, descripcion);
        id := found.value.id;
      } else {
        id := nextRolId;
        roles := roles + [RolRow(nextRolId, nombre, descripcion)];
        nextRolId := nextRolId + 1;
      }
    }

    /** A grant loop: for each code, the permission row and then the
        existing link are looked up, and the link is created when absent. */
    method AssignPermisos(rolId: int, codes: seq<string>)
      modifies this
      ensures State() == WithGrants(old(State()), rolId, codes)
    {
      for i := 0 to |codes|
        invariant State() == WithGrants(old(State()), rolId, codes[..i])
      {
        var permisoRecord := PermisoByCodigo(permisos, codes[i]);
        if permisoRecord.Some? {
          var existeRelacion := RolPermiso(rolId, permisoRecord.value.id) in grants;
          if !existeRelacion {
            grants := grants + [RolPermiso(rolId, permisoRecord.value.id)];
          }
        }
        assert codes[..i + 1][..i] == codes[..i];
      }
      assert codes[..|codes|] == codes;
    }

    method SeedRole(plan: RolePlan) returns (id: int)
      modifies this
      ensures (State(), id) == WithRole(old(State()), plan)
    {
      id := UpsertRol(plan.nombre, plan.descripcion);
      AssignPermisos(id, plan.codes);
    }

    method UpsertAdmin(hash: string, now: int) returns (id: int)
      modifies this
      ensures (State(), id) == WithAdmin(old(State()), hash, now)
    {
      var found := FindUserByEmail(users, AdminEmail);
      if found.Some? {
        users := SetAdmin(users, hash);
        id := found.value.id;
      } else {
        id := nextUserId;
        users := users + [AdminUser(nextUserId, hash, now)];
        nextUserId := nextUserId + 1;
      }
    }

    method LinkRole(usuarioId: int, rolId: int)
      modifies this
      ensures State() == WithLink(old(State()), usuarioId, rolId)
    {
      var existeUsuarioRol := UsuarioRol(usuarioId, rolId) in links;
      if !existeUsuarioRol {
        links := links + [UsuarioRol(usuarioId, rolId)];
      }
    }

    method UpsertTipo(t: TipoData, creador: int)
      modifies this
      ensures State() == WithTipo(old(State()), t, creador)
    {
      if TipoByNombre(tipos, t.nombre).Some? {
        tipos := SetTipo(tipos, t);
      } else {
        tipos := tipos + [TipoDocumento(nextTipoId, t.nombre, Some(t.descripcion), t.extensiones, true, Some(creador))];
        nextTipoId := nextTipoId + 1;
      }
    }

    /** The document type loop. */
    method CreateTipos(list: seq<TipoData>, creador: int)
      modifies this
      ensures State() == WithTipos(old(State()), list, creador)
    {
      for i := 0 to |list|
        invariant State() == WithTipos(old(State()), list[..i], creador)
      {
        UpsertTipo(list[i], creador);
        assert list[..i + 1][..i] == list[..i];
      }
      assert list[..|list|] == list;
    }

    /** `main`, given the hash of the administrator's password and the
        creation time. */
    method RunSeed(hash: string, now: int)
      modifies this
      ensures State() == Seeded(old(State()), hash, now)
    {
      CreatePermisos(Permisos);
      var rolAdmin := SeedRole(AdminPlan);
      var rolCarga := SeedRole(CargaPlan);
      var rolEdicion := SeedRole(EdicionPlan);
      var adminUser := UpsertAdmin(hash, now);
      LinkRole(adminUser, rolAdmin);
      CreateTipos(Tipos, adminUser);
    }
  }

  // ------------------------------------------------------- what each step changes

  /** A grant loop writes only the link table, and only appends to it. */
  lemma {:induction false} GrantsFrame(db: Db, rolId: int, codes: seq<string>)
    ensures var d := WithGrants(db, rolId, codes);
      d == db.(grants := d.grants) && |db.grants| <= |d.grants| && d.grants[..|db.grants|] == db.grants
    decreases |codes|
  {
    if codes != [] {
      GrantsFrame(db, rolId, codes[..|codes| - 1]);
      var d := WithGrants(db, rolId, codes[..|codes| - 1]);
      assert (d.grants + [RolPermiso(rolId, 0)])[..|db.grants|] == d.grants[..|db.grants|];
      assert forall g :: (d.grants + [g])[..|db.grants|] == db.grants;
    }
  }

  /** Every code of the loop whose permission exists ends up linked. */
  lemma {:induction false} GrantsCover(db: Db, rolId: int, codes: seq<string>)
    ensures forall c :: c in codes && PermisoByCodigo(db.permisos, c).Some? ==>
      RolPermiso(rolId, PermisoByCodigo(db.permisos, c).value.id) in WithGrants(db, rolId, codes).grants
    decreases |codes|
  {
    if codes != [] {
      var init := codes[..|codes| - 1];
      GrantsCover(db, rolId, init);
      GrantsFrame(db, rolId, init);
      forall c | c in codes && PermisoByCodigo(db.permisos, c).Some?
        ensures RolPermiso(rolId, PermisoByCodigo(db.permisos, c).value.id) in WithGrants(db, rolId, codes).grants
      {
        if c != codes[|codes| - 1] {
          assert c in init;
        }
      }
    }
  }

  /** And nothing else is linked to that role: every new link is the
      role's link to the permission of one of the codes. */
  lemma {:induction false} GrantsOnlyCodes(db: Db, rolId: int, codes: seq<string>)
    ensures forall g :: g in WithGrants(db, rolId, codes).grants ==>
      g in db.grants || (g.rolId == rolId && exists c :: c in codes && PermisoByCodigo(db.permisos, c).Some?
                                                      && g.permisoId == PermisoByCodigo(db.permisos, c).value.id)
    decreases |codes|
  {
    if codes != [] {
      var init := codes[..|codes| - 1];
      var last := codes[|codes| - 1];
      GrantsOnlyCodes(db, rolId, init);
      GrantsFrame(db, rolId, init);
      var d := WithGrants(db, rolId, init);
      if PermisoByCodigo(db.permisos, last).Some? {
        assert last in codes;
      }
      forall c | c in init
        ensures c in codes
      {
      }
      assert WithGrants(db, rolId, codes) == WithGrant(d, rolId, last);
    }
  }

  // ------------------------------------------------------------ lookups after a step

  lemma {:induction false} RolByNombreSetOther(rs: seq<RolRow>, n: string, d: string, m: string)
    requires m != n
    ensures RolByNombre(SetRol(rs, n, d), m) == RolByNombre(rs, m)
    decreases |rs|
  {
    if rs != [] {
      assert SetRol(rs, n, d)[1..] == SetRol(rs[1..], n, d);
      RolByNombreSetOther(rs[1..], n, d, m);
    }
  }

  lemma {:induction false} RolByNombreSetSame(rs: seq<RolRow>, n: string, d: string)
    requires RolByNombre(rs, n).Some?
    ensures RolByNombre(SetRol(rs, n, d), n) == Some(RolByNombre(rs, n).value.(descripcion := d))
    decreases |rs|
  {
    if rs[0].nombre != n {
      assert SetRol(rs, n, d)[1..] == SetRol(rs[1..], n, d);
      RolByNombreSetSame(rs[1..], n, d);
    }
  }

  lemma {:induction false} RolByNombreAppend(rs: seq<RolRow>, x: RolRow, n: string)
    ensures RolByNombre(rs + [x], n) == if RolByNombre(rs, n).Some? || x.nombre != n then RolByNombre(rs, n) else Some(x)
    decreases |rs|
  {
    if rs != [] {
      assert (rs + [x])[1..] == rs[1..] + [x];
      RolByNombreAppend(rs[1..], x, n);
    } else {
      assert [x][1..] == [];
    }
  }

  /** After a role upsert the role is found by its name, under the id the
      upsert returned and with the new description. */
  lemma RolUpserted(db: Db, n: string, d: string)
    ensures var (db2, id) := WithRol(db, n, d);
      RolByNombre(db2.roles, n).Some? && RolByNombre(db2.roles, n).value.id == id
      && RolByNombre(db2.roles, n).value.descripcion == d
      && db2 == db.(roles := db2.roles, nextRolId := db2.nextRolId)
  {
    if RolByNombre(db.roles, n).Some? {
      RolByNombreSetSame(db.roles, n, d);
    } else {
      RolByNombreAppend(db.roles, RolRow(db.nextRolId, n, d), n);
    }
  }

  /** A role upsert leaves the lookup of every other name as it was. */
  lemma RolOtherKept(db: Db, n: string, d: string, m: string)
    requires m != n
    ensures RolByNombre(WithRol(db, n, d).0.roles, m) == RolByNombre(db.roles, m)
  {
    if RolByNombre(db.roles, n).Some? {
      RolByNombreSetOther(db.roles, n, d, m);
    } else {
      RolByNombreAppend(db.roles, RolRow(db.nextRolId, n, d), m);
    }
  }

  lemma {:induction false} UserByEmailSet(us: seq<User>, h: string)
    requires FindUserByEmail(us, AdminEmail).Some?
    ensures FindUserByEmail(SetAdmin(us, h), AdminEmail).Some?
    ensures FindUserByEmail(SetAdmin(us, h), AdminEmail).value.id == FindUserByEmail(us, AdminEmail).value.id
    decreases |us|
  {
    if us[0].email != AdminEmail {
      assert SetAdmin(us, h)[1..] == SetAdmin(us[1..], h);
      UserByEmailSet(us[1..], h);
    }
  }

  lemma {:induction false} UserByEmailAppend(us: seq<User>, x: User)
    requires FindUserByEmail(us, AdminEmail).None? && x.email == AdminEmail
    ensures FindUserByEmail(us + [x], AdminEmail) == Some(x)
    decreases |us|
  {
    if us != [] {
      assert (us + [x])[1..] == us[1..] + [x];
      UserByEmailAppend(us[1..], x);
    } else {
      assert [x][1..] == [];
    }
  }

  /** After the account upsert the administrator is found by e-mail under
      the id the upsert returned, with the name, the hash and `activo` set. */
  lemma AdminUpserted(db: Db, h: string, now: int)
    ensures var (db2, id) := WithAdmin(db, h, now);
      FindUserByEmail(db2.users, AdminEmail).Some? && FindUserByEmail(db2.users, AdminEmail).value.id == id
      && AdminDone(db2.users, h)
      && db2 == db.(users := db2.users, nextUserId := db2.nextUserId)
  {
    if FindUserByEmail(db.users, AdminEmail).Some? {
      UserByEmailSet(db.users, h);
    } else {
      UserByEmailAppend(db.users, AdminUser(db.nextUserId, h, now));
    }
  }

  // ------------------------------------------------------------ fixpoints

  /** Every listed code exists and carries its listed description. */
  ghost predicate PermisosDone(ps: seq<PermisoRow>, list: seq<PermisoData>)
  {
    forall k :: 0 <= k < |list| ==>
      PermisoByCodigo(ps, list[k].codigo).Some?
      && forall p :: p in ps && p.codigo == list[k].codigo ==> p.descripcion == list[k].descripcion
  }

  ghost predicate GrantsDone(db: Db, rolId: int, codes: seq<string>)
  {
    forall c :: c in codes && PermisoByCodigo(db.permisos, c).Some? ==>
      RolPermiso(rolId, PermisoByCodigo(db.permisos, c).value.id) in db.grants
  }

  /** The role exists with its description and its links. */
  ghost predicate RoleDone(db: Db, plan: RolePlan)
  {
    && RolByNombre(db.roles, plan.nombre).Some?
    && (forall r :: r in db.roles && r.nombre == plan.nombre ==> r.descripcion == plan.descripcion)
    && GrantsDone(db, RolByNombre(db.roles, plan.nombre).value.id, plan.codes)
  }

  ghost predicate AdminDone(us: seq<User>, h: string)
  {
    && FindUserByEmail(us, AdminEmail).Some?
    && forall u :: u in us && u.email == AdminEmail ==> u.name == Some(AdminName) && u.password == h && u.activo
  }

  ghost predicate TiposDone(ts: seq<TipoDocumento>, list: seq<TipoData>)
  {
    forall k :: 0 <= k < |list| ==>
      TipoByNombre(ts, list[k].nombre).Some?
      && forall t :: t in ts && t.nombre == list[k].nombre ==>
           t.descripcion == Some(list[k].descripcion) && t.extensiones == list[k].extensiones
  }

  lemma {:induction false} PermisosFixpoint(db: Db, list: seq<PermisoData>)
    requires PermisosDone(db.permisos, list)
    ensures WithPermisos(db, list) == db
    decreases |list|
  {
    if list != [] {
      var last := list[|list| - 1];
      assert PermisosDone(db.permisos, list[..|list| - 1]);
      PermisosFixpoint(db, list[..|list| - 1]);
      assert PermisoByCodigo(db.permisos, last.codigo).Some?;
      assert SetPermiso(db.permisos, last) == db.permisos;
    }
  }

  lemma {:induction false} GrantsFixpoint(db: Db, rolId: int, codes: seq<string>)
    requires GrantsDone(db, rolId, codes)
    ensures WithGrants(db, rolId, codes) == db
    decreases |codes|
  {
    if codes != [] {
      var init := codes[..|codes| - 1];
      assert forall c :: c in init ==> c in codes;
      GrantsFixpoint(db, rolId, init);
    }
  }

  lemma RoleFixpoint(db: Db, plan: RolePlan)
    requires RoleDone(db, plan)
    ensures WithRole(db, plan) == (db, RolByNombre(db.roles, plan.nombre).value.id)
  {
    assert SetRol(db.roles, plan.nombre, plan.descripcion) == db.roles;
    GrantsFixpoint(db, RolByNombre(db.roles, plan.nombre).value.id, plan.codes);
  }

  lemma AdminFixpoint(db: Db, h: string, now: int)
    requires AdminDone(db.users, h)
    ensures WithAdmin(db, h, now) == (db, FindUserByEmail(db.users, AdminEmail).value.id)
  {
    assert SetAdmin(db.users, h) == db.users;
  }

  lemma {:induction false} TiposFixpoint(db: Db, list: seq<TipoData>, creador: int)
    requires TiposDone(db.tipos, list)
    ensures WithTipos(db, list, creador) == db
    decreases |list|
  {
    if list != [] {
      var last := list[|list| - 1];
      assert TiposDone(db.tipos, list[..|list| - 1]);
      TiposFixpoint(db, list[..|list| - 1], creador);
      assert TipoByNombre(db.tipos, last.nombre).Some?;
      assert SetTipo(db.tipos, last) == db.tipos;
    }
  }

  // ------------------------------------------------------------ each step does its part

  /** A permission upsert makes its code present with its description and
      keeps every other listed code as it was. */
  lemma PermisoStep(db: Db, list: seq<PermisoData>, p: PermisoData)
    requires PermisosDone(db.permisos, list)
    requires forall k :: 0 <= k < |list| ==> list[k].codigo != p.codigo
    ensures PermisosDone(WithPermiso(db, p).permisos, list + [p])
  {
    var ps := db.permisos;
    var qs := WithPermiso(db, p).permisos;
    var all := list + [p];
    forall k | 0 <= k < |all|
      ensures PermisoByCodigo(qs, all[k].codigo).Some?
      ensures forall q :: q in qs && q.codigo == all[k].codigo ==> q.descripcion == all[k].descripcion
    {
      var code := all[k].codigo;
      if k < |list| {
        assert all[k] == list[k];
        var r := PermisoByCodigo(ps, code).value;
        var i :| 0 <= i < |ps| && ps[i] == r;
        assert qs[i] == r;
      } else if PermisoByCodigo(ps, code).Some? {
        var i :| 0 <= i < |ps| && ps[i] == PermisoByCodigo(ps, code).value;
        assert qs[i].codigo == code;
      } else {
        assert qs[|ps|].codigo == code;
      }
    }
  }

  lemma {:induction false} PermisosEstablished(db: Db, list: seq<PermisoData>)
    requires forall i, j :: 0 <= i < j < |list| ==> list[i].codigo != list[j].codigo
    ensures PermisosDone(WithPermisos(db, list).permisos, list)
    decreases |list|
  {
    if list != [] {
      var init := list[..|list| - 1];
      PermisosEstablished(db, init);
      PermisoStep(WithPermisos(db, init), init, list[|list| - 1]);
      assert init + [list[|list| - 1]] == list;
    }
  }

  /** The same for a document-type upsert. */
  lemma TipoStep(db: Db, list: seq<TipoData>, t: TipoData, creador: int)
    requires TiposDone(db.tipos, list)
    requires forall k :: 0 <= k < |list| ==> list[k].nombre != t.nombre
    ensures TiposDone(WithTipo(db, t, creador).tipos, list + [t])
  {
    var ts := db.tipos;
    var qs := WithTipo(db, t, creador).tipos;
    var all := list + [t];
    forall k | 0 <= k < |all|
      ensures TipoByNombre(qs, all[k].nombre).Some?
      ensures forall q :: q in qs && q.nombre == all[k].nombre ==>
        q.descripcion == Some(all[k].descripcion) && q.extensiones == all[k].extensiones
    {
      var n := all[k].nombre;
      if k < |list| {
        assert all[k] == list[k];
        var r := TipoByNombre(ts, n).value;
        var i :| 0 <= i < |ts| && ts[i] == r;
        assert qs[i] == r;
      } else if TipoByNombre(ts, n).Some? {
        var i :| 0 <= i < |ts| && ts[i] == TipoByNombre(ts, n).value;
        assert qs[i].nombre == n;
      } else {
        assert qs[|ts|].nombre == n;
      }
    }
  }

  lemma {:induction false} TiposEstablished(db: Db, list: seq<TipoData>, creador: int)
    requires forall i, j :: 0 <= i < j < |list| ==> list[i].nombre != list[j].nombre
    ensures TiposDone(WithTipos(db, list, creador).tipos, list)
    decreases |list|
  {
    if list != [] {
      var init := list[..|list| - 1];
      TiposEstablished(db, init, creador);
      TipoStep(WithTipos(db, init, creador), init, list[|list| - 1], creador);
      assert init + [list[|list| - 1]] == list;
    }
  }

  /** The type loop never changes who created an existing type, and every
      type it creates records `creador`, the administrator's id in the
      script. */
  lemma {:induction false} TiposCreatedBy(db: Db, list: seq<TipoData>, creador: int)
    ensures var ts := WithTipos(db, list, creador).tipos;
      && |ts| >= |db.tipos|
      && (forall i :: 0 <= i < |db.tipos| ==>
            ts[i].id == db.tipos[i].id && ts[i].usuarioCreacionId == db.tipos[i].usuarioCreacionId)
      && forall i :: |db.tipos| <= i < |ts| ==> ts[i].usuarioCreacionId == Some(creador)
    decreases |list|
  {
    if list != [] {
      TiposCreatedBy(db, list[..|list| - 1], creador);
    }
  }

  /** The permission loop writes only the permission table and its counter. */
  lemma {:induction false} PermisosFrame(db: Db, list: seq<PermisoData>)
    ensures var d := WithPermisos(db, list); d == db.(permisos := d.permisos, nextPermisoId := d.nextPermisoId)
    decreases |list|
  {
    if list != [] {
      PermisosFrame(db, list[..|list| - 1]);
    }
  }

  /** The document-type loop writes only the type table and its counter. */
  lemma {:induction false} TiposFrame(db: Db, list: seq<TipoData>, creador: int)
    ensures var d := WithTipos(db, list, creador); d == db.(tipos := d.tipos, nextTipoId := d.nextTipoId)
    decreases |list|
  {
    if list != [] {
      TiposFrame(db, list[..|list| - 1], creador);
    }
  }

  /** A role upsert with its grant loop leaves the role done: found under
      the returned id, described as planned, linked to every planned code
      whose permission exists. Only roles, links and the role counter change. */
  lemma RoleMade(db: Db, plan: RolePlan)
    ensures var (d, id) := WithRole(db, plan);
      RoleDone(d, plan) && RolByNombre(d.roles, plan.nombre).value.id == id
      && d == db.(roles := d.roles, grants := d.grants, nextRolId := d.nextRolId)
  {
    var (dr, id) := WithRol(db, plan.nombre, plan.descripcion);
    RolUpserted(db, plan.nombre, plan.descripcion);
    GrantsFrame(dr, id, plan.codes);
    GrantsCover(dr, id, plan.codes);
    RolRowsDescribed(db, plan.nombre, plan.descripcion);
  }

  lemma RolRowsDescribed(db: Db, n: string, d: string)
    ensures forall r :: r in WithRol(db, n, d).0.roles && r.nombre == n ==> r.descripcion == d
  {
    var rs := WithRol(db, n, d).0.roles;
    forall r | r in rs && r.nombre == n
      ensures r.descripcion == d
    {
      var i :| 0 <= i < |rs| && rs[i] == r;
    }
  }

  /** Another role's upsert leaves a done role done, under the same row. */
  lemma RoleKept(db: Db, plan: RolePlan, other: RolePlan)
    requires RoleDone(db, plan) && plan.nombre != other.nombre
    ensures var d := WithRole(db, other).0;
      RoleDone(d, plan) && RolByNombre(d.roles, plan.nombre) == RolByNombre(db.roles, plan.nombre)
  {
    var (dr, id) := WithRol(db, other.nombre, other.descripcion);
    RolUpserted(db, other.nombre, other.descripcion);
    RolOtherKept(db, other.nombre, other.descripcion, plan.nombre);
    RolRowsKept(db, other.nombre, other.descripcion, plan.nombre);
    GrantsFrame(dr, id, other.codes);
    var d := WithGrants(dr, id, other.codes);
    forall g | g in dr.grants
      ensures g in d.grants
    {
      var i :| 0 <= i < |dr.grants| && dr.grants[i] == g;
      assert d.grants[..|dr.grants|][i] == g;
    }
  }

  lemma RolRowsKept(db: Db, n: string, d: string, m: string)
    requires m != n
    ensures forall r :: r in WithRol(db, n, d).0.roles && r.nombre == m ==> r in db.roles
  {
    var rs := WithRol(db, n, d).0.roles;
    forall r | r in rs && r.nombre == m
      ensures r in db.roles
    {
      var i :| 0 <= i < |rs| && rs[i] == r;
      assert i < |db.roles|;
      assert db.roles[i] == r;
    }
  }

  // ------------------------------------------------------------ the whole script

  /** Everything the script writes is in place: the permissions with their
      descriptions, the three roles with their links, the administrator with
      its ADMIN link and the document types. */
  ghost predicate SeedDone(s: Db, h: string)
  {
    && AdminDone(s.users, h)
    && RoleDone(s, AdminPlan) && RoleDone(s, CargaPlan) && RoleDone(s, EdicionPlan)
    && PermisosDone(s.permisos, Permisos)
    && TiposDone(s.tipos, Tipos)
    && UsuarioRol(FindUserByEmail(s.users, AdminEmail).value.id, RolByNombre(s.roles, AdminPlan.nombre).value.id) in s.links
  }

  /** The eight permission codes are distinct. */
  lemma PermisoCodesDistinct()
    ensures forall i, j :: 0 <= i < j < |Permisos| ==> Permisos[i].codigo != Permisos[j].codigo
  {
    assert Permisos[3].codigo[10] != Permisos[4].codigo[10];
    assert Permisos[3].codigo[10] != Permisos[5].codigo[10];
    assert Permisos[0].codigo[8] != Permisos[1].codigo[8];
    assert Permisos[0].codigo[8] != Permisos[2].codigo[8];
    assert Permisos[1].codigo[8] != Permisos[2].codigo[8];
  }

  /** The four document-type names are distinct. */
  lemma TipoNamesDistinct()
    ensures forall i, j :: 0 <= i < j < |Tipos| ==> Tipos[i].nombre != Tipos[j].nombre
  {
  }

  lemma RoleNamesDistinct()
    ensures AdminPlan.nombre != CargaPlan.nombre && AdminPlan.nombre != EdicionPlan.nombre
    ensures CargaPlan.nombre != EdicionPlan.nombre
  {
  }

  /** The three role steps leave the three roles done, ADMIN under the id
      its step returned, and write nothing but roles and links. */
  lemma RolesEstablished(d1: Db)
    ensures var (d4, a) := WithRoles(d1);
      && RoleDone(d4, AdminPlan) && RoleDone(d4, CargaPlan) && RoleDone(d4, EdicionPlan)
      && RolByNombre(d4.roles, AdminPlan.nombre).value.id == a
      && d4 == d1.(roles := d4.roles, grants := d4.grants, nextRolId := d4.nextRolId)
  {
    var (d2, a) := WithRole(d1, AdminPlan);
    var d3 := WithRole(d2, CargaPlan).0;
    RoleNamesDistinct();
    RoleMade(d1, AdminPlan);
    RoleMade(d2, CargaPlan);
    RoleKept(d2, AdminPlan, CargaPlan);
    RoleMade(d3, EdicionPlan);
    RoleKept(d3, AdminPlan, EdicionPlan);
    RoleKept(d3, CargaPlan, EdicionPlan);
  }

  /** One run of the script leaves everything it writes in place. */
  lemma SeededDone(db: Db, h: string, now: int)
    ensures SeedDone(Seeded(db, h, now), h)
  {
    var d1 := WithPermisos(db, Permisos);
    PermisoCodesDistinct();
    PermisosEstablished(db, Permisos);
    RolesEstablished(d1);
    TailDone(WithRoles(d1).0, WithRoles(d1).1, h, now);
  }

  /** The administrator, its link and the document types, written over a
      database whose permissions and roles are in place. */
  lemma TailDone(d4: Db, a: int, h: string, now: int)
    requires RoleDone(d4, AdminPlan) && RoleDone(d4, CargaPlan) && RoleDone(d4, EdicionPlan)
    requires PermisosDone(d4.permisos, Permisos)
    requires RolByNombre(d4.roles, AdminPlan.nombre).value.id == a
    ensures SeedDone(WithTail(d4, a, h, now), h)
  {
    var (d5, u) := WithAdmin(d4, h, now);
    AdminUpserted(d4, h, now);
    var d6 := WithLink(d5, u, a);
    TipoNamesDistinct();
    TiposEstablished(d6, Tipos, u);
    TiposFrame(d6, Tipos, u);
    var s := WithTipos(d6, Tipos, u);
    assert s.users == d5.users && s.roles == d4.roles && s.permisos == d4.permisos && s.grants == d4.grants;
  }

  /** A run over a database where everything is in place writes nothing. */
  lemma SeedFixpoint(s: Db, h: string, now: int)
    requires SeedDone(s, h)
    ensures Seeded(s, h, now) == s
  {
    PermisosFixpoint(s, Permisos);
    RoleFixpoint(s, AdminPlan);
    RoleFixpoint(s, CargaPlan);
    RoleFixpoint(s, EdicionPlan);
    AdminFixpoint(s, h, now);
    TiposFixpoint(s, Tipos, FindUserByEmail(s.users, AdminEmail).value.id);
  }

  /** A run over a database where everything is in place, with a fresh
      hash of the administrator's password (the script hashes it with a new
      salt on every run), writes only that hash: the administrator's
      password and nothing else. */
  lemma SeedRerun(s: Db, h: string, h2: string, later: int)
    requires SeedDone(s, h)
    ensures var r := Seeded(s, h2, later);
      && r == s.(users := r.users)
      && |r.users| == |s.users|
      && forall i :: 0 <= i < |s.users| ==>
           r.users[i] == if s.users[i].email == AdminEmail then s.users[i].(password := h2) else s.users[i]
  {
    var a := RolByNombre(s.roles, AdminPlan.nombre).value.id;
    HeadFixpoint(s, h);
    TailRerun(s, a, h, h2, later);
    AdminRehashed(s.users, h, h2);
  }

  /** Over a database where everything is in place, the permission and role
      steps write nothing and return the id of ADMIN. */
  lemma HeadFixpoint(s: Db, h: string)
    requires SeedDone(s, h)
    ensures WithRoles(WithPermisos(s, Permisos)) == (s, RolByNombre(s.roles, AdminPlan.nombre).value.id)
  {
    PermisosFixpoint(s, Permisos);
    RoleFixpoint(s, AdminPlan);
    RoleFixpoint(s, CargaPlan);
    RoleFixpoint(s, EdicionPlan);
  }

  /** Over a database where everything is in place, the administrator step
      rewrites the account with the new hash, and the link and type steps
      after it write nothing. */
  lemma TailRerun(s: Db, a: int, h: string, h2: string, later: int)
    requires SeedDone(s, h)
    requires a == RolByNombre(s.roles, AdminPlan.nombre).value.id
    ensures WithTail(s, a, h2, later) == s.(users := SetAdmin(s.users, h2))
  {
    var u := FindUserByEmail(s.users, AdminEmail).value.id;
    var s2 := s.(users := SetAdmin(s.users, h2));
    assert WithAdmin(s, h2, later) == (s2, u);
    assert WithLink(s2, u, a) == s2;
    TiposFixpoint(s2, Tipos, u);
  }

  /** On accounts where the administrator already has its name and is
      active, the administrator upsert changes only the password. */
  lemma AdminRehashed(us: seq<User>, h: string, h2: string)
    requires AdminDone(us, h)
    ensures forall i :: 0 <= i < |us| ==>
      SetAdmin(us, h2)[i] == if us[i].email == AdminEmail then us[i].(password := h2) else us[i]
  {
    forall i | 0 <= i < |us| && us[i].email == AdminEmail
      ensures SetAdmin(us, h2)[i] == us[i].(password := h2)
    {
      assert us[i] in us;
    }
  }

  /** Hence the script is idempotent up to the administrator's hash: a
      second run, at any later time, leaves the database as the first run
      left it except for the administrator's password, which is the second
      run's hash; with the same hash it leaves it exactly as it was. */
  lemma SeedIdempotent(db: Db, h: string, h2: string, now: int, later: int)
    ensures var s := Seeded(db, h, now);
      var r := Seeded(s, h2, later);
      && r == s.(users := r.users)
      && |r.users| == |s.users|
      && forall i :: 0 <= i < |s.users| ==>
           r.users[i] == if s.users[i].email == AdminEmail then s.users[i].(password := h2) else s.users[i]
    ensures h2 == h ==> Seeded(Seeded(db, h, now), h2, later) == Seeded(db, h, now)
  {
    SeededDone(db, h, now);
    SeedRerun(Seeded(db, h, now), h, h2, later);
    if h2 == h {
      SeedFixpoint(Seeded(db, h, now), h, later);
    }
  }

  // ------------------------------------------------------------ unique keys

  /** Permission rows have distinct ids and codes, all below the counter. */
  ghost predicate PermisosSound(ps: seq<PermisoRow>, next: int)
  {
    && (forall i, j :: 0 <= i < j < |ps| ==> ps[i].id != ps[j].id && ps[i].codigo != ps[j].codigo)
    && (forall p :: p in ps ==> p.id < next)
  }

  /** Role rows have distinct ids and names, all below the counter. */
  ghost predicate RolesSound(rs: seq<RolRow>, next: int)
  {
    && (forall i, j :: 0 <= i < j < |rs| ==> rs[i].id != rs[j].id && rs[i].nombre != rs[j].nombre)
    && (forall r :: r in rs ==> r.id < next)
  }

  ghost predicate UsersSound(us: seq<User>)
  {
    forall i, j :: 0 <= i < j < |us| ==> us[i].email != us[j].email
  }

  ghost predicate TiposSound(ts: seq<TipoDocumento>)
  {
    forall i, j :: 0 <= i < j < |ts| ==> ts[i].nombre != ts[j].nombre
  }

  /** No link appears twice and every link names a role id already issued. */
  ghost predicate GrantsSound(gs: seq<RolPermiso>, nextRol: int)
  {
    NoDup(gs) && forall g :: g in gs ==> g.rolId < nextRol
  }

  /** One row per unique key in every table, no duplicate link rows. */
  ghost predicate Sound(db: Db)
  {
    && PermisosSound(db.permisos, db.nextPermisoId)
    && RolesSound(db.roles, db.nextRolId)
    && GrantsSound(db.grants, db.nextRolId)
    && UsersSound(db.users)
    && NoDup(db.links)
    && TiposSound(db.tipos)
  }

  lemma PermisoSound(db: Db, p: PermisoData)
    requires PermisosSound(db.permisos, db.nextPermisoId)
    ensures var d := WithPermiso(db, p); PermisosSound(d.permisos, d.nextPermisoId)
    ensures WithPermiso(db, p).nextPermisoId >= db.nextPermisoId
  {
    var ps := db.permisos;
    var d := WithPermiso(db, p);
    if PermisoByCodigo(ps, p.codigo).Some? {
      forall q | q in d.permisos
        ensures q.id < d.nextPermisoId
      {
        var i :| 0 <= i < |ps| && d.permisos[i] == q;
        assert ps[i] in ps;
      }
    }
  }

  lemma {:induction false} PermisosSoundAll(db: Db, list: seq<PermisoData>)
    requires PermisosSound(db.permisos, db.nextPermisoId)
    ensures var d := WithPermisos(db, list); PermisosSound(d.permisos, d.nextPermisoId)
    decreases |list|
  {
    if list != [] {
      PermisosSoundAll(db, list[..|list| - 1]);
      PermisoSound(WithPermisos(db, list[..|list| - 1]), list[|list| - 1]);
    }
  }

  /** A role upsert keeps roles sound and returns an id already issued. */
  lemma RolSound(db: Db, n: string, d: string)
    requires RolesSound(db.roles, db.nextRolId)
    ensures var (d2, id) := WithRol(db, n, d);
      RolesSound(d2.roles, d2.nextRolId) && id < d2.nextRolId && db.nextRolId <= d2.nextRolId
  {
    var rs := db.roles;
    var d2 := WithRol(db, n, d).0;
    if RolByNombre(rs, n).Some? {
      forall r | r in d2.roles
        ensures r.id < d2.nextRolId
      {
        var i :| 0 <= i < |rs| && d2.roles[i] == r;
        assert rs[i] in rs;
      }
    }
  }

  /** A grant loop for an issued role id adds no duplicate link. */
  lemma {:induction false} GrantsSoundAll(db: Db, rolId: int, codes: seq<string>)
    requires GrantsSound(db.grants, db.nextRolId) && rolId < db.nextRolId
    ensures GrantsSound(WithGrants(db, rolId, codes).grants, db.nextRolId)
    decreases |codes|
  {
    if codes != [] {
      var init := codes[..|codes| - 1];
      GrantsSoundAll(db, rolId, init);
      GrantsFrame(db, rolId, init);
    }
  }

  lemma RoleSound(db: Db, plan: RolePlan)
    requires RolesSound(db.roles, db.nextRolId) && GrantsSound(db.grants, db.nextRolId)
    ensures var d := WithRole(db, plan).0;
      RolesSound(d.roles, d.nextRolId) && GrantsSound(d.grants, d.nextRolId) && WithRole(db, plan).1 < d.nextRolId
  {
    var (dr, id) := WithRol(db, plan.nombre, plan.descripcion);
    RolSound(db, plan.nombre, plan.descripcion);
    GrantsSoundAll(dr, id, plan.codes);
    GrantsFrame(dr, id, plan.codes);
  }

  lemma AdminSound(db: Db, h: string, now: int)
    requires UsersSound(db.users)
    ensures UsersSound(WithAdmin(db, h, now).0.users)
  {
  }

  lemma TipoSound(db: Db, t: TipoData, creador: int)
    requires TiposSound(db.tipos)
    ensures TiposSound(WithTipo(db, t, creador).tipos)
  {
  }

  lemma {:induction false} TiposSoundAll(db: Db, list: seq<TipoData>, creador: int)
    requires TiposSound(db.tipos)
    ensures TiposSound(WithTipos(db, list, creador).tipos)
    decreases |list|
  {
    if list != [] {
      TiposSoundAll(db, list[..|list| - 1], creador);
      TipoSound(WithTipos(db, list[..|list| - 1], creador), list[|list| - 1], creador);
    }
  }

  /** A role step writes only roles, links and the role counter. */
  lemma RoleFrame(db: Db, plan: RolePlan)
    ensures var d := WithRole(db, plan).0;
      d == db.(roles := d.roles, grants := d.grants, nextRolId := d.nextRolId)
  {
    var (dr, id) := WithRol(db, plan.nombre, plan.descripcion);
    GrantsFrame(dr, id, plan.codes);
  }

  /** The three role steps keep roles and links sound. */
  lemma RolesSoundAll(d1: Db)
    requires RolesSound(d1.roles, d1.nextRolId) && GrantsSound(d1.grants, d1.nextRolId)
    ensures var d4 := WithRoles(d1).0;
      RolesSound(d4.roles, d4.nextRolId) && GrantsSound(d4.grants, d4.nextRolId)
      && d4 == d1.(roles := d4.roles, grants := d4.grants, nextRolId := d4.nextRolId)
  {
    var d2 := WithRole(d1, AdminPlan).0;
    var d3 := WithRole(d2, CargaPlan).0;
    RoleSound(d1, AdminPlan);
    RoleFrame(d1, AdminPlan);
    RoleSound(d2, CargaPlan);
    RoleFrame(d2, CargaPlan);
    RoleSound(d3, EdicionPlan);
    RoleFrame(d3, EdicionPlan);
  }

  /** A run keeps one row per permission code, role name, e-mail and
      document-type name, and never duplicates a link row. */
  lemma SeededSound(db: Db, h: string, now: int)
    requires Sound(db)
    ensures Sound(Seeded(db, h, now))
  {
    var d1 := WithPermisos(db, Permisos);
    PermisosSoundAll(db, Permisos);
    PermisosFrame(db, Permisos);
    RolesSoundAll(d1);
    TailSound(WithRoles(d1).0, WithRoles(d1).1, h, now);
  }

  lemma TailSound(d4: Db, a: int, h: string, now: int)
    requires Sound(d4)
    ensures Sound(WithTail(d4, a, h, now))
  {
    var (d5, u) := WithAdmin(d4, h, now);
    AdminSound(d4, h, now);
    AdminUpserted(d4, h, now);
    var d6 := WithLink(d5, u, a);
    TiposSoundAll(d6, Tipos, u);
    TiposFrame(d6, Tipos, u);
  }

  // ------------------------------------------------------------ the role matrix

  /** The permission codes linked to a role. */
  ghost function GrantedCodes(db: Db, rolId: int): set<string>
  {
    Granted(db.permisos, db.grants, rolId)
  }

  ghost function Granted(ps: seq<PermisoRow>, gs: seq<RolPermiso>, rolId: int): set<string>
  {
    set p | p in ps && RolPermiso(rolId, p.id) in gs :: p.codigo
  }

  /** After a run ADMIN exists and is linked to all eight codes. */
  lemma AdminGetsEveryCode(db: Db, h: string, now: int)
    ensures var s := Seeded(db, h, now);
      RolByNombre(s.roles, "ADMIN").Some?
      && forall c :: c in AllCodes ==> c in GrantedCodes(s, RolByNombre(s.roles, "ADMIN").value.id)
  {
    SeededDone(db, h, now);
    DoneAdminCodes(Seeded(db, h, now));
  }

  lemma DoneAdminCodes(s: Db)
    requires RoleDone(s, AdminPlan) && PermisosDone(s.permisos, Permisos)
    ensures forall c :: c in AllCodes ==> c in GrantedCodes(s, RolByNombre(s.roles, "ADMIN").value.id)
  {
    var id := RolByNombre(s.roles, "ADMIN").value.id;
    forall c | c in AllCodes
      ensures c in GrantedCodes(s, id)
    {
      var k :| 0 <= k < |AllCodes| && AllCodes[k] == c;
      assert Permisos[k].codigo == c;
      var p := PermisoByCodigo(s.permisos, c).value;
      assert RolPermiso(id, p.id) in s.grants;
    }
  }

  lemma SameIdSameRow(ps: seq<PermisoRow>, next: int, p: PermisoRow, q: PermisoRow)
    requires PermisosSound(ps, next) && p in ps && q in ps && p.id == q.id
    ensures p == q
  {
    var i :| 0 <= i < |ps| && ps[i] == p;
    var j :| 0 <= j < |ps| && ps[j] == q;
    assert !(i < j) && !(j < i);
  }

  /** A role created by its upsert ends up linked to exactly its planned
      codes, when every planned code has a permission row. */
  lemma FreshRoleExact(db: Db, plan: RolePlan)
    requires PermisosSound(db.permisos, db.nextPermisoId) && GrantsSound(db.grants, db.nextRolId)
    requires RolByNombre(db.roles, plan.nombre).None?
    requires forall c :: c in plan.codes ==> PermisoByCodigo(db.permisos, c).Some?
    ensures GrantedCodes(WithRole(db, plan).0, WithRole(db, plan).1) == set c | c in plan.codes
  {
    var (dr, id) := WithRol(db, plan.nombre, plan.descripcion);
    var d := WithGrants(dr, id, plan.codes);
    GrantsFrame(dr, id, plan.codes);
    GrantsCover(dr, id, plan.codes);
    GrantsOnlyCodes(dr, id, plan.codes);
    forall x | x in GrantedCodes(d, id)
      ensures x in plan.codes
    {
      var p :| p in d.permisos && RolPermiso(id, p.id) in d.grants && p.codigo == x;
      assert RolPermiso(id, p.id) !in db.grants;
      var c :| c in plan.codes && PermisoByCodigo(db.permisos, c).Some?
            && p.id == PermisoByCodigo(db.permisos, c).value.id;
      SameIdSameRow(db.permisos, db.nextPermisoId, p, PermisoByCodigo(db.permisos, c).value);
    }
    forall c | c in plan.codes
      ensures c in GrantedCodes(d, id)
    {
      var p := PermisoByCodigo(db.permisos, c).value;
      assert RolPermiso(id, p.id) in d.grants;
    }
  }

  /** Another role's step leaves a role's codes as they were. */
  lemma GrantedKept(db: Db, plan: RolePlan, rolId: int)
    requires rolId != WithRole(db, plan).1
    ensures GrantedCodes(WithRole(db, plan).0, rolId) == GrantedCodes(db, rolId)
  {
    var (dr, id) := WithRol(db, plan.nombre, plan.descripcion);
    var d := WithGrants(dr, id, plan.codes);
    GrantsFrame(dr, id, plan.codes);
    GrantsOnlyCodes(dr, id, plan.codes);
    forall g | g in db.grants
      ensures g in d.grants
    {
      var i :| 0 <= i < |db.grants| && db.grants[i] == g;
      assert d.grants[..|db.grants|][i] == g;
    }
  }

  /** The step of a role with another name returns another id than an
      existing role's. */
  lemma OtherRoleOtherId(db: Db, plan: RolePlan, m: string)
    requires RolesSound(db.roles, db.nextRolId)
    requires RolByNombre(db.roles, m).Some? && m != plan.nombre
    ensures WithRole(db, plan).1 != RolByNombre(db.roles, m).value.id
  {
    var r := RolByNombre(db.roles, m).value;
    var found := RolByNombre(db.roles, plan.nombre);
    if found.Some? {
      var i :| 0 <= i < |db.roles| && db.roles[i] == r;
      var j :| 0 <= j < |db.roles| && db.roles[j] == found.value;
      assert i != j;
    }
  }

  lemma RoleOtherKept(db: Db, plan: RolePlan, m: string)
    requires m != plan.nombre
    ensures RolByNombre(WithRole(db, plan).0.roles, m) == RolByNombre(db.roles, m)
  {
    var (dr, id) := WithRol(db, plan.nombre, plan.descripcion);
    RolOtherKept(db, plan.nombre, plan.descripcion, m);
    GrantsFrame(dr, id, plan.codes);
  }

  /** The step of another role keeps a sound database sound and leaves an
      existing role's row and codes as they were. */
  lemma LaterRoleKeeps(d: Db, plan: RolePlan, m: string)
    requires RolesSound(d.roles, d.nextRolId) && GrantsSound(d.grants, d.nextRolId)
    requires RolByNombre(d.roles, m).Some? && m != plan.nombre
    ensures var d2 := WithRole(d, plan).0; var id := RolByNombre(d.roles, m).value.id;
      && RolByNombre(d2.roles, m) == RolByNombre(d.roles, m)
      && GrantedCodes(d2, id) == GrantedCodes(d, id)
      && RolesSound(d2.roles, d2.nextRolId) && GrantsSound(d2.grants, d2.nextRolId)
      && d2 == d.(roles := d2.roles, grants := d2.grants, nextRolId := d2.nextRolId)
  {
    RoleOtherKept(d, plan, m);
    OtherRoleOtherId(d, plan, m);
    GrantedKept(d, plan, RolByNombre(d.roles, m).value.id);
    RoleSound(d, plan);
    RoleFrame(d, plan);
  }

  /** The steps after the roles touch neither roles, permissions nor links. */
  lemma TailKeeps(d4: Db, a: int, h: string, now: int)
    ensures var s := WithTail(d4, a, h, now);
      s.roles == d4.roles && s.permisos == d4.permisos && s.grants == d4.grants
  {
    var (d5, u) := WithAdmin(d4, h, now);
    AdminUpserted(d4, h, now);
    TiposFrame(WithLink(d5, u, a), Tipos, u);
  }

  /** The permission step over a sound database: permissions sound, every
      code present, roles and links untouched. */
  lemma HeadSound(db: Db)
    requires Sound(db)
    ensures var d1 := WithPermisos(db, Permisos);
      && PermisosSound(d1.permisos, d1.nextPermisoId)
      && (forall c :: c in AllCodes ==> PermisoByCodigo(d1.permisos, c).Some?)
      && d1 == db.(permisos := d1.permisos, nextPermisoId := d1.nextPermisoId)
  {
    PermisosSoundAll(db, Permisos);
    PermisosFrame(db, Permisos);
    PermisoCodesDistinct();
    PermisosEstablished(db, Permisos);
    CodesPresent(WithPermisos(db, Permisos).permisos);
  }

  /** Where the permission list is in place, every code has a row. */
  lemma CodesPresent(ps: seq<PermisoRow>)
    requires PermisosDone(ps, Permisos)
    ensures forall c :: c in AllCodes ==> PermisoByCodigo(ps, c).Some?
  {
    forall c | c in AllCodes
      ensures PermisoByCodigo(ps, c).Some?
    {
      var k :| 0 <= k < |AllCodes| && AllCodes[k] == c;
      assert Permisos[k].codigo == c;
    }
  }

  /** The step of another role keeps a missing role missing, keeps roles
      and links sound and leaves the permissions alone. */
  lemma StepKeepsMissing(d: Db, plan: RolePlan, m: string)
    requires RolesSound(d.roles, d.nextRolId) && GrantsSound(d.grants, d.nextRolId)
    requires RolByNombre(d.roles, m).None? && m != plan.nombre
    ensures var d2 := WithRole(d, plan).0;
      && RolesSound(d2.roles, d2.nextRolId) && GrantsSound(d2.grants, d2.nextRolId)
      && RolByNombre(d2.roles, m).None?
      && d2.permisos == d.permisos && d2.nextPermisoId == d.nextPermisoId
  {
    RoleSound(d, plan);
    RoleFrame(d, plan);
    RoleOtherKept(d, plan, m);
  }

  /** The step of a missing role whose codes all exist creates it with
      exactly those codes and keeps roles and links sound. */
  lemma FreshStep(d: Db, plan: RolePlan)
    requires PermisosSound(d.permisos, d.nextPermisoId)
    requires RolesSound(d.roles, d.nextRolId) && GrantsSound(d.grants, d.nextRolId)
    requires forall c :: c in AllCodes ==> PermisoByCodigo(d.permisos, c).Some?
    requires forall c :: c in plan.codes ==> c in AllCodes
    requires RolByNombre(d.roles, plan.nombre).None?
    ensures var d2 := WithRole(d, plan).0;
      && RolByNombre(d2.roles, plan.nombre).Some?
      && GrantedCodes(d2, RolByNombre(d2.roles, plan.nombre).value.id) == (set c | c in plan.codes)
      && RolesSound(d2.roles, d2.nextRolId) && GrantsSound(d2.grants, d2.nextRolId)
  {
    FreshRoleExact(d, plan);
    RoleMade(d, plan);
    RoleSound(d, plan);
  }

  /** The codes of CARGA and of EDICION are among the eight. */
  lemma CargaCodes()
    ensures (forall c :: c in CargaPlan.codes ==> c in AllCodes)
    ensures (set c | c in CargaPlan.codes) == {"DOCUMENTO_CARGAR", "REPORTE_VER"}
  {
  }

  lemma EdicionCodes()
    ensures (forall c :: c in EdicionPlan.codes ==> c in AllCodes)
    ensures (set c | c in EdicionPlan.codes) == {"DOCUMENTO_CARGAR", "DOCUMENTO_EDITAR", "REPORTE_VER"}
  {
  }

  /** The roles step over sound tables with every code present and no
      ADMIN role: ADMIN ends up linked to exactly the eight codes. */
  lemma AdminRolesExact(d1: Db)
    requires PermisosSound(d1.permisos, d1.nextPermisoId)
    requires RolesSound(d1.roles, d1.nextRolId) && GrantsSound(d1.grants, d1.nextRolId)
    requires forall c :: c in AllCodes ==> PermisoByCodigo(d1.permisos, c).Some?
    requires RolByNombre(d1.roles, "ADMIN").None?
    ensures var d4 := WithRoles(d1).0;
      RolByNombre(d4.roles, "ADMIN").Some?
      && GrantedCodes(d4, RolByNombre(d4.roles, "ADMIN").value.id) == set c | c in AllCodes
  {
    var d2 := WithRole(d1, AdminPlan).0;
    FreshStep(d1, AdminPlan);
    LaterRoleKeeps(d2, CargaPlan, "ADMIN");
    LaterRoleKeeps(WithRole(d2, CargaPlan).0, EdicionPlan, "ADMIN");
  }

  lemma CargaRolesExact(d1: Db)
    requires PermisosSound(d1.permisos, d1.nextPermisoId)
    requires RolesSound(d1.roles, d1.nextRolId) && GrantsSound(d1.grants, d1.nextRolId)
    requires forall c :: c in AllCodes ==> PermisoByCodigo(d1.permisos, c).Some?
    requires RolByNombre(d1.roles, "CARGA").None?
    ensures var d4 := WithRoles(d1).0;
      RolByNombre(d4.roles, "CARGA").Some?
      && GrantedCodes(d4, RolByNombre(d4.roles, "CARGA").value.id) == {"DOCUMENTO_CARGAR", "REPORTE_VER"}
  {
    var d2 := WithRole(d1, AdminPlan).0;
    StepKeepsMissing(d1, AdminPlan, "CARGA");
    CargaCodes();
    FreshStep(d2, CargaPlan);
    LaterRoleKeeps(WithRole(d2, CargaPlan).0, EdicionPlan, "CARGA");
  }

  lemma EdicionRolesExact(d1: Db)
    requires PermisosSound(d1.permisos, d1.nextPermisoId)
    requires RolesSound(d1.roles, d1.nextRolId) && GrantsSound(d1.grants, d1.nextRolId)
    requires forall c :: c in AllCodes ==> PermisoByCodigo(d1.permisos, c).Some?
    requires RolByNombre(d1.roles, "EDICION").None?
    ensures var d4 := WithRoles(d1).0;
      RolByNombre(d4.roles, "EDICION").Some?
      && GrantedCodes(d4, RolByNombre(d4.roles, "EDICION").value.id)
         == {"DOCUMENTO_CARGAR", "DOCUMENTO_EDITAR", "REPORTE_VER"}
  {
    var d2 := WithRole(d1, AdminPlan).0;
    StepKeepsMissing(d1, AdminPlan, "EDICION");
    StepKeepsMissing(d2, CargaPlan, "EDICION");
    EdicionCodes();
    FreshStep(WithRole(d2, CargaPlan).0, EdicionPlan);
  }

  /** Run over a sound database with no ADMIN role yet, the script links
      ADMIN to exactly the eight codes. */
  lemma FreshAdminExact(db: Db, h: string, now: int)
    requires Sound(db) && RolByNombre(db.roles, "ADMIN").None?
    ensures var s := Seeded(db, h, now);
      RolByNombre(s.roles, "ADMIN").Some?
      && GrantedCodes(s, RolByNombre(s.roles, "ADMIN").value.id) == set c | c in AllCodes
  {
    var d1 := WithPermisos(db, Permisos);
    HeadSound(db);
    AdminRolesExact(d1);
    TailKeeps(WithRoles(d1).0, WithRoles(d1).1, h, now);
  }

  /** Run over a sound database with no CARGA role yet, the script links
      CARGA to exactly DOCUMENTO_CARGAR and REPORTE_VER. */
  lemma FreshCargaExact(db: Db, h: string, now: int)
    requires Sound(db) && RolByNombre(db.roles, "CARGA").None?
    ensures var s := Seeded(db, h, now);
      RolByNombre(s.roles, "CARGA").Some?
      && GrantedCodes(s, RolByNombre(s.roles, "CARGA").value.id) == {"DOCUMENTO_CARGAR", "REPORTE_VER"}
  {
    var d1 := WithPermisos(db, Permisos);
    HeadSound(db);
    CargaRolesExact(d1);
    TailKeeps(WithRoles(d1).0, WithRoles(d1).1, h, now);
  }

  /** Run over a sound database with no EDICION role yet, the script links
      EDICION to exactly DOCUMENTO_CARGAR, DOCUMENTO_EDITAR and REPORTE_VER. */
  lemma FreshEdicionExact(db: Db, h: string, now: int)
    requires Sound(db) && RolByNombre(db.roles, "EDICION").None?
    ensures var s := Seeded(db, h, now);
      RolByNombre(s.roles, "EDICION").Some?
      && GrantedCodes(s, RolByNombre(s.roles, "EDICION").value.id)
         == {"DOCUMENTO_CARGAR", "DOCUMENTO_EDITAR", "REPORTE_VER"}
  {
    var d1 := WithPermisos(db, Permisos);
    HeadSound(db);
    EdicionRolesExact(d1);
    TailKeeps(WithRoles(d1).0, WithRoles(d1).1, h, now);
  }

  /** After a run over a sound database the administrator is linked to
      ADMIN, and exactly once. */
  lemma AdminLinkedOnce(db: Db, h: string, now: int)
    requires Sound(db)
    ensures var s := Seeded(db, h, now);
      && FindUserByEmail(s.users, AdminEmail).Some? && RolByNombre(s.roles, "ADMIN").Some?
      && var link := UsuarioRol(FindUserByEmail(s.users, AdminEmail).value.id, RolByNombre(s.roles, "ADMIN").value.id);
         link in s.links && forall i, j :: 0 <= i < j < |s.links| && s.links[i] == link ==> s.links[j] != link
  {
    SeededDone(db, h, now);
    SeededSound(db, h, now);
  }
}
