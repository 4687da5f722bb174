// The administrative catalog service: create, update and soft delete with
// their guards, the name search, the availability of one catalog, and the
// walks over a nested catalog tree.
module CatalogosAdminService {
  import opened Common
  import opened Strings
  import opened Ordering
  import opened Schema
  import opened CatalogosRepository
  import opened Availability

  /** A catalog as the service returns it: the row plus, for a catalog that
      accepts documents, its availability records. */
  datatype CatalogoView = CatalogoView(catalogo: Catalogo, disponibilidad: Option<seq<Disponibilidad>>)

  /** `mapearCatalogoConDisponibilidad`: availability is attached only to a
      catalog that accepts documents and only when a map is supplied; a
      catalog missing from the map gets an empty list. */
  function MapCatalogo(c: Catalogo, m: Option<map<int, seq<Disponibilidad>>>): (r: CatalogoView)
    ensures r.catalogo == c
    ensures r.disponibilidad.Some? <==> c.permiteDocumentos && m.Some?
    ensures r.disponibilidad.Some? && c.id !in m.value ==> r.disponibilidad.value == []
  {
    CatalogoView(c,
      if c.permiteDocumentos && m.Some? then Some(if c.id in m.value then m.value[c.id] else []) else None)
  }

  /** Mapping a list of catalogs with the availability map computed from that
      same list gives every catalog that accepts documents one record per
      active document type. */
  lemma MappedCatalogHasEveryType(cs: seq<Catalogo>, tipos: seq<TipoDocumento>, docs: seq<Documento>, c: Catalogo)
    requires c in cs && c.permiteDocumentos
    ensures MapCatalogo(c, Some(AvailabilityMap(cs, tipos, docs))).disponibilidad
      == Some(AvailabilityMap(cs, tipos, docs)[c.id])
    ensures |AvailabilityMap(cs, tipos, docs)[c.id]| == |ActiveTypes(tipos)|
  {
    assert c in Permitting(cs);
    assert c.id in IdsOf(Permitting(cs));
    OneRecordPerActiveType(cs, tipos, docs, c.id);
  }

  // ---------------------------------------------------------------- create

  /** `CreateCatalogoDto`. `parentId` is already a number. */
  datatype CreateCatalogoDto = CreateCatalogoDto(
    nombre: string,
    descripcion: Option<string>,
    parentId: Option<int>,
    orden: Option<int>,
    permiteDocumentos: Option<bool>,
    activo: Option<bool>)

  /** The level of a new catalog: 0 without a (truthy) parent id, one below
      the parent otherwise; a parent id that names no row is NotFound. */
  function CreateNivel(rows: seq<Catalogo>, parentId: Option<int>): (r: Result<int>)
    ensures !TruthyId(parentId) ==> r == Ok(0)
    ensures TruthyId(parentId) ==>
      (r.Err? <==> forall p :: p in rows ==> p.id != parentId.value)
    ensures TruthyId(parentId) && r.Ok? ==>
      exists p :: p in rows && p.id == parentId.value && r.value == p.nivel + 1
    ensures r.Err? ==> r.error == NotFound
  {
    if TruthyId(parentId) then
      match FindCatalogo(rows, parentId.value)
      case None => Err(NotFound)
      case Some(parent) => Ok(parent.nivel + 1)
    else Ok(0)
  }

  /** The row `create` inserts. Omitted `orden`, `permite_documentos` and
      `activo` take the column defaults 0, true and true; a falsy parent id
      connects no parent. */
  function NewCatalogo(dto: CreateCatalogoDto, nivel: int, id: int, userId: int, now: int): Catalogo
  {
    Catalogo(id, dto.nombre, dto.descripcion,
      if TruthyId(dto.parentId) then dto.parentId else None,
      nivel, Coalesce(dto.orden, 0), Coalesce(dto.activo, true), Coalesce(dto.permiteDocumentos, true),
      now, Some(userId), None)
  }

  /** `create`: the parent is looked up before anything is written; the new
      row gets the id the database assigns (`newId`). */
  method Create(table: CatalogTable, dto: CreateCatalogoDto, userId: int, newId: int, now: int)
    returns (r: Result<Catalogo>)
    requires table.Valid()
    requires FindCatalogo(table.rows, newId).None?
    modifies table
    ensures table.Valid()
    ensures CreateNivel(old(table.rows), dto.parentId).Err? ==>
      r == Err(NotFound) && table.rows == old(table.rows)
    ensures CreateNivel(old(table.rows), dto.parentId).Ok? ==>
      r == Ok(NewCatalogo(dto, CreateNivel(old(table.rows), dto.parentId).value, newId, userId, now))
      && table.rows == old(table.rows) + [r.value]
  {
    var nivel := CreateNivel(table.rows, dto.parentId);
    if nivel.Err? {
      return Err(NotFound);
    }
    var c := NewCatalogo(dto, nivel.value, newId, userId, now);
    table.Insert(c);
    r := Ok(c);
  }

  /** Every parent id names a row, roots are at level 0 and every other row
      is one level below its parent. */
  ghost predicate NivelConsistent(rows: seq<Catalogo>)
  {
    forall i :: 0 <= i < |rows| ==>
      (rows[i].parentId.None? ==> rows[i].nivel == 0)
      && (rows[i].parentId.Some? ==>
            exists j :: 0 <= j < |rows| && rows[j].id == rows[i].parentId.value
                        && rows[i].nivel == rows[j].nivel + 1)
  }

  /** `create` keeps the levels consistent. */
  lemma CreateKeepsNivelConsistent(rows: seq<Catalogo>, dto: CreateCatalogoDto, newId: int, userId: int, now: int)
    requires UniqueCatalogIds(rows) && NivelConsistent(rows)
    requires CreateNivel(rows, dto.parentId).Ok?
    ensures NivelConsistent(rows + [NewCatalogo(dto, CreateNivel(rows, dto.parentId).value, newId, userId, now)])
  {
    var c := NewCatalogo(dto, CreateNivel(rows, dto.parentId).value, newId, userId, now);
    NewRowPlaced(rows, dto, c);
    AppendKeepsNivelConsistent(rows, c);
  }

  /** The new row is a root at level 0 or one level below an existing row. */
  lemma NewRowPlaced(rows: seq<Catalogo>, dto: CreateCatalogoDto, c: Catalogo)
    requires CreateNivel(rows, dto.parentId).Ok?
    requires c.parentId == (if TruthyId(dto.parentId) then dto.parentId else None)
    requires c.nivel == CreateNivel(rows, dto.parentId).value
    ensures c.parentId.None? ==> c.nivel == 0
    ensures c.parentId.Some? ==>
      exists j :: 0 <= j < |rows| && rows[j].id == c.parentId.value && c.nivel == rows[j].nivel + 1
  {
    if c.parentId.Some? {
      var p :| p in rows && p.id == dto.parentId.value && c.nivel == p.nivel + 1;
      var j :| 0 <= j < |rows| && rows[j] == p;
    }
  }

  /** Appending a row placed that way keeps the levels consistent. */
  lemma AppendKeepsNivelConsistent(rows: seq<Catalogo>, c: Catalogo)
    requires NivelConsistent(rows)
    requires c.parentId.None? ==> c.nivel == 0
    requires c.parentId.Some? ==>
      exists j :: 0 <= j < |rows| && rows[j].id == c.parentId.value && c.nivel == rows[j].nivel + 1
    ensures NivelConsistent(rows + [c])
  {
    var after := rows + [c];
    forall i | 0 <= i < |after| && after[i].parentId.Some?
      ensures exists j :: 0 <= j < |after| && after[j].id == after[i].parentId.value
                          && after[i].nivel == after[j].nivel + 1
    {
      if i < |rows| {
        var j :| 0 <= j < |rows| && rows[j].id == rows[i].parentId.value && rows[i].nivel == rows[j].nivel + 1;
        assert after[j] == rows[j];
      } else {
        var j :| 0 <= j < |rows| && rows[j].id == c.parentId.value && c.nivel == rows[j].nivel + 1;
        assert after[j] == rows[j];
      }
    }
  }

  // ---------------------------------------------------------------- update

  /** What `update` does with `parent_id`: undefined keeps the parent, null
      detaches it, a number attaches that parent. */
  datatype ParentChange = Keep | Detach | Attach(parentId: int)

  /** `UpdateCatalogoDto`: every field optional. */
  datatype UpdateCatalogoDto = UpdateCatalogoDto(
    nombre: Option<string>,
    descripcion: Option<string>,
    parent: ParentChange,
    orden: Option<int>,
    permiteDocumentos: Option<bool>,
    activo: Option<bool>)

  /** The level after an update: unchanged when the parent is kept, 0 when it
      is detached, one below the new parent when attached; a new parent
      that names no row is NotFound. Only existence is checked: an inactive
      parent, the row itself or one of its descendants is accepted. */
  function ReparentNivel(rows: seq<Catalogo>, current: Catalogo, change: ParentChange): (r: Result<int>)
    ensures change == Keep ==> r == Ok(current.nivel)
    ensures change == Detach ==> r == Ok(0)
    ensures change.Attach? ==>
      (r.Err? <==> forall p :: p in rows ==> p.id != change.parentId)
    ensures change.Attach? && r.Ok? ==>
      exists p :: p in rows && p.id == change.parentId && r.value == p.nivel + 1
    ensures r.Err? ==> r.error == NotFound
  {
    match change
    case Keep => Ok(current.nivel)
    case Detach => Ok(0)
    case Attach(p) =>
      match FindCatalogo(rows, p)
      case None => Err(NotFound)
      case Some(parent) => Ok(parent.nivel + 1)
  }

  /** The row after an update: given fields replace stored ones, the level
      and modifying user are always written, the parent as `change` says. */
  function Updated(c: Catalogo, dto: UpdateCatalogoDto, nivel: int, userId: int): Catalogo
  {
    c.(nombre := Patch(c.nombre, dto.nombre),
       descripcion := if dto.descripcion.Some? then dto.descripcion else c.descripcion,
       parentId := match dto.parent
                   case Keep => c.parentId
                   case Detach => None
                   case Attach(p) => Some(p),
       nivel := nivel,
       orden := Patch(c.orden, dto.orden),
       permiteDocumentos := Patch(c.permiteDocumentos, dto.permiteDocumentos),
       activo := Patch(c.activo, dto.activo),
       usuarioModifId := Some(userId))
  }

  /** `update`: NotFound for a missing catalog or a missing new parent, both
      before any write; otherwise only the target row changes. */
  method Update(table: CatalogTable, id: int, dto: UpdateCatalogoDto, userId: int) returns (r: Result<Catalogo>)
    requires table.Valid()
    modifies table
    ensures table.Valid()
    ensures FindCatalogo(old(table.rows), id).None? ==> r == Err(NotFound) && table.rows == old(table.rows)
    ensures FindCatalogo(old(table.rows), id).Some? ==>
      var nivel := ReparentNivel(old(table.rows), FindCatalogo(old(table.rows), id).value, dto.parent);
      (nivel.Err? ==> r == Err(NotFound) && table.rows == old(table.rows))
      && (nivel.Ok? ==>
            r == Ok(Updated(FindCatalogo(old(table.rows), id).value, dto, nivel.value, userId))
            && RowUpdated(old(table.rows), table.rows, id, (c: Catalogo) => Updated(c, dto, nivel.value, userId)))
  {
    var catalogo := FindCatalogo(table.rows, id);
    if catalogo.None? {
      return Err(NotFound);
    }
    var nivel := ReparentNivel(table.rows, catalogo.value, dto.parent);
    if nivel.Err? {
      return Err(NotFound);
    }
    var n := nivel.value;
    r := table.UpdateRow(id, (c: Catalogo) => Updated(c, dto, n, userId));
  }

  /** Moving a catalog recomputes its own level only: with roots 1 and 2 and
      3 a child of 2, attaching 2 under 1 leaves 3 at level 1 under a parent
      at level 1. */
  lemma UpdateLeavesDescendantLevels(a: Catalogo, b: Catalogo, c: Catalogo, userId: int)
    requires a.id == 1 && a.parentId.None? && a.nivel == 0
    requires b.id == 2 && b.parentId.None? && b.nivel == 0
    requires c.id == 3 && c.parentId == Some(2) && c.nivel == 1
    ensures NivelConsistent([a, b, c])
    ensures ReparentNivel([a, b, c], b, Attach(1)) == Ok(1)
    ensures !NivelConsistent([a, Updated(b, UpdateCatalogoDto(None, None, Attach(1), None, None, None), 1, userId), c])
  {
    var rows := [a, b, c];
    assert rows[2].parentId == Some(2) && rows[1].id == 2;
    assert rows[0] == a;
    var after := [a, Updated(b, UpdateCatalogoDto(None, None, Attach(1), None, None, None), 1, userId), c];
    assert after[2].parentId == Some(2);
  }

  /** A catalog can be made its own parent: the lookup only asks that the
      parent exists, and it does. */
  lemma UpdateAcceptsSelfParent(rows: seq<Catalogo>, c: Catalogo, dto: UpdateCatalogoDto, userId: int)
    requires c in rows && dto.parent == Attach(c.id)
    ensures ReparentNivel(rows, c, dto.parent).Ok?
    ensures Updated(c, dto, ReparentNivel(rows, c, dto.parent).value, userId).parentId == Some(c.id)
  {
  }

  // ---------------------------------------------------------------- remove

  /** The guards of `remove`, in order: the catalog must exist, then have no
      active children, then no active documents. */
  function RemoveCheck(rows: seq<Catalogo>, docs: seq<Documento>, id: int): (r: Result<Catalogo>)
    ensures r.Ok? <==>
      (exists c :: c in rows && c.id == id)
      && (forall c :: c in rows && c.parentId == Some(id) ==> !c.activo)
      && (forall d :: d in docs && d.catalogoId == id ==> !d.activo)
    ensures (forall c :: c in rows ==> c.id != id) ==> r == Err(NotFound)
    ensures ((exists c :: c in rows && c.id == id)
             && (exists c :: c in rows && c.parentId == Some(id) && c.activo)) ==>
      r == Err(BadRequest("children"))
    ensures r.Ok? ==> r.value in rows && r.value.id == id
  {
    HasDocumentsIff(docs, id);
    if FindCatalogo(rows, id).None? then Err(NotFound)
    else if |FindChildren(rows, id)| > 0 then
      assert FindChildren(rows, id)[0] in FindChildren(rows, id);
      Err(BadRequest("children"))
    else if HasDocuments(docs, id) then Err(BadRequest("documents"))
    else Ok(FindCatalogo(rows, id).value)
  }

  /** `remove`: after the guards, a soft delete of that row alone. */
  method Remove(table: CatalogTable, docs: seq<Documento>, id: int) returns (r: Result<Catalogo>)
    requires table.Valid()
    modifies table
    ensures table.Valid()
    ensures RemoveCheck(old(table.rows), docs, id).Err? ==>
      r == RemoveCheck(old(table.rows), docs, id) && table.rows == old(table.rows)
    ensures RemoveCheck(old(table.rows), docs, id).Ok? ==>
      r == Ok(RemoveCheck(old(table.rows), docs, id).value.(activo := false))
      && RowUpdated(old(table.rows), table.rows, id, (c: Catalogo) => c.(activo := false))
  {
    var check := RemoveCheck(table.rows, docs, id);
    if check.Err? {
      return check;
    }
    r := table.Delete(id);
  }

  /** Every active catalog with a parent has an active parent row. */
  ghost predicate ActiveParents(rows: seq<Catalogo>)
  {
    forall i :: 0 <= i < |rows| && rows[i].activo && rows[i].parentId.Some? ==>
      exists j :: 0 <= j < |rows| && rows[j].id == rows[i].parentId.value && rows[j].activo
  }

  /** Because `remove` refuses a catalog with active children, it never
      leaves an active catalog under an inactive parent. */
  lemma RemoveKeepsActiveParents(before: seq<Catalogo>, after: seq<Catalogo>, docs: seq<Documento>, id: int)
    requires ActiveParents(before)
    requires RemoveCheck(before, docs, id).Ok?
    requires RowUpdated(before, after, id, (c: Catalogo) => c.(activo := false))
    ensures ActiveParents(after)
  {
    forall i | 0 <= i < |after| && after[i].activo && after[i].parentId.Some?
      ensures exists j :: 0 <= j < |after| && after[j].id == after[i].parentId.value && after[j].activo
    {
      assert before[i].id != id && after[i] == before[i];
      assert before[i] in before;
      var j :| 0 <= j < |before| && before[j].id == before[i].parentId.value && before[j].activo;
      assert before[j].id != id;
      assert after[j] == before[j];
    }
  }

  // ---------------------------------------------------------------- search

  /** `searchByName`: a missing or empty name, or one shorter than two
      characters once trimmed, is BadRequest; otherwise the repository
      search with the trimmed name. */
  function SearchByNameService(rows: seq<Catalogo>, name: Option<string>): (r: Result<seq<Catalogo>>)
    ensures r.Ok? <==> name.Some? && |Trim(name.value)| >= 2
    ensures r.Ok? ==> forall c :: c in r.value <==> c in rows && c.activo && Contains(c.nombre, Trim(name.value))
    ensures r.Ok? ==> SortedBy(r.value, NivelOrdenNombre) && multiset(r.value) <= multiset(rows)
    ensures r.Ok? ==> r.value == SearchByName(rows, Trim(name.value))
    ensures r.Err? ==> r.error.BadRequest?
  {
    if !TruthyStr(name) || |Trim(name.value)| < 2 then Err(BadRequest("term"))
    else Ok(SearchByName(rows, Trim(name.value)))
  }

  // ---------------------------------------------------- one catalog's types

  /** The answer of `findDocumentAvailability`. */
  datatype AvailabilityView = AvailabilityView(id: int, nombre: string, permiteDocumentos: bool,
                                               disponibilidadTiposDocumento: seq<Disponibilidad>)

  /** `findDocumentAvailability`: NotFound for a missing id (an inactive
      catalog is found); otherwise the stored catalog's name and flag with
      the records of that one catalog, empty when it does not accept
      documents. A record is available exactly when an active document of
      the catalog has its type, and then names the newest such document. */
  function FindDocumentAvailability(rows: seq<Catalogo>, tipos: seq<TipoDocumento>, docs: seq<Documento>, id: int)
    : (r: Result<AvailabilityView>)
    ensures r.Err? <==> forall c :: c in rows ==> c.id != id
    ensures r.Err? ==> r.error == NotFound
    ensures r.Ok? ==>
      FindCatalogo(rows, id).Some? && r.value.id == id
      && r.value.nombre == FindCatalogo(rows, id).value.nombre
      && r.value.permiteDocumentos == FindCatalogo(rows, id).value.permiteDocumentos
    ensures r.Ok? && !r.value.permiteDocumentos ==> r.value.disponibilidadTiposDocumento == []
    ensures r.Ok? && r.value.permiteDocumentos ==>
      r.value.disponibilidadTiposDocumento == AvailabilityMap([FindCatalogo(rows, id).value], tipos, docs)[id]
    ensures r.Ok? && r.value.permiteDocumentos ==> |r.value.disponibilidadTiposDocumento| == |ActiveTypes(tipos)|
    ensures r.Ok? && r.value.permiteDocumentos ==>
      forall i :: 0 <= i < |ActiveTypes(tipos)| ==>
        r.value.disponibilidadTiposDocumento[i].tipoDocumentoId == ActiveTypes(tipos)[i].id
        && (r.value.disponibilidadTiposDocumento[i].disponible <==>
            exists d :: d in docs && d.activo && OfType(d, id, ActiveTypes(tipos)[i].id))
    ensures r.Ok? && r.value.permiteDocumentos ==>
      forall i :: 0 <= i < |ActiveTypes(tipos)| && r.value.disponibilidadTiposDocumento[i].disponible ==>
        exists d :: d in docs && d.activo && OfType(d, id, ActiveTypes(tipos)[i].id)
          && r.value.disponibilidadTiposDocumento[i].documentoId == Some(IntToString(d.id))
          && forall e :: e in docs && e.activo && OfType(e, id, ActiveTypes(tipos)[i].id) ==>
               e.fechaCreacion <= d.fechaCreacion
  {
    match FindCatalogo(rows, id)
    case None => Err(NotFound)
    case Some(c) =>
      var m := AvailabilityMap([c], tipos, docs);
      SingleCatalogAvailability(c, tipos, docs);
      if c.permiteDocumentos then
        SingleCatalogRecords(c, tipos, docs);
        Ok(AvailabilityView(c.id, c.nombre, c.permiteDocumentos, m[c.id]))
      else
        Ok(AvailabilityView(c.id, c.nombre, c.permiteDocumentos, []))
  }

  /** The records of one accepting catalog, through `AvailableIff` and
      `NewestDocumentWins`. */
  lemma SingleCatalogRecords(c: Catalogo, tipos: seq<TipoDocumento>, docs: seq<Documento>)
    requires c.permiteDocumentos
    ensures c.id in AvailabilityMap([c], tipos, docs)
    ensures forall i :: 0 <= i < |ActiveTypes(tipos)| ==>
      AvailabilityMap([c], tipos, docs)[c.id][i].tipoDocumentoId == ActiveTypes(tipos)[i].id
      && (AvailabilityMap([c], tipos, docs)[c.id][i].disponible <==>
          exists d :: d in docs && d.activo && OfType(d, c.id, ActiveTypes(tipos)[i].id))
    ensures forall i :: 0 <= i < |ActiveTypes(tipos)| && AvailabilityMap([c], tipos, docs)[c.id][i].disponible ==>
      exists d :: d in docs && d.activo && OfType(d, c.id, ActiveTypes(tipos)[i].id)
        && AvailabilityMap([c], tipos, docs)[c.id][i].documentoId == Some(IntToString(d.id))
        && forall e :: e in docs && e.activo && OfType(e, c.id, ActiveTypes(tipos)[i].id) ==>
             e.fechaCreacion <= d.fechaCreacion
  {
    SingleCatalogAvailability(c, tipos, docs);
    OneRecordPerActiveType([c], tipos, docs, c.id);
    forall i | 0 <= i < |ActiveTypes(tipos)|
      ensures AvailabilityMap([c], tipos, docs)[c.id][i].disponible <==>
        exists d :: d in docs && d.activo && OfType(d, c.id, ActiveTypes(tipos)[i].id)
    {
      AvailableIff([c], tipos, docs, c.id, i);
    }
    forall i | 0 <= i < |ActiveTypes(tipos)| && AvailabilityMap([c], tipos, docs)[c.id][i].disponible
      ensures exists d ::
        d in docs && d.activo && OfType(d, c.id, ActiveTypes(tipos)[i].id)
        && AvailabilityMap([c], tipos, docs)[c.id][i].documentoId == Some(IntToString(d.id))
        && forall e :: e in docs && e.activo && OfType(e, c.id, ActiveTypes(tipos)[i].id) ==>
             e.fechaCreacion <= d.fechaCreacion
    {
      NewestDocumentWins([c], tipos, docs, c.id, i);
    }
  }

  lemma SingleCatalogAvailability(c: Catalogo, tipos: seq<TipoDocumento>, docs: seq<Documento>)
    ensures c.permiteDocumentos ==>
      c.id in AvailabilityMap([c], tipos, docs)
      && |AvailabilityMap([c], tipos, docs)[c.id]| == |ActiveTypes(tipos)|
    ensures !c.permiteDocumentos ==> AvailabilityMap([c], tipos, docs) == map[]
  {
    if c.permiteDocumentos {
      assert c in Permitting([c]);
      OneRecordPerActiveType([c], tipos, docs, c.id);
    } else {
      assert Permitting([c]) == [];
    }
  }

  // ------------------------------------------------------------ tree walks

  /** The catalogs that accept documents, in preorder: a node before its
      children, siblings in order. */
  function PermittingPreorder(ts: seq<CatalogTree>): seq<Catalogo>
    decreases ts
  {
    if ts == [] then [] else PermittingPreorder(ts[..|ts| - 1]) + NodePreorder(ts[|ts| - 1])
  }

  function NodePreorder(t: CatalogTree): seq<Catalogo>
    decreases t
  {
    (if t.catalogo.permiteDocumentos then [t.catalogo] else []) + PermittingPreorder(t.children)
  }

  predicate InForest(c: Catalogo, ts: seq<CatalogTree>)
    decreases ts
  {
    ts != [] && (InForest(c, ts[..|ts| - 1]) || InTree(c, ts[|ts| - 1]))
  }

  /** `c` is the catalog of `t` or of a node reached through `children`. */
  predicate InTree(c: Catalogo, t: CatalogTree)
    decreases t
  {
    t.catalogo == c || InForest(c, t.children)
  }

  /** The walk collects exactly the catalogs that accept documents found
      anywhere in the forest. */
  lemma {:induction false} PreorderMembers(ts: seq<CatalogTree>, c: Catalogo)
    ensures c in PermittingPreorder(ts) <==> c.permiteDocumentos && InForest(c, ts)
    decreases ts
  {
    if ts != [] {
      PreorderMembers(ts[..|ts| - 1], c);
      NodePreorderMembers(ts[|ts| - 1], c);
    }
  }

  lemma {:induction false} NodePreorderMembers(t: CatalogTree, c: Catalogo)
    ensures c in NodePreorder(t) <==> c.permiteDocumentos && InTree(c, t)
    decreases t
  {
    PreorderMembers(t.children, c);
  }

  /** The result list the recursive closure pushes into. */
  class Collector {
    var result: seq<Catalogo>

    constructor ()
      ensures result == []
    {
      result := [];
    }

    /** `procesarCatalogo`: push the node if it accepts documents, then
        process its children in order. */
    method Procesar(t: CatalogTree)
      modifies this
      ensures result == old(result) + NodePreorder(t)
      decreases t
    {
      if t.catalogo.permiteDocumentos {
        result := result + [t.catalogo];
      }
      ghost var start := result;
      for i := 0 to |t.children|
        invariant result == start + PermittingPreorder(t.children[..i])
      {
        assert t.children[..i + 1][..i] == t.children[..i];
        Procesar(t.children[i]);
      }
      assert t.children[..|t.children|] == t.children;
    }
  }

  /** `obtenerCatalogosConDocumentosRecursivamente` */
  method ObtenerCatalogosConDocumentos(catalogos: seq<CatalogTree>) returns (r: seq<Catalogo>)
    ensures r == PermittingPreorder(catalogos)
  {
    var collector := new Collector();
    for i := 0 to |catalogos|
      invariant collector.result == PermittingPreorder(catalogos[..i])
    {
      assert catalogos[..i + 1][..i] == catalogos[..i];
      collector.Procesar(catalogos[i]);
    }
    assert catalogos[..|catalogos|] == catalogos;
    r := collector.result;
  }

  /** A node of the mapped tree. */
  datatype ViewTree = ViewNode(view: CatalogoView, children: seq<ViewTree>)

  /** `mapearCatalogoConDisponibilidadRecursivamente` */
  function MapTree(t: CatalogTree, m: map<int, seq<Disponibilidad>>): ViewTree
    decreases t
  {
    ViewNode(MapCatalogo(t.catalogo, Some(m)),
      seq(|t.children|, i requires 0 <= i < |t.children| => MapTree(t.children[i], m)))
  }

  /** Dropping the views gives back the catalog tree. */
  function Strip(v: ViewTree): CatalogTree
    decreases v
  {
    Node(v.view.catalogo, seq(|v.children|, i requires 0 <= i < |v.children| => Strip(v.children[i])))
  }

  /** Mapping keeps the tree's shape and catalogs. */
  lemma {:induction false} StripMapTree(t: CatalogTree, m: map<int, seq<Disponibilidad>>)
    ensures Strip(MapTree(t, m)) == t
    decreases t
  {
    var v := MapTree(t, m);
    forall i | 0 <= i < |t.children| ensures Strip(v.children[i]) == t.children[i] {
      StripMapTree(t.children[i], m);
    }
    assert Strip(v).children == t.children;
  }

  /** Every node of the mapped tree carries availability exactly when its
      catalog accepts documents. */
  predicate ViewsAgree(v: ViewTree)
    decreases v
  {
    (v.view.disponibilidad.Some? <==> v.view.catalogo.permiteDocumentos)
    && forall i :: 0 <= i < |v.children| ==> ViewsAgree(v.children[i])
  }

  lemma {:induction false} MapTreeViewsAgree(t: CatalogTree, m: map<int, seq<Disponibilidad>>)
    ensures ViewsAgree(MapTree(t, m))
    decreases t
  {
    forall i | 0 <= i < |t.children| ensures ViewsAgree(MapTree(t, m).children[i]) {
      MapTreeViewsAgree(t.children[i], m);
    }
  }
}
