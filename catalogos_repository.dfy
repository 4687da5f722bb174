// The catalog repository: the queries over the catalog table and the
// in-place row updates (`delete`, `updateNivel`, `updateOrden`, `update`,
// `create`).
module CatalogosRepository {
  import opened Common
  import opened Strings
  import opened Ordering
  import opened Schema

  /** `orderBy: [{ orden: 'asc' }, { nombre: 'asc' }]` */
  function OrdenNombre(c: Catalogo): Key
  {
    Key(c.orden, 0, c.nombre)
  }

  /** `orderBy: [{ nivel: 'asc' }, { orden: 'asc' }, { nombre: 'asc' }]` */
  function NivelOrdenNombre(c: Catalogo): Key
  {
    Key(c.nivel, c.orden, c.nombre)
  }

  /** Active rows with a null parent, by (orden, nombre). */
  function FindRootCatalogs(rows: seq<Catalogo>): (r: seq<Catalogo>)
    ensures forall c :: c in r <==> c in rows && c.parentId.None? && c.activo
    ensures SortedBy(r, OrdenNombre)
    ensures multiset(r) <= multiset(rows)
  {
    var matching := Filter(rows, (c: Catalogo) => c.parentId.None? && c.activo);
    SortByKeySorted(matching, OrdenNombre);
    SortByKey(matching, OrdenNombre)
  }

  /** Active rows whose parent is `parentId`, by (orden, nombre). */
  function FindChildren(rows: seq<Catalogo>, parentId: int): (r: seq<Catalogo>)
    ensures forall c :: c in r <==> c in rows && c.parentId == Some(parentId) && c.activo
    ensures SortedBy(r, OrdenNombre)
    ensures multiset(r) <= multiset(rows)
  {
    var matching := Filter(rows, (c: Catalogo) => c.parentId == Some(parentId) && c.activo);
    SortByKeySorted(matching, OrdenNombre);
    SortByKey(matching, OrdenNombre)
  }

  /** Active rows whose name contains the term, by (nivel, orden, nombre). */
  function SearchByName(rows: seq<Catalogo>, term: string): (r: seq<Catalogo>)
    ensures forall c :: c in r <==> c in rows && Contains(c.nombre, term) && c.activo
    ensures SortedBy(r, NivelOrdenNombre)
    ensures multiset(r) <= multiset(rows)
  {
    var matching := Filter(rows, (c: Catalogo) => Contains(c.nombre, term) && c.activo);
    SortByKeySorted(matching, NivelOrdenNombre);
    SortByKey(matching, NivelOrdenNombre)
  }

  /** Whether some active document belongs to catalog `id`. */
  predicate HasDocuments(docs: seq<Documento>, id: int)
  {
    Count(docs, (d: Documento) => d.catalogoId == id && d.activo) > 0
  }

  lemma HasDocumentsIff(docs: seq<Documento>, id: int)
    ensures HasDocuments(docs, id) <==> exists d :: d in docs && d.catalogoId == id && d.activo
  {
    var f := Filter(docs, (d: Documento) => d.catalogoId == id && d.activo);
    if |f| > 0 {
      assert f[0] in f;
    }
  }

  /** A node of the nested structure `findTree` returns. */
  datatype CatalogTree = Node(catalogo: Catalogo, children: seq<CatalogTree>)

  /** One level of `findTree`: roots for a falsy parent id, the active
      children otherwise. */
  function TreeLevel(rows: seq<Catalogo>, parentId: Option<int>): seq<Catalogo>
  {
    if TruthyId(parentId) then FindChildren(rows, parentId.value) else FindRootCatalogs(rows)
  }

  /** `findTree(parentId)`. `findTree` recurses without a depth bound and
      finishes only on acyclic parent data; `fuel` is the recursion depth
      left, and a node reached with no fuel is returned without children. */
  function FindTree(rows: seq<Catalogo>, parentId: Option<int>, fuel: nat): seq<CatalogTree>
    decreases fuel
  {
    var level := TreeLevel(rows, parentId);
    seq(|level|, i requires 0 <= i < |level| =>
      Node(level[i], if fuel == 0 then [] else FindTree(rows, Some(level[i].id), fuel - 1)))
  }

  /** The nodes `findTree` returns are the catalogs of that level, in query
      order, and each node's children are `findTree` of the node's id. */
  lemma FindTreeNodes(rows: seq<Catalogo>, parentId: Option<int>, fuel: nat)
    ensures |FindTree(rows, parentId, fuel)| == |TreeLevel(rows, parentId)|
    ensures forall i :: 0 <= i < |TreeLevel(rows, parentId)| ==>
      FindTree(rows, parentId, fuel)[i].catalogo == TreeLevel(rows, parentId)[i]
      && (fuel > 0 ==> FindTree(rows, parentId, fuel)[i].children
                       == FindTree(rows, Some(TreeLevel(rows, parentId)[i].id), fuel - 1))
  {
  }

  /** The falsy parent ids `undefined` and `0` both select the roots. */
  lemma FindTreeFalsyParent(rows: seq<Catalogo>, fuel: nat)
    ensures FindTree(rows, None, fuel) == FindTree(rows, Some(0), fuel)
    ensures forall i :: 0 <= i < |FindTree(rows, None, fuel)| ==>
      FindTree(rows, None, fuel)[i].catalogo.parentId.None?
      && FindTree(rows, None, fuel)[i].catalogo.activo
  {
    FindTreeNodes(rows, None, fuel);
    forall i | 0 <= i < |FindTree(rows, None, fuel)|
      ensures FindTree(rows, None, fuel)[i].catalogo in FindRootCatalogs(rows)
    {
    }
  }

  /** On cyclic parent data the recursion never bottoms out: for an active
      catalog that is its own parent, `findTree(c.id)` has a node whose
      children are `findTree(c.id)` again, so the unbounded
      recursion calls itself with the same argument forever. */
  lemma SelfParentRecursesOnItself(rows: seq<Catalogo>, c: Catalogo, fuel: nat)
    requires c in rows && c.activo && c.parentId == Some(c.id) && c.id != 0
    ensures Node(c, FindTree(rows, Some(c.id), fuel)) in FindTree(rows, Some(c.id), fuel + 1)
  {
    var level := TreeLevel(rows, Some(c.id));
    assert c in level;
    var i :| 0 <= i < |level| && level[i] == c;
    FindTreeNodes(rows, Some(c.id), fuel + 1);
    assert FindTree(rows, Some(c.id), fuel + 1)[i] == Node(c, FindTree(rows, Some(c.id), fuel));
  }

  /** The catalog table, updated in place by the repository. */
  class CatalogTable {
    var rows: seq<Catalogo>

    ghost predicate Valid()
      reads this
    {
      UniqueCatalogIds(rows)
    }

    constructor (initial: seq<Catalogo>)
      requires UniqueCatalogIds(initial)
      ensures Valid() && rows == initial
    {
      rows := initial;
    }

    /** `prisma.catalogo.update({ where: { id }, data })`: the row with that
        id is replaced by `f` of it; a missing id writes nothing and is
        answered NotFound here. Prisma raises P2025 there, which the
        global filter answers with a 500; every service checks the id first,
        so no service call reaches this branch. */
    method UpdateRow(id: int, f: Catalogo -> Catalogo) returns (r: Result<Catalogo>)
      requires Valid()
      requires forall c :: f(c).id == c.id
      modifies this
      ensures Valid()
      ensures FindCatalogo(old(rows), id).None? ==> r == Err(NotFound) && rows == old(rows)
      ensures FindCatalogo(old(rows), id).Some? ==>
        r == Ok(f(FindCatalogo(old(rows), id).value)) && RowUpdated(old(rows), rows, id, f)
    {
      var found := FindCatalogo(rows, id);
      if found.None? {
        return Err(NotFound);
      }
      var k := CatalogIndex(rows, id);
      var before := rows;
      rows := rows[k := f(rows[k])];
      forall i | 0 <= i < |before| && i != k ensures before[i].id != id {
        if i < k { assert before[i].id != before[k].id; } else { assert before[k].id != before[i].id; }
      }
      r := Ok(f(before[k]));
    }

    /** `delete`: a soft delete that only clears `activo`. */
    method Delete(id: int) returns (r: Result<Catalogo>)
      requires Valid()
      modifies this
      ensures Valid()
      ensures FindCatalogo(old(rows), id).None? ==> r == Err(NotFound) && rows == old(rows)
      ensures FindCatalogo(old(rows), id).Some? ==>
        r == Ok(FindCatalogo(old(rows), id).value.(activo := false))
        && RowUpdated(old(rows), rows, id, (c: Catalogo) => c.(activo := false))
    {
      r := UpdateRow(id, (c: Catalogo) => c.(activo := false));
    }

    /** `updateNivel`: only `nivel` changes. */
    method UpdateNivel(id: int, nivel: int) returns (r: Result<Catalogo>)
      requires Valid()
      modifies this
      ensures Valid()
      ensures FindCatalogo(old(rows), id).None? ==> r == Err(NotFound) && rows == old(rows)
      ensures FindCatalogo(old(rows), id).Some? ==>
        RowUpdated(old(rows), rows, id, (c: Catalogo) => c.(nivel := nivel))
    {
      r := UpdateRow(id, (c: Catalogo) => c.(nivel := nivel));
    }

    /** `updateOrden`: only `orden` changes. */
    method UpdateOrden(id: int, orden: int) returns (r: Result<Catalogo>)
      requires Valid()
      modifies this
      ensures Valid()
      ensures FindCatalogo(old(rows), id).None? ==> r == Err(NotFound) && rows == old(rows)
      ensures FindCatalogo(old(rows), id).Some? ==>
        RowUpdated(old(rows), rows, id, (c: Catalogo) => c.(orden := orden))
    {
      r := UpdateRow(id, (c: Catalogo) => c.(orden := orden));
    }

    /** `create`: the new row gets a fresh id. */
    method Insert(c: Catalogo)
      requires Valid()
      requires FindCatalogo(rows, c.id).None?
      modifies this
      ensures Valid()
      ensures rows == old(rows) + [c]
    {
      rows := rows + [c];
    }
  }

  /** `after` is `before` with the row whose id is `id` replaced by `f` of it
      and every other row as it was. */
  ghost predicate RowUpdated(before: seq<Catalogo>, after: seq<Catalogo>, id: int, f: Catalogo -> Catalogo)
  {
    |after| == |before|
    && forall i :: 0 <= i < |before| ==>
      after[i] == if before[i].id == id then f(before[i]) else before[i]
  }

  /** A soft delete keeps the row and every other column: the catalog simply
      drops out of every query that asks for active rows. */
  lemma DeleteHidesFromQueries(before: seq<Catalogo>, after: seq<Catalogo>, id: int, p: int)
    requires RowUpdated(before, after, id, (c: Catalogo) => c.(activo := false))
    ensures forall c :: c in FindChildren(after, p) ==> c.id != id
    ensures forall c :: c in FindRootCatalogs(after) ==> c.id != id
    ensures forall c :: c in before && c.id != id ==> c in after
  {
    forall c | c in before && c.id != id ensures c in after {
      var i :| 0 <= i < |before| && before[i] == c;
      assert after[i] == c;
    }
    forall c | c in after && c.id == id ensures !c.activo {
      var i :| 0 <= i < |after| && after[i] == c;
    }
  }
}
