// The document repository: the document table, updated in place by
// `update` and the soft `delete`, and the queries over it.
module DocumentosRepository {
  import opened Common
  import opened Strings
  import opened Ordering
  import opened Schema

  /** The sort key of `orderBy: { fecha_creacion: ... }`. */
  function CreationKey(d: Documento): Key
  {
    Key(d.fechaCreacion, 0, "")
  }

  /** Rows ordered by `fecha_creacion` descending: every row is at least as
      new as the rows after it, and nothing is added or lost. */
  function NewestFirst(s: seq<Documento>): (r: seq<Documento>)
    ensures multiset(r) == multiset(s)
    ensures forall d :: d in r <==> d in s
    ensures forall i, j :: 0 <= i < j < |r| ==> r[i].fechaCreacion >= r[j].fechaCreacion
  {
    SortByKeyDescSorted(s, CreationKey);
    var r := SortByKeyDesc(s, CreationKey);
    assert forall d :: d in r <==> d in multiset(r);
    r
  }

  /** A caller's `where` for `findPublicDocuments`: its `activo` field, and
      its other conditions as one predicate. */
  datatype DocumentoWhere = DocumentoWhere(activo: Option<bool>, others: Documento -> bool)

  predicate WhereHolds(w: DocumentoWhere, d: Documento)
  {
    (w.activo.None? || d.activo == w.activo.value) && w.others(d)
  }

  /** `{ ...where, activo: true }`: the spread keeps the caller's other
      conditions and its own `activo`, if any, is replaced. */
  function PublicWhere(w: DocumentoWhere): (p: DocumentoWhere)
    ensures forall d :: WhereHolds(p, d) <==> d.activo && w.others(d)
  {
    w.(activo := Some(true))
  }

  /** An `orderBy` on one column: the column's key and its direction. */
  datatype DocumentoOrderBy = DocumentoOrderBy(key: Documento -> Key, order: SortOrder)

  /** The rows in the order an optional `orderBy` asks for; without one
      the rows come in table order. */
  function OrderRows(s: seq<Documento>, orderBy: Option<DocumentoOrderBy>): (r: seq<Documento>)
    ensures multiset(r) == multiset(s)
    ensures |r| == |s|
    ensures forall d :: d in r <==> d in s
    ensures orderBy.Some? ==> OrderedBy(r, orderBy.value.key, orderBy.value.order)
    ensures orderBy.None? ==> r == s
  {
    if orderBy.None? then s
    else
      var r := SortRows(s, orderBy.value.key, orderBy.value.order);
      assert |r| == |multiset(r)| == |multiset(s)| == |s|;
      r
  }

  /** The rows `findPublicDocuments` pages through: the active rows that
      meet the caller's other conditions, in the requested order. */
  function PublicListing(rows: seq<Documento>, w: DocumentoWhere, orderBy: Option<DocumentoOrderBy>)
    : (r: seq<Documento>)
    ensures forall d :: d in r <==> d in rows && d.activo && w.others(d)
    ensures |r| == Count(rows, (d: Documento) => WhereHolds(PublicWhere(w), d))
    ensures orderBy.Some? ==> OrderedBy(r, orderBy.value.key, orderBy.value.order)
  {
    OrderRows(Filter(rows, (d: Documento) => WhereHolds(PublicWhere(w), d)), orderBy)
  }

  /** `findPublicDocuments`: the `skip`/`take` window of the public
      listing. */
  function FindPublicDocuments(rows: seq<Documento>, w: DocumentoWhere, skip: nat, take: Option<nat>,
                               orderBy: Option<DocumentoOrderBy>): (r: seq<Documento>)
    ensures IsPage(r, PublicListing(rows, w, orderBy), skip, take)
    ensures forall d :: d in r ==> d in rows && d.activo && w.others(d)
    ensures take.Some? ==> |r| <= take.value
  {
    Page(PublicListing(rows, w, orderBy), skip, take)
  }

  /** A caller that asks for inactive documents still gets the active ones
      that meet its other conditions: its `activo` makes no difference. */
  lemma {:induction false} CallerActivoOverridden(rows: seq<Documento>, w: DocumentoWhere, skip: nat,
                                                  take: Option<nat>, orderBy: Option<DocumentoOrderBy>)
    ensures FindPublicDocuments(rows, w.(activo := Some(false)), skip, take, orderBy)
         == FindPublicDocuments(rows, w.(activo := None), skip, take, orderBy)
    ensures forall d :: d in FindPublicDocuments(rows, w.(activo := Some(false)), 0, None, orderBy)
                   <==> d in rows && d.activo && w.others(d)
  {
    assert PublicWhere(w.(activo := Some(false))) == PublicWhere(w.(activo := None));
    WholePage(PublicListing(rows, w.(activo := Some(false)), orderBy));
  }

  /** The rows `findByCatalogoId` pages through: the catalog's active
      documents in the requested order, newest first when none is given
      (`orderBy || { fecha_creacion: 'desc' }`). */
  function CatalogListing(rows: seq<Documento>, catalogoId: int, orderBy: Option<DocumentoOrderBy>)
    : (r: seq<Documento>)
    ensures forall d :: d in r <==> d in rows && d.catalogoId == catalogoId && d.activo
    ensures orderBy.Some? ==> OrderedBy(r, orderBy.value.key, orderBy.value.order)
    ensures orderBy.None? ==> forall i, j :: 0 <= i < j < |r| ==> r[i].fechaCreacion >= r[j].fechaCreacion
    ensures multiset(r) <= multiset(rows)
  {
    var active := Filter(rows, (d: Documento) => d.catalogoId == catalogoId && d.activo);
    if orderBy.Some? then OrderRows(active, orderBy) else NewestFirst(active)
  }

  /** `findByCatalogoId`: the `skip`/`take` window of the catalog's
      listing. */
  function FindByCatalogoId(rows: seq<Documento>, catalogoId: int, skip: nat, take: Option<nat>,
                            orderBy: Option<DocumentoOrderBy>): (r: seq<Documento>)
    ensures IsPage(r, CatalogListing(rows, catalogoId, orderBy), skip, take)
    ensures forall d :: d in r ==> d in rows && d.catalogoId == catalogoId && d.activo
  {
    Page(CatalogListing(rows, catalogoId, orderBy), skip, take)
  }

  /** One entry of the `AND` list `search` builds. */
  datatype Condition =
    | NombreODescripcion(query: string)
    | Activo
    | CatalogoIs(catalogoId: int)
    | EjercicioIs(ejercicioFiscal: int)

  predicate Holds(c: Condition, d: Documento)
  {
    match c
    case NombreODescripcion(q) => Contains(d.nombre, q) || (d.descripcion.Some? && Contains(d.descripcion.value, q))
    case Activo => d.activo
    case CatalogoIs(id) => d.catalogoId == id
    case EjercicioIs(y) => d.ejercicioFiscal == y
  }

  predicate AllHold(cs: seq<Condition>, d: Documento)
  {
    forall i :: 0 <= i < |cs| ==> Holds(cs[i], d)
  }

  /** What `search` asks of a document: the query in `nombre` or
      `descripcion`, active, and the catalog and fiscal year when they are
      given (truthy). */
  predicate SearchMatches(d: Documento, query: string, catalogoId: Option<int>, ejercicioFiscal: Option<int>)
  {
    (Contains(d.nombre, query) || (d.descripcion.Some? && Contains(d.descripcion.value, query)))
    && d.activo
    && (TruthyId(catalogoId) ==> d.catalogoId == catalogoId.value)
    && (TruthyId(ejercicioFiscal) ==> d.ejercicioFiscal == ejercicioFiscal.value)
  }

  /** The `where.AND` list of `search`, pushed condition by condition; a
      document satisfies all of them exactly when it matches the search. */
  method SearchConditions(query: string, catalogoId: Option<int>, ejercicioFiscal: Option<int>)
    returns (conds: seq<Condition>)
    ensures forall d :: AllHold(conds, d) <==> SearchMatches(d, query, catalogoId, ejercicioFiscal)
    ensures |conds| == 2 + (if TruthyId(catalogoId) then 1 else 0) + (if TruthyId(ejercicioFiscal) then 1 else 0)
  {
    conds := [NombreODescripcion(query), Activo];
    if TruthyId(catalogoId) {
      conds := conds + [CatalogoIs(catalogoId.value)];
    }
    if TruthyId(ejercicioFiscal) {
      conds := conds + [EjercicioIs(ejercicioFiscal.value)];
    }
    forall d ensures AllHold(conds, d) <==> SearchMatches(d, query, catalogoId, ejercicioFiscal) {
      assert conds[0] == NombreODescripcion(query) && conds[1] == Activo;
      if TruthyId(catalogoId) {
        assert conds[2] == CatalogoIs(catalogoId.value);
      }
      if TruthyId(ejercicioFiscal) {
        assert conds[|conds| - 1] == EjercicioIs(ejercicioFiscal.value);
      }
    }
  }

  /** The rows `search` pages through: the matching documents, newest
      first. */
  function SearchListing(rows: seq<Documento>, query: string, catalogoId: Option<int>, ejercicioFiscal: Option<int>)
    : (r: seq<Documento>)
    ensures forall d :: d in r <==> d in rows && SearchMatches(d, query, catalogoId, ejercicioFiscal)
    ensures forall i, j :: 0 <= i < j < |r| ==> r[i].fechaCreacion >= r[j].fechaCreacion
    ensures multiset(r) == multiset(Filter(rows, (d: Documento) => SearchMatches(d, query, catalogoId, ejercicioFiscal)))
  {
    NewestFirst(Filter(rows, (d: Documento) => SearchMatches(d, query, catalogoId, ejercicioFiscal)))
  }

  /** `search`: the `skip`/`take` window of the matching documents, newest
      first. */
  function Search(rows: seq<Documento>, query: string, catalogoId: Option<int>, ejercicioFiscal: Option<int>,
                  skip: nat, take: Option<nat>): (r: seq<Documento>)
    ensures IsPage(r, SearchListing(rows, query, catalogoId, ejercicioFiscal), skip, take)
    ensures forall d :: d in r ==> d in rows && SearchMatches(d, query, catalogoId, ejercicioFiscal)
  {
    Page(SearchListing(rows, query, catalogoId, ejercicioFiscal), skip, take)
  }

  /** Without `skip` and `take` a search returns every match, newest
      first. */
  lemma SearchUnpaged(rows: seq<Documento>, query: string, catalogoId: Option<int>, ejercicioFiscal: Option<int>)
    ensures var r := Search(rows, query, catalogoId, ejercicioFiscal, 0, None);
      (forall d :: d in r <==> d in rows && SearchMatches(d, query, catalogoId, ejercicioFiscal))
      && (forall i, j :: 0 <= i < j < |r| ==> r[i].fechaCreacion >= r[j].fechaCreacion)
  {
    WholePage(SearchListing(rows, query, catalogoId, ejercicioFiscal));
  }

  /** `getRecentDocuments`: at most `limit` (10 by default) active
      documents, newest first. */
  function GetRecentDocuments(rows: seq<Documento>, limit: Option<nat>): (r: seq<Documento>)
    ensures |r| <= Coalesce(limit, 10)
    ensures forall d :: d in r ==> d in rows && d.activo
    ensures forall i, j :: 0 <= i < j < |r| ==> r[i].fechaCreacion >= r[j].fechaCreacion
  {
    var active := NewestFirst(Filter(rows, (d: Documento) => d.activo));
    Take(active, Coalesce(limit, 10))
  }

  /** No active document newer than the last one returned is left out. */
  lemma RecentDocumentsAreNewest(rows: seq<Documento>, limit: Option<nat>, d: Documento)
    requires d in rows && d.activo
    requires d !in GetRecentDocuments(rows, limit)
    ensures |GetRecentDocuments(rows, limit)| == Coalesce(limit, 10)
    ensures forall e :: e in GetRecentDocuments(rows, limit) ==> e.fechaCreacion >= d.fechaCreacion
  {
    var active := NewestFirst(Filter(rows, (d: Documento) => d.activo));
    var n := Coalesce(limit, 10);
    var r := GetRecentDocuments(rows, limit);
    assert r == Take(active, n);
    var k :| 0 <= k < |active| && active[k] == d;
    assert forall i :: 0 <= i < |r| ==> r[i] == active[i];
    assert k >= |r|;
    forall e | e in r ensures e.fechaCreacion >= d.fechaCreacion {
      var i :| 0 <= i < |r| && r[i] == e;
    }
  }

  /** The document table, updated in place by the repository. */
  class DocumentTable {
    var rows: seq<Documento>

    ghost predicate Valid()
      reads this
    {
      UniqueDocumentIds(rows)
    }

    constructor (initial: seq<Documento>)
      requires UniqueDocumentIds(initial)
      ensures Valid() && rows == initial
    {
      rows := initial;
    }

    /** `findById`. */
    function FindById(id: int): (r: Option<Documento>)
      reads this
      ensures r.Some? ==> r.value in rows && r.value.id == id
      ensures r.None? ==> forall d :: d in rows ==> d.id != id
    {
      FindDocumento(rows, id)
    }

    /** `prisma.documento.update({ where: { id }, data })`: the row with
        that id is replaced by `f` of it; a missing id writes nothing and
        is answered NotFound here. Prisma raises P2025 there, which the
        global filter answers with a 500; every service checks the id first,
        so no service call reaches this branch. */
    method UpdateRow(id: int, f: Documento -> Documento) returns (r: Result<Documento>)
      requires Valid()
      requires forall d :: f(d).id == d.id
      modifies this
      ensures Valid()
      ensures FindDocumento(old(rows), id).None? ==> r == Err(NotFound) && rows == old(rows)
      ensures FindDocumento(old(rows), id).Some? ==>
        r == Ok(f(FindDocumento(old(rows), id).value)) && DocumentUpdated(old(rows), rows, id, f)
    {
      var found := FindDocumento(rows, id);
      if found.None? {
        return Err(NotFound);
      }
      var k := DocumentIndex(rows, id);
      var before := rows;
      rows := rows[k := f(rows[k])];
      forall i | 0 <= i < |before| && i != k ensures before[i].id != id {
        if i < k { assert before[i].id != before[k].id; } else { assert before[k].id != before[i].id; }
      }
      r := Ok(f(before[k]));
    }

    /** `delete`: a soft delete that only clears `activo`. */
    method Delete(id: int) returns (r: Result<Documento>)
      requires Valid()
      modifies this
      ensures Valid()
      ensures FindDocumento(old(rows), id).None? ==> r == Err(NotFound) && rows == old(rows)
      ensures FindDocumento(old(rows), id).Some? ==>
        r == Ok(FindDocumento(old(rows), id).value.(activo := false))
        && DocumentUpdated(old(rows), rows, id, (d: Documento) => d.(activo := false))
    {
      r := UpdateRow(id, (d: Documento) => d.(activo := false));
    }

    /** `update(id, data)` with the row `data` describes: the row with the
        same id is replaced and every other row stays. */
    method Replace(row: Documento) returns (r: Result<Documento>)
      requires Valid()
      modifies this
      ensures Valid()
      ensures FindDocumento(old(rows), row.id).None? ==> r == Err(NotFound) && rows == old(rows)
      ensures FindDocumento(old(rows), row.id).Some? ==> r == Ok(row) && RowReplaced(old(rows), rows, row)
    {
      var found := FindDocumento(rows, row.id);
      if found.None? {
        return Err(NotFound);
      }
      var k := DocumentIndex(rows, row.id);
      var before := rows;
      rows := rows[k := row];
      forall i | 0 <= i < |before| && i != k ensures before[i].id != row.id {
        if i < k { assert before[i].id != before[k].id; } else { assert before[k].id != before[i].id; }
      }
      r := Ok(row);
    }

    /** `create`: the new row, with the id the database assigns. */
    method Create(d: Documento)
      requires Valid()
      requires FindDocumento(rows, d.id).None?
      modifies this
      ensures Valid()
      ensures rows == old(rows) + [d]
    {
      rows := rows + [d];
    }
  }

  /** `after` is `before` with the row whose id is `id` replaced by `f` of
      it and every other row as it was. */
  ghost predicate DocumentUpdated(before: seq<Documento>, after: seq<Documento>, id: int, f: Documento -> Documento)
  {
    |after| == |before|
    && forall i :: 0 <= i < |before| ==>
      after[i] == if before[i].id == id then f(before[i]) else before[i]
  }

  /** `after` is `before` with the row whose id is `row.id` replaced by
      `row`. */
  ghost predicate RowReplaced(before: seq<Documento>, after: seq<Documento>, row: Documento)
  {
    |after| == |before|
    && forall i :: 0 <= i < |before| ==> after[i] == if before[i].id == row.id then row else before[i]
  }

  /** After a soft delete the document is in no query over active rows,
      and every other document is where it was. */
  lemma DeleteHidesDocument(before: seq<Documento>, after: seq<Documento>, id: int, catalogoId: int,
                            orderBy: Option<DocumentoOrderBy>)
    requires DocumentUpdated(before, after, id, (d: Documento) => d.(activo := false))
    ensures forall d :: d in CatalogListing(after, catalogoId, orderBy) ==> d.id != id
    ensures forall d :: d in before && d.id != id ==> d in after
  {
    forall d | d in before && d.id != id ensures d in after {
      var i :| 0 <= i < |before| && before[i] == d;
      assert after[i] == d;
    }
    forall d | d in after && d.id == id ensures !d.activo {
      var i :| 0 <= i < |after| && after[i] == d;
    }
  }
}
