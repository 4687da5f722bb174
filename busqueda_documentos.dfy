// The public document search: the in-process cache of descendant sets, the
// `where` built from the search form, the page of results and its
// pagination fields, and the lookup of one public document.
module BusquedaDocumentos {
  import opened Common
  import opened Strings
  import opened Ordering
  import opened Schema
  import opened CatalogClosure

  // ---------------------------------------------------------------------
  // Descendant cache

  /** The start ids of a batch that the cache does not hold, in input order. */
  function Uncached(cache: map<int, seq<int>>, ids: seq<int>): (r: seq<int>)
    ensures forall x :: x in r <==> x in ids && x !in cache
  {
    Filter(ids, x => x !in cache)
  }

  /** The cached lists of the start ids the cache holds, concatenated in
      input order. */
  function FromCache(cache: map<int, seq<int>>, ids: seq<int>): seq<int>
  {
    if ids == [] then []
    else
      var id := ids[|ids| - 1];
      FromCache(cache, ids[..|ids| - 1]) + (if id in cache then cache[id] else [])
  }

  lemma {:induction false} FromCacheMembers(cache: map<int, seq<int>>, ids: seq<int>, x: int)
    ensures x in FromCache(cache, ids) <==> exists id :: id in ids && id in cache && x in cache[id]
  {
    if ids != [] {
      var ids' := ids[..|ids| - 1];
      var id := ids[|ids| - 1];
      FromCacheMembers(cache, ids', x);
      if exists j :: j in ids && j in cache && x in cache[j] {
        var j :| j in ids && j in cache && x in cache[j];
        if j != id {
          assert j in ids';
        }
      }
    }
  }

  /** The ids the batch query returns for the uncached start ids; no query is
      made when every start id is cached. */
  function BatchFresh(cache: map<int, seq<int>>, rows: seq<Catalogo>, ids: seq<int>): (r: seq<int>)
    ensures forall x :: x in r <==> x in Descendants(rows, SeqSet(Uncached(cache, ids)))
  {
    var u := Uncached(cache, ids);
    if u == [] then
      DescendantsEmpty(rows);
      assert SeqSet(u) == {};
      []
    else CteRows(rows, SeqSet(u))
  }

  /** What a batch lookup returns: nothing for no start ids, otherwise the
      cached lists followed by the new query result, without duplicates. */
  function BatchResult(cache: map<int, seq<int>>, rows: seq<Catalogo>, ids: seq<int>): (r: seq<int>)
    ensures ids == [] ==> r == []
    ensures NoDup(r)
    ensures ids != [] ==> forall x :: x in r <==>
      x in FromCache(cache, ids) || x in BatchFresh(cache, rows, ids)
  {
    if ids == [] then [] else Dedup(FromCache(cache, ids) + BatchFresh(cache, rows, ids))
  }

  /** The cache after a batch lookup: every uncached start id is stored with
      the whole query result of the batch. */
  function AfterBatch(cache: map<int, seq<int>>, rows: seq<Catalogo>, ids: seq<int>): map<int, seq<int>>
  {
    var fromDb := BatchFresh(cache, rows, ids);
    cache + map id | id in SeqSet(Uncached(cache, ids)) :: fromDb
  }

  /** What a single lookup returns: the cached list on a hit, the query
      result otherwise. */
  function SingleResult(cache: map<int, seq<int>>, rows: seq<Catalogo>, id: int): seq<int>
  {
    if id in cache then cache[id] else CteRows(rows, {id})
  }

  /** The cache after a single lookup: a miss stores the query result. */
  function SingleAfter(cache: map<int, seq<int>>, rows: seq<Catalogo>, id: int): map<int, seq<int>>
  {
    if id in cache then cache else cache[id := CteRows(rows, {id})]
  }

  /** Every cached list is exactly the descendant set of its key. */
  ghost predicate Exact(cache: map<int, seq<int>>, rows: seq<Catalogo>)
  {
    forall id :: id in cache ==> SeqSet(cache[id]) == Descendants(rows, {id})
  }

  /** Every cached list holds the descendant set of its key and only active
      catalogs: a lookup never misses a descendant, but may add others. */
  ghost predicate Covers(cache: map<int, seq<int>>, rows: seq<Catalogo>)
  {
    forall id :: id in cache ==>
      Descendants(rows, {id}) <= SeqSet(cache[id]) <= ActiveIds(rows)
  }

  lemma ExactCovers(cache: map<int, seq<int>>, rows: seq<Catalogo>)
    requires Exact(cache, rows)
    ensures Covers(cache, rows)
  {
  }

  /** A single lookup on an exact cache returns the descendant set of the
      start id and leaves the cache exact. */
  lemma SingleKeepsExact(cache: map<int, seq<int>>, rows: seq<Catalogo>, id: int)
    requires Exact(cache, rows)
    ensures SeqSet(SingleResult(cache, rows, id)) == Descendants(rows, {id})
    ensures Exact(SingleAfter(cache, rows, id), rows)
  {
  }

  lemma SingleKeepsCovers(cache: map<int, seq<int>>, rows: seq<Catalogo>, id: int)
    requires Covers(cache, rows)
    ensures Descendants(rows, {id}) <= SeqSet(SingleResult(cache, rows, id)) <= ActiveIds(rows)
    ensures Covers(SingleAfter(cache, rows, id), rows)
  {
  }

  /** The descendant set of a batch is the union of the sets of its ids. */
  lemma {:induction false} DescendantsOfSeq(rows: seq<Catalogo>, ids: seq<int>, x: int)
    ensures x in Descendants(rows, SeqSet(ids)) <==>
      exists id :: id in ids && x in Descendants(rows, {id})
  {
    if ids == [] {
      DescendantsEmpty(rows);
      assert SeqSet(ids) == {};
    } else {
      var ids' := ids[..|ids| - 1];
      var id := ids[|ids| - 1];
      assert SeqSet(ids) == SeqSet(ids') + {id};
      DescendantsUnion(rows, SeqSet(ids'), {id});
      DescendantsOfSeq(rows, ids', x);
      if exists j :: j in ids && x in Descendants(rows, {j}) {
        var j :| j in ids && x in Descendants(rows, {j});
        if j != id {
          assert j in ids';
        }
      }
    }
  }

  /** On an exact cache a batch lookup returns exactly the descendant set of
      its start ids (even though it may leave the cache inexact). */
  lemma BatchExact(cache: map<int, seq<int>>, rows: seq<Catalogo>, ids: seq<int>)
    requires Exact(cache, rows)
    ensures SeqSet(BatchResult(cache, rows, ids)) == Descendants(rows, SeqSet(ids))
  {
    var r := BatchResult(cache, rows, ids);
    var u := Uncached(cache, ids);
    if ids == [] {
      DescendantsEmpty(rows);
      assert SeqSet(ids) == {};
    } else {
      forall x ensures x in r <==> x in Descendants(rows, SeqSet(ids)) {
        FromCacheMembers(cache, ids, x);
        DescendantsOfSeq(rows, ids, x);
        DescendantsOfSeq(rows, u, x);
      }
    }
  }

  /** A batch lookup never loses a descendant: on a covering cache it returns
      a superset of the descendant set of its start ids, holding only active
      catalogs, and the cache stays covering. */
  lemma BatchKeepsCovers(cache: map<int, seq<int>>, rows: seq<Catalogo>, ids: seq<int>)
    requires Covers(cache, rows)
    ensures Descendants(rows, SeqSet(ids)) <= SeqSet(BatchResult(cache, rows, ids)) <= ActiveIds(rows)
    ensures Covers(AfterBatch(cache, rows, ids), rows)
  {
    BatchResultCovers(cache, rows, ids);
    BatchCacheCovers(cache, rows, ids);
  }

  lemma BatchResultCovers(cache: map<int, seq<int>>, rows: seq<Catalogo>, ids: seq<int>)
    requires Covers(cache, rows)
    ensures Descendants(rows, SeqSet(ids)) <= SeqSet(BatchResult(cache, rows, ids)) <= ActiveIds(rows)
  {
    var r := BatchResult(cache, rows, ids);
    var u := Uncached(cache, ids);
    if ids == [] {
      DescendantsEmpty(rows);
      assert SeqSet(ids) == {};
    } else {
      forall x | x in Descendants(rows, SeqSet(ids)) ensures x in r {
        DescendantsOfSeq(rows, ids, x);
        var id :| id in ids && x in Descendants(rows, {id});
        if id !in cache {
          DescendantsOfSeq(rows, u, x);
        } else {
          FromCacheMembers(cache, ids, x);
        }
      }
      forall x | x in r ensures x in ActiveIds(rows) {
        FromCacheMembers(cache, ids, x);
      }
    }
  }

  lemma BatchCacheCovers(cache: map<int, seq<int>>, rows: seq<Catalogo>, ids: seq<int>)
    requires Covers(cache, rows)
    ensures Covers(AfterBatch(cache, rows, ids), rows)
  {
    var u := Uncached(cache, ids);
    var fromDb := BatchFresh(cache, rows, ids);
    var after := AfterBatch(cache, rows, ids);
    forall id | id in after
      ensures Descendants(rows, {id}) <= SeqSet(after[id]) <= ActiveIds(rows)
    {
      if id !in cache {
        assert id in u;
        assert after[id] == fromDb;
        DescendantsMonotone(rows, {id}, SeqSet(u));
      }
    }
  }

  /** The known imprecision of the batch lookup: two active roots looked up
      together are each cached with both, so a later single lookup of the
      first one returns the second although it is not its descendant. */
  lemma BatchCacheImprecise()
    ensures var after := AfterBatch(map[], TwoRoots, [1, 2]);
      Exact(map[], TwoRoots) && 1 in after && 2 in after[1] && 2 !in Descendants(TwoRoots, {1})
  {
    BatchFindsSecondRoot();
    BatchCachesFirstRoot();
    FirstRootAlone();
  }

  lemma BatchFindsSecondRoot()
    ensures 2 in BatchFresh(map[], TwoRoots, [1, 2])
  {
    BothUncached();
    TwoRootsShape();
    assert 2 in {1, 2} * ActiveIds(TwoRoots);
  }

  lemma BatchCachesFirstRoot()
    ensures var after := AfterBatch(map[], TwoRoots, [1, 2]);
      1 in after && after[1] == BatchFresh(map[], TwoRoots, [1, 2])
  {
    BothUncached();
  }

  lemma FirstRootAlone()
    ensures 2 !in Descendants(TwoRoots, {1})
  {
    TwoRootsShape();
    DescendantsFixpoint(TwoRoots, {1});
  }

  lemma BothUncached()
    ensures SeqSet(Uncached(map[], [1, 2])) == {1, 2}
  {
    var u := Uncached(map[], [1, 2]);
    assert 1 in u && 2 in u;
  }

  /** Two active root catalogs, ids 1 and 2. */
  const TwoRoots: seq<Catalogo> := [Root(1), Root(2)]

  lemma TwoRootsShape()
    ensures ActiveIds(TwoRoots) == {1, 2}
    ensures forall s :: ChildrenOf(TwoRoots, s) == {}
  {
    forall s ensures ChildrenOf(TwoRoots, s) == {} {
      forall c | c in TwoRoots ensures c.parentId.None? {
      }
    }
  }

  /** An active root catalog with the given id. */
  function Root(id: int): Catalogo
  {
    Catalogo(id, "c", None, None, 0, 0, true, true, 0, None, None)
  }

  class DescendantCache {
    var cache: map<int, seq<int>>

    constructor()
      ensures cache == map[]
    {
      cache := map[];
    }

    /** `obtenerDescendientesCatalogo`. */
    method ObtenerDescendientesCatalogo(rows: seq<Catalogo>, catalogoId: int) returns (ids: seq<int>)
      modifies this
      ensures catalogoId in old(cache) ==> ids == old(cache)[catalogoId] && cache == old(cache)
      ensures catalogoId !in old(cache) ==>
        ids == CteRows(rows, {catalogoId}) && cache == old(cache)[catalogoId := ids]
      ensures ids == SingleResult(old(cache), rows, catalogoId)
      ensures cache == SingleAfter(old(cache), rows, catalogoId)
    {
      if catalogoId in cache {
        return cache[catalogoId];
      }
      ids := CteRows(rows, {catalogoId});
      cache := cache[catalogoId := ids];
    }

    /** The loop of the batch lookup that sorts the start ids into cached
      and uncached ones. */
    method SplitByCache(catalogoIds: seq<int>) returns (idsNoCache: seq<int>, idsDesdeCache: seq<int>)
      ensures idsNoCache == Uncached(cache, catalogoIds)
      ensures idsDesdeCache == FromCache(cache, catalogoIds)
    {
      idsNoCache := [];
      idsDesdeCache := [];
      for i := 0 to |catalogoIds|
        invariant idsNoCache == Uncached(cache, catalogoIds[..i])
        invariant idsDesdeCache == FromCache(cache, catalogoIds[..i])
      {
        var id := catalogoIds[i];
        assert catalogoIds[..i + 1][..i] == catalogoIds[..i];
        if id in cache {
          idsDesdeCache := idsDesdeCache + cache[id];
        } else {
          idsNoCache := idsNoCache + [id];
        }
      }
      assert catalogoIds[..|catalogoIds|] == catalogoIds;
    }

    /** The loop that stores the batch result under every uncached id. */
    method StoreAll(ids: seq<int>, value: seq<int>)
      modifies this
      ensures cache == old(cache) + map id | id in SeqSet(ids) :: value
    {
      for i := 0 to |ids|
        invariant cache == old(cache) + map id | id in SeqSet(ids[..i]) :: value
      {
        assert SeqSet(ids[..i + 1]) == SeqSet(ids[..i]) + {ids[i]};
        cache := cache[ids[i] := value];
      }
      assert ids[..|ids|] == ids;
    }

    /** `obtenerDescendientesMultiplesCatalogo`. */
    method ObtenerDescendientesMultiplesCatalogo(rows: seq<Catalogo>, catalogoIds: seq<int>) returns (r: seq<int>)
      modifies this
      ensures r == BatchResult(old(cache), rows, catalogoIds)
      ensures cache == if catalogoIds == [] then old(cache) else AfterBatch(old(cache), rows, catalogoIds)
    {
      if |catalogoIds| == 0 {
        return [];
      }
      var idsNoCache, idsDesdeCache := SplitByCache(catalogoIds);
      if |idsNoCache| == 0 {
        assert SeqSet(idsNoCache) == {};
        assert idsDesdeCache + [] == idsDesdeCache;
        return Dedup(idsDesdeCache);
      }
      var idsDesdeDB := CteRows(rows, SeqSet(idsNoCache));
      StoreAll(idsNoCache, idsDesdeDB);
      r := Dedup(idsDesdeCache + idsDesdeDB);
    }

    /** The timer that drops an entry five minutes after it was stored. */
    method Evict(id: int)
      modifies this
      ensures cache == old(cache) - {id}
    {
      cache := cache - {id};
    }
  }

  // ---------------------------------------------------------------------
  // The search

  /** The search form; `None` stands for a field the caller left undefined. */
  datatype BuscarDocumentosDto = BuscarDocumentosDto(
    search: Option<string>,
    catalogoId: Option<int>,
    anio: Option<int>,
    extension: Option<string>,
    periodicidad: Option<string>,
    institucion: Option<string>,
    page: Option<int>,
    pageSize: Option<int>,
    orderBy: Option<string>,
    order: Option<SortOrder>,
    categorias: Option<seq<int>>)

  /** The form's own validation: a page is at least 1, a page size 1..100. */
  predicate ValidPaging(dto: BuscarDocumentosDto)
  {
    (dto.page.None? || dto.page.value >= 1)
    && (dto.pageSize.None? || 1 <= dto.pageSize.value <= 100)
  }

  /** The `where` of the search. `activo` is always required; every other
      condition is present when `Some`. A `tipoDocumentoId` of `Some(None)`
      is a `parseInt` that gave NaN. */
  datatype Where = Where(
    text: Option<string>,
    catalogoIn: Option<seq<int>>,
    ejercicioFiscal: Option<int>,
    tipoDocumentoId: Option<Option<int>>,
    periodicidad: Option<string>,
    institucion: Option<string>)

  predicate Matches(w: Where, d: Documento)
  {
    d.activo
    && (w.text.Some? ==>
          Contains(d.nombre, w.text.value)
          || (d.descripcion.Some? && Contains(d.descripcion.value, w.text.value)))
    && (w.catalogoIn.Some? ==> d.catalogoId in w.catalogoIn.value)
    && (w.ejercicioFiscal.Some? ==> d.ejercicioFiscal == w.ejercicioFiscal.value)
    && (w.tipoDocumentoId.Some? ==>
          w.tipoDocumentoId.value.Some? && d.tipoDocumentoId == w.tipoDocumentoId.value)
    && (w.periodicidad.Some? ==> d.periodicidad == w.periodicidad)
    && (w.institucion.Some? ==> Contains(d.institucionEmisora, w.institucion.value))
  }

  /** The text condition: present only when the trimmed term has at least
      two characters, and then it searches for the trimmed term. */
  function TextFilter(search: Option<string>): (r: Option<string>)
    ensures r.Some? <==> search.Some? && |Trim(search.value)| >= 2
    ensures r.Some? ==> r.value == Trim(search.value) && |r.value| >= 2
  {
    if TruthyStr(search) && |Trim(search.value)| >= 2 then Some(Trim(search.value)) else None
  }

  /** The columns the search can be ordered by. */
  predicate SortableField(f: string)
  {
    f == "nombre" || f == "fecha_publicacion" || f == "ejercicio_fiscal" || f == "fecha_creacion"
  }

  /** `mapOrderByField`: the four sortable columns map to themselves, any
      other value to `fecha_creacion`. */
  function MapOrderByField(orderBy: string): (r: string)
    ensures SortableField(r)
    ensures SortableField(orderBy) ==> r == orderBy
    ensures !SortableField(orderBy) ==> r == "fecha_creacion"
  {
    if orderBy == "nombre" || orderBy == "fecha_publicacion" || orderBy == "ejercicio_fiscal" then orderBy
    else "fecha_creacion"
  }

  /** The sort key of a column; a null `fecha_publicacion` sorts first. */
  function DocKey(field: string): Documento -> Key
  {
    (d: Documento) =>
      if field == "nombre" then Key(0, 0, d.nombre)
      else if field == "fecha_publicacion" then
        (if d.fechaPublicacion.None? then Key(0, 0, "") else Key(1, d.fechaPublicacion.value, ""))
      else if field == "ejercicio_fiscal" then Key(d.ejercicioFiscal, 0, "")
      else Key(d.fechaCreacion, 0, "")
  }

  function SortDocs(s: seq<Documento>, field: string, dir: SortOrder): (r: seq<Documento>)
    ensures multiset(r) == multiset(s)
    ensures dir == Asc ==> SortedBy(r, DocKey(field))
    ensures dir == Desc ==> forall i, j :: 0 <= i < j < |r| ==> KeyLe(DocKey(field)(r[j]), DocKey(field)(r[i]))
  {
    SortByKeySorted(s, DocKey(field));
    SortByKeyDescSorted(s, DocKey(field));
    if dir == Asc then SortByKey(s, DocKey(field)) else SortByKeyDesc(s, DocKey(field))
  }

  /** `Math.ceil(total / pageSize)`. */
  function CeilDiv(total: nat, pageSize: int): (r: nat)
    requires pageSize >= 1
    ensures total <= r * pageSize
    ensures r == 0 || (r - 1) * pageSize < total
  {
    var q := (total + pageSize - 1) / pageSize;
    var m := (total + pageSize - 1) % pageSize;
    assert total + pageSize - 1 == q * pageSize + m;
    q
  }

  datatype Paginacion = Paginacion(
    page: int,
    pageSize: int,
    total: nat,
    totalPages: nat,
    hasNextPage: bool,
    hasPrevPage: bool)

  datatype Busqueda = Busqueda(documentos: seq<Documento>, paginacion: Paginacion)

  function PaginacionOf(page: int, pageSize: int, total: nat): (p: Paginacion)
    requires page >= 1 && pageSize >= 1
    ensures p.page == page && p.pageSize == pageSize && p.total == total
    ensures p.hasNextPage <==> page * pageSize < total
    ensures p.hasPrevPage <==> page > 1
    ensures total <= p.totalPages * pageSize
  {
    var totalPages := CeilDiv(total, pageSize);
    HasNextPageIff(page, pageSize, total);
    Paginacion(page, pageSize, total, totalPages, page < totalPages, page > 1)
  }

  /** There is a next page exactly when rows remain after this one. */
  lemma HasNextPageIff(page: int, pageSize: int, total: nat)
    requires page >= 1 && pageSize >= 1
    ensures page < CeilDiv(total, pageSize) <==> page * pageSize < total
  {
    var totalPages := CeilDiv(total, pageSize);
    if page < totalPages {
      MulMono(page, totalPages - 1, pageSize);
    } else {
      MulMono(totalPages, page, pageSize);
    }
  }

  lemma MulMono(a: int, b: int, n: int)
    requires a <= b && n >= 0
    ensures a * n <= b * n
  {
    assert b * n - a * n == (b - a) * n;
  }

  function PageOf(dto: BuscarDocumentosDto): int { Coalesce(dto.page, 1) }

  function PageSizeOf(dto: BuscarDocumentosDto): int { Coalesce(dto.pageSize, 20) }

  /** `skip = (page - 1) * pageSize`. */
  function SkipOf(dto: BuscarDocumentosDto): (r: nat)
    requires ValidPaging(dto)
    ensures r + PageSizeOf(dto) == PageOf(dto) * PageSizeOf(dto)
  {
    MulMono(0, PageOf(dto) - 1, PageSizeOf(dto));
    (PageOf(dto) - 1) * PageSizeOf(dto)
  }

  /** The rows the `where` selects (`count` counts them). */
  function Matching(docs: seq<Documento>, w: Where): (r: seq<Documento>)
    ensures forall d :: d in r <==> d in docs && Matches(w, d)
    ensures Subseq(r, docs) && multiset(r) <= multiset(docs)
    ensures forall d :: multiset(r)[d] == if Matches(w, d) then multiset(docs)[d] else 0
  {
    var selected := (d: Documento) => Matches(w, d);
    var r := Filter(docs, selected);
    FilterSubseq(docs, selected);
    forall d: Documento ensures multiset(r)[d] == if Matches(w, d) then multiset(docs)[d] else 0 {
      FilterMultiplicity(docs, selected, d);
    }
    r
  }

  /** The rows the `where` selects, in the order the form asks for
      (newest publication first by default). */
  function Ordered(docs: seq<Documento>, dto: BuscarDocumentosDto, w: Where): (r: seq<Documento>)
    ensures multiset(r) == multiset(Matching(docs, w))
  {
    SortDocs(Matching(docs, w), MapOrderByField(Coalesce(dto.orderBy, "fecha_publicacion")),
             Coalesce(dto.order, Desc))
  }

  /** The result of the search for a given `where`: the requested page of
      the matching rows in the requested order, and the number of all
      matching rows. */
  function SearchWith(docs: seq<Documento>, dto: BuscarDocumentosDto, w: Where): (r: Busqueda)
    requires ValidPaging(dto)
  {
    Busqueda(Take(Drop(Ordered(docs, dto, w), SkipOf(dto)), PageSizeOf(dto)),
             PaginacionOf(PageOf(dto), PageSizeOf(dto), |Matching(docs, w)|))
  }

  /** The `where` built from the form and the catalog restriction. */
  function WhereOf(dto: BuscarDocumentosDto, scope: Option<seq<int>>): (w: Where)
    ensures w.text == TextFilter(dto.search)
    ensures w.catalogoIn == scope
  {
    Where(TextFilter(dto.search),
          scope,
          if TruthyId(dto.anio) then dto.anio else None,
          if TruthyStr(dto.extension) then Some(JsParseIntNoRadix(dto.extension.value)) else None,
          if TruthyStr(dto.periodicidad) then dto.periodicidad else None,
          if TruthyStr(dto.institucion) then dto.institucion else None)
  }

  predicate HasCategorias(dto: BuscarDocumentosDto)
  {
    dto.categorias.Some? && |dto.categorias.value| > 0
  }

  /** The cache after the single lookup for `catalogoId`, if one is made. */
  function CacheAfterCatalogo(cache: map<int, seq<int>>, rows: seq<Catalogo>, dto: BuscarDocumentosDto): map<int, seq<int>>
  {
    if TruthyId(dto.catalogoId) then SingleAfter(cache, rows, dto.catalogoId.value) else cache
  }

  /** The catalog restriction: the batch result for a non-empty `categorias`,
      which replaces the single result for a truthy `catalogoId`. */
  function ScopeOf(cache: map<int, seq<int>>, rows: seq<Catalogo>, dto: BuscarDocumentosDto): (r: Option<seq<int>>)
    ensures r.Some? <==> HasCategorias(dto) || TruthyId(dto.catalogoId)
  {
    if HasCategorias(dto) then
      Some(BatchResult(CacheAfterCatalogo(cache, rows, dto), rows, dto.categorias.value))
    else if TruthyId(dto.catalogoId) then Some(SingleResult(cache, rows, dto.catalogoId.value))
    else None
  }

  function CacheAfterSearch(cache: map<int, seq<int>>, rows: seq<Catalogo>, dto: BuscarDocumentosDto): map<int, seq<int>>
  {
    var c1 := CacheAfterCatalogo(cache, rows, dto);
    if HasCategorias(dto) then AfterBatch(c1, rows, dto.categorias.value) else c1
  }

  /** The part of `buscarDocumentos` that builds the `where` field by
      field, asking the cache for the descendant sets. */
  method BuildWhere(cache: DescendantCache, rows: seq<Catalogo>, dto: BuscarDocumentosDto) returns (w: Where)
    modifies cache
    ensures w == WhereOf(dto, ScopeOf(old(cache.cache), rows, dto))
    ensures cache.cache == CacheAfterSearch(old(cache.cache), rows, dto)
  {
    w := Where(None, None, None, None, None, None);
    if TruthyStr(dto.search) && |Trim(dto.search.value)| >= 2 {
      w := w.(text := Some(Trim(dto.search.value)));
    }
    var scope := CatalogScope(cache, rows, dto);
    w := w.(catalogoIn := scope);
    if TruthyId(dto.anio) {
      w := w.(ejercicioFiscal := dto.anio);
    }
    if TruthyStr(dto.extension) {
      w := w.(tipoDocumentoId := Some(JsParseIntNoRadix(dto.extension.value)));
    }
    if TruthyStr(dto.periodicidad) {
      w := w.(periodicidad := dto.periodicidad);
    }
    if TruthyStr(dto.institucion) {
      w := w.(institucion := dto.institucion);
    }
  }

  /** The two cache lookups of `buscarDocumentos`, in their order: the
      single one for a truthy `catalogoId`, then the batch one for a
      non-empty `categorias`, whose result replaces the first. */
  method CatalogScope(cache: DescendantCache, rows: seq<Catalogo>, dto: BuscarDocumentosDto)
    returns (scope: Option<seq<int>>)
    modifies cache
    ensures scope == ScopeOf(old(cache.cache), rows, dto)
    ensures cache.cache == CacheAfterSearch(old(cache.cache), rows, dto)
  {
    scope := None;
    if TruthyId(dto.catalogoId) {
      var ids := cache.ObtenerDescendientesCatalogo(rows, dto.catalogoId.value);
      scope := Some(ids);
    }
    if dto.categorias.Some? && |dto.categorias.value| > 0 {
      var ids := cache.ObtenerDescendientesMultiplesCatalogo(rows, dto.categorias.value);
      scope := Some(ids);
    }
  }

  /** `buscarDocumentos`: the page and the total come from the same `where`. */
  method BuscarDocumentos(cache: DescendantCache, rows: seq<Catalogo>, docs: seq<Documento>, dto: BuscarDocumentosDto)
    returns (r: Busqueda)
    requires ValidPaging(dto)
    modifies cache
    ensures r == SearchWith(docs, dto, WhereOf(dto, ScopeOf(old(cache.cache), rows, dto)))
    ensures cache.cache == CacheAfterSearch(old(cache.cache), rows, dto)
  {
    var page := Coalesce(dto.page, 1);
    var pageSize := Coalesce(dto.pageSize, 20);
    var skip := SkipOf(dto);
    var take := pageSize;
    var w := BuildWhere(cache, rows, dto);
    var documentos := Take(Drop(Ordered(docs, dto, w), skip), take);
    var total := |Matching(docs, w)|;
    r := Busqueda(documentos, PaginacionOf(page, pageSize, total));
  }

  lemma PageSlice<T>(s: seq<T>, skip: nat, take: nat)
    ensures var r := Take(Drop(s, skip), take);
      |r| <= take
      && (forall i :: 0 <= i < |r| ==> skip + i < |s| && r[i] == s[skip + i])
      && (forall x :: x in r ==> x in s)
  {
    var r := Take(Drop(s, skip), take);
    forall x | x in r ensures x in s {
      var i :| 0 <= i < |r| && r[i] == x;
      assert x == s[skip + i];
    }
  }

  /** The page holds at most `pageSize` rows, each an active document of the
      table satisfying the `where`; it is the slice of all matching rows, in
      the requested order, that starts at `(page - 1) * pageSize`; and
      `total` counts all matching rows. */
  lemma SearchPage(docs: seq<Documento>, dto: BuscarDocumentosDto, w: Where)
    requires ValidPaging(dto)
    ensures var r := SearchWith(docs, dto, w);
      |r.documentos| <= PageSizeOf(dto)
      && r.paginacion.total == |Ordered(docs, dto, w)|
      && (forall i :: 0 <= i < |r.documentos| ==>
            r.documentos[i] == Ordered(docs, dto, w)[SkipOf(dto) + i])
      && (forall d :: d in r.documentos ==> d in docs && d.activo && Matches(w, d))
  {
    var sorted := Ordered(docs, dto, w);
    PageSlice(sorted, SkipOf(dto), PageSizeOf(dto));
    OrderedIsMatching(docs, dto, w);
  }

  lemma OrderedIsMatching(docs: seq<Documento>, dto: BuscarDocumentosDto, w: Where)
    ensures |Ordered(docs, dto, w)| == |Matching(docs, w)|
    ensures forall d :: d in Ordered(docs, dto, w) ==> d in docs && d.activo && Matches(w, d)
  {
    var sorted := Ordered(docs, dto, w);
    assert |sorted| == |multiset(sorted)| == |Matching(docs, w)|;
    forall d | d in sorted ensures d in Matching(docs, w) {
      assert d in multiset(sorted);
    }
  }

  /** A term shorter than two characters once trimmed is ignored: the search
      is the same as without one. */
  lemma ShortSearchIgnored(dto: BuscarDocumentosDto, scope: Option<seq<int>>)
    requires dto.search.Some? && |Trim(dto.search.value)| < 2
    ensures WhereOf(dto, scope) == WhereOf(dto.(search := None), scope)
  {
  }

  /** With an exact cache, the catalog restriction is the descendant set of
      the `categorias` when that list is non-empty (whatever `catalogoId`
      says), and otherwise the descendant set of a truthy `catalogoId`. */
  lemma ScopeIsDescendants(cache: map<int, seq<int>>, rows: seq<Catalogo>, dto: BuscarDocumentosDto)
    requires Exact(cache, rows)
    ensures HasCategorias(dto) ==>
      SeqSet(ScopeOf(cache, rows, dto).value) == Descendants(rows, SeqSet(dto.categorias.value))
    ensures !HasCategorias(dto) && TruthyId(dto.catalogoId) ==>
      SeqSet(ScopeOf(cache, rows, dto).value) == Descendants(rows, {dto.catalogoId.value})
  {
    if TruthyId(dto.catalogoId) {
      SingleKeepsExact(cache, rows, dto.catalogoId.value);
    }
    if HasCategorias(dto) {
      BatchExact(CacheAfterCatalogo(cache, rows, dto), rows, dto.categorias.value);
    }
  }

  /** With a covering cache the search never drops a document it should
      find: every active document under a descendant of the requested
      catalogs that meets the other conditions is counted. */
  lemma ScopeCoversDescendants(cache: map<int, seq<int>>, rows: seq<Catalogo>, dto: BuscarDocumentosDto)
    requires Covers(cache, rows)
    ensures HasCategorias(dto) ==>
      Descendants(rows, SeqSet(dto.categorias.value)) <= SeqSet(ScopeOf(cache, rows, dto).value)
    ensures !HasCategorias(dto) && TruthyId(dto.catalogoId) ==>
      Descendants(rows, {dto.catalogoId.value}) <= SeqSet(ScopeOf(cache, rows, dto).value)
    ensures Covers(CacheAfterSearch(cache, rows, dto), rows)
  {
    if TruthyId(dto.catalogoId) {
      SingleKeepsCovers(cache, rows, dto.catalogoId.value);
    }
    if HasCategorias(dto) {
      BatchKeepsCovers(CacheAfterCatalogo(cache, rows, dto), rows, dto.categorias.value);
    }
  }

  // ---------------------------------------------------------------------
  // One public document

  /** `obtenerDocumentoPorId`: the document whose id the string parses to,
      when it exists and is active. */
  function ObtenerDocumentoPorId(docs: seq<Documento>, id: string): (r: Option<Documento>)
    ensures r.Some? ==> r.value in docs && r.value.activo && JsParseInt(id) == Some(r.value.id)
    ensures r.None? && JsParseInt(id).Some? && UniqueDocumentIds(docs) ==>
      forall d :: d in docs && d.id == JsParseInt(id).value ==> !d.activo
  {
    var idNum := JsParseInt(id);
    if idNum.None? then None
    else
      var documento := FindDocumento(docs, idNum.value);
      if documento.None? || !documento.value.activo then None
      else documento
  }
}
