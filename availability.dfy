// Document availability per catalog: for every catalog that accepts
// documents, one record per active document type saying whether an active
// document of that type exists and which one is the newest.
module Availability {
  import opened Common
  import opened Strings
  import opened Ordering
  import opened Schema

  /** `DisponibilidadTipoDocumentoDto`; the document id is sent as text. */
  datatype Disponibilidad = Disponibilidad(
    tipoDocumentoId: int,
    nombre: string,
    disponible: bool,
    extension: string,
    documentoId: Option<string>,
    documentoNombre: Option<string>)

  /** What the builder keeps of a document: its id as text and its name. */
  datatype DocRef = DocRef(id: string, nombre: string)

  /** The first comma-separated entry of `extensiones`, trimmed; when that
      entry is blank, the lowercased type name. The entry itself keeps its
      case. */
  function PrimaryExtension(t: TipoDocumento): string
  {
    var first := Trim(FirstField(t.extensiones, ','));
    if first != "" then first else ToLower(t.nombre)
  }

  /** A list written out as `a, b, c` yields its first entry, trimmed. */
  lemma PrimaryExtensionOfList(t: TipoDocumento, entries: seq<string>)
    requires |entries| >= 1
    requires forall i :: 0 <= i < |entries| ==> ',' !in entries[i]
    requires t.extensiones == Join(entries, [','])
    ensures Trim(entries[0]) != "" ==> PrimaryExtension(t) == Trim(entries[0])
    ensures Trim(entries[0]) == "" ==> PrimaryExtension(t) == ToLower(t.nombre)
    ensures Trim(entries[0]) != "" ==> ',' !in PrimaryExtension(t)
  {
    SplitJoin(entries, ',');
    FirstFieldIsSplitHead(t.extensiones, ',');
    TrimIsInfix(entries[0]);
  }

  /** The entry is not lowercased: a list starting `PDF,` gives `PDF`. */
  lemma PrimaryExtensionKeepsCase(t: TipoDocumento, rest: string)
    requires t.extensiones == "PDF" + [','] + rest
    ensures PrimaryExtension(t) == "PDF"
  {
    SplitFirst("PDF", ',', rest);
    FirstFieldIsSplitHead(t.extensiones, ',');
    TrimUnchanged("PDF");
  }

  /** Catalogs that accept documents, in input order. */
  function Permitting(catalogos: seq<Catalogo>): (r: seq<Catalogo>)
    ensures forall c :: c in r <==> c in catalogos && c.permiteDocumentos
    ensures Subseq(r, catalogos) && multiset(r) <= multiset(catalogos)
    ensures forall c :: multiset(r)[c] == if c.permiteDocumentos then multiset(catalogos)[c] else 0
  {
    var accepts := (c: Catalogo) => c.permiteDocumentos;
    var r := Filter(catalogos, accepts);
    FilterSubseq(catalogos, accepts);
    forall c: Catalogo ensures multiset(r)[c] == if c.permiteDocumentos then multiset(catalogos)[c] else 0 {
      FilterMultiplicity(catalogos, accepts, c);
    }
    r
  }

  /** `tipoDocumento.findMany({ where: { activo: true } })`, in table order. */
  function ActiveTypes(tipos: seq<TipoDocumento>): (r: seq<TipoDocumento>)
    ensures forall t :: t in r <==> t in tipos && t.activo
    ensures Subseq(r, tipos) && multiset(r) <= multiset(tipos)
    ensures forall t :: multiset(r)[t] == if t.activo then multiset(tipos)[t] else 0
  {
    var active := (t: TipoDocumento) => t.activo;
    var r := Filter(tipos, active);
    FilterSubseq(tipos, active);
    forall t: TipoDocumento ensures multiset(r)[t] == if t.activo then multiset(tipos)[t] else 0 {
      FilterMultiplicity(tipos, active, t);
    }
    r
  }

  function IdsOf(cs: seq<Catalogo>): (r: set<int>)
    ensures forall id :: id in r <==> exists c :: c in cs && c.id == id
  {
    set c | c in cs :: c.id
  }

  /** Sort key for `orderBy: { fecha_creacion: 'desc' }`. */
  function NewestFirst(d: Documento): Key
  {
    Key(-d.fechaCreacion, 0, "")
  }

  /** The active documents of the given catalogs, newest first; documents
      created at the same instant stay in table order. */
  function LoadedDocs(docs: seq<Documento>, ids: set<int>): (r: seq<Documento>)
    ensures forall d :: d in r <==> d in docs && d.catalogoId in ids && d.activo
    ensures SortedBy(r, NewestFirst)
    ensures multiset(r) <= multiset(docs)
  {
    var matching := Filter(docs, (d: Documento) => d.catalogoId in ids && d.activo);
    SortByKeySorted(matching, NewestFirst);
    SortByKey(matching, NewestFirst)
  }

  predicate OfType(d: Documento, catalogoId: int, tipoId: int)
  {
    d.catalogoId == catalogoId && d.tipoDocumentoId == Some(tipoId)
  }

  /** The first document of the list with that catalog and type: the one
      kept when the list is walked front to back and later ones are
      ignored. */
  function FirstOfType(loaded: seq<Documento>, catalogoId: int, tipoId: int): (r: Option<Documento>)
    ensures r.Some? ==> r.value in loaded && OfType(r.value, catalogoId, tipoId)
    ensures r.None? ==> forall d :: d in loaded ==> !OfType(d, catalogoId, tipoId)
  {
    if loaded == [] then None
    else
      var prev := FirstOfType(loaded[..|loaded| - 1], catalogoId, tipoId);
      var last := loaded[|loaded| - 1];
      assert loaded == loaded[..|loaded| - 1] + [last];
      if prev.Some? then prev
      else if OfType(last, catalogoId, tipoId) then Some(last)
      else None
  }

  /** On a newest-first list the document kept is at least as recent as
      every other document of that catalog and type. */
  lemma {:induction false} FirstOfTypeIsNewest(loaded: seq<Documento>, catalogoId: int, tipoId: int)
    requires SortedBy(loaded, NewestFirst)
    requires FirstOfType(loaded, catalogoId, tipoId).Some?
    ensures forall d :: d in loaded && OfType(d, catalogoId, tipoId) ==>
      d.fechaCreacion <= FirstOfType(loaded, catalogoId, tipoId).value.fechaCreacion
  {
    var n := |loaded|;
    var prefix := loaded[..n - 1];
    var last := loaded[n - 1];
    assert loaded == prefix + [last];
    var prev := FirstOfType(prefix, catalogoId, tipoId);
    if prev.Some? {
      assert SortedBy(prefix, NewestFirst) by {
        forall i, j | 0 <= i < j < |prefix| ensures KeyLe(NewestFirst(prefix[i]), NewestFirst(prefix[j])) {
          assert prefix[i] == loaded[i] && prefix[j] == loaded[j];
        }
      }
      FirstOfTypeIsNewest(prefix, catalogoId, tipoId);
      var k :| 0 <= k < |prefix| && prefix[k] == prev.value;
      assert KeyLe(NewestFirst(loaded[k]), NewestFirst(loaded[n - 1]));
    }
  }

  /** One record: the type's id, name and primary extension, and the
      document found for it, if any. */
  function Record(t: TipoDocumento, doc: Option<DocRef>): Disponibilidad
  {
    Disponibilidad(
      t.id, t.nombre, doc.Some?, PrimaryExtension(t),
      if doc.Some? then Some(doc.value.id) else None,
      if doc.Some? then Some(doc.value.nombre) else None)
  }

  function RefOf(d: Option<Documento>): Option<DocRef>
  {
    if d.Some? then Some(DocRef(IntToString(d.value.id), d.value.nombre)) else None
  }

  /** The record of one type for one catalog. */
  function RecordOf(t: TipoDocumento, loaded: seq<Documento>, catalogoId: int): Disponibilidad
  {
    Record(t, RefOf(FirstOfType(loaded, catalogoId, t.id)))
  }

  /** The records of one catalog: one per type, in the order given. */
  function RecordsFor(types: seq<TipoDocumento>, loaded: seq<Documento>, catalogoId: int): (r: seq<Disponibilidad>)
    ensures |r| == |types|
    ensures forall i :: 0 <= i < |types| ==> r[i] == RecordOf(types[i], loaded, catalogoId)
  {
    Map(types, t => RecordOf(t, loaded, catalogoId))
  }

  /** `obtenerDisponibilidadParaCatalogos` as a value: keyed by the ids of
      the catalogs that accept documents, empty when there are none. */
  function AvailabilityMap(catalogos: seq<Catalogo>, tipos: seq<TipoDocumento>, docs: seq<Documento>): (m: map<int, seq<Disponibilidad>>)
    ensures m.Keys == IdsOf(Permitting(catalogos))
    ensures Permitting(catalogos) == [] ==> m == map[]
  {
    var conDocumentos := Permitting(catalogos);
    if |conDocumentos| == 0 then map[]
    else
      var ids := IdsOf(conDocumentos);
      var loaded := LoadedDocs(docs, ids);
      map id | id in ids :: RecordsFor(ActiveTypes(tipos), loaded, id)
  }

  /** The nested lookup `documentosMap` after the walk over `loaded`:
      catalog id, then type id (null included), to the first document. */
  function DocIndex(loaded: seq<Documento>): map<int, map<Option<int>, DocRef>>
  {
    if loaded == [] then map[]
    else
      var m := DocIndex(loaded[..|loaded| - 1]);
      var d := loaded[|loaded| - 1];
      var m1 := if d.catalogoId in m then m else m[d.catalogoId := map[]];
      if d.tipoDocumentoId in m1[d.catalogoId] then m1
      else m1[d.catalogoId := m1[d.catalogoId][d.tipoDocumentoId := DocRef(IntToString(d.id), d.nombre)]]
  }

  /** Looking a (catalog, type) pair up in the index finds exactly the first
      document of that pair. */
  lemma {:induction false} DocIndexLookup(loaded: seq<Documento>, catalogoId: int, tipoId: int)
    ensures Lookup(DocIndex(loaded), catalogoId, tipoId) == RefOf(FirstOfType(loaded, catalogoId, tipoId))
  {
    if loaded != [] {
      DocIndexLookup(loaded[..|loaded| - 1], catalogoId, tipoId);
    }
  }

  /** `documentosMap.get(catalogo.id)?.get(tipo.id)` */
  function Lookup(index: map<int, map<Option<int>, DocRef>>, catalogoId: int, tipoId: int): Option<DocRef>
  {
    if catalogoId in index && Some(tipoId) in index[catalogoId] then Some(index[catalogoId][Some(tipoId)]) else None
  }

  /** The walk over the loaded documents that fills `documentosMap`: a
      (catalog, type) pair is stored the first time it is seen and never
      overwritten. */
  method BuildIndex(documentos: seq<Documento>) returns (documentosMap: map<int, map<Option<int>, DocRef>>)
    ensures documentosMap == DocIndex(documentos)
  {
    documentosMap := map[];
    for i := 0 to |documentos|
      invariant documentosMap == DocIndex(documentos[..i])
    {
      var doc := documentos[i];
      assert documentos[..i + 1][..i] == documentos[..i];
      if doc.catalogoId !in documentosMap {
        documentosMap := documentosMap[doc.catalogoId := map[]];
      }
      if doc.tipoDocumentoId !in documentosMap[doc.catalogoId] {
        var inner := documentosMap[doc.catalogoId];
        documentosMap := documentosMap[doc.catalogoId := inner[doc.tipoDocumentoId := DocRef(IntToString(doc.id), doc.nombre)]];
      }
    }
    assert documentos[..|documentos|] == documentos;
  }

  /** The walk over the types for one catalog, pushing one record each. */
  method BuildRecords(tiposDocumento: seq<TipoDocumento>, documentos: seq<Documento>,
                      documentosMap: map<int, map<Option<int>, DocRef>>, catalogoId: int)
    returns (disponibilidadCatalogo: seq<Disponibilidad>)
    requires documentosMap == DocIndex(documentos)
    ensures disponibilidadCatalogo == RecordsFor(tiposDocumento, documentos, catalogoId)
  {
    disponibilidadCatalogo := [];
    for j := 0 to |tiposDocumento|
      invariant disponibilidadCatalogo == RecordsFor(tiposDocumento[..j], documentos, catalogoId)
    {
      var tipo := tiposDocumento[j];
      var documento := Lookup(documentosMap, catalogoId, tipo.id);
      DocIndexLookup(documentos, catalogoId, tipo.id);
      RecordsForSnoc(tiposDocumento, j, documentos, catalogoId);
      disponibilidadCatalogo := disponibilidadCatalogo + [Record(tipo, documento)];
    }
    assert tiposDocumento[..|tiposDocumento|] == tiposDocumento;
  }

  lemma RecordsForSnoc(types: seq<TipoDocumento>, j: int, loaded: seq<Documento>, catalogoId: int)
    requires 0 <= j < |types|
    ensures RecordsFor(types[..j + 1], loaded, catalogoId)
         == RecordsFor(types[..j], loaded, catalogoId) + [RecordOf(types[j], loaded, catalogoId)]
  {
    MapSnoc(types, j, t => RecordOf(t, loaded, catalogoId));
  }

  /** The walk over the catalogs that accept documents, setting each one's
      record list. */
  method BuildMap(conDocumentos: seq<Catalogo>, tiposDocumento: seq<TipoDocumento>, documentos: seq<Documento>,
                  documentosMap: map<int, map<Option<int>, DocRef>>)
    returns (disponibilidadPorCatalogo: map<int, seq<Disponibilidad>>)
    requires documentosMap == DocIndex(documentos)
    ensures disponibilidadPorCatalogo.Keys == IdsOf(conDocumentos)
    ensures forall id :: id in disponibilidadPorCatalogo ==>
      disponibilidadPorCatalogo[id] == RecordsFor(tiposDocumento, documentos, id)
  {
    disponibilidadPorCatalogo := map[];
    for i := 0 to |conDocumentos|
      invariant disponibilidadPorCatalogo.Keys == IdsOf(conDocumentos[..i])
      invariant forall id :: id in disponibilidadPorCatalogo ==>
        disponibilidadPorCatalogo[id] == RecordsFor(tiposDocumento, documentos, id)
    {
      var catalogo := conDocumentos[i];
      var disponibilidadCatalogo := BuildRecords(tiposDocumento, documentos, documentosMap, catalogo.id);
      assert conDocumentos[..i + 1] == conDocumentos[..i] + [catalogo];
      disponibilidadPorCatalogo := disponibilidadPorCatalogo[catalogo.id := disponibilidadCatalogo];
    }
    assert conDocumentos[..|conDocumentos|] == conDocumentos;
  }

  /** `obtenerDisponibilidadTiposDocumento`, step by step: a walk over the loaded documents
      filling the nested index, then one record list per catalog built by a
      walk over the types. It returns exactly `AvailabilityMap`. */
  method ObtenerDisponibilidad(catalogos: seq<Catalogo>, tipos: seq<TipoDocumento>, docs: seq<Documento>)
    returns (disponibilidadPorCatalogo: map<int, seq<Disponibilidad>>)
    ensures disponibilidadPorCatalogo == AvailabilityMap(catalogos, tipos, docs)
  {
    var conDocumentos := Permitting(catalogos);
    if |conDocumentos| == 0 {
      return map[];
    }
    var tiposDocumento := ActiveTypes(tipos);
    var documentos := LoadedDocs(docs, IdsOf(conDocumentos));
    var documentosMap := BuildIndex(documentos);
    disponibilidadPorCatalogo := BuildMap(conDocumentos, tiposDocumento, documentos, documentosMap);
  }

  /** Every catalog that accepts documents gets one record per active type,
      in the order the types were loaded. */
  lemma OneRecordPerActiveType(catalogos: seq<Catalogo>, tipos: seq<TipoDocumento>, docs: seq<Documento>, id: int)
    requires id in AvailabilityMap(catalogos, tipos, docs)
    ensures |AvailabilityMap(catalogos, tipos, docs)[id]| == |ActiveTypes(tipos)|
    ensures forall i :: 0 <= i < |ActiveTypes(tipos)| ==>
      AvailabilityMap(catalogos, tipos, docs)[id][i].tipoDocumentoId == ActiveTypes(tipos)[i].id
      && AvailabilityMap(catalogos, tipos, docs)[id][i].nombre == ActiveTypes(tipos)[i].nombre
      && AvailabilityMap(catalogos, tipos, docs)[id][i].extension == PrimaryExtension(ActiveTypes(tipos)[i])
  {
  }

  /** A record is available exactly when some active document of that
      catalog has that type; documents without a type never count. */
  lemma AvailableIff(catalogos: seq<Catalogo>, tipos: seq<TipoDocumento>, docs: seq<Documento>, id: int, i: int)
    requires id in AvailabilityMap(catalogos, tipos, docs)
    requires 0 <= i < |ActiveTypes(tipos)|
    ensures AvailabilityMap(catalogos, tipos, docs)[id][i].disponible <==>
      exists d :: d in docs && d.activo && OfType(d, id, ActiveTypes(tipos)[i].id)
  {
    var loaded := LoadedDocs(docs, IdsOf(Permitting(catalogos)));
    var t := ActiveTypes(tipos)[i];
    if exists d :: d in docs && d.activo && OfType(d, id, t.id) {
      var d :| d in docs && d.activo && OfType(d, id, t.id);
      assert d in loaded;
    }
  }

  /** The document a record names is the newest active document of that
      catalog and type: no older one overwrites it. */
  lemma NewestDocumentWins(catalogos: seq<Catalogo>, tipos: seq<TipoDocumento>, docs: seq<Documento>, id: int, i: int)
    requires id in AvailabilityMap(catalogos, tipos, docs)
    requires 0 <= i < |ActiveTypes(tipos)|
    requires AvailabilityMap(catalogos, tipos, docs)[id][i].disponible
    ensures exists d :: (d in docs && d.activo && OfType(d, id, ActiveTypes(tipos)[i].id)
      && AvailabilityMap(catalogos, tipos, docs)[id][i].documentoId == Some(IntToString(d.id))
      && AvailabilityMap(catalogos, tipos, docs)[id][i].documentoNombre == Some(d.nombre)
      && forall e :: e in docs && e.activo && OfType(e, id, ActiveTypes(tipos)[i].id) ==>
           e.fechaCreacion <= d.fechaCreacion)
  {
    var loaded := LoadedDocs(docs, IdsOf(Permitting(catalogos)));
    var t := ActiveTypes(tipos)[i];
    var first := FirstOfType(loaded, id, t.id);
    assert first.Some?;
    FirstOfTypeIsNewest(loaded, id, t.id);
    var d := first.value;
    forall e | e in docs && e.activo && OfType(e, id, t.id) ensures e.fechaCreacion <= d.fechaCreacion {
      assert e in loaded;
    }
  }
}
