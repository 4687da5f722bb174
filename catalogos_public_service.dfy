// The public catalog service: children, one catalog and the roots, each
// with the availability of its document types, and the list of active
// document types.
module CatalogosPublicService {
  import opened Common
  import opened Strings
  import opened Ordering
  import opened Schema
  import opened CatalogosRepository
  import opened Availability

  /** `CatalogoHijosResponseDto`. */
  datatype CatalogoDto = CatalogoDto(
    id: int,
    nombre: string,
    descripcion: Option<string>,
    nivel: int,
    orden: int,
    permiteDocumentos: bool,
    fechaCreacion: int,
    disponibilidadTiposDocumento: Option<seq<Disponibilidad>>)

  /** `mapearCatalogoADto`: an empty description is dropped; availability is
      attached only to a catalog that accepts documents when a map is
      supplied, an empty list when the map has no entry for it. */
  function MapCatalogoADto(c: Catalogo, m: Option<map<int, seq<Disponibilidad>>>): (r: CatalogoDto)
    ensures r.id == c.id && r.nombre == c.nombre && r.orden == c.orden && r.nivel == c.nivel
    ensures r.permiteDocumentos == c.permiteDocumentos && r.fechaCreacion == c.fechaCreacion
    ensures r.descripcion.Some? <==> TruthyStr(c.descripcion)
    ensures r.descripcion.Some? ==> r.descripcion == c.descripcion
    ensures r.disponibilidadTiposDocumento.Some? <==> c.permiteDocumentos && m.Some?
    ensures r.disponibilidadTiposDocumento.Some? && c.id in m.value ==> r.disponibilidadTiposDocumento.value == m.value[c.id]
    ensures r.disponibilidadTiposDocumento.Some? && c.id !in m.value ==> r.disponibilidadTiposDocumento.value == []
  {
    CatalogoDto(c.id, c.nombre,
      if TruthyStr(c.descripcion) then c.descripcion else None,
      c.nivel, c.orden, c.permiteDocumentos, c.fechaCreacion,
      if c.permiteDocumentos && m.Some? then Some(if c.id in m.value then m.value[c.id] else []) else None)
  }

  /** `hijos.map(c => mapearCatalogoADto(c, disponibilidad))` */
  function MapAll(cs: seq<Catalogo>, m: Option<map<int, seq<Disponibilidad>>>): (r: seq<CatalogoDto>)
    ensures |r| == |cs|
    ensures forall i :: 0 <= i < |cs| ==> r[i] == MapCatalogoADto(cs[i], m)
  {
    seq(|cs|, i requires 0 <= i < |cs| => MapCatalogoADto(cs[i], m))
  }

  function DtoOrdenNombre(d: CatalogoDto): Key
  {
    Key(d.orden, 0, d.nombre)
  }

  /** `findFirst({ where: { id, activo: true } })` */
  function FindActive(rows: seq<Catalogo>, id: int): (r: Option<Catalogo>)
    ensures r.Some? ==> r.value in rows && r.value.id == id && r.value.activo
    ensures r.None? ==> forall c :: c in rows && c.id == id ==> !c.activo
  {
    if rows == [] then None
    else if rows[0].id == id && rows[0].activo then Some(rows[0])
    else FindActive(rows[1..], id)
  }

  /** A list of catalogs mapped with the availability map computed from that
      list: the order and the catalogs are kept, and each one that accepts
      documents gets its entry of the availability map. */
  predicate MappedWithAvailability(r: seq<CatalogoDto>, cs: seq<Catalogo>, tipos: seq<TipoDocumento>,
                                   docs: seq<Documento>)
  {
    |r| == |cs|
    && (forall i :: 0 <= i < |cs| ==> r[i].id == cs[i].id && r[i].orden == cs[i].orden && r[i].nombre == cs[i].nombre)
    && (forall i :: 0 <= i < |cs| ==>
          (r[i].disponibilidadTiposDocumento.Some? <==> cs[i].permiteDocumentos)
          && (cs[i].permiteDocumentos ==>
                cs[i].id in AvailabilityMap(cs, tipos, docs)
                && r[i].disponibilidadTiposDocumento.value == AvailabilityMap(cs, tipos, docs)[cs[i].id]))
  }

  lemma MapAllWithAvailability(cs: seq<Catalogo>, tipos: seq<TipoDocumento>, docs: seq<Documento>)
    ensures MappedWithAvailability(MapAll(cs, Some(AvailabilityMap(cs, tipos, docs))), cs, tipos, docs)
  {
    var m := AvailabilityMap(cs, tipos, docs);
    forall i | 0 <= i < |cs| && cs[i].permiteDocumentos
      ensures cs[i].id in m
    {
      assert cs[i] in Permitting(cs);
    }
  }

  /** What a mapped catalog shows of each active type: one record per type,
      in the order the types were loaded, available exactly when an active
      document of that catalog has the type, and then naming the newest
      such document. */
  lemma ViewShowsAvailability(r: seq<CatalogoDto>, cs: seq<Catalogo>, tipos: seq<TipoDocumento>,
                              docs: seq<Documento>, i: int, k: int)
    requires MappedWithAvailability(r, cs, tipos, docs)
    requires 0 <= i < |r| && cs[i].permiteDocumentos
    requires 0 <= k < |ActiveTypes(tipos)|
    ensures |r[i].disponibilidadTiposDocumento.value| == |ActiveTypes(tipos)|
    ensures var rec := r[i].disponibilidadTiposDocumento.value[k];
      var t := ActiveTypes(tipos)[k];
      rec.tipoDocumentoId == t.id
      && (rec.disponible <==> exists d :: d in docs && d.activo && OfType(d, r[i].id, t.id))
      && (rec.disponible ==>
            exists d :: (d in docs && d.activo && OfType(d, r[i].id, t.id)
              && rec.documentoId == Some(IntToString(d.id))
              && rec.documentoNombre == Some(d.nombre)
              && forall e :: e in docs && e.activo && OfType(e, r[i].id, t.id) ==> e.fechaCreacion <= d.fechaCreacion))
  {
    var id := cs[i].id;
    OneRecordPerActiveType(cs, tipos, docs, id);
    AvailableIff(cs, tipos, docs, id, k);
    if r[i].disponibilidadTiposDocumento.value[k].disponible {
      NewestDocumentWins(cs, tipos, docs, id, k);
    }
  }

  /** Mapping a sorted list of catalogs keeps the order, and every entry
      stands for one of the catalogs. */
  lemma MappedKeepsOrder(cs: seq<Catalogo>, tipos: seq<TipoDocumento>, docs: seq<Documento>)
    requires SortedBy(cs, OrdenNombre)
    ensures var r := MapAll(cs, Some(AvailabilityMap(cs, tipos, docs)));
      && MappedWithAvailability(r, cs, tipos, docs)
      && SortedBy(r, DtoOrdenNombre)
      && forall d :: d in r ==> exists c :: c in cs && c.id == d.id
  {
    MapAllWithAvailability(cs, tipos, docs);
    var r := MapAll(cs, Some(AvailabilityMap(cs, tipos, docs)));
    forall d | d in r ensures exists c :: c in cs && c.id == d.id {
      var i :| 0 <= i < |r| && r[i] == d;
      assert cs[i] in cs;
    }
  }

  /** `obtenerHijosDeCatalogo`: NotFound unless the parent exists and is
      active; otherwise its active children by (orden, nombre), `[]` when
      there are none. */
  function ObtenerHijosDeCatalogo(rows: seq<Catalogo>, tipos: seq<TipoDocumento>, docs: seq<Documento>, id: int)
    : (r: Result<seq<CatalogoDto>>)
    ensures r.Err? <==> forall c :: c in rows && c.id == id ==> !c.activo
    ensures r.Err? ==> r.error == NotFound
    ensures r.Ok? ==> MappedWithAvailability(r.value, FindChildren(rows, id), tipos, docs)
    ensures r.Ok? ==> SortedBy(r.value, DtoOrdenNombre)
    ensures r.Ok? ==> forall d :: d in r.value ==>
      exists c :: c in rows && c.id == d.id && c.parentId == Some(id) && c.activo
  {
    if FindActive(rows, id).None? then Err(NotFound)
    else
      var hijos := FindChildren(rows, id);
      if |hijos| == 0 then Ok([])
      else
        MappedKeepsOrder(hijos, tipos, docs);
        Ok(MapAll(hijos, Some(AvailabilityMap(hijos, tipos, docs))))
  }

  /** `obtenerCatalogoPorId`: NotFound for a missing or inactive id;
      availability is computed only for a catalog that accepts documents. */
  function ObtenerCatalogoPorId(rows: seq<Catalogo>, tipos: seq<TipoDocumento>, docs: seq<Documento>, id: int)
    : (r: Result<CatalogoDto>)
    ensures r.Err? <==> forall c :: c in rows && c.id == id ==> !c.activo
    ensures r.Err? ==> r.error == NotFound
    ensures r.Ok? ==> r.value.id == id
    ensures r.Ok? ==> (r.value.disponibilidadTiposDocumento.Some? <==> r.value.permiteDocumentos)
    ensures r.Ok? ==> (FindActive(rows, id).Some? &&
      MappedWithAvailability([r.value], [FindActive(rows, id).value], tipos, docs))
  {
    match FindActive(rows, id)
    case None => Err(NotFound)
    case Some(c) =>
      var m := if c.permiteDocumentos then Some(AvailabilityMap([c], tipos, docs)) else None;
      MapSingleWithAvailability(c, tipos, docs);
      Ok(MapCatalogoADto(c, m))
  }

  /** One catalog mapped with the availability map of itself alone. */
  lemma MapSingleWithAvailability(c: Catalogo, tipos: seq<TipoDocumento>, docs: seq<Documento>)
    ensures var m := if c.permiteDocumentos then Some(AvailabilityMap([c], tipos, docs)) else None;
      MappedWithAvailability([MapCatalogoADto(c, m)], [c], tipos, docs)
  {
    var m := if c.permiteDocumentos then Some(AvailabilityMap([c], tipos, docs)) else None;
    if c.permiteDocumentos {
      MapAllWithAvailability([c], tipos, docs);
      assert MapAll([c], m)[0] == MapCatalogoADto(c, m);
    }
  }

  /** `obtenerCatalogoRaiz`: the active roots by (orden, nombre). */
  function ObtenerCatalogoRaiz(rows: seq<Catalogo>, tipos: seq<TipoDocumento>, docs: seq<Documento>)
    : (r: seq<CatalogoDto>)
    ensures MappedWithAvailability(r, FindRootCatalogs(rows), tipos, docs)
    ensures SortedBy(r, DtoOrdenNombre)
    ensures forall d :: d in r ==> exists c :: c in rows && c.id == d.id && c.parentId.None? && c.activo
  {
    var raices := FindRootCatalogs(rows);
    if |raices| == 0 then []
    else
      MappedKeepsOrder(raices, tipos, docs);
      MapAll(raices, Some(AvailabilityMap(raices, tipos, docs)))
  }

  /** `TipoDocumentoResponseDto`. */
  datatype TipoDocumentoDto = TipoDocumentoDto(
    id: int,
    nombre: string,
    descripcion: Option<string>,
    extension: string,
    extensiones: string,
    activo: bool)

  /** `mapearTipoDocumentoADto`: the same primary-extension rule as the
      availability records, with the full list kept verbatim. */
  function MapTipoDocumentoADto(t: TipoDocumento): (r: TipoDocumentoDto)
    ensures r.id == t.id && r.nombre == t.nombre && r.extensiones == t.extensiones && r.activo == t.activo
    ensures r.descripcion.Some? <==> TruthyStr(t.descripcion)
    ensures r.descripcion.Some? ==> r.descripcion == t.descripcion
    ensures r.extension == PrimaryExtension(t)
  {
    TipoDocumentoDto(t.id, t.nombre, if TruthyStr(t.descripcion) then t.descripcion else None,
      PrimaryExtension(t), t.extensiones, t.activo)
  }

  /** A type's listed extension is the one its availability records show. */
  lemma TipoExtensionMatchesRecords(cs: seq<Catalogo>, tipos: seq<TipoDocumento>, docs: seq<Documento>, id: int, i: int)
    requires id in AvailabilityMap(cs, tipos, docs)
    requires 0 <= i < |ActiveTypes(tipos)|
    ensures AvailabilityMap(cs, tipos, docs)[id][i].extension == MapTipoDocumentoADto(ActiveTypes(tipos)[i]).extension
  {
    OneRecordPerActiveType(cs, tipos, docs, id);
  }

  function ByNombre(t: TipoDocumento): Key
  {
    Key(0, 0, t.nombre)
  }

  /** The active types, by name. */
  function TiposByNombre(tipos: seq<TipoDocumento>): (r: seq<TipoDocumento>)
    ensures forall t :: t in r <==> t in tipos && t.activo
    ensures |r| == |ActiveTypes(tipos)|
    ensures SortedBy(r, ByNombre)
  {
    SortByKeySorted(ActiveTypes(tipos), ByNombre);
    SortByKey(ActiveTypes(tipos), ByNombre)
  }

  /** `obtenerTiposDocumento`: the active types by name, mapped. */
  function ObtenerTiposDocumento(tipos: seq<TipoDocumento>): (r: seq<TipoDocumentoDto>)
    ensures |r| == |TiposByNombre(tipos)|
    ensures forall i :: 0 <= i < |r| ==> r[i] == MapTipoDocumentoADto(TiposByNombre(tipos)[i])
  {
    Map(TiposByNombre(tipos), MapTipoDocumentoADto)
  }

  /** The listed types are exactly the active ones, ordered by name. */
  lemma TiposListed(tipos: seq<TipoDocumento>)
    ensures forall i :: 0 <= i < |ObtenerTiposDocumento(tipos)| ==>
      TiposByNombre(tipos)[i] in tipos && TiposByNombre(tipos)[i].activo
      && ObtenerTiposDocumento(tipos)[i].id == TiposByNombre(tipos)[i].id
    ensures forall i, j :: 0 <= i < j < |ObtenerTiposDocumento(tipos)| ==>
      StrLe(ObtenerTiposDocumento(tipos)[i].nombre, ObtenerTiposDocumento(tipos)[j].nombre)
  {
    var sorted := TiposByNombre(tipos);
    var listed := ObtenerTiposDocumento(tipos);
    forall i | 0 <= i < |listed|
      ensures sorted[i] in tipos && sorted[i].activo && listed[i].id == sorted[i].id
    {
      assert sorted[i] in sorted;
    }
    forall i, j | 0 <= i < j < |listed|
      ensures StrLe(listed[i].nombre, listed[j].nombre)
    {
      assert KeyLe(ByNombre(sorted[i]), ByNombre(sorted[j]));
    }
  }
}
