// Rows of the catalog, document-type and document tables. Timestamps are
// milliseconds since the epoch; nullable columns are `Option`s.
module Schema {
  import opened Common

  datatype Catalogo = Catalogo(
    id: int,
    nombre: string,
    descripcion: Option<string>,
    parentId: Option<int>,
    nivel: int,
    orden: int,
    activo: bool,
    permiteDocumentos: bool,
    fechaCreacion: int,
    usuarioCreacionId: Option<int>,
    usuarioModifId: Option<int>)

  datatype TipoDocumento = TipoDocumento(
    id: int,
    nombre: string,
    descripcion: Option<string>,
    extensiones: string,
    activo: bool,
    usuarioCreacionId: Option<int>)

  datatype Documento = Documento(
    id: int,
    nombre: string,
    descripcion: Option<string>,
    catalogoId: int,
    tipoDocumentoId: Option<int>,
    ejercicioFiscal: int,
    periodicidad: Option<string>,
    institucionEmisora: string,
    rutaArchivo: string,
    extension: string,
    pesoArchivo: string,
    fechaPublicacion: Option<int>,
    fechaCreacion: int,
    activo: bool,
    usuarioCreacionId: int,
    usuarioModifId: Option<int>)

  /** The primary key: no two rows share an id. */
  predicate UniqueCatalogIds(rows: seq<Catalogo>)
  {
    forall i, j :: 0 <= i < j < |rows| ==> rows[i].id != rows[j].id
  }

  predicate UniqueDocumentIds(rows: seq<Documento>)
  {
    forall i, j :: 0 <= i < j < |rows| ==> rows[i].id != rows[j].id
  }

  /** `findUnique({ where: { id } })`: the row with that id, whatever its
      `activo` flag. */
  function FindCatalogo(rows: seq<Catalogo>, id: int): (r: Option<Catalogo>)
    ensures r.Some? ==> r.value in rows && r.value.id == id
    ensures r.None? ==> forall c :: c in rows ==> c.id != id
  {
    if rows == [] then None
    else if rows[0].id == id then Some(rows[0])
    else FindCatalogo(rows[1..], id)
  }

  function FindDocumento(rows: seq<Documento>, id: int): (r: Option<Documento>)
    ensures r.Some? ==> r.value in rows && r.value.id == id
    ensures r.None? ==> forall d :: d in rows ==> d.id != id
  {
    if rows == [] then None
    else if rows[0].id == id then Some(rows[0])
    else FindDocumento(rows[1..], id)
  }

  /** Index of the row with a given id in a table with unique ids. */
  function CatalogIndex(rows: seq<Catalogo>, id: int): (k: nat)
    requires FindCatalogo(rows, id).Some?
    ensures k < |rows| && rows[k].id == id && rows[k] == FindCatalogo(rows, id).value
  {
    if rows[0].id == id then 0 else 1 + CatalogIndex(rows[1..], id)
  }

  function DocumentIndex(rows: seq<Documento>, id: int): (k: nat)
    requires FindDocumento(rows, id).Some?
    ensures k < |rows| && rows[k].id == id && rows[k] == FindDocumento(rows, id).value
  {
    if rows[0].id == id then 0 else 1 + DocumentIndex(rows[1..], id)
  }
}
