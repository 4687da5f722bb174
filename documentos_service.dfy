// The document service: the catalog guards of create and update, the row
// each of them writes, the order of the file operations, the soft delete
// and the search guard.
module DocumentosService {
  import opened Common
  import opened Strings
  import opened Schema
  import opened FilePaths
  import opened FileUpload
  import opened DocumentosRepository

  /** The extensions a document upload accepts. */
  const DocumentExtensions: seq<string> :=
    [".pdf", ".doc", ".docx", ".xls", ".xlsx", ".ppt", ".pptx", ".txt", ".csv", ".json", ".xml", ".zip", ".rar", ".7z"]

  /** 50 MB. */
  const MaxDocumentSize: int := 50 * 1024 * 1024

  const Institucion := "Gobierno del Estado de Morelos"

  datatype CreateDocumentoDto = CreateDocumentoDto(
    nombre: string,
    descripcion: Option<string>,
    catalogoId: int,
    tipoDocumentoId: Option<int>,
    fechaPublicacion: Option<int>,
    ejercicioFiscal: Option<int>,
    periodicidad: Option<string>,
    institucionEmisora: Option<string>)

  /** The fields of an update; `None` is a field the request leaves out.
      `fechaPublicacion` is `Some(None)` for an empty date. */
  datatype UpdateDocumentoDto = UpdateDocumentoDto(
    nombre: Option<string>,
    descripcion: Option<string>,
    ejercicioFiscal: Option<int>,
    fechaPublicacion: Option<Option<int>>,
    catalogoId: Option<int>,
    tipoDocumentoId: Option<int>,
    activo: Option<bool>)

  /** The catalog a document is filed under must exist and accept
      documents: NotFound before BadRequest. */
  function CatalogCheck(catalogs: seq<Catalogo>, catalogoId: int): (r: Result<Catalogo>)
    ensures (forall c :: c in catalogs ==> c.id != catalogoId) ==> r == Err(NotFound)
    ensures FindCatalogo(catalogs, catalogoId).Some? && !FindCatalogo(catalogs, catalogoId).value.permiteDocumentos
      ==> r == Err(BadRequest("catalog"))
    ensures r.Ok? ==> r.value in catalogs && r.value.id == catalogoId && r.value.permiteDocumentos
    ensures r.Ok? || r == Err(NotFound) || r == Err(BadRequest("catalog"))
  {
    var found := FindCatalogo(catalogs, catalogoId);
    if found.None? then Err(NotFound)
    else if !found.value.permiteDocumentos then Err(BadRequest("catalog"))
    else Ok(found.value)
  }

  /** The upload a document write asks for: into `catalogo-<id>`, named
      after the document, with the document extensions and the 50 MB
      limit. */
  function DocumentUpload(archivo: Option<UploadedFile>, catalogoId: int, nombre: Option<string>): FileUploadOptions
  {
    FileUploadOptions(archivo, Some("catalogo-" + IntToString(catalogoId)), nombre,
                      Some(DocumentExtensions), Some(MaxDocumentSize))
  }

  /** The row `createWithFile` inserts. */
  function NewDocumento(dto: CreateDocumentoDto, info: UploadedFileInfo, userId: int, currentYear: int,
                        id: int, now: int): (d: Documento)
    ensures d.institucionEmisora == Institucion
    ensures d.ejercicioFiscal == (if TruthyId(dto.ejercicioFiscal) then dto.ejercicioFiscal.value else currentYear)
    ensures d.rutaArchivo == info.relativePath && d.extension == RemoveFirst(info.extension, '.')
    ensures forall i :: 0 <= i < |d.pesoArchivo| ==> IsDigit(d.pesoArchivo[i])
    ensures DigitsValue(d.pesoArchivo) == info.size
    ensures d.tipoDocumentoId.Some? <==> TruthyId(dto.tipoDocumentoId)
    ensures d.activo && d.usuarioModifId.None? && d.catalogoId == dto.catalogoId
  {
    DigitsValueOfNatToString(info.size);
    Documento(
      id, dto.nombre, dto.descripcion, dto.catalogoId,
      if TruthyId(dto.tipoDocumentoId) then dto.tipoDocumentoId else None,
      if TruthyId(dto.ejercicioFiscal) then dto.ejercicioFiscal.value else currentYear,
      dto.periodicidad, Institucion, info.relativePath, RemoveFirst(info.extension, '.'),
      NatToString(info.size), dto.fechaPublicacion, now, true, userId, None)
  }

  /** Removing the first '.' of a dotted extension leaves the rest. */
  lemma RemoveLeadingDot(e: string)
    requires e != [] && e[0] == '.' && '.' !in e[1..]
    ensures RemoveFirst(e, '.') == e[1..]
    ensures "." + RemoveFirst(e, '.') == e
  {
    assert IndexOf(e, '.') == Some(0);
  }

  /** Lowercasing keeps the dots where they are. */
  lemma LowerKeepsDots(x: string)
    requires x != [] && x[0] == '.' && '.' !in x[1..]
    ensures ToLower(x) != [] && ToLower(x)[0] == '.' && '.' !in ToLower(x)[1..]
  {
    var e := ToLower(x);
    forall i | 1 <= i < |e| ensures e[i] != '.' {
      assert x[i] == x[1..][i - 1];
    }
  }

  /** The extension stored for an upload is the checked one without its
      dot, and holds no other dot. */
  lemma StoredExtension(originalName: string)
    ensures var e := ToLower(Extname(originalName));
      e == [] || ("." + RemoveFirst(e, '.') == e && '.' !in RemoveFirst(e, '.'))
  {
    var x := Extname(originalName);
    if x != [] {
      LowerKeepsDots(x);
      RemoveLeadingDot(ToLower(x));
    }
  }

  /** The insert's `connect` to a document type succeeds: it is written
      only for a truthy `tipo_documento_id`, and then that type must
      exist. */
  predicate TipoConnects(tipos: seq<TipoDocumento>, dto: CreateDocumentoDto)
  {
    !TruthyId(dto.tipoDocumentoId) || exists t :: t in tipos && t.id == dto.tipoDocumentoId.value
  }

  /** `createWithFile`: the catalog guard, then the upload, then the
      insert; a failed guard or a rejected upload writes nothing. A truthy
      `tipo_documento_id` naming no type is not checked beforehand: the
      insert fails after the upload, and the uploaded file stays. */
  method CreateWithFile(catalogs: seq<Catalogo>, tipos: seq<TipoDocumento>, docs: DocumentTable,
                        store: FileStore, dto: CreateDocumentoDto,
                        archivo: Option<UploadedFile>, userId: int, currentYear: int, now: int,
                        timestamp: nat, uuid: string, newId: int)
    returns (r: Result<Documento>)
    requires docs.Valid() && FindDocumento(docs.rows, newId).None?
    modifies docs, store
    ensures docs.Valid()
    ensures var options := DocumentUpload(archivo, dto.catalogoId, Some(dto.nombre));
      if CatalogCheck(catalogs, dto.catalogoId).Err? then
        r == Err(CatalogCheck(catalogs, dto.catalogoId).error)
        && docs.rows == old(docs.rows) && store.files == old(store.files)
      else if CheckUpload(options).Err? then
        r == Err(CheckUpload(options).error) && docs.rows == old(docs.rows) && store.files == old(store.files)
      else
        var info := UploadInfo(store.uploadDir, options, CheckUpload(options).value, timestamp, uuid);
        store.files == old(store.files)[info.absolutePath := info.size]
        && if !TipoConnects(tipos, dto) then
          r == Err(ConnectFailed) && docs.rows == old(docs.rows)
        else
          r == Ok(NewDocumento(dto, info, userId, currentYear, newId, now))
          && docs.rows == old(docs.rows) + [r.value]
  {
    var catalogo := CatalogCheck(catalogs, dto.catalogoId);
    if catalogo.Err? {
      return Err(catalogo.error);
    }
    var uploaded := store.UploadFile(DocumentUpload(archivo, dto.catalogoId, Some(dto.nombre)), timestamp, uuid);
    if uploaded.Err? {
      return Err(uploaded.error);
    }
    if !TipoConnects(tipos, dto) {
      return Err(ConnectFailed);
    }
    var d := NewDocumento(dto, uploaded.value, userId, currentYear, newId, now);
    docs.Create(d);
    r := Ok(d);
  }

  /** The guards of `updateWithFile`: the document must exist, and a
      truthy `catalogo_id` must name a catalog that accepts documents. On
      success, the stored document. */
  function UpdateCheck(rows: seq<Documento>, catalogs: seq<Catalogo>, id: int, dto: UpdateDocumentoDto)
    : (r: Result<Documento>)
    ensures FindDocumento(rows, id).None? ==> r == Err(NotFound)
    ensures r.Ok? <==> (FindDocumento(rows, id).Some?
      && (TruthyId(dto.catalogoId) ==> CatalogCheck(catalogs, dto.catalogoId.value).Ok?))
    ensures r.Ok? ==> r.value == FindDocumento(rows, id).value
  {
    var found := FindDocumento(rows, id);
    if found.None? then Err(NotFound)
    else if TruthyId(dto.catalogoId) && CatalogCheck(catalogs, dto.catalogoId.value).Err? then
      Err(CatalogCheck(catalogs, dto.catalogoId.value).error)
    else Ok(found.value)
  }

  /** The update's `connect` to a catalog succeeds: it is written for any
      given `catalogo_id`, and then that catalog must exist. The guard
      above checks truthy ids only, so a `catalogo_id` of 0 reaches the
      `connect` unchecked. */
  predicate CatalogConnects(catalogs: seq<Catalogo>, dto: UpdateDocumentoDto)
  {
    dto.catalogoId.None? || FindCatalogo(catalogs, dto.catalogoId.value).Some?
  }

  /** The guards of `updateWithFile` with the `connect` target checked as
      well: a given `catalogo_id` that names no catalog is NotFound before
      anything is written. It differs from `UpdateCheck` only for a
      `catalogo_id` of 0. */
  function UpdateGuard(rows: seq<Documento>, catalogs: seq<Catalogo>, id: int, dto: UpdateDocumentoDto)
    : (r: Result<Documento>)
    ensures r.Ok? <==> UpdateCheck(rows, catalogs, id, dto).Ok? && CatalogConnects(catalogs, dto)
    ensures UpdateCheck(rows, catalogs, id, dto).Ok? && !CatalogConnects(catalogs, dto) ==> r == Err(NotFound)
    ensures dto.catalogoId != Some(0) ==> r == UpdateCheck(rows, catalogs, id, dto)
    ensures r.Ok? ==> r.value == FindDocumento(rows, id).value
  {
    var check := UpdateCheck(rows, catalogs, id, dto);
    if check.Ok? && !CatalogConnects(catalogs, dto) then Err(NotFound) else check
  }

  /** The row an update writes: the fields the request gives, the new
      file's fields when a file was uploaded, and the modifying user. */
  function ApplyUpdate(doc: Documento, dto: UpdateDocumentoDto, userId: int, info: Option<UploadedFileInfo>)
    : Documento
  {
    doc.(
      nombre := Patch(doc.nombre, dto.nombre),
      descripcion := if dto.descripcion.Some? then dto.descripcion else doc.descripcion,
      ejercicioFiscal := Patch(doc.ejercicioFiscal, dto.ejercicioFiscal),
      fechaPublicacion := Patch(doc.fechaPublicacion, dto.fechaPublicacion),
      catalogoId := Patch(doc.catalogoId, dto.catalogoId),
      activo := Patch(doc.activo, dto.activo),
      usuarioModifId := Some(userId),
      rutaArchivo := if info.Some? then info.value.relativePath else doc.rutaArchivo,
      extension := if info.Some? then RemoveFirst(info.value.extension, '.') else doc.extension,
      pesoArchivo := if info.Some? then NatToString(info.value.size) else doc.pesoArchivo)
  }

  /** An update writes only the fields the request gives (and the file
      fields only with a file), always the modifying user, and never the
      id, the document type, the creation data or the issuing body. */
  lemma UpdateOnlyGivenFields(doc: Documento, dto: UpdateDocumentoDto, userId: int, info: Option<UploadedFileInfo>)
    ensures var d := ApplyUpdate(doc, dto, userId, info);
      d.id == doc.id && d.tipoDocumentoId == doc.tipoDocumentoId
      && d.fechaCreacion == doc.fechaCreacion && d.usuarioCreacionId == doc.usuarioCreacionId
      && d.institucionEmisora == doc.institucionEmisora && d.periodicidad == doc.periodicidad
      && d.usuarioModifId == Some(userId)
      && (dto.nombre.None? ==> d.nombre == doc.nombre)
      && (dto.nombre.Some? ==> d.nombre == dto.nombre.value)
      && (dto.descripcion.None? ==> d.descripcion == doc.descripcion)
      && (dto.ejercicioFiscal.None? ==> d.ejercicioFiscal == doc.ejercicioFiscal)
      && (dto.fechaPublicacion.None? ==> d.fechaPublicacion == doc.fechaPublicacion)
      && (dto.catalogoId.None? ==> d.catalogoId == doc.catalogoId)
      && (dto.activo.None? ==> d.activo == doc.activo)
      && (info.None? ==> d.rutaArchivo == doc.rutaArchivo && d.extension == doc.extension
                         && d.pesoArchivo == doc.pesoArchivo)
  {
  }

  /** The update's upload: into the new catalog's folder when a truthy
      `catalogo_id` is given, else the document's own. */
  function UpdateUpload(doc: Documento, dto: UpdateDocumentoDto, archivo: Option<UploadedFile>): FileUploadOptions
  {
    DocumentUpload(archivo, if TruthyId(dto.catalogoId) then dto.catalogoId.value else doc.catalogoId, dto.nombre)
  }

  /** The files left after the old file of `doc`, if it has one, is
      deleted. */
  function WithoutOldFile(files: map<string, int>, uploadDir: string, doc: Documento): (r: map<string, int>)
    ensures doc.rutaArchivo != "" ==> ResolveFilePath(uploadDir, doc.rutaArchivo) !in r
    ensures r.Keys <= files.Keys
  {
    if doc.rutaArchivo != "" then files - {ResolveFilePath(uploadDir, doc.rutaArchivo)} else files
  }

  /** `updateWithFile` as written: a failed guard writes nothing; without a
      file only the row is written; with a file, the old file is deleted
      before the new one is checked, so a rejected upload leaves the row
      pointing at a deleted file, and an accepted one replaces the old file
      and the row. A `connect` to a missing catalog fails only at the row
      write, after the file steps. */
  method UpdateWithFileAsWritten(catalogs: seq<Catalogo>, docs: DocumentTable, store: FileStore, id: int,
                                 dto: UpdateDocumentoDto, archivo: Option<UploadedFile>, userId: int,
                                 timestamp: nat, uuid: string)
    returns (r: Result<Documento>)
    requires docs.Valid()
    modifies docs, store
    ensures docs.Valid()
    ensures UpdateCheck(old(docs.rows), catalogs, id, dto).Err? ==>
      r == UpdateCheck(old(docs.rows), catalogs, id, dto)
      && docs.rows == old(docs.rows) && store.files == old(store.files)
    ensures UpdateCheck(old(docs.rows), catalogs, id, dto).Ok? && archivo.None? ==>
      var doc := UpdateCheck(old(docs.rows), catalogs, id, dto).value;
      store.files == old(store.files)
      && if !CatalogConnects(catalogs, dto) then
        r == Err(ConnectFailed) && docs.rows == old(docs.rows)
      else
        r == Ok(ApplyUpdate(doc, dto, userId, None)) && RowReplaced(old(docs.rows), docs.rows, r.value)
    ensures UpdateCheck(old(docs.rows), catalogs, id, dto).Ok? && archivo.Some? ==>
      var doc := UpdateCheck(old(docs.rows), catalogs, id, dto).value;
      var options := UpdateUpload(doc, dto, archivo);
      if CheckUpload(options).Err? then
        r == Err(CheckUpload(options).error) && docs.rows == old(docs.rows)
        && store.files == WithoutOldFile(old(store.files), store.uploadDir, doc)
      else
        var info := UploadInfo(store.uploadDir, options, CheckUpload(options).value, timestamp, uuid);
        store.files == WithoutOldFile(old(store.files), store.uploadDir, doc)[info.absolutePath := info.size]
        && if !CatalogConnects(catalogs, dto) then
          r == Err(ConnectFailed) && docs.rows == old(docs.rows)
        else
          r == Ok(ApplyUpdate(doc, dto, userId, Some(info))) && RowReplaced(old(docs.rows), docs.rows, r.value)
  {
    var check := UpdateCheck(docs.rows, catalogs, id, dto);
    if check.Err? {
      return check;
    }
    var doc := check.value;
    var info: Option<UploadedFileInfo> := None;
    if archivo.Some? {
      if doc.rutaArchivo != "" {
        var _ := store.DeleteFile(doc.rutaArchivo);
      }
      var uploaded := store.UploadFile(UpdateUpload(doc, dto, archivo), timestamp, uuid);
      if uploaded.Err? {
        return Err(uploaded.error);
      }
      info := Some(uploaded.value);
    }
    if !CatalogConnects(catalogs, dto) {
      return Err(ConnectFailed);
    }
    r := docs.Replace(ApplyUpdate(doc, dto, userId, info));
  }

  /** `updateWithFile` with the `connect` target checked by the guards and
      the upload checked before the old file is deleted: a failed guard or
      a rejected upload writes nothing; a request without a file writes the
      row only; with a file, the old file is replaced by the new one and
      the row points at it. */
  method UpdateWithFile(catalogs: seq<Catalogo>, docs: DocumentTable, store: FileStore, id: int,
                        dto: UpdateDocumentoDto, archivo: Option<UploadedFile>, userId: int,
                        timestamp: nat, uuid: string)
    returns (r: Result<Documento>)
    requires docs.Valid()
    modifies docs, store
    ensures docs.Valid()
    ensures UpdateGuard(old(docs.rows), catalogs, id, dto).Err? ==>
      r == UpdateGuard(old(docs.rows), catalogs, id, dto)
      && docs.rows == old(docs.rows) && store.files == old(store.files)
    ensures UpdateGuard(old(docs.rows), catalogs, id, dto).Ok? && archivo.None? ==>
      var doc := UpdateGuard(old(docs.rows), catalogs, id, dto).value;
      r == Ok(ApplyUpdate(doc, dto, userId, None))
      && RowReplaced(old(docs.rows), docs.rows, r.value) && store.files == old(store.files)
    ensures UpdateGuard(old(docs.rows), catalogs, id, dto).Ok? && archivo.Some? ==>
      var doc := UpdateGuard(old(docs.rows), catalogs, id, dto).value;
      var options := UpdateUpload(doc, dto, archivo);
      if CheckUpload(options).Err? then
        r == Err(CheckUpload(options).error) && docs.rows == old(docs.rows) && store.files == old(store.files)
      else
        var info := UploadInfo(store.uploadDir, options, CheckUpload(options).value, timestamp, uuid);
        r == Ok(ApplyUpdate(doc, dto, userId, Some(info)))
        && RowReplaced(old(docs.rows), docs.rows, r.value)
        && store.files == WithoutOldFile(old(store.files), store.uploadDir, doc)[info.absolutePath := info.size]
  {
    var check := UpdateGuard(docs.rows, catalogs, id, dto);
    if check.Err? {
      return check;
    }
    var doc := check.value;
    var info: Option<UploadedFileInfo> := None;
    if archivo.Some? {
      var options := UpdateUpload(doc, dto, archivo);
      var accepted := CheckUpload(options);
      if accepted.Err? {
        return Err(accepted.error);
      }
      if doc.rutaArchivo != "" {
        var _ := store.DeleteFile(doc.rutaArchivo);
      }
      var uploaded := store.UploadFile(options, timestamp, uuid);
      info := Some(uploaded.value);
    }
    r := docs.Replace(ApplyUpdate(doc, dto, userId, info));
  }

  /** With `updateWithFile`'s order, updating a document that has a stored file
      with a refused file such as `x.exe` deletes the stored file and then
      fails: the row, left as it was, names a file that no longer exists.
      With the upload checked first, the same request changes nothing. */
  lemma DeleteBeforeUploadLosesFile(files: map<string, int>, uploadDir: string, doc: Documento,
                                    dto: UpdateDocumentoDto, file: UploadedFile)
    requires doc.rutaArchivo != "" && ResolveFilePath(uploadDir, doc.rutaArchivo) in files
    requires ToLower(Extname(file.originalname)) !in DocumentExtensions
    ensures CheckUpload(UpdateUpload(doc, dto, Some(file))).Err?
    ensures ResolveFilePath(uploadDir, doc.rutaArchivo) !in WithoutOldFile(files, uploadDir, doc)
    ensures WithoutOldFile(files, uploadDir, doc) != files
  {
    assert ResolveFilePath(uploadDir, doc.rutaArchivo) in files;
  }

  /** A `catalogo_id` of 0 passes `updateWithFile`'s guards, since 0 is
      falsy, and reaches the `connect` unchecked: with no catalog 0 the
      update fails only at the row write, after the file steps. The
      checked guards answer NotFound first. */
  lemma ZeroCatalogReachesConnect(rows: seq<Documento>, catalogs: seq<Catalogo>, id: int, dto: UpdateDocumentoDto)
    requires FindDocumento(rows, id).Some? && dto.catalogoId == Some(0)
    requires forall c :: c in catalogs ==> c.id != 0
    ensures UpdateCheck(rows, catalogs, id, dto).Ok? && !CatalogConnects(catalogs, dto)
    ensures UpdateGuard(rows, catalogs, id, dto) == Err(NotFound)
  {
  }

  /** `remove`: NotFound for a missing document, else the soft delete. */
  method Remove(docs: DocumentTable, id: int) returns (r: Result<Documento>)
    requires docs.Valid()
    modifies docs
    ensures docs.Valid()
    ensures FindDocumento(old(docs.rows), id).None? ==> r == Err(NotFound) && docs.rows == old(docs.rows)
    ensures FindDocumento(old(docs.rows), id).Some? ==>
      r == Ok(FindDocumento(old(docs.rows), id).value.(activo := false))
      && DocumentUpdated(old(docs.rows), docs.rows, id, (d: Documento) => d.(activo := false))
  {
    var documento := docs.FindById(id);
    if documento.None? {
      return Err(NotFound);
    }
    r := docs.Delete(id);
  }

  /** `findOne`. */
  function FindOne(rows: seq<Documento>, id: int): (r: Result<Documento>)
    ensures r.Err? <==> forall d :: d in rows ==> d.id != id
    ensures r.Err? ==> r.error == NotFound
    ensures r.Ok? ==> r.value in rows && r.value.id == id
  {
    var found := FindDocumento(rows, id);
    if found.None? then Err(NotFound) else Ok(found.value)
  }

  /** `findByCatalogoId` of the service: NotFound for a missing catalog
      (active or not), else the requested window of the catalog's active
      documents, newest first unless another order is asked for. */
  function FindByCatalogo(catalogs: seq<Catalogo>, rows: seq<Documento>, catalogoId: int, skip: nat,
                          take: Option<nat>, orderBy: Option<DocumentoOrderBy>): (r: Result<seq<Documento>>)
    ensures r.Err? <==> forall c :: c in catalogs ==> c.id != catalogoId
    ensures r.Err? ==> r.error == NotFound
    ensures r.Ok? ==> IsPage(r.value, CatalogListing(rows, catalogoId, orderBy), skip, take)
    ensures r.Ok? ==> forall d :: d in r.value ==> d in rows && d.catalogoId == catalogoId && d.activo
  {
    if FindCatalogo(catalogs, catalogoId).None? then Err(NotFound)
    else Ok(FindByCatalogoId(rows, catalogoId, skip, take, orderBy))
  }

  /** `search`: a missing query or one shorter than two characters once
      trimmed is a BadRequest; otherwise the repository searches for the
      trimmed query. */
  function SearchDocuments(rows: seq<Documento>, query: Option<string>, catalogoId: Option<int>,
                           ejercicioFiscal: Option<int>, skip: nat, take: Option<nat>): (r: Result<seq<Documento>>)
    ensures r.Err? <==> query.None? || |Trim(query.value)| < 2
    ensures r.Err? ==> r.error.BadRequest?
    ensures r.Ok? ==> IsPage(r.value, SearchListing(rows, Trim(query.value), catalogoId, ejercicioFiscal), skip, take)
    ensures r.Ok? ==> forall d :: d in r.value ==>
      d in rows && SearchMatches(d, Trim(query.value), catalogoId, ejercicioFiscal)
  {
    if !TruthyStr(query) || |Trim(query.value)| < 2 then Err(BadRequest("query"))
    else Ok(Search(rows, Trim(query.value), catalogoId, ejercicioFiscal, skip, take))
  }
}
