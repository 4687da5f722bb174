// The communication-strategies service: the not-found guards in front of
// every write, the news writes that carry an image upload, the carousel
// view of the latest news and the counts.
module EstrategiasService {
  import opened Common
  import opened Strings
  import opened FilePaths
  import opened FileUpload
  import opened UrlUtils
  import opened EstrategiasRepository

  const ImageExtensions: seq<string> := [".jpg", ".jpeg", ".png", ".gif", ".webp"]

  const MaxImageSize: int := 5 * 1024 * 1024

  /** The upload a news image goes through. */
  function NoticiaUpload(imagen: UploadedFile, customName: string): (o: FileUploadOptions)
    ensures o.file == Some(imagen) && o.subdirectory == Some("noticias")
    ensures o.allowedExtensions == Some(ImageExtensions) && o.maxSize == Some(MaxImageSize)
  {
    FileUploadOptions(Some(imagen), Some("noticias"), Some(customName), Some(ImageExtensions), Some(MaxImageSize))
  }

  // ---- Guards ----

  /** `findNoticiaById`: NotFound for a missing id. */
  function FindNoticiaById(ns: seq<Noticia>, id: int): (r: Result<Noticia>)
    ensures r.Err? <==> forall i :: 0 <= i < |ns| ==> ns[i].id != id
    ensures r.Err? ==> r.error == NotFound
    ensures r.Ok? ==> r.value in ns && r.value.id == id
  {
    var found := FindRow(ns, NoticiaId, id);
    if found.None? then Err(NotFound) else Ok(found.value)
  }

  /** `findRedSocialById`: NotFound for a missing id. */
  function FindRedSocialById(rs: seq<RedSocial>, id: int): (r: Result<RedSocial>)
    ensures r.Err? <==> forall i :: 0 <= i < |rs| ==> rs[i].id != id
    ensures r.Err? ==> r.error == NotFound
    ensures r.Ok? ==> r.value in rs && r.value.id == id
  {
    var found := FindRow(rs, RedSocialId, id);
    if found.None? then Err(NotFound) else Ok(found.value)
  }

  /** `updateNoticia`: the lookup first; a missing id writes nothing. */
  method UpdateNoticia(repo: EstrategiasRepository, id: int, dto: UpdateNoticiaDto) returns (r: Result<Noticia>)
    requires repo.Valid()
    modifies repo
    ensures repo.Valid() && repo.redes == old(repo.redes)
    ensures FindNoticiaById(old(repo.noticias), id).Err? ==>
      r == Err(NotFound) && repo.noticias == old(repo.noticias)
    ensures FindNoticiaById(old(repo.noticias), id).Ok? ==>
      var u := ApplyNoticiaUpdate(FindNoticiaById(old(repo.noticias), id).value, dto);
      r == Ok(u) && repo.noticias == ReplaceRow(old(repo.noticias), NoticiaId, u)
  {
    var noticia := FindNoticiaById(repo.noticias, id);
    if noticia.Err? {
      return Err(NotFound);
    }
    r := repo.UpdateNoticia(id, dto);
  }

  /** `toggleNoticiaActivo`. */
  method ToggleNoticiaActivo(repo: EstrategiasRepository, id: int, activo: bool) returns (r: Result<Noticia>)
    requires repo.Valid()
    modifies repo
    ensures repo.Valid() && repo.redes == old(repo.redes)
    ensures FindNoticiaById(old(repo.noticias), id).Err? ==>
      r == Err(NotFound) && repo.noticias == old(repo.noticias)
    ensures FindNoticiaById(old(repo.noticias), id).Ok? ==>
      var u := FindNoticiaById(old(repo.noticias), id).value.(activo := activo);
      r == Ok(u) && repo.noticias == ReplaceRow(old(repo.noticias), NoticiaId, u)
  {
    var noticia := FindNoticiaById(repo.noticias, id);
    if noticia.Err? {
      return Err(NotFound);
    }
    r := repo.ToggleNoticiaActivo(id, activo);
  }

  /** `deleteNoticia`. */
  method DeleteNoticia(repo: EstrategiasRepository, id: int) returns (r: Result<()>)
    requires repo.Valid()
    modifies repo
    ensures repo.Valid() && repo.redes == old(repo.redes)
    ensures FindNoticiaById(old(repo.noticias), id).Err? ==>
      r == Err(NotFound) && repo.noticias == old(repo.noticias)
    ensures FindNoticiaById(old(repo.noticias), id).Ok? ==>
      r == Ok(()) && repo.noticias == RemoveRow(old(repo.noticias), NoticiaId, id)
  {
    var noticia := FindNoticiaById(repo.noticias, id);
    if noticia.Err? {
      return Err(NotFound);
    }
    var _ := repo.DeleteNoticia(id);
    r := Ok(());
  }

  /** `updateRedSocial`. */
  method UpdateRedSocial(repo: EstrategiasRepository, id: int, dto: UpdateRedSocialDto) returns (r: Result<RedSocial>)
    requires repo.Valid()
    modifies repo
    ensures repo.Valid() && repo.noticias == old(repo.noticias)
    ensures FindRedSocialById(old(repo.redes), id).Err? ==>
      r == Err(NotFound) && repo.redes == old(repo.redes)
    ensures FindRedSocialById(old(repo.redes), id).Ok? ==>
      var u := ApplyRedSocialUpdate(FindRedSocialById(old(repo.redes), id).value, dto);
      r == Ok(u) && repo.redes == ReplaceRow(old(repo.redes), RedSocialId, u)
  {
    var redSocial := FindRedSocialById(repo.redes, id);
    if redSocial.Err? {
      return Err(NotFound);
    }
    r := repo.UpdateRedSocial(id, dto);
  }

  /** `toggleRedSocialActivo`. */
  method ToggleRedSocialActivo(repo: EstrategiasRepository, id: int, activo: bool) returns (r: Result<RedSocial>)
    requires repo.Valid()
    modifies repo
    ensures repo.Valid() && repo.noticias == old(repo.noticias)
    ensures FindRedSocialById(old(repo.redes), id).Err? ==>
      r == Err(NotFound) && repo.redes == old(repo.redes)
    ensures FindRedSocialById(old(repo.redes), id).Ok? ==>
      var u := FindRedSocialById(old(repo.redes), id).value.(activo := activo);
      r == Ok(u) && repo.redes == ReplaceRow(old(repo.redes), RedSocialId, u)
  {
    var redSocial := FindRedSocialById(repo.redes, id);
    if redSocial.Err? {
      return Err(NotFound);
    }
    r := repo.ToggleRedSocialActivo(id, activo);
  }

  /** `deleteRedSocial`. */
  method DeleteRedSocial(repo: EstrategiasRepository, id: int) returns (r: Result<()>)
    requires repo.Valid()
    modifies repo
    ensures repo.Valid() && repo.noticias == old(repo.noticias)
    ensures FindRedSocialById(old(repo.redes), id).Err? ==>
      r == Err(NotFound) && repo.redes == old(repo.redes)
    ensures FindRedSocialById(old(repo.redes), id).Ok? ==>
      r == Ok(()) && repo.redes == RemoveRow(old(repo.redes), RedSocialId, id)
  {
    var redSocial := FindRedSocialById(repo.redes, id);
    if redSocial.Err? {
      return Err(NotFound);
    }
    var _ := repo.DeleteRedSocial(id);
    r := Ok(());
  }

  // ---- Writes with an image ----

  /** `createNoticiaWithImage`: with an image, the image is uploaded under
      the title and its relative path replaces the DTO's `imagen_url`; a
      rejected upload creates nothing. Without an image the DTO's
      `imagen_url` is kept and nothing is uploaded. */
  method CreateNoticiaWithImage(repo: EstrategiasRepository, store: FileStore, dto: CreateNoticiaDto,
                                imagen: Option<UploadedFile>, id: int, now: int, timestamp: nat, uuid: string)
    returns (r: Result<Noticia>)
    requires repo.Valid() && FindRow(repo.noticias, NoticiaId, id).None?
    modifies repo, store
    ensures repo.Valid() && repo.redes == old(repo.redes)
    ensures imagen.None? ==>
      r == Ok(NewNoticia(dto, id, now))
      && repo.noticias == old(repo.noticias) + [r.value] && store.files == old(store.files)
    ensures imagen.Some? ==>
      var options := NoticiaUpload(imagen.value, dto.titulo);
      if CheckUpload(options).Err? then
        r == Err(CheckUpload(options).error)
        && repo.noticias == old(repo.noticias) && store.files == old(store.files)
      else
        var info := UploadInfo(store.uploadDir, options, CheckUpload(options).value, timestamp, uuid);
        r == Ok(NewNoticia(dto.(imagenUrl := Some(info.relativePath)), id, now))
        && repo.noticias == old(repo.noticias) + [r.value]
        && store.files == old(store.files)[info.absolutePath := info.size]
  {
    var imagenUrl := dto.imagenUrl;
    if imagen.Some? {
      var uploaded := store.UploadFile(NoticiaUpload(imagen.value, dto.titulo), timestamp, uuid);
      if uploaded.Err? {
        return Err(uploaded.error);
      }
      imagenUrl := Some(uploaded.value.relativePath);
    }
    var noticia := repo.CreateNoticia(dto.(imagenUrl := imagenUrl), id, now);
    r := Ok(noticia);
  }

  /** The files left after the stored image of `n`, if it has one, is
      deleted. */
  function WithoutImage(files: map<string, int>, uploadDir: string, n: Noticia): (r: map<string, int>)
    ensures TruthyStr(n.imagenUrl) ==> ResolveFilePath(uploadDir, n.imagenUrl.value) !in r
    ensures forall p :: p in r <==> p in files && !(TruthyStr(n.imagenUrl) && p == ResolveFilePath(uploadDir, n.imagenUrl.value))
  {
    if TruthyStr(n.imagenUrl) then files - {ResolveFilePath(uploadDir, n.imagenUrl.value)} else files
  }

  /** `updateNoticiaWithImage` as written: with an image, the stored image
      is deleted first and the new one uploaded after, so an upload the
      checks reject leaves the row pointing at a deleted image. Without an
      image nothing is uploaded or deleted. */
  method UpdateNoticiaWithImage(repo: EstrategiasRepository, store: FileStore, id: int, dto: UpdateNoticiaDto,
                                imagen: Option<UploadedFile>, timestamp: nat, uuid: string)
    returns (r: Result<Noticia>)
    requires repo.Valid()
    modifies repo, store
    ensures repo.Valid() && repo.redes == old(repo.redes)
    ensures FindNoticiaById(old(repo.noticias), id).Err? ==>
      r == Err(NotFound) && repo.noticias == old(repo.noticias) && store.files == old(store.files)
    ensures FindNoticiaById(old(repo.noticias), id).Ok? && imagen.None? ==>
      var u := ApplyNoticiaUpdate(FindNoticiaById(old(repo.noticias), id).value, dto);
      r == Ok(u) && repo.noticias == ReplaceRow(old(repo.noticias), NoticiaId, u)
      && store.files == old(store.files)
    ensures FindNoticiaById(old(repo.noticias), id).Ok? && imagen.Some? ==>
      var n := FindNoticiaById(old(repo.noticias), id).value;
      var options := NoticiaUpload(imagen.value, OrElse(dto.titulo, n.titulo));
      if CheckUpload(options).Err? then
        r == Err(CheckUpload(options).error) && repo.noticias == old(repo.noticias)
        && store.files == WithoutImage(old(store.files), store.uploadDir, n)
      else
        var info := UploadInfo(store.uploadDir, options, CheckUpload(options).value, timestamp, uuid);
        var u := ApplyNoticiaUpdate(n, dto.(imagenUrl := Some(info.relativePath)));
        r == Ok(u) && repo.noticias == ReplaceRow(old(repo.noticias), NoticiaId, u)
        && store.files == WithoutImage(old(store.files), store.uploadDir, n)[info.absolutePath := info.size]
  {
    var found := FindNoticiaById(repo.noticias, id);
    if found.Err? {
      return Err(NotFound);
    }
    var noticia := found.value;
    var data := dto;
    if imagen.Some? {
      if TruthyStr(noticia.imagenUrl) {
        var _ := store.DeleteFile(noticia.imagenUrl.value);
      }
      var uploaded := store.UploadFile(NoticiaUpload(imagen.value, OrElse(dto.titulo, noticia.titulo)), timestamp, uuid);
      if uploaded.Err? {
        return Err(uploaded.error);
      }
      data := data.(imagenUrl := Some(uploaded.value.relativePath));
    }
    r := repo.UpdateNoticia(id, data);
  }

  /** `updateNoticiaWithImage` with the upload checked before the stored
      image is deleted: a rejected image writes nothing at all. */
  method UpdateNoticiaWithImageChecked(repo: EstrategiasRepository, store: FileStore, id: int, dto: UpdateNoticiaDto,
                                       imagen: Option<UploadedFile>, timestamp: nat, uuid: string)
    returns (r: Result<Noticia>)
    requires repo.Valid()
    modifies repo, store
    ensures repo.Valid() && repo.redes == old(repo.redes)
    ensures r.Err? ==> repo.noticias == old(repo.noticias) && store.files == old(store.files)
    ensures FindNoticiaById(old(repo.noticias), id).Err? ==> r == Err(NotFound)
    ensures FindNoticiaById(old(repo.noticias), id).Ok? && imagen.None? ==>
      var u := ApplyNoticiaUpdate(FindNoticiaById(old(repo.noticias), id).value, dto);
      r == Ok(u) && repo.noticias == ReplaceRow(old(repo.noticias), NoticiaId, u)
      && store.files == old(store.files)
    ensures FindNoticiaById(old(repo.noticias), id).Ok? && imagen.Some? ==>
      var n := FindNoticiaById(old(repo.noticias), id).value;
      var options := NoticiaUpload(imagen.value, OrElse(dto.titulo, n.titulo));
      if CheckUpload(options).Err? then r == Err(CheckUpload(options).error)
      else
        var info := UploadInfo(store.uploadDir, options, CheckUpload(options).value, timestamp, uuid);
        var u := ApplyNoticiaUpdate(n, dto.(imagenUrl := Some(info.relativePath)));
        r == Ok(u) && repo.noticias == ReplaceRow(old(repo.noticias), NoticiaId, u)
        && store.files == WithoutImage(old(store.files), store.uploadDir, n)[info.absolutePath := info.size]
  {
    var found := FindNoticiaById(repo.noticias, id);
    if found.Err? {
      return Err(NotFound);
    }
    var noticia := found.value;
    var data := dto;
    if imagen.Some? {
      var options := NoticiaUpload(imagen.value, OrElse(dto.titulo, noticia.titulo));
      var accepted := CheckUpload(options);
      if accepted.Err? {
        return Err(accepted.error);
      }
      if TruthyStr(noticia.imagenUrl) {
        var _ := store.DeleteFile(noticia.imagenUrl.value);
      }
      var uploaded := store.UploadFile(options, timestamp, uuid);
      data := data.(imagenUrl := Some(uploaded.value.relativePath));
    }
    r := repo.UpdateNoticia(id, data);
  }

  /** As written, updating a news item that has a stored image with an
      image whose extension is outside the list (such as `x.exe`, see
      `ExtnameOfDottedName`) deletes the stored image and then fails the upload
      check, while the row keeps pointing at the deleted file. */
  lemma RejectedImageLosesStoredImage(files: map<string, int>, uploadDir: string, n: Noticia, imagen: UploadedFile)
    requires TruthyStr(n.imagenUrl) && ResolveFilePath(uploadDir, n.imagenUrl.value) in files
    requires ToLower(Extname(imagen.originalname)) !in ImageExtensions
    ensures CheckUpload(NoticiaUpload(imagen, n.titulo)).Err?
    ensures ResolveFilePath(uploadDir, n.imagenUrl.value) !in WithoutImage(files, uploadDir, n)
    ensures WithoutImage(files, uploadDir, n) != files
  {
    assert ResolveFilePath(uploadDir, n.imagenUrl.value) in files;
  }

  // ---- Carousel ----

  const Months: seq<string> := ["Enero", "Febrero", "Marzo", "Abril", "Mayo", "Junio",
                                "Julio", "Agosto", "Septiembre", "Octubre", "Noviembre", "Diciembre"]

  /** `formatDateForCarousel`: the Spanish month name, a space, the year. */
  function FormatDateForCarousel(fecha: Fecha): (r: string)
    ensures StartsWith(r, Months[fecha.month] + " ")
    ensures EndsWith(r, IntToString(fecha.year))
  {
    var s := Months[fecha.month] + " " + IntToString(fecha.year);
    assert s[..|Months[fecha.month] + " "|] == Months[fecha.month] + " ";
    assert s[|s| - |IntToString(fecha.year)|..] == IntToString(fecha.year);
    s
  }

  /** The position of `x` in `xs`. */
  function IndexIn(xs: seq<string>, x: string): (r: Option<nat>)
    ensures r.Some? ==> r.value < |xs| && xs[r.value] == x
    ensures r.None? ==> x !in xs
  {
    if xs == [] then None
    else if xs[0] == x then Some(0)
    else
      var r := IndexIn(xs[1..], x);
      if r.Some? then Some(r.value + 1) else None
  }

  lemma {:induction false} IndexInNoDup(xs: seq<string>, k: nat)
    requires NoDup(xs) && k < |xs|
    ensures IndexIn(xs, xs[k]) == Some(k)
  {
    if k > 0 {
      assert xs[0] != xs[k];
      assert NoDup(xs[1..]);
      IndexInNoDup(xs[1..], k - 1);
    }
  }

  /** Reads a carousel date back: a month name, one space, an integer. */
  function ParseCarouselDate(s: string): (r: Option<(MonthIndex, int)>)
    ensures r.Some? ==> Split(s, ' ')[0] == Months[r.value.0]
  {
    var parts := Split(s, ' ');
    if |parts| != 2 then None
    else
      var month := IndexIn(Months, parts[0]);
      var year := JsParseInt(parts[1]);
      if month.None? || year.None? || month.value >= 12 then None
      else Some((month.value as MonthIndex, year.value))
  }

  lemma MonthsAreDistinctWords()
    ensures NoDup(Months)
    ensures forall i :: 0 <= i < 12 ==> ' ' !in Months[i]
  {
  }

  lemma {:induction false} IntStringHasNoSpace(n: int)
    ensures ' ' !in IntToString(n)
  {
    var s := IntToString(n);
    forall i | 0 <= i < |s| ensures s[i] != ' ' {
      if n >= 0 {
        assert IsDigit(NatToString(n)[i]);
      } else if i > 0 {
        assert s[i] == NatToString(-n)[i - 1];
      }
    }
  }

  /** The carousel date gives back the month and the year it was made
      from. */
  lemma CarouselDateRoundTrip(fecha: Fecha)
    ensures ParseCarouselDate(FormatDateForCarousel(fecha)) == Some((fecha.month, fecha.year))
  {
    var name := Months[fecha.month];
    var year := IntToString(fecha.year);
    MonthsAreDistinctWords();
    IntStringHasNoSpace(fecha.year);
    assert FormatDateForCarousel(fecha) == Join([name, year], [' ']);
    SplitJoin([name, year], ' ');
    IndexInNoDup(Months, fecha.month);
    ParseIntOfIntString(fecha.year);
  }

  datatype NoticiaCarousel = NoticiaCarousel(
    id: int,
    titulo: string,
    fechaFormateada: string,
    descripcionCorta: string,
    imagenUrl: Option<string>,
    link: Option<string>,
    imagenAlt: string,
    url: Option<string>,
    fechaPublicacion: Fecha)

  /** `mapToNoticiaCarouselDto`: the title doubles as the image's alt text,
      `url` is the row's `link` (the detail path it computes is unused) and
      the image URL is the public URL of the stored path. */
  function ToCarousel(baseUrl: string, n: Noticia): (c: NoticiaCarousel)
    ensures c.imagenAlt == c.titulo == n.titulo
    ensures c.url == c.link == n.link
    ensures c.imagenUrl == GetFileUrl(baseUrl, n.imagenUrl)
    ensures ParseCarouselDate(c.fechaFormateada) == Some((n.fechaPublicacion.month, n.fechaPublicacion.year))
  {
    CarouselDateRoundTrip(n.fechaPublicacion);
    NoticiaCarousel(n.id, n.titulo, FormatDateForCarousel(n.fechaPublicacion), n.descripcionCorta,
                    GetFileUrl(baseUrl, n.imagenUrl), n.link, n.titulo, n.link, n.fechaPublicacion)
  }

  /** Since neither the create nor the update writes `link`, a news item
      created through the service shows no carousel URL, and no later
      update gives it one. */
  lemma CarouselUrlNeverSet(baseUrl: string, dto: CreateNoticiaDto, id: int, now: int, updates: seq<UpdateNoticiaDto>)
    ensures ToCarousel(baseUrl, ApplyAll(NewNoticia(dto, id, now), updates)).url.None?
  {
    ApplyAllKeepsLink(NewNoticia(dto, id, now), updates);
  }

  function ApplyAll(n: Noticia, updates: seq<UpdateNoticiaDto>): Noticia
    decreases |updates|
  {
    if updates == [] then n else ApplyAll(ApplyNoticiaUpdate(n, updates[0]), updates[1..])
  }

  lemma {:induction false} ApplyAllKeepsLink(n: Noticia, updates: seq<UpdateNoticiaDto>)
    ensures ApplyAll(n, updates).link == n.link
    decreases |updates|
  {
    if updates != [] {
      ApplyAllKeepsLink(ApplyNoticiaUpdate(n, updates[0]), updates[1..]);
    }
  }

  /** `getNoticiasCarousel`: the latest active news as carousel entries. */
  function GetNoticiasCarousel(ns: seq<Noticia>, baseUrl: string, limit: nat): (r: seq<NoticiaCarousel>)
    ensures |r| <= limit
    ensures |r| == |GetNoticiasRecientes(ns, limit)|
    ensures forall i :: 0 <= i < |r| ==> r[i] == ToCarousel(baseUrl, GetNoticiasRecientes(ns, limit)[i])
  {
    Map(GetNoticiasRecientes(ns, limit), n => ToCarousel(baseUrl, n))
  }

  /** `countNoticias`: no filter when `activo` is undefined. */
  function CountNoticiasService(ns: seq<Noticia>, activo: Option<bool>): (n: nat)
    ensures activo.None? ==> n == |ns|
    ensures activo.Some? ==> n == CountNoticias(ns, activo)
    ensures activo.Some? ==> n + CountNoticias(ns, Some(!activo.value)) == |ns|
  {
    NoticiasCountSplit(ns);
    CountNoticias(ns, activo)
  }

  /** `countRedesSociales`: no filter when `activo` is undefined. */
  function CountRedesSocialesService(rs: seq<RedSocial>, activo: Option<bool>): (n: nat)
    ensures activo.None? ==> n == |rs|
    ensures activo.Some? ==> n + CountRedesSociales(rs, Some(!activo.value)) == |rs|
  {
    RedesCountSplit(rs);
    CountRedesSociales(rs, activo)
  }
}
