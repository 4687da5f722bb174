// The communication-strategies repository: the news table and the
// social-network table, their create/update/toggle/delete writes, the news
// listing (filter, search, order, page), the latest news and the counts.
module EstrategiasRepository {
  import opened Common
  import opened Strings
  import opened Ordering

  /** A month index as `Date.getMonth` returns it. */
  type MonthIndex = m: int | 0 <= m < 12

  /** A `DateTime` column: the instant in milliseconds, with the calendar
      year and month that `Date` computes for it in the server's zone. */
  datatype Fecha = Fecha(millis: int, year: int, month: MonthIndex)

  datatype Noticia = Noticia(
    id: int,
    titulo: string,
    descripcionCorta: string,
    contenido: string,
    imagenUrl: Option<string>,
    link: Option<string>,
    fechaPublicacion: Fecha,
    activo: bool,
    fechaCreacion: int)

  datatype CreateNoticiaDto = CreateNoticiaDto(
    titulo: string,
    descripcionCorta: string,
    contenido: string,
    imagenUrl: Option<string>,
    link: Option<string>,
    fechaPublicacion: Fecha,
    activo: Option<bool>)

  datatype UpdateNoticiaDto = UpdateNoticiaDto(
    titulo: Option<string>,
    descripcionCorta: Option<string>,
    contenido: Option<string>,
    imagenUrl: Option<string>,
    fechaPublicacion: Option<Fecha>,
    activo: Option<bool>)

  datatype RedSocial = RedSocial(
    id: int,
    nombre: string,
    url: string,
    descripcion: string,
    icono: string,
    activo: bool,
    orden: int)

  datatype CreateRedSocialDto = CreateRedSocialDto(
    nombre: string,
    url: string,
    icono: string,
    descripcion: string,
    activo: Option<bool>,
    orden: Option<int>)

  datatype UpdateRedSocialDto = UpdateRedSocialDto(
    nombre: Option<string>,
    url: Option<string>,
    icono: Option<string>,
    activo: Option<bool>,
    orden: Option<int>)

  function NoticiaId(n: Noticia): int { n.id }

  function RedSocialId(r: RedSocial): int { r.id }

  // ---- Rows by primary key ----

  predicate UniqueIds<T>(s: seq<T>, idOf: T -> int)
  {
    forall i, j :: 0 <= i < j < |s| ==> idOf(s[i]) != idOf(s[j])
  }

  /** `findUnique({ where: { id } })`. */
  function FindRow<T>(s: seq<T>, idOf: T -> int, id: int): (r: Option<T>)
    ensures r.Some? ==> r.value in s && idOf(r.value) == id
    ensures r.None? <==> forall i :: 0 <= i < |s| ==> idOf(s[i]) != id
  {
    if s == [] then None
    else if idOf(s[0]) == id then Some(s[0])
    else
      var r := FindRow(s[1..], idOf, id);
      assert forall i :: 1 <= i < |s| ==> s[i] == s[1..][i - 1];
      r
  }

  /** With unique ids, the lookup of a row's id finds that row. */
  lemma {:induction false} FindRowAt<T>(s: seq<T>, idOf: T -> int, k: nat)
    requires UniqueIds(s, idOf) && k < |s|
    ensures FindRow(s, idOf, idOf(s[k])) == Some(s[k])
  {
    if k > 0 {
      assert idOf(s[0]) != idOf(s[k]);
      assert UniqueIds(s[1..], idOf);
      FindRowAt(s[1..], idOf, k - 1);
    }
  }

  /** `update({ where: { id } })`: the row with the id of `x` becomes `x`. */
  function ReplaceRow<T>(s: seq<T>, idOf: T -> int, x: T): seq<T>
  {
    seq(|s|, i requires 0 <= i < |s| => if idOf(s[i]) == idOf(x) then x else s[i])
  }

  /** After a replacement, the lookup of the replaced id finds the new row,
      every other lookup is as before, and ids stay unique. */
  lemma ReplaceRowFacts<T>(s: seq<T>, idOf: T -> int, x: T)
    requires UniqueIds(s, idOf) && FindRow(s, idOf, idOf(x)).Some?
    ensures UniqueIds(ReplaceRow(s, idOf, x), idOf)
    ensures |ReplaceRow(s, idOf, x)| == |s|
    ensures FindRow(ReplaceRow(s, idOf, x), idOf, idOf(x)) == Some(x)
    ensures forall id :: id != idOf(x) ==> FindRow(ReplaceRow(s, idOf, x), idOf, id) == FindRow(s, idOf, id)
  {
    var r := ReplaceRow(s, idOf, x);
    assert forall i :: 0 <= i < |s| ==> idOf(r[i]) == idOf(s[i]);
    var k :| 0 <= k < |s| && s[k] == FindRow(s, idOf, idOf(x)).value;
    assert r[k] == x;
    FindRowAt(r, idOf, k);
    forall id | id != idOf(x) ensures FindRow(r, idOf, id) == FindRow(s, idOf, id) {
      if FindRow(s, idOf, id).Some? {
        var j :| 0 <= j < |s| && s[j] == FindRow(s, idOf, id).value;
        FindRowAt(s, idOf, j);
        FindRowAt(r, idOf, j);
      }
    }
  }

  /** `delete({ where: { id } })`. */
  function RemoveRow<T(!new)>(s: seq<T>, idOf: T -> int, id: int): (r: seq<T>)
    ensures forall x :: x in r <==> x in s && idOf(x) != id
  {
    Filter(s, x => idOf(x) != id)
  }

  lemma {:induction false} RemoveRowUnique<T(!new)>(s: seq<T>, idOf: T -> int, id: int)
    requires UniqueIds(s, idOf)
    ensures UniqueIds(RemoveRow(s, idOf, id), idOf)
    ensures FindRow(RemoveRow(s, idOf, id), idOf, id).None?
  {
    if s != [] {
      var init := s[..|s| - 1];
      var last := s[|s| - 1];
      assert s == init + [last];
      assert UniqueIds(init, idOf);
      RemoveRowUnique(init, idOf, id);
      FilterAppend(init, [last], x => idOf(x) != id);
      LastIdFresh(s, idOf);
      if idOf(last) != id {
        UniqueSnoc(RemoveRow(init, idOf, id), last, idOf);
      }
    }
    var r := RemoveRow(s, idOf, id);
    forall i | 0 <= i < |r| ensures idOf(r[i]) != id {
      assert r[i] in r;
    }
  }

  /** With unique ids, no earlier row shares the last row's id. */
  lemma LastIdFresh<T>(s: seq<T>, idOf: T -> int)
    requires s != [] && UniqueIds(s, idOf)
    ensures forall x :: x in s[..|s| - 1] ==> idOf(x) != idOf(s[|s| - 1])
  {
    forall x | x in s[..|s| - 1] ensures idOf(x) != idOf(s[|s| - 1]) {
      var k :| 0 <= k < |s| - 1 && s[..|s| - 1][k] == x;
      assert s[k] == x;
    }
  }

  /** Appending a row whose id is new keeps the ids unique. */
  lemma UniqueSnoc<T>(r: seq<T>, last: T, idOf: T -> int)
    requires UniqueIds(r, idOf)
    requires forall x :: x in r ==> idOf(x) != idOf(last)
    ensures UniqueIds(r + [last], idOf)
  {
    var s := r + [last];
    forall i, j | 0 <= i < j < |s| ensures idOf(s[i]) != idOf(s[j]) {
      if j == |r| {
        assert s[i] == r[i] && r[i] in r;
      } else {
        assert s[i] == r[i] && s[j] == r[j];
      }
    }
  }

  // ---- Creates and updates ----

  /** `createNoticia`: the DTO's fields except `link`, which is never
      written; `activo` defaults to true. */
  function NewNoticia(data: CreateNoticiaDto, id: int, now: int): (n: Noticia)
    ensures n.link.None?
    ensures n.activo == Coalesce(data.activo, true)
    ensures n.titulo == data.titulo && n.imagenUrl == data.imagenUrl
    ensures n.fechaPublicacion == data.fechaPublicacion && n.id == id
  {
    Noticia(id, data.titulo, data.descripcionCorta, data.contenido, data.imagenUrl, None,
            data.fechaPublicacion, Coalesce(data.activo, true), now)
  }

  /** `updateNoticia`: an undefined field is left as stored; `link` is not
      among the written fields. */
  function ApplyNoticiaUpdate(n: Noticia, dto: UpdateNoticiaDto): Noticia
  {
    n.(titulo := Patch(n.titulo, dto.titulo),
       descripcionCorta := Patch(n.descripcionCorta, dto.descripcionCorta),
       contenido := Patch(n.contenido, dto.contenido),
       imagenUrl := if dto.imagenUrl.Some? then dto.imagenUrl else n.imagenUrl,
       fechaPublicacion := Patch(n.fechaPublicacion, dto.fechaPublicacion),
       activo := Patch(n.activo, dto.activo))
  }

  /** An update changes exactly the given fields: the id, the link and the
      creation date survive every update, and an empty update is the
      identity. */
  lemma NoticiaUpdateOnlyGivenFields(n: Noticia, dto: UpdateNoticiaDto)
    ensures var u := ApplyNoticiaUpdate(n, dto);
      u.id == n.id && u.link == n.link && u.fechaCreacion == n.fechaCreacion
      && (dto.titulo.Some? ==> u.titulo == dto.titulo.value) && (dto.titulo.None? ==> u.titulo == n.titulo)
      && (dto.imagenUrl.Some? ==> u.imagenUrl == dto.imagenUrl) && (dto.imagenUrl.None? ==> u.imagenUrl == n.imagenUrl)
      && (dto.activo.Some? ==> u.activo == dto.activo.value) && (dto.activo.None? ==> u.activo == n.activo)
    ensures ApplyNoticiaUpdate(n, UpdateNoticiaDto(None, None, None, None, None, None)) == n
  {
  }

  /** `createRedSocial`: `activo` defaults to true and `orden` to 0. */
  function NewRedSocial(data: CreateRedSocialDto, id: int): (r: RedSocial)
    ensures r.activo == Coalesce(data.activo, true)
    ensures r.orden == Coalesce(data.orden, 0)
    ensures r.descripcion == data.descripcion && r.id == id
  {
    RedSocial(id, data.nombre, data.url, data.descripcion, data.icono,
              Coalesce(data.activo, true), Coalesce(data.orden, 0))
  }

  /** `updateRedSocial`: the given fields; `descripcion` is not among the
      written fields. */
  function ApplyRedSocialUpdate(r: RedSocial, dto: UpdateRedSocialDto): RedSocial
  {
    r.(nombre := Patch(r.nombre, dto.nombre),
       url := Patch(r.url, dto.url),
       icono := Patch(r.icono, dto.icono),
       activo := Patch(r.activo, dto.activo),
       orden := Patch(r.orden, dto.orden))
  }

  /** No update of a social link changes its id or its description. */
  lemma RedSocialUpdateKeepsDescripcion(r: RedSocial, dto: UpdateRedSocialDto)
    ensures var u := ApplyRedSocialUpdate(r, dto);
      u.id == r.id && u.descripcion == r.descripcion
      && (dto.orden.Some? ==> u.orden == dto.orden.value) && (dto.orden.None? ==> u.orden == r.orden)
      && (dto.activo.Some? ==> u.activo == dto.activo.value) && (dto.activo.None? ==> u.activo == r.activo)
  {
  }

  // ---- Listing ----

  datatype NoticiaOrderBy = ByFechaPublicacion | ByFechaCreacion

  /** The column an `orderBy` on news sorts by. */
  function NoticiaKey(orderBy: NoticiaOrderBy): Noticia -> Key
  {
    (n: Noticia) => Key(if orderBy == ByFechaPublicacion then n.fechaPublicacion.millis else n.fechaCreacion, 0, "")
  }

  /** The `OR` of the search: title, summary or content contains the text,
      ignoring case. */
  predicate SearchMatches(n: Noticia, search: string)
  {
    ContainsInsensitive(n.titulo, search) || ContainsInsensitive(n.descripcionCorta, search)
    || ContainsInsensitive(n.contenido, search)
  }

  /** The `where` of `findAllNoticias`: `activo` only when defined, the
      search only when truthy. */
  predicate NoticiaMatches(n: Noticia, activo: Option<bool>, search: Option<string>)
  {
    (activo.None? || n.activo == activo.value) && (!TruthyStr(search) || SearchMatches(n, search.value))
  }

  function NoticiaFilter(activo: Option<bool>, search: Option<string>): Noticia -> bool
  {
    (n: Noticia) => NoticiaMatches(n, activo, search)
  }

  /** The rows `findAllNoticias` pages through: every matching row once,
      sorted by `orderBy` (default `fecha_publicacion`) in `order` (default
      descending). */
  function NoticiasListing(ns: seq<Noticia>, activo: Option<bool>, search: Option<string>,
                           orderBy: Option<NoticiaOrderBy>, order: Option<SortOrder>): (r: seq<Noticia>)
    ensures forall n :: n in r <==> n in ns && NoticiaMatches(n, activo, search)
    ensures multiset(r) == multiset(Filter(ns, NoticiaFilter(activo, search)))
    ensures |r| == |Filter(ns, NoticiaFilter(activo, search))|
    ensures OrderedBy(r, NoticiaKey(Coalesce(orderBy, ByFechaPublicacion)), Coalesce(order, Desc))
  {
    var rows := Filter(ns, NoticiaFilter(activo, search));
    var r := SortRows(rows, NoticiaKey(Coalesce(orderBy, ByFechaPublicacion)), Coalesce(order, Desc));
    assert |r| == |multiset(r)| == |multiset(rows)| == |rows|;
    r
  }

  /** `findAllNoticias`: the `skip`/`take` window of the listing. */
  function FindAllNoticias(ns: seq<Noticia>, skip: nat, take: Option<nat>, activo: Option<bool>,
                           search: Option<string>, orderBy: Option<NoticiaOrderBy>, order: Option<SortOrder>)
    : (r: seq<Noticia>)
    ensures IsPage(r, NoticiasListing(ns, activo, search, orderBy, order), skip, take)
    ensures forall n :: n in r ==> n in ns && NoticiaMatches(n, activo, search)
    ensures skip == 0 && take.None? ==> forall n :: n in r <==> n in ns && NoticiaMatches(n, activo, search)
    ensures OrderedBy(r, NoticiaKey(Coalesce(orderBy, ByFechaPublicacion)), Coalesce(order, Desc))
    ensures take.Some? ==> |r| <= take.value
  {
    var sorted := NoticiasListing(ns, activo, search, orderBy, order);
    var r := Page(sorted, skip, take);
    assert skip == 0 && take.None? ==> r == sorted by {
      if skip == 0 && take.None? {
        WholePage(sorted);
      }
    }
    r
  }

  predicate IsActiva(n: Noticia) { n.activo }

  /** `getNoticiasRecientes`: the first `limit` rows of the active news,
      latest publication first (all of them when there are fewer). */
  function GetNoticiasRecientes(ns: seq<Noticia>, limit: nat): (r: seq<Noticia>)
    ensures |r| == if limit < |Filter(ns, IsActiva)| then limit else |Filter(ns, IsActiva)|
    ensures forall n :: n in r ==> n in ns && n.activo
    ensures OrderedBy(r, NoticiaKey(ByFechaPublicacion), Desc)
  {
    var sorted := SortRows(Filter(ns, IsActiva), NoticiaKey(ByFechaPublicacion), Desc);
    LatestActiveSorted(ns);
    TakeOrdered(sorted, limit, NoticiaKey(ByFechaPublicacion), Desc);
    Take(sorted, limit)
  }

  /** The active news sorted latest first: as many as there are active
      news, each of them active and from `ns`. */
  lemma LatestActiveSorted(ns: seq<Noticia>)
    ensures var sorted := SortRows(Filter(ns, IsActiva), NoticiaKey(ByFechaPublicacion), Desc);
      |sorted| == |Filter(ns, IsActiva)| && forall n :: n in sorted ==> n in ns && n.activo
  {
    var sorted := SortRows(Filter(ns, IsActiva), NoticiaKey(ByFechaPublicacion), Desc);
    assert |sorted| == |multiset(sorted)| == |multiset(Filter(ns, IsActiva))| == |Filter(ns, IsActiva)|;
  }

  /** A prefix of an ordered listing keeps its rows and their order. */
  lemma TakeOrdered<T>(s: seq<T>, n: nat, key: T -> Key, order: SortOrder)
    requires OrderedBy(s, key, order)
    ensures OrderedBy(Take(s, n), key, order)
    ensures forall x :: x in Take(s, n) ==> x in s
  {
    var r := Take(s, n);
    assert forall i :: 0 <= i < |r| ==> r[i] == s[i];
  }

  /** No active item published later than one returned is left out: an
      active item missing from the result means `limit` items were
      returned, none of them published before it. */
  lemma RecientesAreLatest(ns: seq<Noticia>, limit: nat, n: Noticia)
    requires n in ns && n.activo
    requires n !in GetNoticiasRecientes(ns, limit)
    ensures |GetNoticiasRecientes(ns, limit)| == limit
    ensures forall e :: e in GetNoticiasRecientes(ns, limit) ==> e.fechaPublicacion.millis >= n.fechaPublicacion.millis
  {
    var sorted := SortRows(Filter(ns, IsActiva), NoticiaKey(ByFechaPublicacion), Desc);
    var r := GetNoticiasRecientes(ns, limit);
    assert r == Take(sorted, limit);
    assert IsActiva(n);
    assert n in sorted;
    var k :| 0 <= k < |sorted| && sorted[k] == n;
    assert forall i :: 0 <= i < |r| ==> r[i] == sorted[i];
    assert k >= |r|;
    forall e | e in r ensures e.fechaPublicacion.millis >= n.fechaPublicacion.millis {
      var i :| 0 <= i < |r| && r[i] == e;
      assert KeyLe(NoticiaKey(ByFechaPublicacion)(sorted[k]), NoticiaKey(ByFechaPublicacion)(sorted[i]));
    }
  }

  /** The latest news are the first `limit` rows of the listing of active
      news in its default order. */
  lemma RecientesArePageOfListing(ns: seq<Noticia>, limit: nat)
    ensures GetNoticiasRecientes(ns, limit)
      == FindAllNoticias(ns, 0, Some(limit), Some(true), None, None, None)
  {
    FilterExt(ns, IsActiva, NoticiaFilter(Some(true), None));
    var sorted := SortRows(Filter(ns, IsActiva), NoticiaKey(ByFechaPublicacion), Desc);
    var page := Page(sorted, 0, Some(limit));
    assert |page| == |Take(sorted, limit)|;
  }

  datatype RedOrderBy = ByOrden | ByNombre

  function RedSocialKey(orderBy: RedOrderBy): RedSocial -> Key
  {
    (r: RedSocial) => if orderBy == ByOrden then Key(r.orden, 0, "") else Key(0, 0, r.nombre)
  }

  /** `findAllRedesSociales`: `activo` only when defined, sorted by
      `orderBy` (default `orden`) in `order` (default ascending). */
  function FindAllRedesSociales(rs: seq<RedSocial>, activo: Option<bool>, orderBy: Option<RedOrderBy>,
                                order: Option<SortOrder>): (r: seq<RedSocial>)
    ensures forall x :: x in r <==> x in rs && (activo.None? || x.activo == activo.value)
    ensures OrderedBy(r, RedSocialKey(Coalesce(orderBy, ByOrden)), Coalesce(order, Asc))
    ensures multiset(r) <= multiset(rs)
  {
    SortRows(Filter(rs, (x: RedSocial) => activo.None? || x.activo == activo.value),
             RedSocialKey(Coalesce(orderBy, ByOrden)), Coalesce(order, Asc))
  }

  // ---- Counts ----

  /** `noticia.count({ where })` with `where` either undefined or
      `{ activo }`. */
  function CountNoticias(ns: seq<Noticia>, activo: Option<bool>): nat
  {
    if ns == [] then 0
    else
      var last := ns[|ns| - 1];
      CountNoticias(ns[..|ns| - 1], activo) + (if activo.None? || last.activo == activo.value then 1 else 0)
  }

  /** `redSocial.count({ where })`. */
  function CountRedesSociales(rs: seq<RedSocial>, activo: Option<bool>): nat
  {
    if rs == [] then 0
    else
      var last := rs[|rs| - 1];
      CountRedesSociales(rs[..|rs| - 1], activo) + (if activo.None? || last.activo == activo.value then 1 else 0)
  }

  /** Every row is counted once without a filter, and exactly one of the
      two filters counts it. */
  lemma {:induction false} NoticiasCountSplit(ns: seq<Noticia>)
    ensures CountNoticias(ns, None) == |ns|
    ensures CountNoticias(ns, None) == CountNoticias(ns, Some(true)) + CountNoticias(ns, Some(false))
  {
    if ns != [] {
      NoticiasCountSplit(ns[..|ns| - 1]);
    }
  }

  lemma {:induction false} RedesCountSplit(rs: seq<RedSocial>)
    ensures CountRedesSociales(rs, None) == |rs|
    ensures CountRedesSociales(rs, None) == CountRedesSociales(rs, Some(true)) + CountRedesSociales(rs, Some(false))
  {
    if rs != [] {
      RedesCountSplit(rs[..|rs| - 1]);
    }
  }

  /** The count is the length of the filtered rows. */
  lemma {:induction false} CountIsFilterLength(ns: seq<Noticia>, activo: Option<bool>)
    ensures CountNoticias(ns, activo) == |Filter(ns, NoticiaFilter(activo, None))|
  {
    if ns != [] {
      var init := ns[..|ns| - 1];
      CountIsFilterLength(init, activo);
      assert ns == init + [ns[|ns| - 1]];
      FilterAppend(init, [ns[|ns| - 1]], NoticiaFilter(activo, None));
    }
  }

  /** The count agrees with the unpaged listing under the same filter. */
  lemma CountIsListingLength(ns: seq<Noticia>, activo: Option<bool>)
    ensures CountNoticias(ns, activo) == |FindAllNoticias(ns, 0, None, activo, None, None, None)|
  {
    CountIsFilterLength(ns, activo);
    var rows := Filter(ns, NoticiaFilter(activo, None));
    var sorted := SortRows(rows, NoticiaKey(ByFechaPublicacion), Desc);
    assert |sorted| == |multiset(sorted)| == |multiset(rows)| == |rows|;
    assert |Page(sorted, 0, None)| == |sorted|;
  }

  datatype Estadisticas = Estadisticas(
    totalNoticias: nat,
    noticiasActivas: nat,
    noticiasInactivas: int,
    totalRedesSociales: nat,
    redesSocialesActivas: nat,
    redesSocialesInactivas: int)

  /** `getEstadisticas`: the inactive counts are computed as total minus
      active, which is exactly the number of inactive rows. */
  function GetEstadisticas(ns: seq<Noticia>, rs: seq<RedSocial>): (e: Estadisticas)
    ensures e.totalNoticias == |ns| && e.totalRedesSociales == |rs|
    ensures e.noticiasActivas == CountNoticias(ns, Some(true))
    ensures e.noticiasInactivas == CountNoticias(ns, Some(false))
    ensures e.redesSocialesActivas == CountRedesSociales(rs, Some(true))
    ensures e.redesSocialesInactivas == CountRedesSociales(rs, Some(false))
  {
    NoticiasCountSplit(ns);
    RedesCountSplit(rs);
    var totalNoticias := CountNoticias(ns, None);
    var noticiasActivas := CountNoticias(ns, Some(true));
    var totalRedes := CountRedesSociales(rs, None);
    var redesActivas := CountRedesSociales(rs, Some(true));
    Estadisticas(totalNoticias, noticiasActivas, totalNoticias - noticiasActivas,
                 totalRedes, redesActivas, totalRedes - redesActivas)
  }

  // ---- The tables ----

  /** The repository over the two tables; ids are the autoincrement keys,
      given to the creates. */
  class EstrategiasRepository {
    var noticias: seq<Noticia>
    var redes: seq<RedSocial>

    ghost predicate Valid()
      reads this
    {
      UniqueIds(noticias, NoticiaId) && UniqueIds(redes, RedSocialId)
    }

    constructor (noticias: seq<Noticia>, redes: seq<RedSocial>)
      requires UniqueIds(noticias, NoticiaId) && UniqueIds(redes, RedSocialId)
      ensures Valid() && this.noticias == noticias && this.redes == redes
    {
      this.noticias := noticias;
      this.redes := redes;
    }

    function FindNoticia(id: int): (r: Option<Noticia>)
      reads this
      ensures r == FindRow(noticias, NoticiaId, id)
    {
      FindRow(noticias, NoticiaId, id)
    }

    function FindRedSocial(id: int): (r: Option<RedSocial>)
      reads this
      ensures r == FindRow(redes, RedSocialId, id)
    {
      FindRow(redes, RedSocialId, id)
    }

    method CreateNoticia(data: CreateNoticiaDto, id: int, now: int) returns (n: Noticia)
      requires Valid() && FindRow(noticias, NoticiaId, id).None?
      modifies this
      ensures Valid()
      ensures n == NewNoticia(data, id, now)
      ensures noticias == old(noticias) + [n] && redes == old(redes)
      ensures FindRow(noticias, NoticiaId, id) == Some(n)
    {
      n := NewNoticia(data, id, now);
      noticias := noticias + [n];
      FindRowAt(noticias, NoticiaId, |noticias| - 1);
    }

    /** Replaces a news row by `x`, the row with its id; a missing id is
        NotFound and writes nothing. */
    method ReplaceNoticia(x: Noticia) returns (r: Result<Noticia>)
      requires Valid()
      modifies this
      ensures Valid() && redes == old(redes)
      ensures FindRow(old(noticias), NoticiaId, x.id).None? ==> r == Err(NotFound) && noticias == old(noticias)
      ensures FindRow(old(noticias), NoticiaId, x.id).Some? ==>
        r == Ok(x) && noticias == ReplaceRow(old(noticias), NoticiaId, x)
        && FindRow(noticias, NoticiaId, x.id) == Some(x)
    {
      if FindRow(noticias, NoticiaId, x.id).None? {
        return Err(NotFound);
      }
      ReplaceRowFacts(noticias, NoticiaId, x);
      noticias := ReplaceRow(noticias, NoticiaId, x);
      r := Ok(x);
    }

    /** `updateNoticia`. */
    method UpdateNoticia(id: int, dto: UpdateNoticiaDto) returns (r: Result<Noticia>)
      requires Valid()
      modifies this
      ensures Valid() && redes == old(redes)
      ensures FindRow(old(noticias), NoticiaId, id).None? ==> r == Err(NotFound) && noticias == old(noticias)
      ensures FindRow(old(noticias), NoticiaId, id).Some? ==>
        var u := ApplyNoticiaUpdate(FindRow(old(noticias), NoticiaId, id).value, dto);
        r == Ok(u) && noticias == ReplaceRow(old(noticias), NoticiaId, u)
    {
      var found := FindRow(noticias, NoticiaId, id);
      if found.None? {
        return Err(NotFound);
      }
      r := ReplaceNoticia(ApplyNoticiaUpdate(found.value, dto));
    }

    /** `toggleNoticiaActivo`: only `activo` changes. */
    method ToggleNoticiaActivo(id: int, activo: bool) returns (r: Result<Noticia>)
      requires Valid()
      modifies this
      ensures Valid() && redes == old(redes)
      ensures FindRow(old(noticias), NoticiaId, id).None? ==> r == Err(NotFound) && noticias == old(noticias)
      ensures FindRow(old(noticias), NoticiaId, id).Some? ==>
        var u := FindRow(old(noticias), NoticiaId, id).value.(activo := activo);
        r == Ok(u) && noticias == ReplaceRow(old(noticias), NoticiaId, u)
    {
      var found := FindRow(noticias, NoticiaId, id);
      if found.None? {
        return Err(NotFound);
      }
      r := ReplaceNoticia(found.value.(activo := activo));
    }

    /** `deleteNoticia`. */
    method DeleteNoticia(id: int) returns (r: Result<Noticia>)
      requires Valid()
      modifies this
      ensures Valid() && redes == old(redes)
      ensures FindRow(old(noticias), NoticiaId, id).None? ==> r == Err(NotFound) && noticias == old(noticias)
      ensures FindRow(old(noticias), NoticiaId, id).Some? ==>
        r == Ok(FindRow(old(noticias), NoticiaId, id).value)
        && noticias == RemoveRow(old(noticias), NoticiaId, id)
        && FindRow(noticias, NoticiaId, id).None?
    {
      var found := FindRow(noticias, NoticiaId, id);
      if found.None? {
        return Err(NotFound);
      }
      RemoveRowUnique(noticias, NoticiaId, id);
      noticias := RemoveRow(noticias, NoticiaId, id);
      r := Ok(found.value);
    }

    method CreateRedSocial(data: CreateRedSocialDto, id: int) returns (x: RedSocial)
      requires Valid() && FindRow(redes, RedSocialId, id).None?
      modifies this
      ensures Valid()
      ensures x == NewRedSocial(data, id)
      ensures redes == old(redes) + [x] && noticias == old(noticias)
      ensures FindRow(redes, RedSocialId, id) == Some(x)
    {
      x := NewRedSocial(data, id);
      redes := redes + [x];
      FindRowAt(redes, RedSocialId, |redes| - 1);
    }

    method ReplaceRedSocial(x: RedSocial) returns (r: Result<RedSocial>)
      requires Valid()
      modifies this
      ensures Valid() && noticias == old(noticias)
      ensures FindRow(old(redes), RedSocialId, x.id).None? ==> r == Err(NotFound) && redes == old(redes)
      ensures FindRow(old(redes), RedSocialId, x.id).Some? ==>
        r == Ok(x) && redes == ReplaceRow(old(redes), RedSocialId, x)
        && FindRow(redes, RedSocialId, x.id) == Some(x)
    {
      if FindRow(redes, RedSocialId, x.id).None? {
        return Err(NotFound);
      }
      ReplaceRowFacts(redes, RedSocialId, x);
      redes := ReplaceRow(redes, RedSocialId, x);
      r := Ok(x);
    }

    /** `updateRedSocial`. */
    method UpdateRedSocial(id: int, dto: UpdateRedSocialDto) returns (r: Result<RedSocial>)
      requires Valid()
      modifies this
      ensures Valid() && noticias == old(noticias)
      ensures FindRow(old(redes), RedSocialId, id).None? ==> r == Err(NotFound) && redes == old(redes)
      ensures FindRow(old(redes), RedSocialId, id).Some? ==>
        var u := ApplyRedSocialUpdate(FindRow(old(redes), RedSocialId, id).value, dto);
        r == Ok(u) && redes == ReplaceRow(old(redes), RedSocialId, u)
    {
      var found := FindRow(redes, RedSocialId, id);
      if found.None? {
        return Err(NotFound);
      }
      r := ReplaceRedSocial(ApplyRedSocialUpdate(found.value, dto));
    }

    /** `toggleRedSocialActivo`. */
    method ToggleRedSocialActivo(id: int, activo: bool) returns (r: Result<RedSocial>)
      requires Valid()
      modifies this
      ensures Valid() && noticias == old(noticias)
      ensures FindRow(old(redes), RedSocialId, id).None? ==> r == Err(NotFound) && redes == old(redes)
      ensures FindRow(old(redes), RedSocialId, id).Some? ==>
        var u := FindRow(old(redes), RedSocialId, id).value.(activo := activo);
        r == Ok(u) && redes == ReplaceRow(old(redes), RedSocialId, u)
    {
      var found := FindRow(redes, RedSocialId, id);
      if found.None? {
        return Err(NotFound);
      }
      r := ReplaceRedSocial(found.value.(activo := activo));
    }

    /** `deleteRedSocial`. */
    method DeleteRedSocial(id: int) returns (r: Result<RedSocial>)
      requires Valid()
      modifies this
      ensures Valid() && noticias == old(noticias)
      ensures FindRow(old(redes), RedSocialId, id).None? ==> r == Err(NotFound) && redes == old(redes)
      ensures FindRow(old(redes), RedSocialId, id).Some? ==>
        r == Ok(FindRow(old(redes), RedSocialId, id).value)
        && redes == RemoveRow(old(redes), RedSocialId, id)
        && FindRow(redes, RedSocialId, id).None?
    {
      var found := FindRow(redes, RedSocialId, id);
      if found.None? {
        return Err(NotFound);
      }
      RemoveRowUnique(redes, RedSocialId, id);
      redes := RemoveRow(redes, RedSocialId, id);
      r := Ok(found.value);
    }
  }
}
