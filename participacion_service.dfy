// The citizen-participation service: how a new message is filled in from
// the form and the request, the guards of answering and of changing a
// status, the message list and count, and the parsing of the internal
// recipient list. Sending the mails is left out.
module ParticipacionService {
  import opened Common
  import opened Strings
  import opened Ordering
  import opened ParticipacionRepository

  datatype CreateMensajeDto = CreateMensajeDto(
    nombreCompleto: string,
    correoElectronico: string,
    asunto: string,
    mensaje: string,
    canal: Option<string>,
    areaDestino: Option<string>,
    direccionIp: Option<string>,
    agenteUsuario: Option<string>)

  /** A request header as Express exposes it: absent, one string, or a
      list of strings. */
  datatype HeaderValue = Absent | Text(text: string) | Several(values: seq<string>)

  /** JavaScript truthiness of a header value: a non-empty string, or any
      list. */
  predicate HeaderTruthy(h: HeaderValue)
  {
    (h.Text? && h.text != "") || h.Several?
  }

  /** What `create` reads from the request. */
  datatype ClientRequest = ClientRequest(
    ip: Option<string>,
    forwardedFor: HeaderValue,
    remoteAddress: Option<string>,
    userAgent: HeaderValue)

  /** `request.ip || request.headers['x-forwarded-for'] ||
      request.connection.remoteAddress`. */
  function ClientIp(req: ClientRequest): (h: HeaderValue)
    ensures TruthyStr(req.ip) ==> h == Text(req.ip.value)
    ensures !TruthyStr(req.ip) && HeaderTruthy(req.forwardedFor) ==> h == req.forwardedFor
    ensures !TruthyStr(req.ip) && !HeaderTruthy(req.forwardedFor) ==>
      h == (if req.remoteAddress.Some? then Text(req.remoteAddress.value) else Absent)
  {
    if TruthyStr(req.ip) then Text(req.ip.value)
    else if HeaderTruthy(req.forwardedFor) then req.forwardedFor
    else if req.remoteAddress.Some? then Text(req.remoteAddress.value)
    else Absent
  }

  /** `value && typeof value === 'string'`: only a non-empty string is
      stored. */
  function StoredText(h: HeaderValue): (r: Option<string>)
    ensures r.Some? <==> h.Text? && h.text != ""
    ensures r.Some? ==> r.value == h.text
  {
    if h.Text? && h.text != "" then Some(h.text) else None
  }

  /** The data `create` builds: the form fields, the channel falling back to
      "web", the status "pendiente", and the client's address and agent
      when they are strings. The form's own address and agent fields are
      not read. */
  function MensajeDataOf(dto: CreateMensajeDto, request: Option<ClientRequest>): (d: MensajeData)
    ensures d.estatus == Pendiente
    ensures d.canal == OrElse(dto.canal, "web")
    ensures d.nombreCompleto == dto.nombreCompleto && d.correoElectronico == dto.correoElectronico
    ensures d.asunto == dto.asunto && d.mensaje == dto.mensaje && d.areaDestino == dto.areaDestino
    ensures request.None? ==> d.direccionIp.None? && d.agenteUsuario.None?
    ensures request.Some? ==>
      d.direccionIp == StoredText(ClientIp(request.value)) && d.agenteUsuario == StoredText(request.value.userAgent)
  {
    var ip := if request.Some? then StoredText(ClientIp(request.value)) else None;
    var agent := if request.Some? then StoredText(request.value.userAgent) else None;
    MensajeData(dto.nombreCompleto, dto.correoElectronico, dto.asunto, dto.mensaje, OrElse(dto.canal, "web"),
                dto.areaDestino, Pendiente, ip, agent)
  }

  /** A stored address is a non-empty string that the request carried: its
      `ip`, a single forwarded-for value, or the socket address; a list of
      forwarded-for values is never stored. */
  lemma StoredIpComesFromRequest(dto: CreateMensajeDto, req: ClientRequest)
    ensures var d := MensajeDataOf(dto, Some(req));
      d.direccionIp.Some? ==>
        d.direccionIp.value != ""
        && (Some(d.direccionIp.value) == req.ip || req.forwardedFor == Text(d.direccionIp.value)
            || Some(d.direccionIp.value) == req.remoteAddress)
    ensures !TruthyStr(req.ip) && req.forwardedFor.Several? ==> MensajeDataOf(dto, Some(req)).direccionIp.None?
  {
  }

  /** Whatever address or agent the form sends is ignored. */
  lemma FormClientFieldsIgnored(dto: CreateMensajeDto, request: Option<ClientRequest>, ip: Option<string>,
                                agent: Option<string>)
    ensures MensajeDataOf(dto.(direccionIp := ip, agenteUsuario := agent), request) == MensajeDataOf(dto, request)
  {
  }

  /** The answer of `create`. */
  datatype CreateResponse = CreateResponse(folio: string, fechaCreacion: int)

  /** `create`: the message is stored with a generated folio, and its folio
      and creation date answered; a folio already stored fails the insert,
      and the request, with nothing written. */
  method Create(table: MensajeTable, dto: CreateMensajeDto, request: Option<ClientRequest>, id: string,
                timestamp: nat, random: nat, now: int)
    returns (r: Result<CreateResponse>)
    requires table.Valid() && FindMensaje(table.mensajes, id).None?
    requires random < 1000
    modifies table
    ensures table.Valid()
    ensures var folio := GenerateFolio(timestamp, random);
      if FindByFolio(old(table.mensajes), folio).Some? then
        r == Err(DuplicateFolio) && table.mensajes == old(table.mensajes)
      else
        var m := NewMensaje(MensajeDataOf(dto, request), id, folio, now);
        r == Ok(CreateResponse(folio, now))
        && table.mensajes == old(table.mensajes) + [m]
        && FindByFolio(table.mensajes, folio) == Some(m)
  {
    var created := table.Create(MensajeDataOf(dto, request), id, timestamp, random, now);
    if created.Err? {
      return Err(created.error);
    }
    r := Ok(CreateResponse(created.value.folio, created.value.fechaCreacion));
  }

  /** A new message is pending, on the form's channel or "web". */
  lemma NewMensajePending(dto: CreateMensajeDto, request: Option<ClientRequest>, id: string, folio: string, now: int)
    ensures var m := NewMensaje(MensajeDataOf(dto, request), id, folio, now);
      m.estatus == Pendiente && m.respuesta.None?
      && (TruthyStr(dto.canal) ==> m.canal == dto.canal.value)
      && (!TruthyStr(dto.canal) ==> m.canal == "web")
  {
  }

  /** `fields.map(e => e.trim()).filter(e => e.length > 0)`: the trimmed,
      non-empty fields, in order. */
  function CleanRecipients(fields: seq<string>): (r: seq<string>)
    ensures forall x :: x in r <==> x != "" && x in Map(fields, Trim)
    ensures Subseq(r, Map(fields, Trim)) && multiset(r) <= multiset(Map(fields, Trim))
    ensures forall x :: multiset(r)[x] == if x != "" then multiset(Map(fields, Trim))[x] else 0
  {
    var trimmed := Map(fields, Trim);
    var nonEmpty := (x: string) => x != "";
    var r := Filter(trimmed, nonEmpty);
    FilterSubseq(trimmed, nonEmpty);
    forall x: string ensures multiset(r)[x] == if x != "" then multiset(trimmed)[x] else 0 {
      FilterMultiplicity(trimmed, nonEmpty, x);
    }
    r
  }

  const DefaultInternalRecipients := "admin@morelos.gob.mx"

  /** The internal recipients: the configured list (or the default
      address) split on commas, each entry trimmed, empty entries dropped. */
  function InternalRecipients(config: Option<string>): (r: seq<string>)
    ensures forall x :: x in r ==> x != ""
  {
    CleanRecipients(Split(Coalesce(config, DefaultInternalRecipients), ','))
  }

  /** Every recipient is already trimmed. */
  lemma RecipientsAreTrimmed(config: Option<string>)
    ensures forall x :: x in InternalRecipients(config) ==> Trim(x) == x
  {
    var fields := Split(Coalesce(config, DefaultInternalRecipients), ',');
    forall x | x in InternalRecipients(config) ensures Trim(x) == x {
      var i :| 0 <= i < |fields| && x == Map(fields, Trim)[i];
      TrimIdempotent(fields[i]);
    }
  }

  /** The internal notification goes out only to a non-empty list. */
  predicate NotifiesStaff(config: Option<string>)
  {
    |InternalRecipients(config)| > 0
  }

  lemma CleanRecipientsOfClean(xs: seq<string>)
    requires forall i :: 0 <= i < |xs| ==> xs[i] != "" && Trim(xs[i]) == xs[i]
    ensures CleanRecipients(xs) == xs
  {
    assert Map(xs, Trim) == xs;
    FilterAll(xs, (x: string) => x != "");
  }

  /** A comma-joined list of addresses, each non-empty, without commas and
      without surrounding blanks, is read back exactly. */
  lemma RecipientsRoundTrip(xs: seq<string>)
    requires |xs| >= 1
    requires forall i :: 0 <= i < |xs| ==> xs[i] != "" && Trim(xs[i]) == xs[i] && ',' !in xs[i]
    ensures InternalRecipients(Some(Join(xs, ","))) == xs
    ensures NotifiesStaff(Some(Join(xs, ",")))
  {
    SplitJoin(xs, ',');
    CleanRecipientsOfClean(xs);
  }

  /** A configuration of only blanks and commas notifies nobody. */
  lemma BlankConfigNotifiesNobody(config: string)
    requires forall i :: 0 <= i < |config| ==> IsSpace(config[i]) || config[i] == ','
    ensures InternalRecipients(Some(config)) == []
    ensures !NotifiesStaff(Some(config))
  {
    var fields := Split(config, ',');
    var trimmed := Map(fields, Trim);
    forall x | x in trimmed ensures x == "" {
      var i :| 0 <= i < |fields| && trimmed[i] == x;
      assert fields[i] in fields;
      BlankFieldsOfBlank(config, fields[i]);
      TrimEmptyIffBlank(fields[i]);
    }
    FilterNone(trimmed, (x: string) => x != "");
  }

  lemma {:induction false} BlankFieldsOfBlank(s: string, f: string)
    requires forall i :: 0 <= i < |s| ==> IsSpace(s[i]) || s[i] == ','
    requires f in Split(s, ',')
    ensures forall i :: 0 <= i < |f| ==> IsSpace(f[i])
    decreases |s|
  {
    var k := IndexOf(s, ',');
    if k.None? {
      forall i | 0 <= i < |f| ensures IsSpace(f[i]) {
        assert f == s;
        assert f[i] != ',';
      }
    } else if f == s[..k.value] {
      forall i | 0 <= i < |f| ensures IsSpace(f[i]) {
        assert f[i] == s[i];
        assert f[i] != ',';
      }
    } else {
      var rest := s[k.value + 1..];
      assert f in Split(rest, ',');
      assert forall i :: 0 <= i < |rest| ==> rest[i] == s[k.value + 1 + i];
      BlankFieldsOfBlank(rest, f);
    }
  }

  /** The `where` of `findAll` and `count`: a truthy status and channel
      must match exactly, and a truthy search must occur, ignoring case, in
      the name, the e-mail, the subject or the text. */
  predicate MensajeMatches(m: Mensaje, estatus: Option<string>, canal: Option<string>, search: Option<string>)
  {
    (!TruthyStr(estatus) || m.estatus == estatus.value)
    && (!TruthyStr(canal) || m.canal == canal.value)
    && (!TruthyStr(search)
        || ContainsInsensitive(m.nombreCompleto, search.value)
        || ContainsInsensitive(m.correoElectronico, search.value)
        || ContainsInsensitive(m.asunto, search.value)
        || ContainsInsensitive(m.mensaje, search.value))
  }

  function CreationKey(m: Mensaje): Key
  {
    Key(m.fechaCreacion, 0, "")
  }

  /** The matching messages, newest first. */
  function NewestMensajes(ms: seq<Mensaje>, estatus: Option<string>, canal: Option<string>, search: Option<string>)
    : (r: seq<Mensaje>)
    ensures forall m :: m in r <==> m in ms && MensajeMatches(m, estatus, canal, search)
    ensures forall i, j :: 0 <= i < j < |r| ==> r[i].fechaCreacion >= r[j].fechaCreacion
    ensures |r| == |Filter(ms, (m: Mensaje) => MensajeMatches(m, estatus, canal, search))|
  {
    var matching := Filter(ms, (m: Mensaje) => MensajeMatches(m, estatus, canal, search));
    SortByKeyDescSorted(matching, CreationKey);
    SortByKeyDesc(matching, CreationKey)
  }

  /** `findAll`: the `skip`/`take` window of the matching messages,
      newest first. */
  function FindAll(ms: seq<Mensaje>, skip: nat, take: Option<nat>, estatus: Option<string>, canal: Option<string>,
                   search: Option<string>): (r: seq<Mensaje>)
    ensures IsPage(r, NewestMensajes(ms, estatus, canal, search), skip, take)
    ensures forall m :: m in r ==> m in ms && MensajeMatches(m, estatus, canal, search)
    ensures forall i, j :: 0 <= i < j < |r| ==> r[i].fechaCreacion >= r[j].fechaCreacion
    ensures take.Some? ==> |r| <= take.value
    ensures skip == 0 && take.None? ==> r == NewestMensajes(ms, estatus, canal, search)
  {
    var rows := NewestMensajes(ms, estatus, canal, search);
    assert skip == 0 && take.None? ==> Drop(rows, 0) == rows;
    Page(rows, skip, take)
  }

  /** `count`: the messages with the given status and channel, each filter
      applied only when truthy. */
  function CountMensajes(ms: seq<Mensaje>, estatus: Option<string>, canal: Option<string>): (n: nat)
    ensures n <= |ms|
    ensures !TruthyStr(estatus) && !TruthyStr(canal) ==> n == |ms|
  {
    if !TruthyStr(estatus) && !TruthyStr(canal) then
      FilterAll(ms, (m: Mensaje) => MensajeMatches(m, estatus, canal, None));
      |ms|
    else
      Count(ms, (m: Mensaje) => MensajeMatches(m, estatus, canal, None))
  }

  /** `count` agrees with an unpaged `findAll` with the same filters. */
  lemma CountIsListLength(ms: seq<Mensaje>, estatus: Option<string>, canal: Option<string>)
    ensures CountMensajes(ms, estatus, canal) == |FindAll(ms, 0, None, estatus, canal, None)|
  {
    if !TruthyStr(estatus) && !TruthyStr(canal) {
      FilterAll(ms, (m: Mensaje) => MensajeMatches(m, estatus, canal, None));
    }
  }

  const DefaultRecientes := 10

  /** `getMensajesRecientes`: the newest `limit` (10 by default) messages. */
  function GetMensajesRecientes(ms: seq<Mensaje>, limit: Option<nat>): (r: seq<Mensaje>)
    ensures |r| == if Coalesce(limit, DefaultRecientes) < |ms| then Coalesce(limit, DefaultRecientes) else |ms|
    ensures r <= NewestMensajes(ms, None, None, None)
  {
    var all := NewestMensajes(ms, None, None, None);
    FilterAll(ms, (m: Mensaje) => MensajeMatches(m, None, None, None));
    Take(all, Coalesce(limit, DefaultRecientes))
  }

  /** `findOne` by id. */
  function FindOne(ms: seq<Mensaje>, id: string): (r: Result<Mensaje>)
    ensures r.Ok? <==> exists m :: m in ms && m.id == id
    ensures r.Ok? ==> r.value in ms && r.value.id == id
    ensures r.Err? ==> r.error == NotFound
  {
    var found := FindMensaje(ms, id);
    if found.None? then Err(NotFound) else Ok(found.value)
  }

  /** `findByFolio`. */
  function FindOneByFolio(ms: seq<Mensaje>, folio: string): (r: Result<Mensaje>)
    ensures r.Ok? <==> exists m :: m in ms && m.folio == folio
    ensures r.Ok? ==> r.value in ms && r.value.folio == folio
    ensures r.Err? ==> r.error == NotFound
  {
    var found := FindByFolio(ms, folio);
    if found.None? then Err(NotFound) else Ok(found.value)
  }

  /** The guards of `responderMensaje`: NotFound, then BadRequest for a
      message already answered. */
  function ResponderCheck(ms: seq<Mensaje>, id: string): (r: Result<Mensaje>)
    ensures FindMensaje(ms, id).None? ==> r == Err(NotFound)
    ensures r.Ok? <==> FindMensaje(ms, id).Some? && FindMensaje(ms, id).value.estatus != Respondido
    ensures FindMensaje(ms, id).Some? && FindMensaje(ms, id).value.estatus == Respondido ==>
      r == Err(BadRequest("respondido"))
  {
    var found := FindMensaje(ms, id);
    if found.None? then Err(NotFound)
    else if found.value.estatus == Respondido then Err(BadRequest("respondido"))
    else Ok(found.value)
  }

  /** `responderMensaje`: a failed guard writes nothing; otherwise the
      answer is stored. */
  method ResponderMensaje(table: MensajeTable, id: string, respuesta: string, areaDestino: Option<string>, now: int)
    returns (r: Result<Mensaje>)
    requires table.Valid()
    modifies table
    ensures table.Valid()
    ensures ResponderCheck(old(table.mensajes), id).Err? ==>
      r == Err(ResponderCheck(old(table.mensajes), id).error) && table.mensajes == old(table.mensajes)
    ensures ResponderCheck(old(table.mensajes), id).Ok? ==>
      r == Ok(Answered(ResponderCheck(old(table.mensajes), id).value, respuesta, areaDestino, now))
      && MensajeUpdated(old(table.mensajes), table.mensajes, id, (m: Mensaje) => Answered(m, respuesta, areaDestino, now))
  {
    var check := ResponderCheck(table.mensajes, id);
    if check.Err? {
      return Err(check.error);
    }
    r := table.ResponderMensaje(id, respuesta, areaDestino, now);
  }

  /** A message is answered at most once: after a successful answer, a
      second one is refused. */
  lemma AnsweredOnce(before: seq<Mensaje>, after: seq<Mensaje>, id: string, respuesta: string,
                     areaDestino: Option<string>, now: int)
    requires ResponderCheck(before, id).Ok?
    requires MensajeUpdated(before, after, id, (m: Mensaje) => Answered(m, respuesta, areaDestino, now))
    ensures ResponderCheck(after, id) == Err(BadRequest("respondido"))
  {
    FindAfterUpdate(before, after, id, (m: Mensaje) => Answered(m, respuesta, areaDestino, now));
  }

  /** `cambiarEstatus`: NotFound comes first, even for an invalid status;
      then the repository rejects a status outside the four valid ones;
      otherwise only the status changes. */
  method CambiarEstatus(table: MensajeTable, id: string, estatus: string) returns (r: Result<Mensaje>)
    requires table.Valid()
    modifies table
    ensures table.Valid()
    ensures FindMensaje(old(table.mensajes), id).None? ==> r == Err(NotFound) && table.mensajes == old(table.mensajes)
    ensures FindMensaje(old(table.mensajes), id).Some? && estatus !in EstatusValidos ==>
      r == Err(Internal("estatus")) && table.mensajes == old(table.mensajes)
    ensures FindMensaje(old(table.mensajes), id).Some? && estatus in EstatusValidos ==>
      r == Ok(FindMensaje(old(table.mensajes), id).value.(estatus := estatus))
      && MensajeUpdated(old(table.mensajes), table.mensajes, id, (m: Mensaje) => m.(estatus := estatus))
  {
    var found := FindMensaje(table.mensajes, id);
    if found.None? {
      return Err(NotFound);
    }
    r := table.CambiarEstatus(id, estatus);
  }

  /** `delete`: NotFound, else the row is removed. */
  method Delete(table: MensajeTable, id: string) returns (r: Result<()>)
    requires table.Valid()
    modifies table
    ensures table.Valid()
    ensures FindMensaje(old(table.mensajes), id).None? ==> r == Err(NotFound) && table.mensajes == old(table.mensajes)
    ensures FindMensaje(old(table.mensajes), id).Some? ==>
      r == Ok(()) && (forall m :: m in table.mensajes <==> m in old(table.mensajes) && m.id != id)
  {
    var deleted := table.Delete(id);
    if deleted.Err? {
      return Err(deleted.error);
    }
    r := Ok(());
  }
}
