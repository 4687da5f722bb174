// The citizen-participation repository: the message table, updated in place
// by `create`, `responderMensaje`, `cambiarEstatus` and `delete`; the folio
// generator; and the status statistics. The clock and `Math.random` are
// inputs.
module ParticipacionRepository {
  import opened Common
  import opened Strings

  datatype Mensaje = Mensaje(
    id: string,
    folio: string,
    nombreCompleto: string,
    correoElectronico: string,
    asunto: string,
    mensaje: string,
    estatus: string,
    canal: string,
    areaDestino: Option<string>,
    respuesta: Option<string>,
    fechaRespuesta: Option<int>,
    fechaCreacion: int,
    direccionIp: Option<string>,
    agenteUsuario: Option<string>)

  /** What the service hands to `create`: every column but the id, the
      folio and the dates. */
  datatype MensajeData = MensajeData(
    nombreCompleto: string,
    correoElectronico: string,
    asunto: string,
    mensaje: string,
    canal: string,
    areaDestino: Option<string>,
    estatus: string,
    direccionIp: Option<string>,
    agenteUsuario: Option<string>)

  const Pendiente := "pendiente"
  const EnProceso := "en_proceso"
  const Respondido := "respondido"
  const Cerrado := "cerrado"

  /** The statuses `cambiarEstatus` accepts. */
  const EstatusValidos: seq<string> := [Pendiente, EnProceso, Respondido, Cerrado]

  predicate UniqueMensajeIds(ms: seq<Mensaje>)
  {
    forall i, j :: 0 <= i < j < |ms| ==> ms[i].id != ms[j].id
  }

  /** `folio` is a unique column: `findUnique` looks messages up by it. */
  predicate UniqueFolios(ms: seq<Mensaje>)
  {
    forall i, j :: 0 <= i < j < |ms| ==> ms[i].folio != ms[j].folio
  }

  /** An insert whose folio is already stored violates the unique
      constraint: not an HTTP exception, so the global filter answers 500. */
  const DuplicateFolio: Error := Internal("Error interno del servidor")

  function FindMensaje(ms: seq<Mensaje>, id: string): (r: Option<Mensaje>)
    ensures r.Some? ==> r.value in ms && r.value.id == id
    ensures r.None? ==> forall m :: m in ms ==> m.id != id
  {
    if ms == [] then None
    else if ms[0].id == id then Some(ms[0])
    else FindMensaje(ms[1..], id)
  }

  function FindByFolio(ms: seq<Mensaje>, folio: string): (r: Option<Mensaje>)
    ensures r.Some? ==> r.value in ms && r.value.folio == folio
    ensures r.None? ==> forall m :: m in ms ==> m.folio != folio
  {
    if ms == [] then None
    else if ms[0].folio == folio then Some(ms[0])
    else FindByFolio(ms[1..], folio)
  }

  /** With unique folios, looking up any message's folio finds that very
      message. */
  lemma {:induction false} FolioFindsItsMessage(ms: seq<Mensaje>, k: nat)
    requires UniqueFolios(ms) && k < |ms|
    ensures FindByFolio(ms, ms[k].folio) == Some(ms[k])
  {
    if k > 0 {
      assert ms[0].folio != ms[k].folio;
      assert UniqueFolios(ms[1..]) by {
        forall i, j | 0 <= i < j < |ms[1..]| ensures ms[1..][i].folio != ms[1..][j].folio {
          assert ms[1..][i] == ms[i + 1] && ms[1..][j] == ms[j + 1];
        }
      }
      FolioFindsItsMessage(ms[1..], k - 1);
      assert ms[1..][k - 1] == ms[k];
    }
  }

  function MensajeIndex(ms: seq<Mensaje>, id: string): (k: nat)
    requires FindMensaje(ms, id).Some?
    ensures k < |ms| && ms[k] == FindMensaje(ms, id).value
  {
    if ms[0].id == id then 0 else 1 + MensajeIndex(ms[1..], id)
  }

  /** `after` is `before` with the message whose id is `id` replaced by `f`
      of it and every other row as it was. */
  ghost predicate MensajeUpdated(before: seq<Mensaje>, after: seq<Mensaje>, id: string, f: Mensaje -> Mensaje)
  {
    |after| == |before|
    && forall i :: 0 <= i < |before| ==>
      after[i] == if before[i].id == id then f(before[i]) else before[i]
  }

  /** A lookup after an update that keeps ids finds the updated row. */
  lemma {:induction false} FindAfterUpdate(before: seq<Mensaje>, after: seq<Mensaje>, id: string,
                                           f: Mensaje -> Mensaje)
    requires MensajeUpdated(before, after, id, f)
    requires forall m :: f(m).id == m.id
    ensures FindMensaje(before, id).None? ==> FindMensaje(after, id).None?
    ensures FindMensaje(before, id).Some? ==> FindMensaje(after, id) == Some(f(FindMensaje(before, id).value))
  {
    if before != [] {
      assert after[0] == if before[0].id == id then f(before[0]) else before[0];
      if before[0].id != id {
        assert MensajeUpdated(before[1..], after[1..], id, f);
        FindAfterUpdate(before[1..], after[1..], id, f);
      }
    }
  }

  /** `generateFolio`: "MSG-", the last six digits of the timestamp, "-",
      and the random number below 1000 padded to three digits. */
  function GenerateFolio(timestamp: nat, random: nat): (folio: string)
    requires random < 1000
    ensures "MSG-" <= folio
    ensures timestamp >= 100000 ==> |folio| == 14
  {
    var stamp := SliceLast(NatToString(timestamp), 6);
    var rnd := PadStart(NatToString(random), 3, '0');
    FolioFieldLengths(timestamp, random);
    "MSG" + "-" + stamp + "-" + rnd
  }

  lemma FolioFieldLengths(timestamp: nat, random: nat)
    requires random < 1000
    ensures |PadStart(NatToString(random), 3, '0')| == 3
    ensures timestamp >= 100000 ==> |SliceLast(NatToString(timestamp), 6)| == 6
  {
    assert Pow10(3) == 1000 by {
      assert Pow10(1) == 10;
      assert Pow10(2) == 100;
    }
    NatToStringLength(random, 3);
    if timestamp >= 100000 {
      assert Pow10(5) == 100000 by {
        assert Pow10(4) == 10000;
      }
      NatToStringLengthAtLeast(timestamp, 6);
    }
  }

  lemma JoinThree(a: string, b: string, c: string, sep: string)
    ensures Join([a, b, c], sep) == a + sep + b + sep + c
  {
    var parts := [a, b, c];
    assert parts[1..] == [b, c];
    assert [b, c][1..] == [c];
    assert Join([c], sep) == c;
    assert Join([b, c], sep) == b + sep + c;
  }

  lemma DigitsHaveNoDash(s: string)
    requires forall i :: 0 <= i < |s| ==> IsDigit(s[i])
    ensures '-' !in s
  {
    forall i | 0 <= i < |s| ensures s[i] != '-' {
      assert IsDigit(s[i]);
    }
  }

  lemma SplitThree(a: string, b: string, c: string)
    requires '-' !in a && '-' !in b && '-' !in c
    ensures Split(a + "-" + b + "-" + c, '-') == [a, b, c]
  {
    JoinThree(a, b, c, "-");
    SplitJoin([a, b, c], '-');
  }

  lemma FolioSplit(timestamp: nat, random: nat)
    requires random < 1000
    ensures Split(GenerateFolio(timestamp, random), '-')
      == ["MSG", SliceLast(NatToString(timestamp), 6), PadStart(NatToString(random), 3, '0')]
  {
    var digits := NatToString(timestamp);
    var stamp := SliceLast(digits, 6);
    var rnd := PadStart(NatToString(random), 3, '0');
    PadZerosValue(NatToString(random), 3);
    assert forall i :: 0 <= i < |stamp| ==> stamp[i] == digits[|digits| - |stamp| + i];
    DigitsHaveNoDash(stamp);
    DigitsHaveNoDash(rnd);
    assert '-' !in "MSG" by {
      assert "MSG" == ['M', 'S', 'G'];
    }
    SplitThree("MSG", stamp, rnd);
  }

  /** A folio splits on '-' into "MSG", the timestamp's last digits and a
      three-digit field that reads back as the random number. */
  lemma FolioParts(timestamp: nat, random: nat)
    requires random < 1000
    ensures var parts := Split(GenerateFolio(timestamp, random), '-');
      |parts| == 3 && parts[0] == "MSG"
      && parts[1] == SliceLast(NatToString(timestamp), 6)
      && |parts[2]| == 3 && (forall i :: 0 <= i < 3 ==> IsDigit(parts[2][i]))
      && DigitsValue(parts[2]) == random
  {
    var rnd := PadStart(NatToString(random), 3, '0');
    FolioSplit(timestamp, random);
    PadZerosValue(NatToString(random), 3);
    FolioFieldLengths(timestamp, random);
    DigitsValueOfNatToString(random);
    assert DigitsValue(rnd) == random;
    var parts := Split(GenerateFolio(timestamp, random), '-');
    assert parts[2] == rnd;
  }

  /** The row `create` inserts: the caller's data, the folio, and no answer
      yet. */
  function NewMensaje(data: MensajeData, id: string, folio: string, now: int): (m: Mensaje)
    ensures m.folio == folio && m.estatus == data.estatus && m.canal == data.canal
    ensures m.respuesta.None? && m.fechaRespuesta.None? && m.fechaCreacion == now
    ensures m.direccionIp == data.direccionIp && m.agenteUsuario == data.agenteUsuario
  {
    Mensaje(id, folio, data.nombreCompleto, data.correoElectronico, data.asunto, data.mensaje, data.estatus,
            data.canal, data.areaDestino, None, None, now, data.direccionIp, data.agenteUsuario)
  }

  /** The update `responderMensaje` writes: the answer, its date and the
      `respondido` status; an undefined area leaves the stored one. */
  function Answered(m: Mensaje, respuesta: string, areaDestino: Option<string>, now: int): Mensaje
  {
    m.(respuesta := Some(respuesta),
       areaDestino := if areaDestino.Some? then areaDestino else m.areaDestino,
       estatus := Respondido,
       fechaRespuesta := Some(now))
  }

  /** The counts of `getEstadisticas`. */
  datatype Estadisticas = Estadisticas(total: nat, pendientes: nat, respondidos: nat, enProceso: nat)

  /** `count({ where: { estatus } })`. */
  function CountStatus(ms: seq<Mensaje>, estatus: string): (n: nat)
    ensures n <= |ms|
  {
    if ms == [] then 0 else (if ms[0].estatus == estatus then 1 else 0) + CountStatus(ms[1..], estatus)
  }

  function GetEstadisticas(ms: seq<Mensaje>): (r: Estadisticas)
    ensures r.total == |ms|
    ensures r.pendientes == CountStatus(ms, Pendiente) && r.respondidos == CountStatus(ms, Respondido)
    ensures r.enProceso == CountStatus(ms, EnProceso)
  {
    Estadisticas(|ms|, CountStatus(ms, Pendiente), CountStatus(ms, Respondido), CountStatus(ms, EnProceso))
  }

  /** The statuses are disjoint, so the four status counts never add up to
      more than the total, and add up to it exactly when every message has
      one of the four statuses. */
  lemma {:induction false} StatusCountsBounded(ms: seq<Mensaje>)
    ensures CountStatus(ms, Pendiente) + CountStatus(ms, Respondido) + CountStatus(ms, EnProceso)
            + CountStatus(ms, Cerrado) <= |ms|
    ensures (forall m :: m in ms ==> m.estatus in EstatusValidos) ==>
      CountStatus(ms, Pendiente) + CountStatus(ms, Respondido) + CountStatus(ms, EnProceso)
      + CountStatus(ms, Cerrado) == |ms|
  {
    if ms != [] {
      StatusCountsBounded(ms[1..]);
      if forall m :: m in ms ==> m.estatus in EstatusValidos {
        assert ms[0] in ms;
        forall m | m in ms[1..] ensures m.estatus in EstatusValidos {
          assert m in ms;
        }
      }
    }
  }

  /** The statistics never count more messages by status than in total. */
  lemma EstadisticasBounded(ms: seq<Mensaje>)
    ensures var r := GetEstadisticas(ms);
      r.pendientes + r.respondidos + r.enProceso <= r.total
  {
    StatusCountsBounded(ms);
  }

  /** Removing the row at `k` from a table with unique ids keeps the ids
      unique and keeps exactly the rows with another id. */
  lemma RemoveMensajeAt(ms: seq<Mensaje>, k: nat)
    requires UniqueMensajeIds(ms) && k < |ms|
    ensures var r := ms[..k] + ms[k + 1..];
      UniqueMensajeIds(r) && |r| == |ms| - 1
      && forall m :: m in r <==> m in ms && m.id != ms[k].id
  {
    var r := ms[..k] + ms[k + 1..];
    assert forall i :: 0 <= i < |r| ==> r[i] == ms[if i < k then i else i + 1];
    forall m | m in ms && m.id != ms[k].id ensures m in r {
      var i :| 0 <= i < |ms| && ms[i] == m;
      assert r[if i < k then i else i - 1] == m;
    }
    forall i | 0 <= i < |r| ensures r[i].id != ms[k].id {
      var i' := if i < k then i else i + 1;
      assert r[i] == ms[i'] && i' != k;
    }
    forall i, j | 0 <= i < j < |r| ensures r[i].id != r[j].id {
      var i' := if i < k then i else i + 1;
      var j' := if j < k then j else j + 1;
      assert r[i] == ms[i'] && r[j] == ms[j'] && i' < j';
    }
  }

  /** Removing the row at `k` keeps the folios unique. */
  lemma RemoveKeepsUniqueFolios(ms: seq<Mensaje>, k: nat)
    requires UniqueFolios(ms) && k < |ms|
    ensures UniqueFolios(ms[..k] + ms[k + 1..])
  {
    var r := ms[..k] + ms[k + 1..];
    forall i, j | 0 <= i < j < |r| ensures r[i].folio != r[j].folio {
      var i' := if i < k then i else i + 1;
      var j' := if j < k then j else j + 1;
      assert r[i] == ms[i'] && r[j] == ms[j'] && i' < j';
    }
  }

  /** The message table. */
  class MensajeTable {
    var mensajes: seq<Mensaje>

    ghost predicate Valid()
      reads this
    {
      UniqueMensajeIds(mensajes) && UniqueFolios(mensajes)
    }

    constructor (mensajes: seq<Mensaje>)
      requires UniqueMensajeIds(mensajes) && UniqueFolios(mensajes)
      ensures Valid() && this.mensajes == mensajes
    {
      this.mensajes := mensajes;
    }

    /** `create`: the caller's data with a generated folio. The folio is
        not checked beforehand: one already stored makes the insert fail
        on the unique constraint, writing nothing. */
    method Create(data: MensajeData, id: string, timestamp: nat, random: nat, now: int)
      returns (r: Result<Mensaje>)
      requires Valid() && FindMensaje(mensajes, id).None?
      requires random < 1000
      modifies this
      ensures Valid()
      ensures var m := NewMensaje(data, id, GenerateFolio(timestamp, random), now);
        if FindByFolio(old(mensajes), m.folio).Some? then
          r == Err(DuplicateFolio) && mensajes == old(mensajes)
        else
          r == Ok(m) && mensajes == old(mensajes) + [m] && FindByFolio(mensajes, m.folio) == Some(m)
    {
      var m := NewMensaje(data, id, GenerateFolio(timestamp, random), now);
      if FindByFolio(mensajes, m.folio).Some? {
        return Err(DuplicateFolio);
      }
      var before := mensajes;
      mensajes := mensajes + [m];
      forall i, j | 0 <= i < j < |mensajes|
        ensures mensajes[i].id != mensajes[j].id && mensajes[i].folio != mensajes[j].folio
      {
        if j == |before| {
          assert before[i] in before;
        }
      }
      FolioFindsItsMessage(mensajes, |before|);
      r := Ok(m);
    }

    /** `update({ where: { id } })`: the message with that id is replaced by
        `f` of it; a missing id is NotFound. */
    method UpdateRow(id: string, f: Mensaje -> Mensaje) returns (r: Result<Mensaje>)
      requires Valid()
      requires forall m :: f(m).id == m.id && f(m).folio == m.folio
      modifies this
      ensures Valid()
      ensures FindMensaje(old(mensajes), id).None? ==> r == Err(NotFound) && mensajes == old(mensajes)
      ensures FindMensaje(old(mensajes), id).Some? ==>
        r == Ok(f(FindMensaje(old(mensajes), id).value)) && MensajeUpdated(old(mensajes), mensajes, id, f)
    {
      var found := FindMensaje(mensajes, id);
      if found.None? {
        return Err(NotFound);
      }
      var k := MensajeIndex(mensajes, id);
      var before := mensajes;
      mensajes := mensajes[k := f(mensajes[k])];
      forall i | 0 <= i < |before| && i != k ensures before[i].id != id {
        if i < k { assert before[i].id != before[k].id; } else { assert before[k].id != before[i].id; }
      }
      assert forall i :: 0 <= i < |mensajes| ==> mensajes[i].folio == before[i].folio;
      r := Ok(f(before[k]));
    }

    /** `responderMensaje`: the answer is written whatever the status was. */
    method ResponderMensaje(id: string, respuesta: string, areaDestino: Option<string>, now: int)
      returns (r: Result<Mensaje>)
      requires Valid()
      modifies this
      ensures Valid()
      ensures FindMensaje(old(mensajes), id).None? ==> r == Err(NotFound) && mensajes == old(mensajes)
      ensures FindMensaje(old(mensajes), id).Some? ==>
        r == Ok(Answered(FindMensaje(old(mensajes), id).value, respuesta, areaDestino, now))
        && MensajeUpdated(old(mensajes), mensajes, id, (m: Mensaje) => Answered(m, respuesta, areaDestino, now))
    {
      r := UpdateRow(id, (m: Mensaje) => Answered(m, respuesta, areaDestino, now));
    }

    /** `cambiarEstatus`: a status outside the four valid ones throws
        before anything is written; otherwise only the status changes. */
    method CambiarEstatus(id: string, estatus: string) returns (r: Result<Mensaje>)
      requires Valid()
      modifies this
      ensures Valid()
      ensures estatus !in EstatusValidos ==> r == Err(Internal("estatus")) && mensajes == old(mensajes)
      ensures estatus in EstatusValidos && FindMensaje(old(mensajes), id).None? ==>
        r == Err(NotFound) && mensajes == old(mensajes)
      ensures estatus in EstatusValidos && FindMensaje(old(mensajes), id).Some? ==>
        r == Ok(FindMensaje(old(mensajes), id).value.(estatus := estatus))
        && MensajeUpdated(old(mensajes), mensajes, id, (m: Mensaje) => m.(estatus := estatus))
    {
      if estatus !in EstatusValidos {
        return Err(Internal("estatus"));
      }
      r := UpdateRow(id, (m: Mensaje) => m.(estatus := estatus));
    }

    /** `delete({ where: { id } })`: the row is removed; a missing id is
        NotFound. */
    method Delete(id: string) returns (r: Result<Mensaje>)
      requires Valid()
      modifies this
      ensures Valid()
      ensures FindMensaje(old(mensajes), id).None? ==> r == Err(NotFound) && mensajes == old(mensajes)
      ensures FindMensaje(old(mensajes), id).Some? ==>
        r == Ok(FindMensaje(old(mensajes), id).value)
        && (forall m :: m in mensajes <==> m in old(mensajes) && m.id != id)
        && |mensajes| == |old(mensajes)| - 1
    {
      var found := FindMensaje(mensajes, id);
      if found.None? {
        return Err(NotFound);
      }
      var k := MensajeIndex(mensajes, id);
      RemoveMensajeAt(mensajes, k);
      RemoveKeepsUniqueFolios(mensajes, k);
      mensajes := mensajes[..k] + mensajes[k + 1..];
      r := Ok(found.value);
    }
  }
}
