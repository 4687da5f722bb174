// The configuration repository: the verification-code table, updated in
// place by `createVerificationCode` and `markCodeAsUsed`; the password
// check and write on the user table; and the access log read from the
// refresh tokens. bcrypt is an input.
module ConfiguracionRepository {
  import opened Common
  import opened Ordering
  import opened Accounts
  import opened UsersRepository

  /** An unused code of this user and this type. */
  predicate Pending(c: VerificationCode, usuarioId: int, tipo: string)
  {
    c.usuarioId == usuarioId && c.tipo == tipo && !c.usado
  }

  /** At most one unused code per user and type. */
  predicate OnePendingPerKind(codes: seq<VerificationCode>)
  {
    forall i, j :: 0 <= i < j < |codes| && !codes[i].usado && !codes[j].usado ==>
      codes[i].usuarioId != codes[j].usuarioId || codes[i].tipo != codes[j].tipo
  }

  predicate UniqueCodeIds(codes: seq<VerificationCode>)
  {
    forall i, j :: 0 <= i < j < |codes| ==> codes[i].id != codes[j].id
  }

  /** A code marked used at `now`. */
  function Used(c: VerificationCode, now: int): VerificationCode
  {
    c.(usado := true, fechaUso := Some(now))
  }

  /** The `updateMany` of `createVerificationCode`: every unused code of the
      user and the type is marked used at `now`; every other row is kept. */
  function InvalidatePending(codes: seq<VerificationCode>, usuarioId: int, tipo: string, now: int)
    : (r: seq<VerificationCode>)
    ensures |r| == |codes|
    ensures forall i :: 0 <= i < |r| ==> !Pending(r[i], usuarioId, tipo) && r[i].id == codes[i].id
    ensures forall i :: 0 <= i < |r| && !Pending(codes[i], usuarioId, tipo) ==> r[i] == codes[i]
    ensures forall i :: 0 <= i < |r| && Pending(codes[i], usuarioId, tipo) ==> r[i] == Used(codes[i], now)
  {
    seq(|codes|, i requires 0 <= i < |codes| =>
      if Pending(codes[i], usuarioId, tipo) then Used(codes[i], now) else codes[i])
  }

  /** `markCodeAsUsed`'s update: the row with the id is marked used at
      `now`, whatever it was; every other row is kept. */
  function MarkUsed(codes: seq<VerificationCode>, codeId: string, now: int): (r: seq<VerificationCode>)
    ensures |r| == |codes|
    ensures forall i :: 0 <= i < |r| && codes[i].id == codeId ==> r[i].usado && r[i].id == codeId
    ensures forall i :: 0 <= i < |r| && codes[i].id != codeId ==> r[i] == codes[i]
  {
    seq(|codes|, i requires 0 <= i < |codes| => if codes[i].id == codeId then Used(codes[i], now) else codes[i])
  }

  function FindCode(codes: seq<VerificationCode>, codeId: string): (r: Option<VerificationCode>)
    ensures r.Some? ==> r.value in codes && r.value.id == codeId
    ensures r.None? ==> forall c :: c in codes ==> c.id != codeId
  {
    if codes == [] then None
    else if codes[0].id == codeId then Some(codes[0])
    else FindCode(codes[1..], codeId)
  }

  /** The `where` of `findValidVerificationCode`: the user, the code and
      the type, unused, and expiring strictly after `now`. */
  predicate IsValidCode(c: VerificationCode, usuarioId: int, codigo: string, tipo: string, now: int)
  {
    c.usuarioId == usuarioId && c.codigo == codigo && c.tipo == tipo && !c.usado && c.fechaExpiracion > now
  }

  /** `findValidVerificationCode`: the first valid code, if any. */
  function FindValidCode(codes: seq<VerificationCode>, usuarioId: int, codigo: string, tipo: string, now: int)
    : (r: Option<VerificationCode>)
    ensures r.Some? ==> r.value in codes && IsValidCode(r.value, usuarioId, codigo, tipo, now)
    ensures r.None? <==> forall c :: c in codes ==> !IsValidCode(c, usuarioId, codigo, tipo, now)
  {
    if codes == [] then None
    else if IsValidCode(codes[0], usuarioId, codigo, tipo, now) then Some(codes[0])
    else FindValidCode(codes[1..], usuarioId, codigo, tipo, now)
  }

  /** After `createVerificationCode` the new code is the only unused one of
      its user and type, and there is still at most one per user and type. */
  lemma CreateKeepsOnePending(codes: seq<VerificationCode>, c: VerificationCode, now: int)
    requires OnePendingPerKind(codes)
    requires !c.usado
    ensures var r := InvalidatePending(codes, c.usuarioId, c.tipo, now) + [c];
      OnePendingPerKind(r)
      && forall x :: x in r && Pending(x, c.usuarioId, c.tipo) ==> x == c
  {
    var inv := InvalidatePending(codes, c.usuarioId, c.tipo, now);
    var r := inv + [c];
    forall i, j | 0 <= i < j < |r| && !r[i].usado && !r[j].usado
      ensures r[i].usuarioId != r[j].usuarioId || r[i].tipo != r[j].tipo
    {
      if j == |inv| {
        assert r[i] == inv[i] && !Pending(inv[i], c.usuarioId, c.tipo);
      } else {
        assert r[i] == inv[i] == codes[i];
        assert r[j] == inv[j] == codes[j];
      }
    }
  }

  /** The code `requestPasswordChange` just stored is the one a lookup of
      its user, value and type finds before it expires: no older code of
      the same kind can be found in its place. */
  lemma CreatedCodeIsFound(codes: seq<VerificationCode>, c: VerificationCode, created: int, now: int)
    requires OnePendingPerKind(codes)
    requires !c.usado && c.fechaExpiracion > now
    ensures FindValidCode(InvalidatePending(codes, c.usuarioId, c.tipo, created) + [c], c.usuarioId, c.codigo, c.tipo, now)
      == Some(c)
  {
    var r := InvalidatePending(codes, c.usuarioId, c.tipo, created) + [c];
    CreateKeepsOnePending(codes, c, created);
    assert c in r;
  }

  /** Once `markCodeAsUsed` has run on a code, no later lookup finds it. */
  lemma MarkedCodeNeverValid(codes: seq<VerificationCode>, codeId: string, now: int,
                             usuarioId: int, codigo: string, tipo: string, later: int)
    ensures var found := FindValidCode(MarkUsed(codes, codeId, now), usuarioId, codigo, tipo, later);
      found.Some? ==> found.value.id != codeId
  {
    var r := MarkUsed(codes, codeId, now);
    var found := FindValidCode(r, usuarioId, codigo, tipo, later);
    if found.Some? {
      var k :| 0 <= k < |r| && r[k] == found.value;
      assert !r[k].usado;
    }
  }

  /** Marking a code used keeps at most one unused code per user and type. */
  lemma MarkKeepsOnePending(codes: seq<VerificationCode>, codeId: string, now: int)
    requires OnePendingPerKind(codes)
    ensures OnePendingPerKind(MarkUsed(codes, codeId, now))
  {
    var r := MarkUsed(codes, codeId, now);
    forall i, j | 0 <= i < j < |r| && !r[i].usado && !r[j].usado
      ensures r[i].usuarioId != r[j].usuarioId || r[i].tipo != r[j].tipo
    {
      assert r[i] == codes[i] && r[j] == codes[j];
    }
  }

  /** The verification-code table. */
  class CodeTable {
    var codes: seq<VerificationCode>

    ghost predicate Valid()
      reads this
    {
      OnePendingPerKind(codes) && UniqueCodeIds(codes)
    }

    constructor (codes: seq<VerificationCode>)
      requires OnePendingPerKind(codes) && UniqueCodeIds(codes)
      ensures Valid() && this.codes == codes
    {
      this.codes := codes;
    }

    /** `createVerificationCode`: the unused codes of the user and the type
        are marked used, then the new code is inserted unused. */
    method CreateVerificationCode(id: string, usuarioId: int, codigo: string, tipo: string, fechaExpiracion: int,
                                  now: int)
      returns (c: VerificationCode)
      requires Valid()
      requires FindCode(codes, id).None?
      modifies this
      ensures Valid()
      ensures c == VerificationCode(id, usuarioId, codigo, tipo, fechaExpiracion, false, None)
      ensures codes == InvalidatePending(old(codes), usuarioId, tipo, now) + [c]
    {
      c := VerificationCode(id, usuarioId, codigo, tipo, fechaExpiracion, false, None);
      CreateKeepsOnePending(codes, c, now);
      var before := codes;
      codes := InvalidatePending(codes, usuarioId, tipo, now) + [c];
      forall i, j | 0 <= i < j < |codes| ensures codes[i].id != codes[j].id {
        if j == |before| {
          assert before[i] in before;
        } else {
          assert codes[i].id == before[i].id && codes[j].id == before[j].id;
        }
      }
    }

    /** `markCodeAsUsed`: NotFound for an unknown id, otherwise that code is
        marked used at `now`. */
    method MarkCodeAsUsed(codeId: string, now: int) returns (r: Result<VerificationCode>)
      requires Valid()
      modifies this
      ensures Valid()
      ensures FindCode(old(codes), codeId).None? ==> r == Err(NotFound) && codes == old(codes)
      ensures FindCode(old(codes), codeId).Some? ==>
        r == Ok(Used(FindCode(old(codes), codeId).value, now)) && codes == MarkUsed(old(codes), codeId, now)
    {
      var found := FindCode(codes, codeId);
      if found.None? {
        return Err(NotFound);
      }
      MarkKeepsOnePending(codes, codeId, now);
      var before := codes;
      codes := MarkUsed(codes, codeId, now);
      forall i, j | 0 <= i < j < |codes| ensures codes[i].id != codes[j].id {
        assert before[i].id != before[j].id;
      }
      r := Ok(Used(found.value, now));
    }
  }

  /** `verifyPassword`: false for a missing user, otherwise what bcrypt's
      comparison of the password with the stored hash says. */
  function VerifyPassword(users: seq<User>, userId: int, password: string, compare: (string, string) -> bool)
    : (r: bool)
    ensures FindUser(users, userId).None? ==> !r
    ensures FindUser(users, userId).Some? ==> r == compare(password, FindUser(users, userId).value.password)
  {
    var user := FindUser(users, userId);
    user.Some? && compare(password, user.value.password)
  }

  /** The row `updatePassword` writes: the new hash and the user as its own
      modifier; `fecha_ultimo_cambio_pass` is not touched. */
  function WithPassword(u: User, hashed: string, userId: int): User
  {
    u.(password := hashed, usuarioModifId := Some(userId))
  }

  /** `updatePassword`: the hashed password is written, with the user as
      its own modifier; a missing user is NotFound. */
  method UpdatePassword(table: UserTable, userId: int, newPassword: string, hash: string -> string)
    returns (r: Result<User>)
    requires table.Valid()
    modifies table
    ensures table.Valid() && table.links == old(table.links)
    ensures FindUser(old(table.users), userId).None? ==> r == Err(NotFound) && table.users == old(table.users)
    ensures FindUser(old(table.users), userId).Some? ==>
      r == Ok(WithPassword(FindUser(old(table.users), userId).value, hash(newPassword), userId))
      && UserUpdated(old(table.users), table.users, userId, (u: User) => WithPassword(u, hash(newPassword), userId))
  {
    r := table.UpdateRow(userId, (u: User) => WithPassword(u, hash(newPassword), userId));
  }

  /** An access log entry: the selected columns of a refresh token. */
  datatype AccessLog = AccessLog(ipOrigen: string, userAgent: string, fechaCreacion: int)

  function CreationKey(t: RefreshToken): Key
  {
    Key(t.fechaCreacion, 0, "")
  }

  /** The inactive refresh tokens of a user, newest first. */
  function PastSessions(tokens: seq<RefreshToken>, userId: int): (r: seq<RefreshToken>)
    ensures forall t :: t in r <==> t in tokens && t.usuarioId == userId && !t.activo
    ensures forall i, j :: 0 <= i < j < |r| ==> r[i].fechaCreacion >= r[j].fechaCreacion
    ensures multiset(r) <= multiset(tokens)
  {
    var matching := Filter(tokens, (t: RefreshToken) => t.usuarioId == userId && !t.activo);
    SortByKeyDescSorted(matching, CreationKey);
    SortByKeyDesc(matching, CreationKey)
  }

  const DefaultLogLimit := 10

  /** `getUserAccessLogs`: the newest `limit` (10 by default) past sessions
      of the user. */
  function GetUserAccessLogs(tokens: seq<RefreshToken>, userId: int, limit: Option<nat>): (r: seq<AccessLog>)
    ensures var n := Coalesce(limit, DefaultLogLimit);
      |r| == if n < |PastSessions(tokens, userId)| then n else |PastSessions(tokens, userId)|
    ensures forall i :: 0 <= i < |r| ==>
      var t := PastSessions(tokens, userId)[i];
      r[i] == AccessLog(t.ipOrigen, t.userAgent, t.fechaCreacion)
  {
    var rows := Take(PastSessions(tokens, userId), Coalesce(limit, DefaultLogLimit));
    seq(|rows|, i requires 0 <= i < |rows| => AccessLog(rows[i].ipOrigen, rows[i].userAgent, rows[i].fechaCreacion))
  }
}
