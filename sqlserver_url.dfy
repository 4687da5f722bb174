// The SQL Server connection string `sqlserver://host:port;key=value;...`
// as the database service and the seed script read it before opening the
// driver's connection pool.
module SqlServerUrl {
  import opened Common
  import opened Strings

  const Protocol: string := "sqlserver://"
  const DefaultPort: int := 1433

  /** The options handed to the SQL Server driver. */
  datatype SqlServerConfig = SqlServerConfig(
    server: string,
    port: int,
    database: string,
    user: Option<string>,
    password: Option<string>,
    encrypt: bool,
    trustServerCertificate: bool)

  /** `replace(/^sqlserver:\/\//, '')`: one leading protocol is removed and
      anything else is left as it is. */
  function StripProtocol(url: string): (r: string)
    ensures StartsWith(url, Protocol) ==> Protocol + r == url
    ensures !StartsWith(url, Protocol) ==> r == url
  {
    if StartsWith(url, Protocol) then url[|Protocol|..] else url
  }

  /** The second element of a destructured split, `undefined` when the
      split has a single piece. */
  function Second(pieces: seq<string>): Option<string>
  {
    if |pieces| >= 2 then Some(pieces[1]) else None
  }

  /** `const [server, portStr] = ...`: host and port text of the first
      segment, the port text being "1433" when there is no colon. */
  function ServerAndPort(serverPart: string): (string, string)
  {
    if ':' in serverPart then
      var pieces := Split(serverPart, ':');
      (pieces[0], pieces[1])
    else (serverPart, "1433")
  }

  /** `parseInt(portStr, 10) || 1433`: NaN and zero fall back to the
      default port. */
  function PortOf(portStr: string): (port: int)
    ensures port != 0
    ensures JsParseInt(portStr).Some? && JsParseInt(portStr).value != 0 ==> port == JsParseInt(portStr).value
    ensures JsParseInt(portStr).None? ==> port == DefaultPort
  {
    var p := JsParseInt(portStr);
    if p.None? || p.value == 0 then DefaultPort else p.value
  }

  /** `const [key, value] = part.split('=')`: the key is what precedes the
      first '=', the value what lies between the first and the second. */
  function Param(part: string): (string, Option<string>)
  {
    var pieces := Split(part, '=');
    (pieces[0], Second(pieces))
  }

  /** The parameter loop: a segment whose key and value are both non-empty
      sets the lower-cased key, and a later segment overwrites an earlier
      one. */
  function ParamsOf(segments: seq<string>): (m: map<string, string>)
    ensures forall k :: k in m ==> m[k] != ""
    decreases |segments|
  {
    if segments == [] then map[]
    else
      var m := ParamsOf(segments[..|segments| - 1]);
      var kv := Param(segments[|segments| - 1]);
      if kv.0 != "" && kv.1.Some? && kv.1.value != "" then
        m[ToLower(kv.0) := kv.1.value]
      else m
  }

  function Lookup(m: map<string, string>, key: string): Option<string>
  {
    if key in m then Some(m[key]) else None
  }

  /** The returned object: `||` fallbacks for the database, the user and
      the password, encryption on unless it is exactly "false", the server
      certificate trusted only when it is exactly "true". */
  function Assemble(serverPart: string, params: map<string, string>): SqlServerConfig
  {
    var (server, portStr) := ServerAndPort(serverPart);
    SqlServerConfig(
      server,
      PortOf(portStr),
      OrElse(Lookup(params, "database"), ""),
      if TruthyStr(Lookup(params, "user")) then Lookup(params, "user") else None,
      if TruthyStr(Lookup(params, "password")) then Lookup(params, "password") else None,
      Lookup(params, "encrypt") != Some("false"),
      Lookup(params, "trustservercertificate") == Some("true"))
  }

  /** The connection string without its protocol, read segment by segment. */
  function ParseConnection(rest: string): SqlServerConfig
  {
    var parts := Split(rest, ';');
    Assemble(parts[0], ParamsOf(parts[1..]))
  }

  function ConfigOf(url: string): SqlServerConfig
  {
    ParseConnection(StripProtocol(url))
  }

  /** `parseSqlServerUrl`: strip the protocol, split on ';', read host and
      port from the first segment and fill the parameter table from the
      others in order. */
  method ParseSqlServerUrl(url: string) returns (c: SqlServerConfig)
    ensures c == ConfigOf(url)
    ensures c.port != 0
  {
    var parts := Split(StripProtocol(url), ';');
    var params := ReadParams(parts);
    c := Assemble(parts[0], params);
  }

  /** The parameter loop over every segment after the first. */
  method ReadParams(parts: seq<string>) returns (params: map<string, string>)
    requires |parts| >= 1
    ensures params == ParamsOf(parts[1..])
  {
    params := map[];
    for i := 1 to |parts|
      invariant params == ParamsOf(parts[1..i])
    {
      var kv := Param(parts[i]);
      assert parts[1..i + 1][..i - 1] == parts[1..i];
      assert parts[1..i + 1][i - 1] == parts[i];
      if kv.0 != "" && kv.1.Some? && kv.1.value != "" {
        params := params[ToLower(kv.0) := kv.1.value];
      }
    }
    assert parts[1..|parts|] == parts[1..];
  }

  /** Exactly one leading protocol is removed before the segments are read. */
  lemma ProtocolStripped(rest: string)
    ensures ConfigOf(Protocol + rest) == ParseConnection(rest)
  {
    assert StartsWith(Protocol + rest, Protocol);
    assert (Protocol + rest)[|Protocol|..] == rest;
  }

  /** A bare host, with neither port nor parameters, gets every default:
      port 1433, no database name, no credentials, encryption on and the
      certificate checked. */
  lemma BareHostDefaults(host: string)
    requires ';' !in host && ':' !in host
    ensures ConfigOf(Protocol + host) == SqlServerConfig(host, DefaultPort, "", None, None, true, false)
  {
    ProtocolStripped(host);
    assert Split(host, ';') == [host] by {
      SplitJoin([host], ';');
    }
    assert [host][1..] == [];
    assert ServerAndPort(host) == (host, "1433");
    DefaultPortText();
  }

  /** The fallback port text reads as the default port. */
  lemma DefaultPortText()
    ensures PortOf("1433") == DefaultPort
  {
    assert NatToString(1) == "1";
    assert NatToString(14) == "14";
    assert NatToString(143) == "143";
    assert NatToString(1433) + [] == "1433";
    ParseIntOfNatString(1433, []);
  }

  /** A key and a value without '=' come back from the split as written. */
  lemma ParamOfPair(key: string, value: string)
    requires '=' !in key && '=' !in value
    ensures Param(key + "=" + value) == (key, Some(value))
  {
    SplitJoin([key, value], '=');
    assert Join([key, value], "=") == key + "=" + value;
  }

  /** Only the text between the first and the second '=' is the value. */
  lemma ParamOfTriple(key: string, value: string, more: string)
    requires '=' !in key && '=' !in value
    ensures Param(key + "=" + value + "=" + more) == (key, Some(value))
  {
    var tail := value + "=" + more;
    var s := key + "=" + value + "=" + more;
    assert s == key + ['='] + tail;
    IndexOfAfterPrefix(key, '=', tail);
    assert s[..|key|] == key;
    assert s[|key| + 1..] == tail;
    assert Split(s, '=') == [key] + Split(tail, '=');
    SplitFirst(value, '=', more);
  }

  /** The keys the configuration looks up are their own lower-case form. */
  lemma KeysLowered()
    ensures ToLower("database") == "database"
    ensures ToLower("user") == "user"
    ensures ToLower("password") == "password"
    ensures ToLower("encrypt") == "encrypt"
    ensures ToLower("trustServerCertificate") == "trustservercertificate"
  {
    assert LowerChar('S') == 's';
    assert LowerChar('C') == 'c';
  }

  /** Hence a password containing '=' is cut short at it. */
  lemma EqualsInValueIsCut()
    ensures ParamsOf(["password=a=b"]) == map["password" := "a"]
  {
    PasswordSpelled();
    OneSegmentCut("password", "a", "b");
    KeysLowered();
  }

  lemma PasswordSpelled()
    ensures "password=a=b" == "password" + "=" + "a" + "=" + "b"
  {
  }

  /** A lone segment with a second '=' sets its key to the text before it. */
  lemma OneSegmentCut(key: string, value: string, more: string)
    requires '=' !in key && key != "" && '=' !in value && value != ""
    ensures ParamsOf([key + "=" + value + "=" + more]) == map[ToLower(key) := value]
  {
    var segs := [key + "=" + value + "=" + more];
    ParamOfTriple(key, value, more);
    assert segs[..0] == [];
  }

  /** Splitting text with one more piece glued on adds that piece. */
  lemma SplitAppendPiece(s: string, c: char, t: string)
    requires c !in t
    ensures Split(s + [c] + t, c) == Split(s, c) + [t]
  {
    var ps := Split(s, c);
    JoinSplit(s, c);
    JoinAppend(ps, t, [c]);
    assert forall i :: 0 <= i < |ps + [t]| ==> c !in (ps + [t])[i];
    SplitJoin(ps + [t], c);
  }

  /** Keys are matched without regard to case, and a parameter appended at
      the end wins over any earlier one with the same key. */
  lemma AppendedParamWins(rest: string, key: string, value: string)
    requires ';' !in key && '=' !in key && key != ""
    requires ';' !in value && '=' !in value && value != ""
    ensures ParamsOf(Split(rest + ";" + key + "=" + value, ';')[1..])
         == ParamsOf(Split(rest, ';')[1..])[ToLower(key) := value]
  {
    var seg := key + "=" + value;
    assert ';' !in seg;
    assert rest + ";" + key + "=" + value == rest + [';'] + seg;
    var ps := Split(rest, ';');
    SplitAppendPiece(rest, ';', seg);
    AppendedSegment(ps[1..], key, value);
    assert (ps + [seg])[1..] == ps[1..] + [seg];
  }

  /** One more `key=value` segment sets the lower-cased key, unless the
      value is empty, in which case it is skipped. */
  lemma AppendedSegment(segs: seq<string>, key: string, value: string)
    requires '=' !in key && key != ""
    requires '=' !in value
    ensures value != "" ==> ParamsOf(segs + [key + "=" + value]) == ParamsOf(segs)[ToLower(key) := value]
    ensures value == "" ==> ParamsOf(segs + [key + "=" + value]) == ParamsOf(segs)
  {
    var all := segs + [key + "=" + value];
    assert all[..|all| - 1] == segs;
    ParamOfPair(key, value);
  }

  /** Hence `encrypt=false` at the end switches encryption off, in any
      case of the key, whatever came before. */
  lemma TrailingEncryptFalse(rest: string, key: string)
    requires key != "" && ';' !in key && '=' !in key && ToLower(key) == "encrypt"
    ensures !ParseConnection(rest + ";" + key + "=false").encrypt
  {
    TrailingParamFound(rest, key, "false", "encrypt");
    assert rest + ";" + key + "=false" == rest + ";" + key + "=" + "false";
  }

  /** And `trustServerCertificate=true` at the end trusts the certificate. */
  lemma TrailingTrustTrue(rest: string, key: string)
    requires key != "" && ';' !in key && '=' !in key && ToLower(key) == "trustservercertificate"
    ensures ParseConnection(rest + ";" + key + "=true").trustServerCertificate
  {
    TrailingParamFound(rest, key, "true", "trustservercertificate");
    assert rest + ";" + key + "=true" == rest + ";" + key + "=" + "true";
  }

  /** The value of a trailing parameter is what its lower-cased key looks up. */
  lemma TrailingParamFound(rest: string, key: string, value: string, lower: string)
    requires ';' !in key && '=' !in key && key != "" && ToLower(key) == lower
    requires ';' !in value && '=' !in value && value != ""
    ensures Lookup(ParamsOf(Split(rest + ";" + key + "=" + value, ';')[1..]), lower) == Some(value)
  {
    AppendedParamWins(rest, key, value);
  }
}
