// `buildDatabaseUrl` of the ORM configuration: the connection string is
// taken whole from the environment or assembled from separate settings,
// each with its default.
module DatabaseUrl {
  import opened Common
  import opened Strings
  import opened SqlServerUrl

  /** The environment variables read; `None` when a variable is unset. */
  datatype DbEnv = DbEnv(
    databaseUrl: Option<string>,
    host: Option<string>,
    port: Option<string>,
    name: Option<string>,
    user: Option<string>,
    password: Option<string>,
    encrypt: Option<string>,
    trustServerCertificate: Option<string>)

  /** The separate settings after their `||` defaults. */
  datatype DbSettings = DbSettings(
    host: string, port: string, name: string, user: string,
    password: string, encrypt: string, trustServerCertificate: string)

  function Resolve(env: DbEnv): (s: DbSettings)
    ensures s.host != "" && s.port != "" && s.name != "" && s.user != ""
    ensures s.encrypt != "" && s.trustServerCertificate != ""
    ensures !TruthyStr(env.password) ==> s.password == ""
  {
    DbSettings(
      OrElse(env.host, "localhost"),
      OrElse(env.port, "1433"),
      OrElse(env.name, "DB_Transparencia_Fiscal"),
      OrElse(env.user, "sa"),
      OrElse(env.password, ""),
      OrElse(env.encrypt, "false"),
      OrElse(env.trustServerCertificate, "true"))
  }

  function KeyValue(key: string, value: string): string
  {
    key + "=" + value
  }

  /** The `;`-separated segments of the template, in order. */
  function Segments(s: DbSettings): seq<string>
  {
    [s.host + ":" + s.port] + ParamSegments(s)
  }

  function ParamSegments(s: DbSettings): seq<string>
  {
    [KeyValue("database", s.name),
     KeyValue("user", s.user),
     KeyValue("password", s.password),
     KeyValue("encrypt", s.encrypt),
     KeyValue("trustServerCertificate", s.trustServerCertificate)]
  }

  /** `buildDatabaseUrl`: a non-empty `DATABASE_URL` is used verbatim,
      otherwise the template is filled with the resolved settings. */
  function BuildDatabaseUrl(env: DbEnv): (url: string)
    ensures TruthyStr(env.databaseUrl) ==> url == env.databaseUrl.value
    ensures !TruthyStr(env.databaseUrl) ==> StartsWith(url, Protocol)
  {
    if TruthyStr(env.databaseUrl) then env.databaseUrl.value
    else Protocol + Join(Segments(Resolve(env)), ";")
  }

  /** A setting the connection string can carry unchanged. */
  predicate Plain(x: string)
  {
    ';' !in x && '=' !in x && ':' !in x
  }

  predicate AllDigits(x: string)
  {
    forall i :: 0 <= i < |x| ==> IsDigit(x[i])
  }

  /** `parseInt` reads a string of digits as their value. */
  lemma ParseDigits(d: string)
    requires d != [] && AllDigits(d)
    ensures JsParseInt(d) == Some(DigitsValue(d) as int)
  {
    assert !IsSpace(d[0]) && d[0] != '-' && d[0] != '+' by {
      assert IsDigit(d[0]);
    }
    assert TrimStart(d) == d;
    assert DigitPrefix(d) == d by {
      DigitPrefixOfDigits(d, []);
      assert d + [] == d;
    }
  }

  /** The table after one `if (key && value)` step for a non-empty key. */
  function Upd(m: map<string, string>, key: string, value: string): map<string, string>
  {
    if value == "" then m else m[key := value]
  }

  lemma LookupUpd(m: map<string, string>, key: string, value: string, q: string)
    ensures Lookup(Upd(m, key, value), q) == if q == key && value != "" then Some(value) else Lookup(m, q)
  {
  }

  /** The parameter table the parser builds from the five `key=value`
      segments: every key lower-cased, an empty value skipped. */
  function SettingsTable(s: DbSettings): map<string, string>
  {
    var m1 := Upd(map[], "database", s.name);
    var m2 := Upd(m1, "user", s.user);
    var m3 := Upd(m2, "password", s.password);
    var m4 := Upd(m3, "encrypt", s.encrypt);
    Upd(m4, "trustservercertificate", s.trustServerCertificate)
  }

  lemma SettingsParams(s: DbSettings)
    requires Plain(s.name) && Plain(s.user) && Plain(s.password)
    requires Plain(s.encrypt) && Plain(s.trustServerCertificate)
    ensures ParamsOf(ParamSegments(s)) == SettingsTable(s)
  {
    KeysLowered();
    KeysWithoutEquals();
    var a := KeyValue("database", s.name);
    var b := KeyValue("user", s.user);
    var c := KeyValue("password", s.password);
    var d := KeyValue("encrypt", s.encrypt);
    var m1 := Upd(map[], "database", s.name);
    var m2 := Upd(m1, "user", s.user);
    var m3 := Upd(m2, "password", s.password);
    ThreeSegments("database", "database", s.name, "user", "user", s.user, "password", "password", s.password);
    assert ParamsOf([a, b, c]) == m3;
    TwoMoreSegments([a, b, c], m3, "encrypt", "encrypt", s.encrypt,
      "trustServerCertificate", "trustservercertificate", s.trustServerCertificate);
    assert [a, b, c] + [d, KeyValue("trustServerCertificate", s.trustServerCertificate)] == ParamSegments(s);
  }

  lemma KeysWithoutEquals()
    ensures '=' !in "database" && '=' !in "user" && '=' !in "password"
    ensures '=' !in "encrypt" && '=' !in "trustServerCertificate"
  {
  }

  lemma ThreeSegments(k1: string, l1: string, v1: string, k2: string, l2: string, v2: string,
                      k3: string, l3: string, v3: string)
    requires '=' !in k1 && k1 != "" && '=' !in v1 && ToLower(k1) == l1
    requires '=' !in k2 && k2 != "" && '=' !in v2 && ToLower(k2) == l2
    requires '=' !in k3 && k3 != "" && '=' !in v3 && ToLower(k3) == l3
    ensures ParamsOf([KeyValue(k1, v1), KeyValue(k2, v2), KeyValue(k3, v3)])
         == Upd(Upd(Upd(map[], l1, v1), l2, v2), l3, v3)
  {
    var a, b, c := KeyValue(k1, v1), KeyValue(k2, v2), KeyValue(k3, v3);
    assert ParamsOf([]) == map[];
    SegmentStep([], k1, l1, v1, map[]);
    assert [] + [a] == [a];
    SegmentStep([a], k2, l2, v2, Upd(map[], l1, v1));
    assert [a] + [b] == [a, b];
    SegmentStep([a, b], k3, l3, v3, Upd(Upd(map[], l1, v1), l2, v2));
    assert [a, b] + [c] == [a, b, c];
  }

  lemma TwoMoreSegments(segs: seq<string>, m: map<string, string>,
                        k1: string, l1: string, v1: string, k2: string, l2: string, v2: string)
    requires ParamsOf(segs) == m
    requires '=' !in k1 && k1 != "" && '=' !in v1 && ToLower(k1) == l1
    requires '=' !in k2 && k2 != "" && '=' !in v2 && ToLower(k2) == l2
    ensures ParamsOf(segs + [KeyValue(k1, v1), KeyValue(k2, v2)]) == Upd(Upd(m, l1, v1), l2, v2)
  {
    SegmentStep(segs, k1, l1, v1, m);
    SegmentStep(segs + [KeyValue(k1, v1)], k2, l2, v2, Upd(m, l1, v1));
    assert segs + [KeyValue(k1, v1)] + [KeyValue(k2, v2)] == segs + [KeyValue(k1, v1), KeyValue(k2, v2)];
  }

  /** One more `key=value` segment is one more `Upd` of the table. */
  lemma SegmentStep(segs: seq<string>, key: string, lower: string, value: string, m: map<string, string>)
    requires ParamsOf(segs) == m
    requires '=' !in key && key != "" && '=' !in value && ToLower(key) == lower
    ensures ParamsOf(segs + [KeyValue(key, value)]) == Upd(m, lower, value)
  {
    AppendedSegment(segs, key, value);
  }

  /** Each option is found under its own key, and only when it is set. */
  lemma SettingsLookups(s: DbSettings)
    ensures Lookup(SettingsTable(s), "database") == (if s.name == "" then None else Some(s.name))
    ensures Lookup(SettingsTable(s), "user") == (if s.user == "" then None else Some(s.user))
    ensures Lookup(SettingsTable(s), "password") == (if s.password == "" then None else Some(s.password))
    ensures Lookup(SettingsTable(s), "encrypt") == (if s.encrypt == "" then None else Some(s.encrypt))
    ensures Lookup(SettingsTable(s), "trustservercertificate")
         == (if s.trustServerCertificate == "" then None else Some(s.trustServerCertificate))
  {
    var m1 := Upd(map[], "database", s.name);
    var m2 := Upd(m1, "user", s.user);
    var m3 := Upd(m2, "password", s.password);
    var m4 := Upd(m3, "encrypt", s.encrypt);
    var keys := ["database", "user", "password", "encrypt", "trustservercertificate"];
    forall q | q in keys
      ensures Lookup(SettingsTable(s), q)
           == Lookup(Upd(Upd(Upd(Upd(Upd(map[], "database", s.name), "user", s.user), "password", s.password), "encrypt", s.encrypt), "trustservercertificate", s.trustServerCertificate), q)
    {
    }
    LookupUpd(map[], "database", s.name, "user");
    LookupUpd(map[], "database", s.name, "password");
    LookupUpd(map[], "database", s.name, "encrypt");
    LookupUpd(map[], "database", s.name, "trustservercertificate");
    LookupUpd(m1, "user", s.user, "password");
    LookupUpd(m1, "user", s.user, "encrypt");
    LookupUpd(m1, "user", s.user, "trustservercertificate");
    LookupUpd(m2, "password", s.password, "encrypt");
    LookupUpd(m2, "password", s.password, "trustservercertificate");
    LookupUpd(m3, "encrypt", s.encrypt, "trustservercertificate");
    LookupUpd(m4, "trustservercertificate", s.trustServerCertificate, "database");
    LookupUpd(m4, "trustservercertificate", s.trustServerCertificate, "user");
    LookupUpd(m4, "trustservercertificate", s.trustServerCertificate, "password");
    LookupUpd(m4, "trustservercertificate", s.trustServerCertificate, "encrypt");
    LookupUpd(m3, "encrypt", s.encrypt, "database");
    LookupUpd(m3, "encrypt", s.encrypt, "user");
    LookupUpd(m3, "encrypt", s.encrypt, "password");
    LookupUpd(m2, "password", s.password, "database");
    LookupUpd(m2, "password", s.password, "user");
    LookupUpd(m1, "user", s.user, "database");
  }

  /** `parseInt(portStr, 10) || 1433` gives back a positive port written
      in digits. */
  lemma DigitsPort(port: string)
    requires AllDigits(port) && DigitsValue(port) > 0
    ensures PortOf(port) == DigitsValue(port)
  {
    ParseDigits(port);
  }

  /** The configuration the resolved settings stand for. */
  function Expected(s: DbSettings): SqlServerConfig
    requires AllDigits(s.port)
  {
    SqlServerConfig(
      s.host, DigitsValue(s.port), s.name, Some(s.user),
      if s.password == "" then None else Some(s.password),
      s.encrypt != "false", s.trustServerCertificate == "true")
  }

  lemma AssembleSettings(s: DbSettings)
    requires Plain(s.host) && s.user != "" && s.encrypt != "" && s.trustServerCertificate != ""
    requires AllDigits(s.port) && DigitsValue(s.port) > 0
    ensures Assemble(s.host + ":" + s.port, SettingsTable(s)) == Expected(s)
  {
    assert ServerAndPort(s.host + ":" + s.port) == (s.host, s.port) by {
      assert ':' !in s.port;
      SplitJoin([s.host, s.port], ':');
      assert Join([s.host, s.port], ":") == s.host + ":" + s.port;
    }
    DigitsPort(s.port);
    SettingsLookups(s);
  }

  lemma ParseSettings(s: DbSettings)
    requires Plain(s.host) && Plain(s.name) && Plain(s.user) && Plain(s.password)
    requires Plain(s.encrypt) && Plain(s.trustServerCertificate)
    requires s.user != "" && s.encrypt != "" && s.trustServerCertificate != ""
    requires AllDigits(s.port) && DigitsValue(s.port) > 0
    ensures ParseConnection(Join(Segments(s), ";")) == Expected(s)
  {
    var segs := Segments(s);
    assert Split(Join(segs, ";"), ';') == segs by {
      assert forall i :: 0 <= i < |segs| ==> ';' !in segs[i];
      SplitJoin(segs, ';');
    }
    assert segs[1..] == ParamSegments(s);
    SettingsParams(s);
    AssembleSettings(s);
  }

  /** What the configuration writes, the service reads back: host, port,
      database, user and password as set (an empty password as none),
      encryption and certificate trust as the two flags say. */
  lemma BuiltUrlParsesBack(env: DbEnv)
    requires !TruthyStr(env.databaseUrl)
    requires var s := Resolve(env);
      && Plain(s.host) && Plain(s.name) && Plain(s.user) && Plain(s.password)
      && Plain(s.encrypt) && Plain(s.trustServerCertificate)
    requires AllDigits(Resolve(env).port) && DigitsValue(Resolve(env).port) > 0
    ensures ConfigOf(BuildDatabaseUrl(env)) == Expected(Resolve(env))
  {
    var s := Resolve(env);
    ProtocolStripped(Join(Segments(s), ";"));
    ParseSettings(s);
  }

  /** With nothing set, the service connects to `localhost:1433`, database
      `DB_Transparencia_Fiscal`, as `sa` without password, unencrypted and
      trusting the certificate. */
  lemma DefaultsParseBack()
    ensures ConfigOf(BuildDatabaseUrl(DbEnv(None, None, None, None, None, None, None, None)))
      == SqlServerConfig("localhost", 1433, "DB_Transparencia_Fiscal", Some("sa"), None, false, true)
  {
    var env := DbEnv(None, None, None, None, None, None, None, None);
    var s := DbSettings("localhost", "1433", "DB_Transparencia_Fiscal", "sa", "", "false", "true");
    assert Resolve(env) == s;
    DefaultPortDigits();
    DefaultsArePlain();
    BuiltUrlParsesBack(env);
  }

  lemma DefaultPortDigits()
    ensures AllDigits("1433") && DigitsValue("1433") == 1433
  {
    assert "1433"[..3] == "143";
    assert "143"[..2] == "14";
    assert "14"[..1] == "1";
    assert "1"[..0] == "";
  }

  lemma DefaultsArePlain()
    ensures Plain("localhost") && Plain("DB_Transparencia_Fiscal") && Plain("sa")
    ensures Plain("") && Plain("false") && Plain("true")
  {
    PlainHost();
    PlainName();
    PlainFlags();
  }

  lemma PlainHost()
    ensures Plain("localhost") && Plain("sa") && Plain("")
  {
  }

  lemma PlainName()
    ensures Plain("DB_Transparencia_Fiscal")
  {
  }

  lemma PlainFlags()
    ensures Plain("false") && Plain("true")
  {
  }
}
