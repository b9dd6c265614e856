/**
 * Reading JDBC values out of a resolved conninfo: decimal integers, `0`/`1`
 * flags, and the enumerated libpq settings the JDBC driver also understands.
 */
module JdbcElf {
  import opened Wrappers
  import opened PqConninfoOptions
  import opened Conninfo

  // ---------------------------------------------------------------------------
  // Integer.parseInt and Integer.toString
  // ---------------------------------------------------------------------------

  /** The range of a Java `int`. */
  const MinInt: int := -2147483648
  const MaxInt: int := 2147483647

  predicate IsDigit(c: char) {
    '0' <= c <= '9'
  }

  predicate AllDigits(s: string) {
    forall i :: 0 <= i < |s| ==> IsDigit(s[i])
  }

  function DigitValue(c: char): (d: nat)
    requires IsDigit(c)
    ensures d < 10
  {
    (c as int) - ('0' as int)
  }

  function DigitChar(d: nat): (c: char)
    requires d < 10
    ensures IsDigit(c) && DigitValue(c) == d
  {
    (('0' as int) + d) as char
  }

  /** The value of a string of decimal digits, most significant first. */
  function DigitsValue(s: string): nat
    requires AllDigits(s)
  {
    if s == [] then 0 else DigitsValue(s[..|s| - 1]) * 10 + DigitValue(s[|s| - 1])
  }

  /**
   * `Integer.parseInt(s)`: an optional sign and at least one decimal digit, whose
   * value fits in an `int`; anything else is a `NumberFormatException`, here `None`.
   */
  function ParseInt(s: string): (r: Option<int>)
    ensures r.Some? ==> MinInt <= r.value <= MaxInt
  {
    if s == [] then None
    else
      var digits := if s[0] == '-' || s[0] == '+' then s[1..] else s;
      if digits == [] || !AllDigits(digits) then None
      else
        var n: int := if s[0] == '-' then -(DigitsValue(digits) as int) else DigitsValue(digits);
        if MinInt <= n <= MaxInt then Some(n) else None
  }

  /** The decimal digits of `n`, without leading zeros. */
  function NatToString(n: nat): (r: string)
    ensures r != [] && AllDigits(r) && DigitsValue(r) == n
    ensures r[0] == '0' ==> r == "0"
  {
    if n < 10 then [DigitChar(n)]
    else
      var front := NatToString(n / 10);
      var r := front + [DigitChar(n % 10)];
      assert r[..|r| - 1] == front;
      r
  }

  /** `Integer.toString(n)`: a minus sign for negative numbers, then the digits. */
  function IntToString(n: int): string {
    if n < 0 then "-" + NatToString(-n) else NatToString(n)
  }

  /** Parsing inverts printing for every `int`. */
  lemma ParseIntInvertsIntToString(n: int)
    requires MinInt <= n <= MaxInt
    ensures ParseInt(IntToString(n)) == Some(n)
  {
    if n < 0 {
      var s := IntToString(n);
      assert s[1..] == NatToString(-n);
    }
  }

  /** Parsing rejects the empty string, a lone sign and any non-digit after the sign. */
  lemma ParseIntRejects(s: string, i: nat)
    requires s == [] || s == "-" || s == "+" || (0 < i < |s| && !IsDigit(s[i])) || (|s| > 0 && s[0] != '-' && s[0] != '+' && !IsDigit(s[0]))
    ensures ParseInt(s).None?
  {
    if 0 < i < |s| && !IsDigit(s[i]) && s[0] != '-' && s[0] != '+' {
      assert !AllDigits(s);
    } else if 0 < i < |s| && !IsDigit(s[i]) {
      assert !IsDigit(s[1..][i - 1]);
    }
  }

  /** Numbers outside the `int` range are rejected, however they are written. */
  /** The port of the parameter tests, printed. */
  lemma PortExampleToString()
    ensures IntToString(6543) == "6543"
  {
  }

  /** The port of the parameter tests, parsed. */
  lemma PortExampleParses()
    ensures ParseInt("6543") == Some(6543)
  {
    PortExampleToString();
    ParseIntInvertsIntToString(6543);
  }

  lemma ParseIntRejectsOutOfRange(digits: string)
    requires digits != [] && AllDigits(digits) && DigitsValue(digits) > MaxInt
    ensures ParseInt(digits).None?
    ensures ParseInt("+" + digits).None?
    ensures DigitsValue(digits) > -MinInt ==> ParseInt("-" + digits).None?
    ensures DigitsValue(digits) == -MinInt ==> ParseInt("-" + digits) == Some(MinInt)
  {
    assert ("+" + digits)[1..] == digits;
    assert ("-" + digits)[1..] == digits;
  }

  // ---------------------------------------------------------------------------
  // The generic getters
  // ---------------------------------------------------------------------------

  /** `integerFromConninfoOption`: the option's value as an `int`, if it is one. */
  function IntegerFromConninfoOption(c: PqConninfo, o: PqConninfoOption): (r: Option<int>)
    ensures GetOption(c, o).None? ==> r.None?
    ensures GetOption(c, o).Some? ==> r == ParseInt(c.opts[o])
  {
    match GetOption(c, o)
    case None => None
    case Some(v) => ParseInt(v)
  }

  /** `booleanFromConninfoOptionInteger`: `0` is false, `1` is true, anything else nothing. */
  function BooleanFromConninfoOptionInteger(c: PqConninfo, o: PqConninfoOption): (r: Option<bool>)
    ensures r == Some(false) <==> GetOption(c, o) == Some("0")
    ensures r == Some(true) <==> GetOption(c, o) == Some("1")
  {
    match GetOption(c, o)
    case None => None
    case Some(v) => if v == "0" then Some(false) else if v == "1" then Some(true) else None
  }

  function GetHost(c: PqConninfo): Option<string> { GetOption(c, HOST) }
  function GetPort(c: PqConninfo): Option<int> { IntegerFromConninfoOption(c, PORT) }
  function GetDbname(c: PqConninfo): Option<string> { GetOption(c, DBNAME) }
  function GetUser(c: PqConninfo): Option<string> { GetOption(c, USER) }
  function GetPassword(c: PqConninfo): Option<string> { GetOption(c, PASSWORD) }
  function GetOptions(c: PqConninfo): Option<string> { GetOption(c, OPTIONS) }
  function GetSslcert(c: PqConninfo): Option<string> { GetOption(c, SSLCERT) }
  function GetSslkey(c: PqConninfo): Option<string> { GetOption(c, SSLKEY) }
  function GetSslrootcert(c: PqConninfo): Option<string> { GetOption(c, SSLROOTCERT) }
  function GetKerberosServerName(c: PqConninfo): Option<string> { GetOption(c, KRBSRVNAME) }
  function GetApplicationName(c: PqConninfo): Option<string> { GetOption(c, APPLICATION_NAME) }
  function GetTcpKeepAlive(c: PqConninfo): Option<bool> { BooleanFromConninfoOptionInteger(c, KEEPALIVES) }
  function GetSslpassword(c: PqConninfo): Option<string> { GetOption(c, SSLPASSWORD) }

  /** `r` is the value stored for option `o`, or nothing exactly when `o` is absent. */
  predicate StoredValue(r: Option<string>, c: PqConninfo, o: PqConninfoOption) {
    (r.Some? <==> o in c.opts) && (r.Some? ==> r.value == c.opts[o])
  }

  /**
   * Each string getter reads the one option its name says; `getPort` parses
   * the `port` option and is absent when that option is not an integer.
   */
  lemma GettersReadTheirOptions(c: PqConninfo)
    ensures StoredValue(GetHost(c), c, HOST) && StoredValue(GetDbname(c), c, DBNAME)
    ensures StoredValue(GetUser(c), c, USER) && StoredValue(GetPassword(c), c, PASSWORD)
    ensures StoredValue(GetOptions(c), c, OPTIONS) && StoredValue(GetSslcert(c), c, SSLCERT)
    ensures StoredValue(GetSslkey(c), c, SSLKEY) && StoredValue(GetSslrootcert(c), c, SSLROOTCERT)
    ensures StoredValue(GetKerberosServerName(c), c, KRBSRVNAME)
    ensures StoredValue(GetApplicationName(c), c, APPLICATION_NAME)
    ensures StoredValue(GetSslpassword(c), c, SSLPASSWORD)
    ensures GetPort(c).Some? <==> PORT in c.opts && ParseInt(c.opts[PORT]).Some?
    ensures GetPort(c).Some? ==> GetPort(c) == ParseInt(c.opts[PORT])
  {
  }

  /** `getConnectTimeout`: a non-positive timeout (libpq: disabled) becomes 0. */
  function GetConnectTimeout(c: PqConninfo): (r: Option<int>)
    ensures r.Some? <==> IntegerFromConninfoOption(c, CONNECT_TIMEOUT).Some?
    ensures r.Some? ==> 0 <= r.value <= MaxInt
    ensures r.Some? && IntegerFromConninfoOption(c, CONNECT_TIMEOUT).value > 0 ==>
              r.value == IntegerFromConninfoOption(c, CONNECT_TIMEOUT).value
    ensures r.Some? && IntegerFromConninfoOption(c, CONNECT_TIMEOUT).value <= 0 ==> r.value == 0
  {
    match IntegerFromConninfoOption(c, CONNECT_TIMEOUT)
    case None => None
    case Some(t) => if t <= 0 then Some(0) else Some(t)
  }

  // ---------------------------------------------------------------------------
  // The enumerated settings
  // ---------------------------------------------------------------------------

  /** The JDBC driver's ssl modes. */
  datatype Sslmode = DISABLE | ALLOW | PREFER | REQUIRE | VERIFY_CA | VERIFY_FULL

  function SslmodeKeyword(m: Sslmode): string {
    match m
    case DISABLE => "disable"
    case ALLOW => "allow"
    case PREFER => "prefer"
    case REQUIRE => "require"
    case VERIFY_CA => "verify-ca"
    case VERIFY_FULL => "verify-full"
  }

  /** The libpq ssl-mode keywords, each mapped to the JDBC mode of the same name. */
  const PqSslmodeMap: map<string, Sslmode> := map[
    "disable" := Sslmode.DISABLE, "allow" := Sslmode.ALLOW, "prefer" := Sslmode.PREFER,
    "require" := Sslmode.REQUIRE, "verify-ca" := Sslmode.VERIFY_CA, "verify-full" := Sslmode.VERIFY_FULL]

  /** The six ssl modes libpq accepts. */
  const LibpqSslmodes: set<string> := {"disable", "allow", "prefer", "require", "verify-ca", "verify-full"}

  /** `getSslmode`: a libpq ssl mode passes through unchanged; anything else is dropped. */
  function GetSslmode(c: PqConninfo): (r: Option<string>)
    ensures r.Some? <==> GetOption(c, SSLMODE).Some? && c.opts[SSLMODE] in LibpqSslmodes
    ensures r.Some? ==> r == GetOption(c, SSLMODE)
  {
    match GetOption(c, SSLMODE)
    case None => None
    case Some(v) => if v in PqSslmodeMap then Some(SslmodeKeyword(PqSslmodeMap[v])) else None
  }

  /** The JDBC driver's GSS encryption modes; `ALLOW` has no libpq counterpart. */
  datatype Gssencmode = DISABLE | ALLOW | PREFER | REQUIRE

  function GssencmodeKeyword(m: Gssencmode): string {
    match m
    case DISABLE => "disable"
    case ALLOW => "allow"
    case PREFER => "prefer"
    case REQUIRE => "require"
  }

  const PqGssencmodeMap: map<string, Gssencmode> := map[
    "disable" := Gssencmode.DISABLE, "prefer" := Gssencmode.PREFER, "require" := Gssencmode.REQUIRE]

  /** `getGssencmode`: only `disable`, `prefer` and `require` pass, unchanged. */
  function GetGssencmode(c: PqConninfo): (r: Option<string>)
    ensures r.Some? <==> GetOption(c, GSSENCMODE).Some? && c.opts[GSSENCMODE] in {"disable", "prefer", "require"}
    ensures r.Some? ==> r == GetOption(c, GSSENCMODE)
  {
    match GetOption(c, GSSENCMODE)
    case None => None
    case Some(v) => if v in PqGssencmodeMap then Some(GssencmodeKeyword(PqGssencmodeMap[v])) else None
  }

  /** The JDBC driver's GSS libraries; only `GSSAPI` has a libpq counterpart. */
  datatype Gsslib = AUTO | SSPI | GSSAPI

  function GsslibKeyword(l: Gsslib): string {
    match l
    case AUTO => "auto"
    case SSPI => "sspi"
    case GSSAPI => "gssapi"
  }

  const PqGsslibMap: map<string, Gsslib> := map["gssapi" := GSSAPI]

  /** `getGsslib`: only `gssapi` passes. */
  function GetGsslib(c: PqConninfo): (r: Option<string>)
    ensures r.Some? <==> GetOption(c, GSSLIB) == Some("gssapi")
    ensures r.Some? ==> r == Some("gssapi")
  {
    match GetOption(c, GSSLIB)
    case None => None
    case Some(v) => if v in PqGsslibMap then Some(GsslibKeyword(PqGsslibMap[v])) else None
  }

  /** The JDBC driver's replication modes. */
  datatype Replication = TRUE | DATABASE

  function ReplicationKeyword(r: Replication): string {
    match r
    case TRUE => "true"
    case DATABASE => "database"
  }

  /** libpq's truthy replication values and `database`; the falsy ones are absent. */
  const PqReplicationMap: map<string, Replication> := map[
    "true" := TRUE, "on" := TRUE, "yes" := TRUE, "1" := TRUE, "database" := DATABASE]

  /** `getReplication`: a truthy value becomes `true`, `database` stays, anything else is dropped. */
  function GetReplication(c: PqConninfo): (r: Option<string>)
    ensures r == Some("true") <==> GetOption(c, REPLICATION).Some? && c.opts[REPLICATION] in {"true", "on", "yes", "1"}
    ensures r == Some("database") <==> GetOption(c, REPLICATION) == Some("database")
    ensures r.Some? ==> r == Some("true") || r == Some("database")
  {
    match GetOption(c, REPLICATION)
    case None => None
    case Some(v) => if v in PqReplicationMap then Some(ReplicationKeyword(PqReplicationMap[v])) else None
  }

  /** An enumerated getter's result, when present, is always a keyword the JDBC driver accepts. */
  lemma EnumeratedGettersYieldDriverKeywords(c: PqConninfo)
    ensures GetSslmode(c).Some? ==> exists m :: GetSslmode(c).value == SslmodeKeyword(m)
    ensures GetGssencmode(c).Some? ==> exists m :: GetGssencmode(c).value == GssencmodeKeyword(m)
    ensures GetGsslib(c).Some? ==> GetGsslib(c).value == GsslibKeyword(GSSAPI)
    ensures GetReplication(c).Some? ==> exists m :: GetReplication(c).value == ReplicationKeyword(m)
  {
    if GetSslmode(c).Some? {
      assert GetSslmode(c).value == SslmodeKeyword(PqSslmodeMap[c.opts[SSLMODE]]);
    }
    if GetGssencmode(c).Some? {
      assert GetGssencmode(c).value == GssencmodeKeyword(PqGssencmodeMap[c.opts[GSSENCMODE]]);
    }
    if GetReplication(c).Some? {
      assert GetReplication(c).value == ReplicationKeyword(PqReplicationMap[c.opts[REPLICATION]]);
    }
  }
}

/**
 * Assembling the JDBC URL, its query string and the connection properties from
 * a set of JDBC connection parameters.
 */
module JdbcUrls {
  import opened Wrappers
  import opened JavaStrings
  import opened JdbcParameters
  import opened JdbcConnectionParams
  import JdbcElf

  const JdbcUrlScheme: string := "jdbc:postgresql"

  /** `makeUrl`: `scheme:/`, `scheme:dbname`, or `scheme://host[:port]/[dbname]`. */
  function MakeUrl(p: JdbcConnectionParameters): string {
    if p.host.None? then
      if p.dbname.None? then JdbcUrlScheme + ":/" else JdbcUrlScheme + ":" + p.dbname.value
    else
      JdbcUrlScheme + "://" + p.host.value
      + (if p.port.Some? then ":" + JdbcElf.IntToString(p.port.value) else "")
      + "/" + (if p.dbname.None? then "" else p.dbname.value)
  }

  /** The URL shows only host, port and database: no query parameter, no secret, reaches it. */
  lemma MakeUrlUsesOnlyUrlParameters(a: JdbcConnectionParameters, b: JdbcConnectionParameters)
    requires a.host == b.host && a.port == b.port && a.dbname == b.dbname
    ensures MakeUrl(a) == MakeUrl(b)
  {
  }

  /** Every URL starts with the scheme; a host makes it a network URL. */
  lemma MakeUrlShape(p: JdbcConnectionParameters)
    ensures StartsWith(MakeUrl(p), JdbcUrlScheme + ":")
    ensures p.host.Some? ==> StartsWith(MakeUrl(p), JdbcUrlScheme + "://" + p.host.value)
    ensures p.host.None? && p.dbname.None? ==> MakeUrl(p) == JdbcUrlScheme + ":/"
    ensures p.host.None? && p.dbname.Some? ==> MakeUrl(p) == JdbcUrlScheme + ":" + p.dbname.value
  {
    if p.host.Some? {
      var head := JdbcUrlScheme + "://" + p.host.value;
      var tail := (if p.port.Some? then ":" + JdbcElf.IntToString(p.port.value) else "")
                  + "/" + (if p.dbname.None? then "" else p.dbname.value);
      assert MakeUrl(p) == head + tail;
      assert (JdbcUrlScheme + ":") <= head;
    } else if p.dbname.Some? {
      assert MakeUrl(p) == (JdbcUrlScheme + ":") + p.dbname.value;
    }
  }

  /** The URL of the parameter tests without host and database. */
  lemma MakeUrlWithoutHostExample(p: JdbcConnectionParameters)
    requires p.host.None? && p.dbname.None?
    ensures MakeUrl(p) == "jdbc:postgresql:/"
  {
  }

  /** The URL of the parameter tests with only a database. */
  lemma MakeUrlDatabaseExample(p: JdbcConnectionParameters)
    requires p.host.None? && p.dbname == Some("some-dbname")
    ensures MakeUrl(p) == "jdbc:postgresql:some-dbname"
  {
  }

  /** The URL of the parameter tests with a host and a port. */
  lemma MakeUrlHostPortExample(p: JdbcConnectionParameters)
    requires p.host == Some("some-host") && p.port == Some(6543) && p.dbname.None?
    ensures MakeUrl(p) == "jdbc:postgresql://some-host:6543/"
  {
    JdbcElf.PortExampleToString();
  }

  /** The URL of the parameter tests with host, port and database. */
  lemma MakeUrlFullExample(p: JdbcConnectionParameters)
    requires p.host == Some("some-host") && p.port == Some(6543) && p.dbname == Some("some-dbname")
    ensures MakeUrl(p) == "jdbc:postgresql://some-host:6543/some-dbname"
  {
    JdbcElf.PortExampleToString();
  }

  /**
   * `PropertyElf.getProperty(name, params)`: the parameter getter named by `name`,
   * its value as a string; `ssl` names no getter, so it has no value.
   */
  function GetProperty(name: string, p: JdbcConnectionParameters): Option<string> {
    match name
    case "host" => p.host
    case "port" => if p.port.None? then None else Some(JdbcElf.IntToString(p.port.value))
    case "dbname" => p.dbname
    case "user" => p.user
    case "password" => p.password
    case "options" => p.options
    case "sslmode" => p.sslmode
    case "sslcert" => p.sslcert
    case "sslkey" => p.sslkey
    case "sslrootcert" => p.sslrootcert
    case "connectTimeout" => if p.connectTimeout.None? then None else Some(JdbcElf.IntToString(p.connectTimeout.value))
    case "kerberosServerName" => p.kerberosServerName
    case "ApplicationName" => p.applicationName
    case "tcpKeepAlive" => if p.tcpKeepAlive.None? then None else Some(BoolToString(p.tcpKeepAlive.value))
    case "gssencmode" => p.gssencmode
    case "gsslib" => p.gsslib
    case "sslpassword" => p.sslpassword
    case "replication" => p.replication
    case _ => None
  }

  /** The value of a parameter, read through its keyword. */
  function PropertyOf(q: JdbcConnectionParameter, p: JdbcConnectionParameters): Option<string> {
    GetProperty(Keyword(q), p)
  }

  /** `ssl` has no field, so it never has a value. */
  lemma SslHasNoValue(p: JdbcConnectionParameters)
    ensures PropertyOf(SSL, p).None?
  {
  }

  /**
   * The query-string order: user and password, then the other query parameters
   * filtered from `values()` and sorted, that is, in declaration order.
   */
  const QueryOrder: seq<JdbcConnectionParameter> := [
    USER, PASSWORD, OPTIONS, SSL, SSLMODE, SSLCERT, SSLKEY, SSLROOTCERT, CONNECT_TIMEOUT,
    KERBEROS_SERVER_NAME, APPLICATION_NAME, TCP_KEEP_ALIVE, GSSENCMODE, GSSLIB, SSLPASSWORD,
    REPLICATION]

  /** The query order holds every query parameter, and never host, port or database. */
  lemma QueryOrderCoversQueryParameters(q: JdbcConnectionParameter)
    ensures q in QueryOrder <==> IsQueryParameter(q)
  {
  }

  /** After the two credentials, the query order is sorted by declaration order. */
  lemma QueryOrderSortedAfterCredentials()
    ensures QueryOrder[0] == USER && QueryOrder[1] == PASSWORD
    ensures forall i, j :: 2 <= i < j < |QueryOrder| ==> Ordinal(QueryOrder[i]) < Ordinal(QueryOrder[j])
  {
  }

  /**
   * Whether `a` comes before `b` in the query string: the user first, then the
   * password, then the other query parameters in declaration order.
   */
  predicate QueryPrecedes(a: JdbcConnectionParameter, b: JdbcConnectionParameter) {
    (a == USER && b != USER)
    || (a == PASSWORD && b != USER && b != PASSWORD)
    || (a != USER && a != PASSWORD && b != USER && b != PASSWORD && Ordinal(a) < Ordinal(b))
  }

  /**
   * Where a query parameter sits in the query order: the credentials first, then
   * the rest by declaration order, past host, port, database, user and password.
   */
  function QueryIndex(q: JdbcConnectionParameter): (n: nat)
    requires IsQueryParameter(q)
    ensures n < |QueryOrder| && QueryOrder[n] == q
  {
    if q == USER then 0 else if q == PASSWORD then 1 else Ordinal(q) - 3
  }

  /** Each entry of the query order is a query parameter found at its own index. */
  lemma QueryIndexAt(i: nat)
    requires i < |QueryOrder|
    ensures IsQueryParameter(QueryOrder[i]) && QueryIndex(QueryOrder[i]) == i
  {
    if i < 8 {
      assert i in {0, 1, 2, 3, 4, 5, 6, 7};
    } else {
      assert i in {8, 9, 10, 11, 12, 13, 14, 15};
    }
  }

  /** No parameter appears twice in the query order. */
  lemma QueryOrderDistinct()
    ensures forall i, j :: 0 <= i < j < |QueryOrder| ==> QueryOrder[i] != QueryOrder[j]
  {
    forall i, j | 0 <= i < j < |QueryOrder| ensures QueryOrder[i] != QueryOrder[j] {
      QueryIndexAt(i);
      QueryIndexAt(j);
    }
  }

  /** `encodeUrlParam`, with `URLEncoder.encode` supplied by the caller. */
  function EncodeUrlParam(name: string, value: string, encode: string -> string): string {
    name + "=" + encode(value)
  }

  /** The `name=value` pair of a parameter that has a value. */
  function QueryPair(q: JdbcConnectionParameter, p: JdbcConnectionParameters, encode: string -> string): string
    requires PropertyOf(q, p).Some?
  {
    EncodeUrlParam(Keyword(q), PropertyOf(q, p).value, encode)
  }

  /** One `name=value` pair for each parameter of `qs` that has a value, in order. */
  function QueryPairs(qs: seq<JdbcConnectionParameter>, p: JdbcConnectionParameters, encode: string -> string): (r: seq<string>)
    ensures |r| <= |qs|
  {
    if qs == [] then []
    else
      var q := qs[0];
      (if PropertyOf(q, p).Some? then [QueryPair(q, p, encode)] else [])
      + QueryPairs(qs[1..], p, encode)
  }

  /** No pair at all exactly when no parameter of `qs` has a value. */
  lemma {:induction false} QueryPairsEmpty(qs: seq<JdbcConnectionParameter>, p: JdbcConnectionParameters, encode: string -> string)
    ensures QueryPairs(qs, p, encode) == [] <==> forall q :: q in qs ==> PropertyOf(q, p).None?
    decreases |qs|
  {
    if qs != [] {
      QueryPairsEmpty(qs[1..], p, encode);
      forall q | q in qs && q != qs[0] ensures q in qs[1..] {
      }
    }
  }

  /** How many parameters of `qs` have a value. */
  function PresentCount(qs: seq<JdbcConnectionParameter>, p: JdbcConnectionParameters): (n: nat)
    ensures n <= |qs|
  {
    if qs == [] then 0
    else (if PropertyOf(qs[0], p).Some? then 1 else 0) + PresentCount(qs[1..], p)
  }

  /** The pairs are exactly those of the parameters that have a value: null values are dropped. */
  lemma {:induction false} QueryPairsMembers(qs: seq<JdbcConnectionParameter>, p: JdbcConnectionParameters, encode: string -> string)
    ensures forall q :: q in qs && PropertyOf(q, p).Some? ==> QueryPair(q, p, encode) in QueryPairs(qs, p, encode)
    ensures forall s :: s in QueryPairs(qs, p, encode) ==>
              exists q :: q in qs && PropertyOf(q, p).Some? && s == QueryPair(q, p, encode)
    decreases |qs|
  {
    if qs != [] {
      QueryPairsMembers(qs[1..], p, encode);
      var head := if PropertyOf(qs[0], p).Some? then [QueryPair(qs[0], p, encode)] else [];
      assert QueryPairs(qs, p, encode) == head + QueryPairs(qs[1..], p, encode);
      forall q | q in qs && PropertyOf(q, p).Some?
        ensures QueryPair(q, p, encode) in QueryPairs(qs, p, encode)
      {
        if q != qs[0] {
          assert q in qs[1..];
        }
      }
    }
  }

  /** There is one pair per parameter with a value. */
  lemma {:induction false} QueryPairsCount(qs: seq<JdbcConnectionParameter>, p: JdbcConnectionParameters, encode: string -> string)
    ensures |QueryPairs(qs, p, encode)| == PresentCount(qs, p)
    decreases |qs|
  {
    if qs != [] {
      QueryPairsCount(qs[1..], p, encode);
    }
  }

  /**
   * The parameter at index `i`, when it has a value, gives the pair at index
   * "how many before it have a value".
   */
  lemma {:induction false} QueryPairAt(qs: seq<JdbcConnectionParameter>, p: JdbcConnectionParameters, encode: string -> string, i: nat)
    requires i < |qs| && PropertyOf(qs[i], p).Some?
    ensures PresentCount(qs[..i], p) < |QueryPairs(qs, p, encode)|
    ensures QueryPairs(qs, p, encode)[PresentCount(qs[..i], p)] == QueryPair(qs[i], p, encode)
    decreases i
  {
    if i == 0 {
      assert qs[..0] == [];
    } else {
      QueryPairAt(qs[1..], p, encode, i - 1);
      QueryPairAtNext(qs, p, encode, i);
    }
  }

  /** The step of `QueryPairAt`: one parameter in front shifts the position by its own pair. */
  lemma QueryPairAtNext(qs: seq<JdbcConnectionParameter>, p: JdbcConnectionParameters, encode: string -> string, i: nat)
    requires 0 < i < |qs| && PropertyOf(qs[i], p).Some?
    requires PresentCount(qs[1..][..i - 1], p) < |QueryPairs(qs[1..], p, encode)|
    requires QueryPairs(qs[1..], p, encode)[PresentCount(qs[1..][..i - 1], p)] == QueryPair(qs[i], p, encode)
    ensures PresentCount(qs[..i], p) < |QueryPairs(qs, p, encode)|
    ensures QueryPairs(qs, p, encode)[PresentCount(qs[..i], p)] == QueryPair(qs[i], p, encode)
  {
    var head := if PropertyOf(qs[0], p).Some? then 1 else 0;
    assert qs[..i][1..] == qs[1..][..i - 1];
    assert PresentCount(qs[..i], p) == head + PresentCount(qs[1..][..i - 1], p);
  }

  /** A parameter with a value adds one to the count of those after it. */
  lemma {:induction false} PresentCountGrows(qs: seq<JdbcConnectionParameter>, p: JdbcConnectionParameters, i: nat, j: nat)
    requires i < j <= |qs| && PropertyOf(qs[i], p).Some?
    ensures PresentCount(qs[..i], p) < PresentCount(qs[..j], p)
    decreases i
  {
    assert qs[..j][0] == qs[0];
    assert qs[..j][1..] == qs[1..][..j - 1];
    if i == 0 {
      assert qs[..0] == [];
    } else {
      assert qs[..i][0] == qs[0];
      assert qs[..i][1..] == qs[1..][..i - 1];
      PresentCountGrows(qs[1..], p, i - 1, j - 1);
    }
  }

  /** The pairs keep the order of the parameters they come from. */
  lemma QueryPairsKeepOrder(qs: seq<JdbcConnectionParameter>, p: JdbcConnectionParameters, encode: string -> string, i: nat, j: nat)
    requires i < j < |qs| && PropertyOf(qs[i], p).Some? && PropertyOf(qs[j], p).Some?
    ensures var r := QueryPairs(qs, p, encode);
            exists a, b :: 0 <= a < b < |r| && r[a] == QueryPair(qs[i], p, encode) && r[b] == QueryPair(qs[j], p, encode)
  {
    var r := QueryPairs(qs, p, encode);
    QueryPairAt(qs, p, encode, i);
    QueryPairAt(qs, p, encode, j);
    PresentCountGrows(qs, p, i, j);
    var a, b := PresentCount(qs[..i], p), PresentCount(qs[..j], p);
    assert r[a] == QueryPair(qs[i], p, encode) && r[b] == QueryPair(qs[j], p, encode);
  }

  /** `makeQueryParameterString`: the pairs joined by `&`, or nothing when no parameter has a value. */
  function MakeQueryParameterString(p: JdbcConnectionParameters, encode: string -> string): (r: Option<string>)
    ensures r.None? <==> forall q :: IsQueryParameter(q) ==> PropertyOf(q, p).None?
  {
    forall q ensures q in QueryOrder <==> IsQueryParameter(q) {
      QueryOrderCoversQueryParameters(q);
    }
    QueryPairsEmpty(QueryOrder, p, encode);
    var pairs := QueryPairs(QueryOrder, p, encode);
    if pairs == [] then None else Some(Join("&", pairs))
  }

  /**
   * The query string's pairs: one for every query parameter that has a value and
   * none for anything else, so never for host, port, database or `ssl`.
   */
  lemma QueryStringPairs(p: JdbcConnectionParameters, encode: string -> string)
    ensures var pairs := QueryPairs(QueryOrder, p, encode);
            (forall q :: IsQueryParameter(q) && PropertyOf(q, p).Some? ==> QueryPair(q, p, encode) in pairs)
            && (forall s :: s in pairs ==>
                  exists q :: IsQueryParameter(q) && q != SSL && PropertyOf(q, p).Some? && s == QueryPair(q, p, encode))
  {
    QueryPairsMembers(QueryOrder, p, encode);
    forall q ensures q in QueryOrder <==> IsQueryParameter(q) {
      QueryOrderCoversQueryParameters(q);
    }
    SslHasNoValue(p);
  }

  /** In a list without repeats, the count of those with a value is the size of their set. */
  lemma {:induction false} PresentCountOfDistinct(qs: seq<JdbcConnectionParameter>, p: JdbcConnectionParameters)
    requires forall i, j :: 0 <= i < j < |qs| ==> qs[i] != qs[j]
    ensures PresentCount(qs, p) == |set q | q in qs && PropertyOf(q, p).Some?|
    decreases |qs|
  {
    if qs != [] {
      PresentCountOfDistinct(qs[1..], p);
      var all := set q | q in qs && PropertyOf(q, p).Some?;
      var later := set q | q in qs[1..] && PropertyOf(q, p).Some?;
      assert qs[0] !in qs[1..];
      if PropertyOf(qs[0], p).Some? {
        assert all == later + {qs[0]};
      } else {
        assert all == later;
      }
    }
  }

  /** The query string has as many pairs as there are query parameters with a value. */
  lemma QueryStringCount(p: JdbcConnectionParameters, encode: string -> string)
    ensures |QueryPairs(QueryOrder, p, encode)| == |set q | q in Values && IsQueryParameter(q) && PropertyOf(q, p).Some?|
  {
    QueryPairsCount(QueryOrder, p, encode);
    QueryOrderDistinct();
    PresentCountOfDistinct(QueryOrder, p);
    ValuesEnumerate();
    forall q ensures q in QueryOrder <==> IsQueryParameter(q) {
      QueryOrderCoversQueryParameters(q);
    }
    assert (set q | q in QueryOrder && PropertyOf(q, p).Some?)
        == (set q | q in Values && IsQueryParameter(q) && PropertyOf(q, p).Some?);
  }

  /** The pairs of two query parameters with a value appear in query-string order. */
  lemma QueryStringOrder(p: JdbcConnectionParameters, encode: string -> string, a: JdbcConnectionParameter, b: JdbcConnectionParameter)
    requires IsQueryParameter(a) && IsQueryParameter(b) && QueryPrecedes(a, b)
    requires PropertyOf(a, p).Some? && PropertyOf(b, p).Some?
    ensures var pairs := QueryPairs(QueryOrder, p, encode);
            exists x, y :: 0 <= x < y < |pairs| && pairs[x] == QueryPair(a, p, encode) && pairs[y] == QueryPair(b, p, encode)
  {
    QueryPairsKeepOrder(QueryOrder, p, encode, QueryIndex(a), QueryIndex(b));
  }

  /** With a user and a password, their pairs lead the query string. */
  lemma QueryStringStartsWithCredentials(p: JdbcConnectionParameters, encode: string -> string)
    requires p.user.Some? && p.password.Some?
    ensures var pairs := QueryPairs(QueryOrder, p, encode);
            |pairs| >= 2 && pairs[0] == EncodeUrlParam("user", p.user.value, encode)
            && pairs[1] == EncodeUrlParam("password", p.password.value, encode)
  {
    CredentialsLead(QueryOrder, p, encode);
  }

  lemma CredentialsLead(qs: seq<JdbcConnectionParameter>, p: JdbcConnectionParameters, encode: string -> string)
    requires |qs| >= 2 && qs[0] == USER && qs[1] == PASSWORD
    requires p.user.Some? && p.password.Some?
    ensures var pairs := QueryPairs(qs, p, encode);
            |pairs| >= 2 && pairs[0] == EncodeUrlParam("user", p.user.value, encode)
            && pairs[1] == EncodeUrlParam("password", p.password.value, encode)
  {
    assert qs[1..][0] == PASSWORD;
  }

  /** `makeUrlWithQueryString`: the URL, then `?` and the query string when there is one. */
  function MakeUrlWithQueryString(p: JdbcConnectionParameters, encode: string -> string): (r: string)
    ensures MakeUrl(p) <= r
    ensures r == MakeUrl(p) <==> MakeQueryParameterString(p, encode).None?
  {
    var q := MakeQueryParameterString(p, encode);
    MakeUrl(p) + (if q.None? then "" else "?" + q.value)
  }

  /** The property names of the query parameters. */
  function QueryKeywords(): set<string> {
    set q | q in Values && IsQueryParameter(q) :: Keyword(q)
  }

  /** The property names of all parameters. */
  function AllKeywords(): set<string> {
    set q | q in Values :: Keyword(q)
  }

  /** `makeInfo`: every query parameter that has a value, under its property name. */
  function InfoOf(p: JdbcConnectionParameters): map<string, string> {
    map k | k in QueryKeywords() && GetProperty(k, p).Some? :: GetProperty(k, p).value
  }

  /** `makeProperties`: every parameter that has a value, under its property name. */
  function PropertiesOf(p: JdbcConnectionParameters): map<string, string> {
    map k | k in AllKeywords() && GetProperty(k, p).Some? :: GetProperty(k, p).value
  }

  /** The info holds exactly the query parameters with a value; host, port and database never. */
  lemma InfoHoldsQueryParameters(p: JdbcConnectionParameters, q: JdbcConnectionParameter)
    ensures Keyword(q) in InfoOf(p) <==> IsQueryParameter(q) && PropertyOf(q, p).Some?
    ensures Keyword(q) in InfoOf(p) ==> InfoOf(p)[Keyword(q)] == PropertyOf(q, p).value
  {
    ValuesEnumerate();
    if Keyword(q) in QueryKeywords() {
      var q' :| q' in Values && IsQueryParameter(q') && Keyword(q') == Keyword(q);
      KeywordInjective(q, q');
    }
  }

  /** The properties hold every parameter with a value, so they extend the info by host, port and database. */
  lemma PropertiesHoldAllParameters(p: JdbcConnectionParameters, q: JdbcConnectionParameter)
    ensures Keyword(q) in PropertiesOf(p) <==> PropertyOf(q, p).Some?
    ensures Keyword(q) in PropertiesOf(p) ==> PropertiesOf(p)[Keyword(q)] == PropertyOf(q, p).value
    ensures IsQueryParameter(q) ==> (Keyword(q) in PropertiesOf(p) <==> Keyword(q) in InfoOf(p))
  {
    ValuesEnumerate();
    assert Keyword(q) in AllKeywords();
    InfoHoldsQueryParameters(p, q);
  }

  /** Every property name is some parameter's keyword: no unknown names appear. */
  lemma PropertiesNameParameters(p: JdbcConnectionParameters, k: string)
    requires k in PropertiesOf(p)
    ensures ParameterWithKeyword(k).Some? && Keyword(ParameterWithKeyword(k).value) == k
  {
    var q :| q in Values && Keyword(q) == k;
    KeywordLookupInverts(q);
  }

  /** `makeInfo(params)`: visits the parameters in declaration order, setting the query ones. */
  method MakeInfo(p: JdbcConnectionParameters) returns (props: map<string, string>)
    ensures props == InfoOf(p)
  {
    props := map[];
    var i := 0;
    while i < |Values|
      invariant 0 <= i <= |Values|
      invariant forall q :: Ordinal(q) < i && IsQueryParameter(q) && PropertyOf(q, p).Some? ==> Keyword(q) in props
      invariant forall k :: k in props ==> k in QueryKeywords() && GetProperty(k, p).Some? && props[k] == GetProperty(k, p).value
    {
      var q := Values[i];
      OrdinalAt(i);
      if IsQueryParameter(q) {
        var val := GetProperty(Keyword(q), p);
        if val.Some? {
          assert Keyword(q) in QueryKeywords();
          props := props[Keyword(q) := val.value];
        }
      }
      i := i + 1;
    }
    InfoCollected(p, props);
  }

  /** A map holding every query parameter that has a value, and nothing else, is the info. */
  lemma InfoCollected(p: JdbcConnectionParameters, props: map<string, string>)
    requires forall q :: IsQueryParameter(q) && PropertyOf(q, p).Some? ==> Keyword(q) in props
    requires forall k :: k in props ==> k in QueryKeywords() && GetProperty(k, p).Some? && props[k] == GetProperty(k, p).value
    ensures props == InfoOf(p)
  {
    forall k | k in InfoOf(p) ensures k in props {
      var q :| q in Values && IsQueryParameter(q) && Keyword(q) == k;
    }
  }

  /** `makeProperties(params)`: visits every parameter in declaration order. */
  method MakeProperties(p: JdbcConnectionParameters) returns (props: map<string, string>)
    ensures props == PropertiesOf(p)
  {
    props := map[];
    var i := 0;
    while i < |Values|
      invariant 0 <= i <= |Values|
      invariant forall q :: Ordinal(q) < i && PropertyOf(q, p).Some? ==> Keyword(q) in props
      invariant forall k :: k in props ==> k in AllKeywords() && GetProperty(k, p).Some? && props[k] == GetProperty(k, p).value
    {
      var q := Values[i];
      OrdinalAt(i);
      var val := GetProperty(Keyword(q), p);
      if val.Some? {
        assert Keyword(q) in AllKeywords();
        props := props[Keyword(q) := val.value];
      }
      i := i + 1;
    }
    PropertiesCollected(p, props);
  }

  /** A map holding every parameter that has a value, and nothing else, is the properties. */
  lemma PropertiesCollected(p: JdbcConnectionParameters, props: map<string, string>)
    requires forall q :: PropertyOf(q, p).Some? ==> Keyword(q) in props
    requires forall k :: k in props ==> k in AllKeywords() && GetProperty(k, p).Some? && props[k] == GetProperty(k, p).value
    ensures props == PropertiesOf(p)
  {
    forall k | k in PropertiesOf(p) ensures k in props {
      var q :| q in Values && Keyword(q) == k;
    }
  }
}
