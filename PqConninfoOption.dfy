/**
 * The closed catalogue of libpq connection options: each option's keyword
 * (used in service files and caller properties) and, for most of them, the
 * environment variable that supplies it.
 */
module PqConninfoOptions {
  import opened Wrappers

  /** The options, in declaration order; the constants keep their Java names. */
  datatype PqConninfoOption =
    | APPLICATION_NAME | AUTHTYPE | CHANNEL_BINDING | CLIENT_ENCODING
    | CONNECT_TIMEOUT | DBNAME | FALLBACK_APPLICATION_NAME | GSSENCMODE
    | GSSLIB | HOST | HOSTADDR | KEEPALIVES | KEEPALIVES_COUNT
    | KEEPALIVES_IDLE | KEEPALIVES_INTERNAL | KRBSRVNAME | OPTIONS
    | PASSFILE | PASSWORD | PORT | REPLICATION | REQUIREPEER | SERVICE
    | SSLCERT | SSLCOMPRESSION | SSLCRL | SSLKEY | SSLMODE | SSLPASSWORD
    | SSLROOTCERT | TARGET_SESSION_ATTRS | TCP_USER_TIMEOUT | TTY | USER

  /** `PqConninfoOption.values()`: every option, in declaration order. */
  const Values: seq<PqConninfoOption> := [
    APPLICATION_NAME, AUTHTYPE, CHANNEL_BINDING, CLIENT_ENCODING,
    CONNECT_TIMEOUT, DBNAME, FALLBACK_APPLICATION_NAME, GSSENCMODE,
    GSSLIB, HOST, HOSTADDR, KEEPALIVES, KEEPALIVES_COUNT,
    KEEPALIVES_IDLE, KEEPALIVES_INTERNAL, KRBSRVNAME, OPTIONS,
    PASSFILE, PASSWORD, PORT, REPLICATION, REQUIREPEER, SERVICE,
    SSLCERT, SSLCOMPRESSION, SSLCRL, SSLKEY, SSLMODE, SSLPASSWORD,
    SSLROOTCERT, TARGET_SESSION_ATTRS, TCP_USER_TIMEOUT, TTY, USER]

  /** `Enum.ordinal()`: the position of the option in declaration order. */
  function Ordinal(o: PqConninfoOption): (n: nat)
    ensures n < |Values|
  {
    match o
    case APPLICATION_NAME => 0  case AUTHTYPE => 1  case CHANNEL_BINDING => 2
    case CLIENT_ENCODING => 3  case CONNECT_TIMEOUT => 4  case DBNAME => 5
    case FALLBACK_APPLICATION_NAME => 6  case GSSENCMODE => 7  case GSSLIB => 8
    case HOST => 9  case HOSTADDR => 10  case KEEPALIVES => 11
    case KEEPALIVES_COUNT => 12  case KEEPALIVES_IDLE => 13
    case KEEPALIVES_INTERNAL => 14  case KRBSRVNAME => 15  case OPTIONS => 16
    case PASSFILE => 17  case PASSWORD => 18  case PORT => 19
    case REPLICATION => 20  case REQUIREPEER => 21  case SERVICE => 22
    case SSLCERT => 23  case SSLCOMPRESSION => 24  case SSLCRL => 25
    case SSLKEY => 26  case SSLMODE => 27  case SSLPASSWORD => 28
    case SSLROOTCERT => 29  case TARGET_SESSION_ATTRS => 30
    case TCP_USER_TIMEOUT => 31  case TTY => 32  case USER => 33
  }

  /** The option's keyword / property name. */
  function Keyword(o: PqConninfoOption): string {
    match o
    case APPLICATION_NAME => "application_name"
    case AUTHTYPE => "authtype"
    case CHANNEL_BINDING => "channel_binding"
    case CLIENT_ENCODING => "client_encoding"
    case CONNECT_TIMEOUT => "connect_timeout"
    case DBNAME => "dbname"
    case FALLBACK_APPLICATION_NAME => "fallback_application_name"
    case GSSENCMODE => "gssencmode"
    case GSSLIB => "gsslib"
    case HOST => "host"
    case HOSTADDR => "hostaddr"
    case KEEPALIVES => "keepalives"
    case KEEPALIVES_COUNT => "keepalives_count"
    case KEEPALIVES_IDLE => "keepalives_idle"
    case KEEPALIVES_INTERNAL => "keepalives_internal"
    case KRBSRVNAME => "krbsrvname"
    case OPTIONS => "options"
    case PASSFILE => "passfile"
    case PASSWORD => "password"
    case PORT => "port"
    case REPLICATION => "replication"
    case REQUIREPEER => "requirepeer"
    case SERVICE => "service"
    case SSLCERT => "sslcert"
    case SSLCOMPRESSION => "sslcompression"
    case SSLCRL => "sslcrl"
    case SSLKEY => "sslkey"
    case SSLMODE => "sslmode"
    case SSLPASSWORD => "sslpassword"
    case SSLROOTCERT => "sslrootcert"
    case TARGET_SESSION_ATTRS => "target_session_attrs"
    case TCP_USER_TIMEOUT => "tcp_user_timeout"
    case TTY => "tty"
    case USER => "user"
  }

  /**
   * The option's environment variable; `None` for the options built with the
   * one-argument constructor, which leaves the field null.
   */
  function EnvironmentVariable(o: PqConninfoOption): Option<string> {
    match o
    case APPLICATION_NAME => Some("PGAPPNAME")
    case AUTHTYPE => Some("PGAUTHTYPE")
    case CHANNEL_BINDING => Some("PGCHANNELBINDING")
    case CLIENT_ENCODING => Some("PGCLIENTENCODING")
    case CONNECT_TIMEOUT => Some("PGCONNECT_TIMEOUT")
    case DBNAME => Some("PGDATABASE")
    case FALLBACK_APPLICATION_NAME => None
    case GSSENCMODE => Some("PGGSSENCMODE")
    case GSSLIB => Some("PGGSSLIB")
    case HOST => Some("PGHOST")
    case HOSTADDR => Some("PGHOSTADDR")
    case KEEPALIVES => None
    case KEEPALIVES_COUNT => None
    case KEEPALIVES_IDLE => None
    case KEEPALIVES_INTERNAL => None
    case KRBSRVNAME => Some("PGKRBSRVNAME")
    case OPTIONS => Some("PGOPTIONS")
    case PASSFILE => Some("PGPASSFILE")
    case PASSWORD => Some("PGPASSWORD")
    case PORT => Some("PGPORT")
    case REPLICATION => None
    case REQUIREPEER => Some("PGREQUIREPEER")
    case SERVICE => Some("PGSERVICE")
    case SSLCERT => Some("PGSSLCERT")
    case SSLCOMPRESSION => Some("PGSSLCOMPRESSION")
    case SSLCRL => Some("PGSSLCRL")
    case SSLKEY => Some("PGSSLKEY")
    case SSLMODE => Some("PGSSLMODE")
    case SSLPASSWORD => None
    case SSLROOTCERT => Some("PGSSLROOTCERT")
    case TARGET_SESSION_ATTRS => Some("PGTARGETSESSIONATTRS")
    case TCP_USER_TIMEOUT => None
    case TTY => Some("PGTTY")
    case USER => Some("PGUSER")
  }

  /** The first of `options` whose keyword is `keyword`. */
  function FirstWithKeyword(options: seq<PqConninfoOption>, keyword: string): (r: Option<PqConninfoOption>)
    ensures r.Some? ==> r.value in options && Keyword(r.value) == keyword
    ensures r.None? ==> forall o :: o in options ==> Keyword(o) != keyword
  {
    if options == [] then None
    else if Keyword(options[0]) == keyword then Some(options[0])
    else FirstWithKeyword(options[1..], keyword)
  }

  /** The option a keyword names, found by trying the options in declaration order. */
  function LookupKeyword(keyword: string): Option<PqConninfoOption> {
    FirstWithKeyword(Values, keyword)
  }

  /**
   * The keyword table read backwards, one case per keyword, grouped by first
   * character; it shows that keywords are distinct.
   */
  function OptionWithKeyword(keyword: string): Option<PqConninfoOption> {
    if keyword == [] then None
    else match keyword[0]
    case 'a' =>
      (match keyword
      case "application_name" => Some(APPLICATION_NAME)
      case "authtype" => Some(AUTHTYPE)
      case _ => None)
    case 'c' =>
      (match keyword
      case "channel_binding" => Some(CHANNEL_BINDING)
      case "client_encoding" => Some(CLIENT_ENCODING)
      case "connect_timeout" => Some(CONNECT_TIMEOUT)
      case _ => None)
    case 'd' =>
      (match keyword
      case "dbname" => Some(DBNAME)
      case _ => None)
    case 'f' =>
      (match keyword
      case "fallback_application_name" => Some(FALLBACK_APPLICATION_NAME)
      case _ => None)
    case 'g' =>
      (match keyword
      case "gssencmode" => Some(GSSENCMODE)
      case "gsslib" => Some(GSSLIB)
      case _ => None)
    case 'h' =>
      (match keyword
      case "host" => Some(HOST)
      case "hostaddr" => Some(HOSTADDR)
      case _ => None)
    case 'k' =>
      (match keyword
      case "keepalives" => Some(KEEPALIVES)
      case "keepalives_count" => Some(KEEPALIVES_COUNT)
      case "keepalives_idle" => Some(KEEPALIVES_IDLE)
      case "keepalives_internal" => Some(KEEPALIVES_INTERNAL)
      case "krbsrvname" => Some(KRBSRVNAME)
      case _ => None)
    case 'o' =>
      (match keyword
      case "options" => Some(OPTIONS)
      case _ => None)
    case 'p' =>
      (match keyword
      case "passfile" => Some(PASSFILE)
      case "password" => Some(PASSWORD)
      case "port" => Some(PORT)
      case _ => None)
    case 'r' =>
      (match keyword
      case "replication" => Some(REPLICATION)
      case "requirepeer" => Some(REQUIREPEER)
      case _ => None)
    case 's' =>
      (match keyword
      case "service" => Some(SERVICE)
      case "sslcert" => Some(SSLCERT)
      case "sslcompression" => Some(SSLCOMPRESSION)
      case "sslcrl" => Some(SSLCRL)
      case "sslkey" => Some(SSLKEY)
      case "sslmode" => Some(SSLMODE)
      case "sslpassword" => Some(SSLPASSWORD)
      case "sslrootcert" => Some(SSLROOTCERT)
      case _ => None)
    case 't' =>
      (match keyword
      case "target_session_attrs" => Some(TARGET_SESSION_ATTRS)
      case "tcp_user_timeout" => Some(TCP_USER_TIMEOUT)
      case "tty" => Some(TTY)
      case _ => None)
    case 'u' =>
      (match keyword
      case "user" => Some(USER)
      case _ => None)
    case _ => None
  }

  /** Reverse lookup of an environment variable name, grouped by the character after `PG`. */
  function OptionWithEnvironmentVariable(name: string): Option<PqConninfoOption> {
    if |name| <= 2 then None
    else match name[2]
    case 'A' =>
      (match name
      case "PGAPPNAME" => Some(APPLICATION_NAME)
      case "PGAUTHTYPE" => Some(AUTHTYPE)
      case _ => None)
    case 'C' =>
      (match name
      case "PGCHANNELBINDING" => Some(CHANNEL_BINDING)
      case "PGCLIENTENCODING" => Some(CLIENT_ENCODING)
      case "PGCONNECT_TIMEOUT" => Some(CONNECT_TIMEOUT)
      case _ => None)
    case 'D' =>
      (match name
      case "PGDATABASE" => Some(DBNAME)
      case _ => None)
    case 'G' =>
      (match name
      case "PGGSSENCMODE" => Some(GSSENCMODE)
      case "PGGSSLIB" => Some(GSSLIB)
      case _ => None)
    case 'H' =>
      (match name
      case "PGHOST" => Some(HOST)
      case "PGHOSTADDR" => Some(HOSTADDR)
      case _ => None)
    case 'K' =>
      (match name
      case "PGKRBSRVNAME" => Some(KRBSRVNAME)
      case _ => None)
    case 'O' =>
      (match name
      case "PGOPTIONS" => Some(OPTIONS)
      case _ => None)
    case 'P' =>
      (match name
      case "PGPASSFILE" => Some(PASSFILE)
      case "PGPASSWORD" => Some(PASSWORD)
      case "PGPORT" => Some(PORT)
      case _ => None)
    case 'R' =>
      (match name
      case "PGREQUIREPEER" => Some(REQUIREPEER)
      case _ => None)
    case 'S' =>
      (match name
      case "PGSERVICE" => Some(SERVICE)
      case "PGSSLCERT" => Some(SSLCERT)
      case "PGSSLCOMPRESSION" => Some(SSLCOMPRESSION)
      case "PGSSLCRL" => Some(SSLCRL)
      case "PGSSLKEY" => Some(SSLKEY)
      case "PGSSLMODE" => Some(SSLMODE)
      case "PGSSLROOTCERT" => Some(SSLROOTCERT)
      case _ => None)
    case 'T' =>
      (match name
      case "PGTARGETSESSIONATTRS" => Some(TARGET_SESSION_ATTRS)
      case "PGTTY" => Some(TTY)
      case _ => None)
    case 'U' =>
      (match name
      case "PGUSER" => Some(USER)
      case _ => None)
    case _ => None
  }

  /** `Enum.name()`, which `EnumMap.toString` prints for each key. */
  function Name(o: PqConninfoOption): string {
    match o
    case APPLICATION_NAME => "APPLICATION_NAME"
    case AUTHTYPE => "AUTHTYPE"
    case CHANNEL_BINDING => "CHANNEL_BINDING"
    case CLIENT_ENCODING => "CLIENT_ENCODING"
    case CONNECT_TIMEOUT => "CONNECT_TIMEOUT"
    case DBNAME => "DBNAME"
    case FALLBACK_APPLICATION_NAME => "FALLBACK_APPLICATION_NAME"
    case GSSENCMODE => "GSSENCMODE"
    case GSSLIB => "GSSLIB"
    case HOST => "HOST"
    case HOSTADDR => "HOSTADDR"
    case KEEPALIVES => "KEEPALIVES"
    case KEEPALIVES_COUNT => "KEEPALIVES_COUNT"
    case KEEPALIVES_IDLE => "KEEPALIVES_IDLE"
    case KEEPALIVES_INTERNAL => "KEEPALIVES_INTERNAL"
    case KRBSRVNAME => "KRBSRVNAME"
    case OPTIONS => "OPTIONS"
    case PASSFILE => "PASSFILE"
    case PASSWORD => "PASSWORD"
    case PORT => "PORT"
    case REPLICATION => "REPLICATION"
    case REQUIREPEER => "REQUIREPEER"
    case SERVICE => "SERVICE"
    case SSLCERT => "SSLCERT"
    case SSLCOMPRESSION => "SSLCOMPRESSION"
    case SSLCRL => "SSLCRL"
    case SSLKEY => "SSLKEY"
    case SSLMODE => "SSLMODE"
    case SSLPASSWORD => "SSLPASSWORD"
    case SSLROOTCERT => "SSLROOTCERT"
    case TARGET_SESSION_ATTRS => "TARGET_SESSION_ATTRS"
    case TCP_USER_TIMEOUT => "TCP_USER_TIMEOUT"
    case TTY => "TTY"
    case USER => "USER"
  }

  /** The options declared with the one-argument constructor, in declaration order. */
  const WithoutEnvironmentVariable: seq<PqConninfoOption> := [
    FALLBACK_APPLICATION_NAME, KEEPALIVES, KEEPALIVES_COUNT, KEEPALIVES_IDLE,
    KEEPALIVES_INTERNAL, REPLICATION, SSLPASSWORD, TCP_USER_TIMEOUT]

  /** `Values` lists every option, and `Ordinal` is one-to-one. */
  lemma ValuesEnumerate()
    ensures |Values| == 34
    ensures forall o :: o in Values
    ensures forall a, b :: Ordinal(a) == Ordinal(b) ==> a == b
  {
    forall o ensures o in Values { OrdinalIndexes(o); }
    forall a, b | Ordinal(a) == Ordinal(b) ensures a == b {
      OrdinalIndexes(a);
      OrdinalIndexes(b);
    }
  }

  /** The option at each position has that position as its ordinal. */
  lemma OrdinalAt(i: nat)
    requires i < |Values|
    ensures Ordinal(Values[i]) == i
  {
    if i < 9 {
      OrdinalAtFirst(i);
    } else if i < 17 {
      OrdinalAtSecond(i);
    } else if i < 26 {
      OrdinalAtThird(i);
    } else {
      OrdinalAtLast(i);
    }
  }

  /** The same for the first nine positions. */
  lemma OrdinalAtFirst(i: nat)
    requires i < 9
    ensures Ordinal(Values[i]) == i
  {
  }

  /** The same for the next eight. */
  lemma OrdinalAtSecond(i: nat)
    requires 9 <= i < 17
    ensures Ordinal(Values[i]) == i
  {
  }

  /** The same for the next nine. */
  lemma OrdinalAtThird(i: nat)
    requires 17 <= i < 26
    ensures Ordinal(Values[i]) == i
  {
  }

  /** The same for the last eight. */
  lemma OrdinalAtLast(i: nat)
    requires 26 <= i < |Values|
    ensures Ordinal(Values[i]) == i
  {
  }

  /** Each option sits in `Values` at its ordinal. */
  lemma OrdinalIndexes(o: PqConninfoOption)
    ensures Values[Ordinal(o)] == o
  {
    if Ordinal(o) < 9 {
      OrdinalIndexesFirst(o);
    } else if Ordinal(o) < 17 {
      OrdinalIndexesSecond(o);
    } else if Ordinal(o) < 26 {
      OrdinalIndexesThird(o);
    } else {
      OrdinalIndexesLast(o);
    }
  }

  /** The same for the first nine options in declaration order. */
  lemma OrdinalIndexesFirst(o: PqConninfoOption)
    requires Ordinal(o) < 9
    ensures Values[Ordinal(o)] == o
  {
  }

  /** The same for the next eight. */
  lemma OrdinalIndexesSecond(o: PqConninfoOption)
    requires 9 <= Ordinal(o) < 17
    ensures Values[Ordinal(o)] == o
  {
  }

  /** The same for the next nine. */
  lemma OrdinalIndexesThird(o: PqConninfoOption)
    requires 17 <= Ordinal(o) < 26
    ensures Values[Ordinal(o)] == o
  {
  }

  /** The same for the last eight. */
  lemma OrdinalIndexesLast(o: PqConninfoOption)
    requires 26 <= Ordinal(o)
    ensures Values[Ordinal(o)] == o
  {
  }

  /** Keywords are pairwise distinct, so keyword lookup is a partial injection. */
  lemma KeywordInjective(a: PqConninfoOption, b: PqConninfoOption)
    ensures Keyword(a) == Keyword(b) ==> a == b
  {
    KeywordLookupInverts(a);
    KeywordLookupInverts(b);
  }

  /** Looking up an option's keyword yields that option. */
  lemma KeywordLookupInverts(o: PqConninfoOption)
    ensures OptionWithKeyword(Keyword(o)) == Some(o)
  {
    if Ordinal(o) < 9 {
      KeywordLookupInvertsFirst(o);
    } else if Ordinal(o) < 17 {
      KeywordLookupInvertsSecond(o);
    } else if Ordinal(o) < 26 {
      KeywordLookupInvertsThird(o);
    } else {
      KeywordLookupInvertsLast(o);
    }
  }

  /** The same for the first nine options in declaration order. */
  lemma KeywordLookupInvertsFirst(o: PqConninfoOption)
    requires Ordinal(o) < 9
    ensures OptionWithKeyword(Keyword(o)) == Some(o)
  {
  }

  /** The same for the next eight. */
  lemma KeywordLookupInvertsSecond(o: PqConninfoOption)
    requires 9 <= Ordinal(o) < 17
    ensures OptionWithKeyword(Keyword(o)) == Some(o)
  {
  }

  /** The same for the next nine. */
  lemma KeywordLookupInvertsThird(o: PqConninfoOption)
    requires 17 <= Ordinal(o) < 26
    ensures OptionWithKeyword(Keyword(o)) == Some(o)
  {
  }

  /** The same for the last eight. */
  lemma KeywordLookupInvertsLast(o: PqConninfoOption)
    requires 26 <= Ordinal(o)
    ensures OptionWithKeyword(Keyword(o)) == Some(o)
  {
  }

  /** The lookup finds an option with the keyword when there is one, and nothing otherwise. */
  lemma LookupKeywordSound(keyword: string)
    ensures LookupKeyword(keyword).Some? ==> Keyword(LookupKeyword(keyword).value) == keyword
    ensures LookupKeyword(keyword).None? <==> forall o :: Keyword(o) != keyword
  {
    ValuesEnumerate();
  }

  /** Looking up an option's keyword yields that option. */
  lemma LookupKeywordInverts(o: PqConninfoOption)
    ensures LookupKeyword(Keyword(o)) == Some(o)
  {
    LookupKeywordSound(Keyword(o));
    KeywordInjective(LookupKeyword(Keyword(o)).value, o);
  }

  /** The environment-variable names that are present are pairwise distinct. */
  lemma EnvironmentVariableInjective(a: PqConninfoOption, b: PqConninfoOption)
    ensures EnvironmentVariable(a).Some? && EnvironmentVariable(a) == EnvironmentVariable(b) ==> a == b
  {
    EnvironmentVariableLookupInverts(a);
    EnvironmentVariableLookupInverts(b);
  }

  /** Looking up an option's environment variable yields that option. */
  lemma EnvironmentVariableLookupInverts(o: PqConninfoOption)
    ensures EnvironmentVariable(o).Some? ==> OptionWithEnvironmentVariable(EnvironmentVariable(o).value) == Some(o)
  {
    if Ordinal(o) < 9 {
      EnvironmentVariableLookupInvertsFirst(o);
    } else if Ordinal(o) < 17 {
      EnvironmentVariableLookupInvertsSecond(o);
    } else if Ordinal(o) < 26 {
      EnvironmentVariableLookupInvertsThird(o);
    } else {
      EnvironmentVariableLookupInvertsLast(o);
    }
  }

  /** The same for the first nine options in declaration order. */
  lemma EnvironmentVariableLookupInvertsFirst(o: PqConninfoOption)
    requires Ordinal(o) < 9
    ensures EnvironmentVariable(o).Some? ==> OptionWithEnvironmentVariable(EnvironmentVariable(o).value) == Some(o)
  {
  }

  /** The same for the next eight. */
  lemma EnvironmentVariableLookupInvertsSecond(o: PqConninfoOption)
    requires 9 <= Ordinal(o) < 17
    ensures EnvironmentVariable(o).Some? ==> OptionWithEnvironmentVariable(EnvironmentVariable(o).value) == Some(o)
  {
  }

  /** The same for the next nine. */
  lemma EnvironmentVariableLookupInvertsThird(o: PqConninfoOption)
    requires 17 <= Ordinal(o) < 26
    ensures EnvironmentVariable(o).Some? ==> OptionWithEnvironmentVariable(EnvironmentVariable(o).value) == Some(o)
  {
  }

  /** The same for the last eight. */
  lemma EnvironmentVariableLookupInvertsLast(o: PqConninfoOption)
    requires 26 <= Ordinal(o)
    ensures EnvironmentVariable(o).Some? ==> OptionWithEnvironmentVariable(EnvironmentVariable(o).value) == Some(o)
  {
  }

  /** Exactly eight options have no environment variable, and they are these. */
  lemma EightWithoutEnvironmentVariable()
    ensures |WithoutEnvironmentVariable| == 8
    ensures forall i, j :: 0 <= i < j < 8 ==> WithoutEnvironmentVariable[i] != WithoutEnvironmentVariable[j]
    ensures forall o :: EnvironmentVariable(o).None? <==> o in WithoutEnvironmentVariable
  {
  }

  /** The three options the cascade consults by name. */
  lemma LookupOptions()
    ensures Keyword(SERVICE) == "service" && EnvironmentVariable(SERVICE) == Some("PGSERVICE")
    ensures Keyword(PASSFILE) == "passfile" && EnvironmentVariable(PASSFILE) == Some("PGPASSFILE")
    ensures Keyword(USER) == "user" && EnvironmentVariable(USER) == Some("PGUSER")
  {
  }
}
