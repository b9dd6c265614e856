/**
 * The JDBC connection parameters a libpq conninfo can supply: each one's
 * property name and whether it travels in the URL's query string (every
 * parameter except host, port and database, which form the URL itself).
 */
module JdbcParameters {
  import opened Wrappers

  /** The parameters, in declaration order; the constants keep their Java names. */
  datatype JdbcConnectionParameter =
    | HOST | PORT | DBNAME | USER | PASSWORD | OPTIONS | SSL | SSLMODE
    | SSLCERT | SSLKEY | SSLROOTCERT | CONNECT_TIMEOUT | KERBEROS_SERVER_NAME
    | APPLICATION_NAME | TCP_KEEP_ALIVE | GSSENCMODE | GSSLIB | SSLPASSWORD
    | REPLICATION

  /** `JdbcConnectionParameter.values()`: every parameter, in declaration order. */
  const Values: seq<JdbcConnectionParameter> := [
    HOST, PORT, DBNAME, USER, PASSWORD, OPTIONS, SSL, SSLMODE,
    SSLCERT, SSLKEY, SSLROOTCERT, CONNECT_TIMEOUT, KERBEROS_SERVER_NAME,
    APPLICATION_NAME, TCP_KEEP_ALIVE, GSSENCMODE, GSSLIB, SSLPASSWORD,
    REPLICATION]

  /** `Enum.ordinal()`: the position of the parameter in declaration order. */
  function Ordinal(p: JdbcConnectionParameter): (n: nat)
    ensures n < |Values| && Values[n] == p
  {
    match p
    case HOST => 0  case PORT => 1  case DBNAME => 2  case USER => 3
    case PASSWORD => 4  case OPTIONS => 5  case SSL => 6  case SSLMODE => 7
    case SSLCERT => 8  case SSLKEY => 9  case SSLROOTCERT => 10
    case CONNECT_TIMEOUT => 11  case KERBEROS_SERVER_NAME => 12
    case APPLICATION_NAME => 13  case TCP_KEEP_ALIVE => 14  case GSSENCMODE => 15
    case GSSLIB => 16  case SSLPASSWORD => 17  case REPLICATION => 18
  }

  /** The parameter's JDBC property name. */
  function Keyword(p: JdbcConnectionParameter): string {
    match p
    case HOST => "host"
    case PORT => "port"
    case DBNAME => "dbname"
    case USER => "user"
    case PASSWORD => "password"
    case OPTIONS => "options"
    case SSL => "ssl"
    case SSLMODE => "sslmode"
    case SSLCERT => "sslcert"
    case SSLKEY => "sslkey"
    case SSLROOTCERT => "sslrootcert"
    case CONNECT_TIMEOUT => "connectTimeout"
    case KERBEROS_SERVER_NAME => "kerberosServerName"
    case APPLICATION_NAME => "ApplicationName"
    case TCP_KEEP_ALIVE => "tcpKeepAlive"
    case GSSENCMODE => "gssencmode"
    case GSSLIB => "gsslib"
    case SSLPASSWORD => "sslpassword"
    case REPLICATION => "replication"
  }

  /**
   * `isQueryParameter`: false for the three parameters declared with an explicit
   * `false`, true for every one built by the one-argument constructor.
   */
  function IsQueryParameter(p: JdbcConnectionParameter): bool {
    match p
    case HOST => false
    case PORT => false
    case DBNAME => false
    case _ => true
  }

  /** The keyword table read backwards. */
  function ParameterWithKeyword(keyword: string): Option<JdbcConnectionParameter> {
    match keyword
    case "host" => Some(HOST)
    case "port" => Some(PORT)
    case "dbname" => Some(DBNAME)
    case "user" => Some(USER)
    case "password" => Some(PASSWORD)
    case "options" => Some(OPTIONS)
    case "ssl" => Some(SSL)
    case "sslmode" => Some(SSLMODE)
    case "sslcert" => Some(SSLCERT)
    case "sslkey" => Some(SSLKEY)
    case "sslrootcert" => Some(SSLROOTCERT)
    case "connectTimeout" => Some(CONNECT_TIMEOUT)
    case "kerberosServerName" => Some(KERBEROS_SERVER_NAME)
    case "ApplicationName" => Some(APPLICATION_NAME)
    case "tcpKeepAlive" => Some(TCP_KEEP_ALIVE)
    case "gssencmode" => Some(GSSENCMODE)
    case "gsslib" => Some(GSSLIB)
    case "sslpassword" => Some(SSLPASSWORD)
    case "replication" => Some(REPLICATION)
    case _ => None
  }

  /** Looking up a parameter's keyword yields that parameter. */
  lemma KeywordLookupInverts(p: JdbcConnectionParameter)
    ensures ParameterWithKeyword(Keyword(p)) == Some(p)
  {
  }

  /** The parameter at each position has that position as its ordinal. */
  lemma OrdinalAt(i: nat)
    requires i < |Values|
    ensures Ordinal(Values[i]) == i
  {
    if i < 10 {
      OrdinalAtFirst(i);
    } else {
      OrdinalAtLast(i);
    }
  }

  /** The same for the first ten positions. */
  lemma OrdinalAtFirst(i: nat)
    requires i < 10
    ensures Ordinal(Values[i]) == i
  {
  }

  /** The same for the last nine. */
  lemma OrdinalAtLast(i: nat)
    requires 10 <= i < |Values|
    ensures Ordinal(Values[i]) == i
  {
  }

  /** Keywords are pairwise distinct. */
  lemma KeywordInjective(a: JdbcConnectionParameter, b: JdbcConnectionParameter)
    ensures Keyword(a) == Keyword(b) ==> a == b
  {
    KeywordLookupInverts(a);
    KeywordLookupInverts(b);
  }

  /** `Values` lists every parameter. */
  lemma ValuesEnumerate()
    ensures |Values| == 19
    ensures forall p :: p in Values
  {
    forall p ensures p in Values { assert Values[Ordinal(p)] == p; }
  }

  /** Exactly host, port and database are not query parameters. */
  lemma UrlParameters(p: JdbcConnectionParameter)
    ensures !IsQueryParameter(p) <==> p == HOST || p == PORT || p == DBNAME
  {
  }
}
