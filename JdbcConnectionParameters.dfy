/**
 * The JDBC connection parameters derived from a resolved conninfo: one optional
 * value per parameter, set once from the conninfo and displayed with the two
 * secrets hidden.
 */
module JdbcConnectionParams {
  import opened Wrappers
  import opened JavaStrings
  import opened PqConninfoOptions
  import opened Conninfo
  import opened JdbcElf

  /** `JdbcConnectionParameters`: host, port and database form the URL; the rest are query parameters. */
  datatype JdbcConnectionParameters = JdbcConnectionParameters(
    host: Option<string>,
    port: Option<int>,
    dbname: Option<string>,
    user: Option<string>,
    password: Option<string>,
    options: Option<string>,
    sslmode: Option<string>,
    sslcert: Option<string>,
    sslkey: Option<string>,
    sslrootcert: Option<string>,
    connectTimeout: Option<int>,
    kerberosServerName: Option<string>,
    applicationName: Option<string>,
    tcpKeepAlive: Option<bool>,
    gssencmode: Option<string>,
    gsslib: Option<string>,
    sslpassword: Option<string>,
    replication: Option<string>)

  /** `JdbcConnectionParameters.from(conninfo)`: each field is its getter applied to the conninfo. */
  function From(c: PqConninfo): JdbcConnectionParameters {
    JdbcConnectionParameters(
      GetHost(c), GetPort(c), GetDbname(c), GetUser(c), GetPassword(c), GetOptions(c),
      GetSslmode(c), GetSslcert(c), GetSslkey(c), GetSslrootcert(c), GetConnectTimeout(c),
      GetKerberosServerName(c), GetApplicationName(c), GetTcpKeepAlive(c), GetGssencmode(c),
      GetGsslib(c), GetSslpassword(c), GetReplication(c))
  }

  /** The conninfo options some field is read from. */
  const MappedOptions: set<PqConninfoOption> := {
    HOST, PORT, DBNAME, USER, PASSWORD, OPTIONS, SSLMODE, SSLCERT, SSLKEY, SSLROOTCERT,
    CONNECT_TIMEOUT, KRBSRVNAME, APPLICATION_NAME, KEEPALIVES, GSSENCMODE, GSSLIB,
    SSLPASSWORD, REPLICATION}

  /** Options without a JDBC counterpart (service, passfile, ...) have no effect on the parameters. */
  lemma FromIgnoresUnmappedOptions(c: PqConninfo, o: PqConninfoOption, v: string)
    requires o !in MappedOptions
    ensures From(PqConninfo(c.opts[o := v])) == From(c)
    ensures From(PqConninfo(c.opts - {o})) == From(c)
  {
    var c1 := PqConninfo(c.opts[o := v]);
    var c2 := PqConninfo(c.opts - {o});
    forall q | q in MappedOptions
      ensures GetOption(c1, q) == GetOption(c, q) && GetOption(c2, q) == GetOption(c, q)
    {
    }
    FromReadsMappedOptions(c1, c);
    FromReadsMappedOptions(c2, c);
  }

  /** Conninfos that agree on the mapped options give the same parameters. */
  lemma FromReadsMappedOptions(a: PqConninfo, b: PqConninfo)
    requires forall q :: q in MappedOptions ==> GetOption(a, q) == GetOption(b, q)
    ensures From(a) == From(b)
  {
    assert GetOption(a, PORT) == GetOption(b, PORT);
    assert GetOption(a, CONNECT_TIMEOUT) == GetOption(b, CONNECT_TIMEOUT);
    assert GetOption(a, KEEPALIVES) == GetOption(b, KEEPALIVES);
  }

  /** The parameters keep the secrets as stored; only the display hides them. */
  lemma FromKeepsSecrets(c: PqConninfo)
    ensures From(c).password == GetOption(c, PASSWORD)
    ensures From(c).sslpassword == GetOption(c, SSLPASSWORD)
  {
  }

  /** `equals`: field-wise equality. */
  function Equals(a: JdbcConnectionParameters, b: JdbcConnectionParameters): (r: bool)
    ensures r <==> a == b
  {
    && a.host == b.host && a.port == b.port && a.dbname == b.dbname && a.user == b.user
    && a.password == b.password && a.options == b.options && a.sslmode == b.sslmode
    && a.sslcert == b.sslcert && a.sslkey == b.sslkey && a.sslrootcert == b.sslrootcert
    && a.connectTimeout == b.connectTimeout && a.kerberosServerName == b.kerberosServerName
    && a.applicationName == b.applicationName && a.tcpKeepAlive == b.tcpKeepAlive
    && a.gssencmode == b.gssencmode && a.gsslib == b.gsslib && a.sslpassword == b.sslpassword
    && a.replication == b.replication
  }

  /** Two parameter sets built from equal conninfos are equal. */
  lemma EqualConninfoEqualParameters(a: PqConninfo, b: PqConninfo)
    requires Conninfo.Equals(a, b)
    ensures Equals(From(a), From(b))
  {
  }

  /** `Boolean.toString`. */
  function BoolToString(b: bool): string {
    if b then "true" else "false"
  }

  /** `name='value'`, or nothing for an absent value. */
  function Quoted(name: string, v: Option<string>): Option<string> {
    if v.None? then None else Some(name + "='" + v.value + "'")
  }

  /** `name=value` for a number, or nothing. */
  function Number(name: string, v: Option<int>): Option<string> {
    if v.None? then None else Some(name + "=" + IntToString(v.value))
  }

  /** `name='****'` for a present secret, or nothing. */
  function Hidden(name: string, v: Option<string>): Option<string> {
    if v.None? then None else Some(name + "='****'")
  }

  /** The display entry of every field, in field order. */
  function DisplayEntries(p: JdbcConnectionParameters): seq<Option<string>> {
    [Quoted("host", p.host), Number("port", p.port), Quoted("dbname", p.dbname),
     Quoted("user", p.user), Hidden("password", p.password), Quoted("options", p.options),
     Quoted("sslmode", p.sslmode), Quoted("sslcert", p.sslcert), Quoted("sslkey", p.sslkey),
     Quoted("sslrootcert", p.sslrootcert), Number("connectTimeout", p.connectTimeout),
     Quoted("kerberosServerName", p.kerberosServerName),
     Quoted("ApplicationName", p.applicationName),
     if p.tcpKeepAlive.None? then None else Some("tcpKeepAlive=" + BoolToString(p.tcpKeepAlive.value)),
     Quoted("gssencmode", p.gssencmode), Quoted("gsslib", p.gsslib),
     Hidden("sslpassword", p.sslpassword), Quoted("replication", p.replication)]
  }

  /** The present entries, in order. */
  function Present(entries: seq<Option<string>>): (r: seq<string>)
    ensures |r| <= |entries|
    ensures forall s :: s in r <==> Some(s) in entries
  {
    if entries == [] then []
    else (if entries[0].Some? then [entries[0].value] else []) + Present(entries[1..])
  }

  /** How many of the entries are present. */
  function SomeCount(entries: seq<Option<string>>): (n: nat)
    ensures n <= |entries|
  {
    if entries == [] then 0 else (if entries[0].Some? then 1 else 0) + SomeCount(entries[1..])
  }

  /** There is one present entry per entry that is set. */
  lemma {:induction false} PresentCount(entries: seq<Option<string>>)
    ensures |Present(entries)| == SomeCount(entries)
    decreases |entries|
  {
    if entries != [] {
      PresentCount(entries[1..]);
    }
  }

  /** A set entry at index `i` is shown at index "how many entries before it are set". */
  lemma {:induction false} PresentAt(entries: seq<Option<string>>, i: nat)
    requires i < |entries| && entries[i].Some?
    ensures SomeCount(entries[..i]) < |Present(entries)|
    ensures Present(entries)[SomeCount(entries[..i])] == entries[i].value
    decreases i
  {
    if i == 0 {
      assert entries[..0] == [];
    } else {
      PresentAt(entries[1..], i - 1);
      PresentAtNext(entries, i);
    }
  }

  /** The step of `PresentAt`: one entry in front shifts the position by itself. */
  lemma PresentAtNext(entries: seq<Option<string>>, i: nat)
    requires 0 < i < |entries| && entries[i].Some?
    requires SomeCount(entries[1..][..i - 1]) < |Present(entries[1..])|
    requires Present(entries[1..])[SomeCount(entries[1..][..i - 1])] == entries[i].value
    ensures SomeCount(entries[..i]) < |Present(entries)|
    ensures Present(entries)[SomeCount(entries[..i])] == entries[i].value
  {
    var head := if entries[0].Some? then 1 else 0;
    assert entries[..i][1..] == entries[1..][..i - 1];
    assert SomeCount(entries[..i]) == head + SomeCount(entries[1..][..i - 1]);
  }

  /** A set entry adds one to the count of those after it. */
  lemma {:induction false} SomeCountGrows(entries: seq<Option<string>>, i: nat, j: nat)
    requires i < j <= |entries| && entries[i].Some?
    ensures SomeCount(entries[..i]) < SomeCount(entries[..j])
    decreases i
  {
    assert entries[..j][0] == entries[0];
    assert entries[..j][1..] == entries[1..][..j - 1];
    if i == 0 {
      assert entries[..0] == [];
    } else {
      assert entries[..i][0] == entries[0];
      assert entries[..i][1..] == entries[1..][..i - 1];
      SomeCountGrows(entries[1..], i - 1, j - 1);
    }
  }

  /** The present entries keep the order of the entries. */
  lemma PresentKeepsOrder(entries: seq<Option<string>>, i: nat, j: nat)
    requires i < j < |entries| && entries[i].Some? && entries[j].Some?
    ensures var r := Present(entries);
            exists a, b :: 0 <= a < b < |r| && r[a] == entries[i].value && r[b] == entries[j].value
  {
    var r := Present(entries);
    PresentAt(entries, i);
    PresentAt(entries, j);
    SomeCountGrows(entries, i, j);
    var a, b := SomeCount(entries[..i]), SomeCount(entries[..j]);
    assert r[a] == entries[i].value && r[b] == entries[j].value;
  }

  /** `toString`: the present fields in field order, the secrets shown as `'****'`. */
  function ToString(p: JdbcConnectionParameters): string {
    "JdbcConnectionParameters{" + Join(", ", Present(DisplayEntries(p))) + "}"
  }

  /** The display never depends on the secrets' values, only on whether they are set. */
  lemma ToStringHidesSecrets(a: JdbcConnectionParameters, b: JdbcConnectionParameters)
    requires a.(password := b.password, sslpassword := b.sslpassword) == b
    requires a.password.Some? == b.password.Some? && a.sslpassword.Some? == b.sslpassword.Some?
    ensures ToString(a) == ToString(b)
  {
    assert DisplayEntries(a) == DisplayEntries(b);
  }

  /** A present password is shown only as the marker. */
  lemma ToStringShowsPasswordMarker(p: JdbcConnectionParameters)
    requires p.password.Some?
    ensures "password" + "='****'" in Present(DisplayEntries(p))
  {
    assert DisplayEntries(p)[4] == Some("password" + "='****'");
  }

  /** A present SSL key password is shown only as the marker. */
  lemma ToStringShowsSslpasswordMarker(p: JdbcConnectionParameters)
    requires p.sslpassword.Some?
    ensures "sslpassword" + "='****'" in Present(DisplayEntries(p))
  {
    assert DisplayEntries(p)[16] == Some("sslpassword" + "='****'");
  }

  /**
   * With only a user and the two secrets set, the display lists the user, then
   * the masked password, then the masked SSL key password.
   */
  lemma CredentialsDisplay(user: string, password: string, sslpassword: string)
    ensures var p := JdbcConnectionParameters(None, None, None, Some(user), Some(password), None, None, None,
                                              None, None, None, None, None, None, None, None, Some(sslpassword), None);
            Present(DisplayEntries(p)) == ["user='" + user + "'", "password='****'", "sslpassword='****'"]
  {
    CredentialsDisplayParts(user, password, sslpassword);
    CredentialsEntries(user, password, sslpassword);
  }

  /** The display of a user and the two secrets is the display of those three entries. */
  lemma CredentialsDisplayParts(user: string, password: string, sslpassword: string)
    ensures var p := JdbcConnectionParameters(None, None, None, Some(user), Some(password), None, None, None,
                                              None, None, None, None, None, None, None, None, Some(sslpassword), None);
            Present(DisplayEntries(p))
            == Present([Quoted("user", Some(user)), Hidden("password", Some(password))])
               + Present([Hidden("sslpassword", Some(sslpassword)), None])
  {
    CredentialsLayout(user, password, sslpassword);
    PresentSkipsUnset([None, None, None], [Quoted("user", Some(user)), Hidden("password", Some(password))],
                      [None, None, None, None, None, None, None, None, None, None, None],
                      [Hidden("sslpassword", Some(sslpassword)), None]);
  }

  /** A conninfo holding only a user and the two secrets gives parameters holding just those. */
  lemma FromCredentials(user: string, password: string, sslpassword: string)
    ensures From(PqConninfo(map[USER := user, SSLPASSWORD := sslpassword, PASSWORD := password]))
            == JdbcConnectionParameters(None, None, None, Some(user), Some(password), None, None, None,
                                        None, None, None, None, None, None, None, None, Some(sslpassword), None)
  {
    FromCredentialsFirstFields(PqConninfo(map[USER := user, SSLPASSWORD := sslpassword, PASSWORD := password]));
    FromCredentialsLastFields(PqConninfo(map[USER := user, SSLPASSWORD := sslpassword, PASSWORD := password]));
  }

  /** The first nine fields of `FromCredentials`. */
  lemma FromCredentialsFirstFields(c: PqConninfo)
    requires c.opts.Keys == {USER, SSLPASSWORD, PASSWORD}
    ensures var p := From(c);
            p.host.None? && p.port.None? && p.dbname.None? && p.user == Some(c.opts[USER])
            && p.password == Some(c.opts[PASSWORD]) && p.options.None? && p.sslmode.None?
            && p.sslcert.None? && p.sslkey.None?
  {
  }

  /** The last nine fields of `FromCredentials`. */
  lemma FromCredentialsLastFields(c: PqConninfo)
    requires c.opts.Keys == {USER, SSLPASSWORD, PASSWORD}
    ensures var p := From(c);
            p.sslrootcert.None? && p.connectTimeout.None? && p.kerberosServerName.None?
            && p.applicationName.None? && p.tcpKeepAlive.None? && p.gssencmode.None?
            && p.gsslib.None? && p.sslpassword == Some(c.opts[SSLPASSWORD]) && p.replication.None?
  {
  }

  /** The redaction test: user `alice` and both secrets set display as their masks. */
  lemma RedactedPasswordsDisplay()
    ensures ToString(From(PqConninfo(map[USER := "alice", SSLPASSWORD := "change-me", PASSWORD := "super-secret"])))
            == "JdbcConnectionParameters{" + Join(", ", ["user='alice'", "password='****'", "sslpassword='****'"]) + "}"
  {
    var p := JdbcConnectionParameters(None, None, None, Some("alice"), Some("super-secret"), None, None, None,
                                      None, None, None, None, None, None, None, None, Some("change-me"), None);
    calc {
      ToString(From(PqConninfo(map[USER := "alice", SSLPASSWORD := "change-me", PASSWORD := "super-secret"])));
      == { FromCredentials("alice", "super-secret", "change-me"); }
      ToString(p);
      ==
      "JdbcConnectionParameters{" + Join(", ", Present(DisplayEntries(p))) + "}";
      == { CredentialsDisplay("alice", "super-secret", "change-me"); }
      "JdbcConnectionParameters{" + Join(", ", ["user='" + "alice" + "'", "password='****'", "sslpassword='****'"]) + "}";
      == { assert "user='" + "alice" + "'" == "user='alice'"; }
      "JdbcConnectionParameters{" + Join(", ", ["user='alice'", "password='****'", "sslpassword='****'"]) + "}";
    }
  }

  /** The display entries of a user and the two secrets, with the unset runs between them. */
  lemma CredentialsLayout(user: string, password: string, sslpassword: string)
    ensures var p := JdbcConnectionParameters(None, None, None, Some(user), Some(password), None, None, None,
                                              None, None, None, None, None, None, None, None, Some(sslpassword), None);
            DisplayEntries(p)
            == [None, None, None] + [Quoted("user", Some(user)), Hidden("password", Some(password))]
               + [None, None, None, None, None, None, None, None, None, None, None]
               + [Hidden("sslpassword", Some(sslpassword)), None]
  {
  }

  /** Runs of unset entries between two runs add nothing to the display. */
  lemma PresentSkipsUnset(none1: seq<Option<string>>, a: seq<Option<string>>, none2: seq<Option<string>>, b: seq<Option<string>>)
    requires forall k :: 0 <= k < |none1| ==> none1[k].None?
    requires forall k :: 0 <= k < |none2| ==> none2[k].None?
    ensures Present(none1 + a + none2 + b) == Present(a) + Present(b)
  {
    PresentOfUnset(none1);
    PresentOfUnset(none2);
    PresentAppend(none1, a);
    PresentAppend(none1 + a, none2);
    PresentAppend(none1 + a + none2, b);
  }

  /** The shown entries of the user and the two secrets. */
  lemma CredentialsEntries(user: string, password: string, sslpassword: string)
    ensures Present([Quoted("user", Some(user)), Hidden("password", Some(password))])
            == ["user='" + user + "'", "password='****'"]
    ensures Present([Hidden("sslpassword", Some(sslpassword)), None]) == ["sslpassword='****'"]
  {
    var credentials := [Quoted("user", Some(user)), Hidden("password", Some(password))];
    assert credentials[1..][1..] == [];
    assert "user" + "='" == "user='";
    assert "password" + "='****'" == "password='****'";
    assert "sslpassword" + "='****'" == "sslpassword='****'";
    assert Present(credentials[1..]) == ["password='****'"] + Present(credentials[1..][1..]);
    assert Present(credentials) == ["user='" + user + "'"] + Present(credentials[1..]);
    var tail := [Hidden("sslpassword", Some(sslpassword)), None];
    assert tail[1..] == [None];
    assert Present(tail) == ["sslpassword='****'"] + Present(tail[1..]);
  }

  /** Nothing set, nothing shown. */
  lemma {:induction false} PresentOfUnset(entries: seq<Option<string>>)
    requires forall k :: 0 <= k < |entries| ==> entries[k].None?
    ensures Present(entries) == []
    decreases |entries|
  {
    if entries != [] {
      PresentOfUnset(entries[1..]);
    }
  }

  /** The present entries of two runs of entries, one after the other. */
  lemma {:induction false} PresentAppend(a: seq<Option<string>>, b: seq<Option<string>>)
    ensures Present(a + b) == Present(a) + Present(b)
    decreases |a|
  {
    if a != [] {
      assert (a + b)[1..] == a[1..] + b;
      PresentAppend(a[1..], b);
    } else {
      assert a + b == b;
    }
  }
}
