/**
 * The password file (`.pgpass`): splitting an entry into fields, removing the
 * escaping from the password field, matching an entry against the connection
 * options, and searching a file's lines for the first matching entry.
 */
module Passfile {
  import opened Wrappers
  import opened JavaStrings
  import opened PqConninfoOptions

  const Wildcard: string := "*"
  const PasswordFieldOffset: nat := 4
  const MinFieldCount: nat := 4
  const MaxFieldCount: nat := 5
  const DefaultHost: string := "localhost"
  const DefaultPortStr: string := "5432"
  const DefaultPgsocketDir: string := "/tmp"

  /** `Util.isNullOrEmpty`. */
  predicate IsNullOrEmpty(s: Option<string>) {
    s.None? || s.value == ""
  }

  // ---------------------------------------------------------------------------
  // Splitting an entry: `line.split("(?<!\\\\):")`
  // ---------------------------------------------------------------------------

  /**
   * The pieces of `s` between the colons that are not preceded by a backslash.
   * `prev` is the character just before `s` in the whole line (`None` at its start);
   * the look-behind inspects exactly that one character.
   */
  function SplitFields(s: string, prev: Option<char>): (r: seq<string>)
    ensures |r| >= 1
    ensures |r| <= |s| + 1
  {
    if s == [] then [""]
    else if s[0] == ':' && prev != Some('\\') then [""] + SplitFields(s[1..], Some(':'))
    else
      var rest := SplitFields(s[1..], Some(s[0]));
      [[s[0]] + rest[0]] + rest[1..]
  }

  /** `String.split` with limit zero drops the trailing empty strings. */
  function DropTrailingEmpty(fields: seq<string>): (r: seq<string>)
    ensures r <= fields
    ensures r == [] || r[|r| - 1] != ""
    ensures forall k :: |r| <= k < |fields| ==> fields[k] == ""
  {
    if fields != [] && fields[|fields| - 1] == "" then DropTrailingEmpty(fields[..|fields| - 1])
    else fields
  }

  /**
   * `Passfile.splitPgpassLine`. When the pattern never matches, Java returns the
   * whole input as the single field, even when the input is empty; otherwise the
   * trailing empty fields are removed, which can leave no field at all.
   */
  function SplitPgpassLine(line: string): seq<string> {
    var raw := SplitFields(line, None);
    if |raw| == 1 then raw else DropTrailingEmpty(raw)
  }

  /** Joining the fields back with ':' restores the text that was split. */
  lemma {:induction false} SplitFieldsJoin(s: string, prev: Option<char>)
    ensures Join(":", SplitFields(s, prev)) == s
    decreases |s|
  {
    if s == [] {
    } else if s[0] == ':' && prev != Some('\\') {
      SplitFieldsJoin(s[1..], Some(':'));
      JoinAtSeparator(s, prev);
    } else {
      SplitFieldsJoin(s[1..], Some(s[0]));
      JoinInsideField(s, prev);
    }
  }

  /** `k` colons. */
  function Colons(k: nat): string {
    if k == 0 then "" else ":" + Colons(k - 1)
  }

  /**
   * `splitPgpassLine` loses nothing but the separators of the trailing empty
   * fields: joining its fields back gives the line up to some final colons.
   */
  lemma SplitPgpassLineRestores(line: string)
    ensures exists k: nat :: line == Join(":", SplitPgpassLine(line)) + Colons(k)
  {
    var raw := SplitFields(line, None);
    SplitFieldsJoin(line, None);
    if |raw| == 1 {
      assert line == Join(":", SplitPgpassLine(line)) + Colons(0);
    } else {
      var r := DropTrailingEmpty(raw);
      JoinTrailingEmpty(r, raw);
      if r == [] {
        assert line == Join(":", SplitPgpassLine(line)) + Colons(|raw| - 1);
      } else {
        assert line == Join(":", SplitPgpassLine(line)) + Colons(|raw| - |r|);
      }
    }
  }

  /** Joining a list that ends in empty fields adds one colon per dropped field. */
  lemma {:induction false} JoinTrailingEmpty(r: seq<string>, raw: seq<string>)
    requires r <= raw
    requires forall k :: |r| <= k < |raw| ==> raw[k] == ""
    ensures r == [] && raw != [] ==> Join(":", raw) == Colons(|raw| - 1)
    ensures r != [] ==> Join(":", raw) == Join(":", r) + Colons(|raw| - |r|)
    decreases |raw|
  {
    if raw == [] || |raw| == 1 {
    } else if r == [] {
      JoinTrailingEmpty([], raw[1..]);
    } else if |r| == 1 {
      JoinTrailingEmpty([], raw[1..]);
      assert raw[0] == r[0];
    } else {
      JoinTrailingEmpty(r[1..], raw[1..]);
      assert raw[0] == r[0];
    }
  }

  /** The step of `SplitFieldsJoin` at a separating colon. */
  lemma JoinAtSeparator(s: string, prev: Option<char>)
    requires s != [] && s[0] == ':' && prev != Some('\\')
    requires Join(":", SplitFields(s[1..], Some(':'))) == s[1..]
    ensures Join(":", SplitFields(s, prev)) == s
  {
    var rest := SplitFields(s[1..], Some(':'));
    assert SplitFields(s, prev) == [""] + rest;
    JoinCons(":", "", rest);
    assert s == [':'] + s[1..];
  }

  /** The step of `SplitFieldsJoin` at a character that stays in its field. */
  lemma JoinInsideField(s: string, prev: Option<char>)
    requires s != [] && !(s[0] == ':' && prev != Some('\\'))
    requires Join(":", SplitFields(s[1..], Some(s[0]))) == s[1..]
    ensures Join(":", SplitFields(s, prev)) == s
  {
    var rest := SplitFields(s[1..], Some(s[0]));
    assert SplitFields(s, prev) == [[s[0]] + rest[0]] + rest[1..];
    JoinPrepend(":", s[0], rest);
    assert s == [s[0]] + s[1..];
  }

  /** A character put in front of the first part comes out in front of the joined text. */
  lemma JoinPrepend(sep: string, c: char, parts: seq<string>)
    requires parts != []
    ensures Join(sep, [[c] + parts[0]] + parts[1..]) == [c] + Join(sep, parts)
  {
    var first := [c] + parts[0];
    if |parts| == 1 {
      assert [first] + parts[1..] == [first];
    } else {
      JoinCons(sep, first, parts[1..]);
      assert parts == [parts[0]] + parts[1..];
      JoinCons(sep, parts[0], parts[1..]);
      var tail := Join(sep, parts[1..]);
      assert first + sep + tail == [c] + (parts[0] + sep + tail);
    }
  }

  /** Joining a first part onto the rest puts one separator between them. */
  lemma JoinCons(sep: string, a: string, rest: seq<string>)
    requires rest != []
    ensures Join(sep, [a] + rest) == a + sep + Join(sep, rest)
  {
    assert ([a] + rest)[1..] == rest;
  }

  /**
   * A colon survives inside a field only when a backslash precedes it (or, for the
   * very first character, when the character before the text was a backslash).
   */
  predicate OnlyEscapedColons(fields: seq<string>, prev: Option<char>) {
    forall k, j {:trigger fields[k][j]} :: 0 <= k < |fields| && 0 <= j < |fields[k]| && fields[k][j] == ':' ==>
      (j > 0 && fields[k][j - 1] == '\\') || (k == 0 && j == 0 && prev == Some('\\'))
  }

  /** Every colon left inside a field is an escaped one. */
  lemma {:induction false} SplitFieldsOnlyEscapedColons(s: string, prev: Option<char>)
    ensures OnlyEscapedColons(SplitFields(s, prev), prev)
    decreases |s|
  {
    var r := SplitFields(s, prev);
    if s == [] {
    } else if s[0] == ':' && prev != Some('\\') {
      SplitFieldsOnlyEscapedColons(s[1..], Some(':'));
      var rest := SplitFields(s[1..], Some(':'));
      assert OnlyEscapedColons(rest, Some(':'));
      assert r == [""] + rest;
      assert forall k :: 1 <= k < |r| ==> r[k] == rest[k - 1];
      forall k, j | 0 <= k < |r| && 0 <= j < |r[k]| && r[k][j] == ':'
        ensures (j > 0 && r[k][j - 1] == '\\') || (k == 0 && j == 0 && prev == Some('\\'))
      {
        if k > 0 {
          assert rest[k - 1][j] == ':';
          assert (j > 0 && rest[k - 1][j - 1] == '\\') || (k - 1 == 0 && j == 0 && Some(':') == Some('\\'));
          assert j > 0;
          assert r[k][j - 1] == rest[k - 1][j - 1];
        }
      }
    } else {
      SplitFieldsOnlyEscapedColons(s[1..], Some(s[0]));
      var rest := SplitFields(s[1..], Some(s[0]));
      assert OnlyEscapedColons(rest, Some(s[0]));
      assert r[0] == [s[0]] + rest[0];
      assert forall k :: 1 <= k < |r| ==> r[k] == rest[k];
      forall k, j | 0 <= k < |r| && 0 <= j < |r[k]| && r[k][j] == ':'
        ensures (j > 0 && r[k][j - 1] == '\\') || (k == 0 && j == 0 && prev == Some('\\'))
      {
        if k == 0 {
          if j > 0 {
            assert r[0][j] == rest[0][j - 1];
            assert rest[0][j - 1] == ':';
            if j > 1 { assert r[0][j - 1] == rest[0][j - 2]; }
          }
        } else {
          assert rest[k][j] == ':';
        }
      }
    }
  }

  /**
   * Every cut between two fields was made at a colon not preceded by a backslash:
   * a field followed by another never ends in a backslash, and an empty first field
   * is only cut off when the character before the text was not a backslash.
   */
  predicate SplitsOnlyUnescaped(fields: seq<string>, prev: Option<char>) {
    forall k :: 0 <= k < |fields| - 1 ==>
      (fields[k] != [] ==> fields[k][|fields[k]| - 1] != '\\')
      && (fields[k] == [] && k == 0 ==> prev != Some('\\'))
  }

  /** Splitting happens only at colons that are not escaped. */
  lemma {:induction false} SplitFieldsOnlyAtUnescaped(s: string, prev: Option<char>)
    ensures SplitsOnlyUnescaped(SplitFields(s, prev), prev)
    decreases |s|
  {
    var r := SplitFields(s, prev);
    if s == [] {
    } else if s[0] == ':' && prev != Some('\\') {
      SplitFieldsOnlyAtUnescaped(s[1..], Some(':'));
      var rest := SplitFields(s[1..], Some(':'));
      assert r == [""] + rest;
      forall k | 1 <= k < |r| - 1
        ensures r[k] != [] ==> r[k][|r[k]| - 1] != '\\'
      {
        assert r[k] == rest[k - 1];
      }
    } else {
      SplitFieldsOnlyAtUnescaped(s[1..], Some(s[0]));
      var rest := SplitFields(s[1..], Some(s[0]));
      assert r == [[s[0]] + rest[0]] + rest[1..];
      if |r| > 1 {
        var first := [s[0]] + rest[0];
        assert first[|first| - 1] == if rest[0] == [] then s[0] else rest[0][|rest[0]| - 1];
      }
      forall k | 1 <= k < |r| - 1
        ensures r[k] != [] ==> r[k][|r[k]| - 1] != '\\'
      {
        assert r[k] == rest[k];
      }
    }
  }

  /** An ordinary field followed by a separator becomes a field of its own. */
  lemma {:induction false} SplitFieldsAtSeparator(a: string, rest: string, prev: Option<char>)
    requires ':' !in a
    requires a == [] ==> prev != Some('\\')
    requires a != [] ==> a[|a| - 1] != '\\'
    ensures SplitFields(a + ":" + rest, prev) == [a] + SplitFields(rest, Some(':'))
    decreases |a|
  {
    var s := a + ":" + rest;
    if a == [] {
      assert s == ":" + rest;
      assert s[1..] == rest;
    } else {
      assert s[0] == a[0];
      assert s[1..] == a[1..] + ":" + rest;
      SplitFieldsAtSeparator(a[1..], rest, Some(a[0]));
      assert [a[0]] + a[1..] == a;
    }
  }

  // ---------------------------------------------------------------------------
  // The password field: `s.replaceAll("\\\\([\\\\:])", "$1")`
  // ---------------------------------------------------------------------------

  /**
   * `Passfile.unescapePassword`: scanning left to right, a backslash followed by a
   * backslash or a colon stands for that second character; every other character
   * stands for itself.
   */
  function UnescapePassword(s: string): (r: string)
    ensures |r| <= |s|
    ensures '\\' !in s ==> r == s
  {
    if s == [] then ""
    else if |s| >= 2 && s[0] == '\\' && (s[1] == '\\' || s[1] == ':') then [s[1]] + UnescapePassword(s[2..])
    else [s[0]] + UnescapePassword(s[1..])
  }

  /** How a password is written in a password file: `\` and `:` get a backslash in front. */
  function Escape(pw: string): string {
    if pw == [] then "" else EscapeChar(pw[0]) + Escape(pw[1..])
  }

  function EscapeChar(c: char): string {
    if c == '\\' || c == ':' then ['\\', c] else [c]
  }

  /** Unescaping undoes escaping. */
  lemma {:induction false} UnescapeInvertsEscape(pw: string)
    ensures UnescapePassword(Escape(pw)) == pw
  {
    if pw != [] {
      UnescapeInvertsEscape(pw[1..]);
      var e := Escape(pw);
      if pw[0] == '\\' || pw[0] == ':' {
        assert e[2..] == Escape(pw[1..]);
      } else {
        assert e[1..] == Escape(pw[1..]);
      }
      assert [pw[0]] + pw[1..] == pw;
    }
  }

  lemma {:induction false} EscapeAppend(a: string, b: string)
    ensures Escape(a + b) == Escape(a) + Escape(b)
  {
    if a != [] {
      var ab := a + b;
      assert ab[0] == a[0];
      assert ab[1..] == a[1..] + b;
      EscapeAppend(a[1..], b);
      assert Escape(ab) == EscapeChar(a[0]) + Escape(a[1..] + b);
      assert EscapeChar(a[0]) + (Escape(a[1..]) + Escape(b)) == (EscapeChar(a[0]) + Escape(a[1..])) + Escape(b);
    } else {
      assert a + b == b;
    }
  }

  lemma {:induction false} EscapePlain(a: string)
    requires '\\' !in a && ':' !in a
    ensures Escape(a) == a
  {
    if a != [] {
      EscapePlain(a[1..]);
      assert [a[0]] + a[1..] == a;
    }
  }

  /** An escaped password contains no separator: it is split as one field. */
  lemma {:induction false} EscapedIsOneField(pw: string, prev: Option<char>)
    ensures SplitFields(Escape(pw), prev) == [Escape(pw)]
  {
    if pw != [] {
      var e := Escape(pw);
      var tail := Escape(pw[1..]);
      EscapedIsOneField(pw[1..], Some(pw[0]));
      if pw[0] == '\\' || pw[0] == ':' {
        var e1 := e[1..];
        assert e == ['\\'] + e1;
        assert e1 == [pw[0]] + tail;
        assert e1[0] == pw[0] && e1[1..] == tail;
        assert SplitFields(e1, Some('\\')) == [[pw[0]] + tail];
        assert SplitFields(e, prev) == [['\\'] + e1];
      } else {
        assert e == [pw[0]] + tail;
        assert e[1..] == tail;
      }
    }
  }

  // ---------------------------------------------------------------------------
  // Matching one entry
  // ---------------------------------------------------------------------------

  /** `Passfile.optMatchesField`: a `*` field matches any value. */
  predicate OptMatchesField(opt: string, field: string) {
    field == Wildcard || field == opt
  }

  /**
   * `Passfile.parsePgpassLine`: an entry with four or five fields whose first four
   * match the options yields the unescaped fifth field; a four-field entry yields no
   * password even when it matches.
   */
  function ParsePgpassLine(host: string, port: string, dbname: string, user: string, line: string): Option<string> {
    var fields := SplitPgpassLine(line);
    if |fields| < MinFieldCount || MaxFieldCount < |fields| then None
    else if !(OptMatchesField(host, fields[0]) && OptMatchesField(port, fields[1])
              && OptMatchesField(dbname, fields[2]) && OptMatchesField(user, fields[3])) then None
    else if |fields| == MinFieldCount then None
    else Some(UnescapePassword(fields[PasswordFieldOffset]))
  }

  /**
   * A line yields a password exactly when it has five fields whose first four match
   * the options, and the password is the unescaped fifth field.
   */
  lemma ParsePgpassLineMeaning(host: string, port: string, dbname: string, user: string, line: string)
    ensures var r := ParsePgpassLine(host, port, dbname, user, line);
            var fields := SplitPgpassLine(line);
            (r.Some? <==>
              |fields| == MaxFieldCount
              && OptMatchesField(host, fields[0]) && OptMatchesField(port, fields[1])
              && OptMatchesField(dbname, fields[2]) && OptMatchesField(user, fields[3]))
            && (r.Some? ==> r.value == UnescapePassword(fields[PasswordFieldOffset]))
  {
  }

  /** The entry a password file holds for these four values and this password. */
  function EntryLine(host: string, port: string, dbname: string, user: string, pw: string): string {
    host + ":" + (port + ":" + (dbname + ":" + (user + ":" + Escape(pw))))
  }

  /** A field written without colons and without a final backslash. */
  predicate PlainField(f: string) {
    ':' !in f && (f != [] ==> f[|f| - 1] != '\\')
  }

  /** Four plain fields and any non-empty escaped password split back into those five fields. */
  lemma EntryLineSplits(host: string, port: string, dbname: string, user: string, pw: string)
    requires PlainField(host) && PlainField(port) && PlainField(dbname) && PlainField(user)
    requires pw != ""
    ensures SplitPgpassLine(EntryLine(host, port, dbname, user, pw)) == [host, port, dbname, user, Escape(pw)]
  {
    var e := Escape(pw);
    assert e == EscapeChar(pw[0]) + Escape(pw[1..]);
    EscapedIsOneField(pw, Some(':'));
    var raw := SplitEntry(host, port, dbname, user, e);
    assert raw[4] != "";
  }

  /** The fields of four plain fields and one separator-free last field, joined by `:`. */
  lemma SplitEntry(host: string, port: string, dbname: string, user: string, e: string) returns (raw: seq<string>)
    requires PlainField(host) && PlainField(port) && PlainField(dbname) && PlainField(user)
    requires SplitFields(e, Some(':')) == [e]
    ensures raw == SplitFields(host + ":" + (port + ":" + (dbname + ":" + (user + ":" + e))), None)
    ensures raw == [host, port, dbname, user, e]
  {
    var fields := [host, port, dbname, user];
    JoinCons(":", user, [e]);
    JoinCons(":", dbname, [user, e]);
    JoinCons(":", port, [dbname, user, e]);
    JoinCons(":", host, [port, dbname, user, e]);
    assert fields + [e] == [host, port, dbname, user, e];
    SplitPlainFields(fields, e, None);
    raw := fields + [e];
  }

  /** Plain fields followed by a separator-free last field split back into themselves. */
  lemma {:induction false} SplitPlainFields(fields: seq<string>, last: string, prev: Option<char>)
    requires fields != [] && forall k :: 0 <= k < |fields| ==> PlainField(fields[k])
    requires prev != Some('\\')
    requires SplitFields(last, Some(':')) == [last]
    ensures SplitFields(Join(":", fields + [last]), prev) == fields + [last]
    decreases |fields|
  {
    var tail := fields[1..] + [last];
    assert fields + [last] == [fields[0]] + tail;
    JoinCons(":", fields[0], tail);
    SplitFieldsAtSeparator(fields[0], Join(":", tail), prev);
    if |fields| == 1 {
      assert tail == [last];
    } else {
      SplitPlainFields(fields[1..], last, Some(':'));
    }
  }

  /** Such an entry yields the password for every matching set of options. */
  lemma EntryLineYieldsPassword(host: string, port: string, dbname: string, user: string, pw: string,
                                h: string, p: string, d: string, u: string)
    requires PlainField(host) && PlainField(port) && PlainField(dbname) && PlainField(user)
    requires pw != ""
    requires OptMatchesField(h, host) && OptMatchesField(p, port) && OptMatchesField(d, dbname) && OptMatchesField(u, user)
    ensures ParsePgpassLine(h, p, d, u, EntryLine(host, port, dbname, user, pw)) == Some(pw)
  {
    EntryLineSplits(host, port, dbname, user, pw);
    UnescapeInvertsEscape(pw);
  }

  /** An entry yields nothing for options that one of its first four fields does not match. */
  lemma MismatchYieldsNothing(host: string, port: string, dbname: string, user: string, line: string)
    requires |SplitPgpassLine(line)| >= MinFieldCount
    requires !OptMatchesField(host, SplitPgpassLine(line)[0]) || !OptMatchesField(port, SplitPgpassLine(line)[1])
             || !OptMatchesField(dbname, SplitPgpassLine(line)[2]) || !OptMatchesField(user, SplitPgpassLine(line)[3])
    ensures ParsePgpassLine(host, port, dbname, user, line) == None
  {
  }

  // ---------------------------------------------------------------------------
  // Searching a password file
  // ---------------------------------------------------------------------------

  /** The password of the first line that yields one. */
  function FirstPassword(host: string, port: string, dbname: string, user: string, lines: seq<string>): Option<string> {
    if lines == [] then None
    else match ParsePgpassLine(host, port, dbname, user, lines[0])
      case Some(pw) => Some(pw)
      case None => FirstPassword(host, port, dbname, user, lines[1..])
  }

  /** The first line that yields a password decides; no line yielding one means no password. */
  lemma FirstPasswordIsFirstMatch(host: string, port: string, dbname: string, user: string, lines: seq<string>)
    ensures FirstPassword(host, port, dbname, user, lines).None? <==>
              forall i :: 0 <= i < |lines| ==> ParsePgpassLine(host, port, dbname, user, lines[i]).None?
    ensures FirstPassword(host, port, dbname, user, lines).Some? ==>
              exists i :: 0 <= i < |lines|
                && ParsePgpassLine(host, port, dbname, user, lines[i]) == FirstPassword(host, port, dbname, user, lines)
                && forall j :: 0 <= j < i ==> ParsePgpassLine(host, port, dbname, user, lines[j]).None?
  {
    assert lines[0..] == lines;
    FirstPasswordFrom(host, port, dbname, user, lines, 0);
  }

  /** `FirstPasswordIsFirstMatch` for the lines from `k` on. */
  lemma {:induction false} FirstPasswordFrom(host: string, port: string, dbname: string, user: string,
                                             lines: seq<string>, k: nat)
    requires k <= |lines|
    ensures FirstPassword(host, port, dbname, user, lines[k..]).None? <==>
              forall i :: k <= i < |lines| ==> ParsePgpassLine(host, port, dbname, user, lines[i]).None?
    ensures FirstPassword(host, port, dbname, user, lines[k..]).Some? ==>
              exists i :: k <= i < |lines|
                && ParsePgpassLine(host, port, dbname, user, lines[i]) == FirstPassword(host, port, dbname, user, lines[k..])
                && forall j :: k <= j < i ==> ParsePgpassLine(host, port, dbname, user, lines[j]).None?
    decreases |lines| - k
  {
    if k < |lines| {
      var rest := lines[k..];
      assert rest[0] == lines[k] && rest[1..] == lines[k + 1..];
      FirstPasswordFrom(host, port, dbname, user, lines, k + 1);
      if ParsePgpassLine(host, port, dbname, user, lines[k]).Some? {
        assert FirstPassword(host, port, dbname, user, rest) == ParsePgpassLine(host, port, dbname, user, lines[k]);
      } else {
        assert FirstPassword(host, port, dbname, user, rest) == FirstPassword(host, port, dbname, user, lines[k + 1..]);
      }
    }
  }

  /** A four-field entry that matches does not stop the search. */
  lemma FourFieldMatchContinues(host: string, port: string, dbname: string, user: string, line: string, lines: seq<string>)
    requires |SplitPgpassLine(line)| == MinFieldCount
    ensures FirstPassword(host, port, dbname, user, [line] + lines) == FirstPassword(host, port, dbname, user, lines)
  {
    assert ([line] + lines)[1..] == lines;
  }

  /**
   * The result of `Passfile.getPassword(host, port, dbname, user, pgpass)`: nothing
   * without a database name and a user name, and otherwise the first password found
   * once an absent or empty host (or the default socket directory) stands for
   * `localhost` and an absent or empty port for `5432`.
   */
  function PasswordFor(hostOption: Option<string>, portOption: Option<string>,
                       dbname: Option<string>, user: Option<string>, lines: seq<string>): Option<string> {
    if IsNullOrEmpty(dbname) || IsNullOrEmpty(user) then None
    else
      var host := if IsNullOrEmpty(hostOption) || hostOption == Some(DefaultPgsocketDir) then DefaultHost else hostOption.value;
      var port := if IsNullOrEmpty(portOption) then DefaultPortStr else portOption.value;
      FirstPassword(host, port, dbname.value, user.value, lines)
  }

  /** `Passfile.getPassword(host, port, dbname, user, pgpass)`, reading the lines in turn. */
  method GetPassword(hostOption: Option<string>, portOption: Option<string>,
                     dbname: Option<string>, user: Option<string>, pgpass: seq<string>)
    returns (password: Option<string>)
    ensures password == PasswordFor(hostOption, portOption, dbname, user, pgpass)
  {
    if IsNullOrEmpty(dbname) || IsNullOrEmpty(user) {
      return None;
    }
    var host := if IsNullOrEmpty(hostOption) || hostOption == Some(DefaultPgsocketDir) then DefaultHost else hostOption.value;
    var port := if IsNullOrEmpty(portOption) then DefaultPortStr else portOption.value;
    password := None;
    var i := 0;
    while i < |pgpass|
      invariant 0 <= i <= |pgpass|
      invariant password.None?
      invariant FirstPassword(host, port, dbname.value, user.value, pgpass)
                == FirstPassword(host, port, dbname.value, user.value, pgpass[i..])
    {
      assert pgpass[i..][1..] == pgpass[i + 1..];
      password := ParsePgpassLine(host, port, dbname.value, user.value, pgpass[i]);
      if password.Some? {
        break;
      }
      i := i + 1;
    }
  }

  /** `Passfile.getPassword(conninfo, pgpass)`: the options are taken from the conninfo map. */
  method GetPasswordFromConninfo(conninfo: map<PqConninfoOption, string>, pgpass: seq<string>)
    returns (password: Option<string>)
    ensures password == PasswordFor(Get(conninfo, HOST), Get(conninfo, PORT), Get(conninfo, DBNAME), Get(conninfo, USER), pgpass)
  {
    password := GetPassword(Get(conninfo, HOST), Get(conninfo, PORT), Get(conninfo, DBNAME), Get(conninfo, USER), pgpass);
  }

  /** No password is looked up without both a database name and a user name. */
  lemma PasswordNeedsDbnameAndUser(hostOption: Option<string>, portOption: Option<string>,
                                   dbname: Option<string>, user: Option<string>, lines: seq<string>)
    requires IsNullOrEmpty(dbname) || IsNullOrEmpty(user)
    ensures PasswordFor(hostOption, portOption, dbname, user, lines) == None
  {
  }

  /** Absent host, empty host and the default socket directory are all searched as `localhost`. */
  lemma HostDefaults(portOption: Option<string>, dbname: Option<string>, user: Option<string>, lines: seq<string>)
    ensures PasswordFor(None, portOption, dbname, user, lines) == PasswordFor(Some(DefaultHost), portOption, dbname, user, lines)
    ensures PasswordFor(Some(""), portOption, dbname, user, lines) == PasswordFor(Some(DefaultHost), portOption, dbname, user, lines)
    ensures PasswordFor(Some(DefaultPgsocketDir), portOption, dbname, user, lines) == PasswordFor(Some(DefaultHost), portOption, dbname, user, lines)
  {
  }

  /** Absent and empty port are both searched as `5432`. */
  lemma PortDefaults(hostOption: Option<string>, dbname: Option<string>, user: Option<string>, lines: seq<string>)
    ensures PasswordFor(hostOption, None, dbname, user, lines) == PasswordFor(hostOption, Some(DefaultPortStr), dbname, user, lines)
    ensures PasswordFor(hostOption, Some(""), dbname, user, lines) == PasswordFor(hostOption, Some(DefaultPortStr), dbname, user, lines)
  {
  }

  /** Any password found is the unescaped fifth field of a line whose first four fields match. */
  lemma PasswordComesFromMatchingEntry(hostOption: Option<string>, portOption: Option<string>,
                                       dbname: Option<string>, user: Option<string>, lines: seq<string>)
    requires PasswordFor(hostOption, portOption, dbname, user, lines).Some?
    ensures !IsNullOrEmpty(dbname) && !IsNullOrEmpty(user)
    ensures exists i :: 0 <= i < |lines| && |SplitPgpassLine(lines[i])| == MaxFieldCount
              && OptMatchesField(dbname.value, SplitPgpassLine(lines[i])[2])
              && OptMatchesField(user.value, SplitPgpassLine(lines[i])[3])
              && PasswordFor(hostOption, portOption, dbname, user, lines).value == UnescapePassword(SplitPgpassLine(lines[i])[4])
  {
    var host := if IsNullOrEmpty(hostOption) || hostOption == Some(DefaultPgsocketDir) then DefaultHost else hostOption.value;
    var port := if IsNullOrEmpty(portOption) then DefaultPortStr else portOption.value;
    FirstPasswordIsFirstMatch(host, port, dbname.value, user.value, lines);
  }

  // The password-line test table, one lemma per row, with each row's entry written
  // as the `EntryLine` of its fields and its unescaped password.

  lemma ParsePgpassLineExactEntry()
    ensures ParsePgpassLine("some-host", "some-port", "some-database", "some-username",
              EntryLine("some-host", "some-port", "some-database", "some-username", "my-password")) == Some("my-password")
  {
    EntryLineYieldsPassword("some-host", "some-port", "some-database", "some-username", "my-password",
                            "some-host", "some-port", "some-database", "some-username");
  }

  lemma ParsePgpassLineWildcardHost()
    ensures ParsePgpassLine("some-host", "some-port", "some-database", "some-username",
              EntryLine("*", "some-port", "some-database", "some-username", "my-password")) == Some("my-password")
  {
    EntryLineYieldsPassword("*", "some-port", "some-database", "some-username", "my-password",
                            "some-host", "some-port", "some-database", "some-username");
  }

  lemma ParsePgpassLineOtherDatabase()
    ensures ParsePgpassLine("some-host", "some-port", "some-database", "some-username",
              EntryLine("*", "some-port", "other-database", "some-username", "my-password")) == None
  {
    EntryLineSplits("*", "some-port", "other-database", "some-username", "my-password");
  }

  lemma ParsePgpassLineEscapedColon()
    ensures ParsePgpassLine("some-host", "some-port", "some-database", "some-username",
              EntryLine("*", "some-port", "some-database", "some-username", "my-pass:word")) == Some("my-pass:word")
  {
    EntryLineYieldsPassword("*", "some-port", "some-database", "some-username", "my-pass:word",
                            "some-host", "some-port", "some-database", "some-username");
  }

  lemma ParsePgpassLineEscapedBackslashAndColon()
    ensures ParsePgpassLine("some-host", "some-port", "some-database", "some-username",
              EntryLine("*", "some-port", "some-database", "some-username", "my-pass\\:word")) == Some("my-pass\\:word")
  {
    EntryLineYieldsPassword("*", "some-port", "some-database", "some-username", "my-pass\\:word",
                            "some-host", "some-port", "some-database", "some-username");
  }
}
