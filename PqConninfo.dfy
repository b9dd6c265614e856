/**
 * The resolved connection options: an immutable map from option to value whose
 * display hides the two secrets.
 */
module Conninfo {
  import opened Wrappers
  import opened JavaStrings
  import opened PqConninfoOptions

  const Redaction: string := "****"

  /** `PqConninfo`: the options that were resolved, each with its value. */
  datatype PqConninfo = PqConninfo(opts: map<PqConninfoOption, string>)

  /** `PqConninfo.from`: the instance holds its own copy of the map's contents. */
  function From(m: map<PqConninfoOption, string>): (c: PqConninfo)
    ensures c.opts == m
  {
    PqConninfo(m)
  }

  /** `PqConninfo.get`: the stored value, or nothing for an absent option. */
  function GetOption(c: PqConninfo, o: PqConninfoOption): (r: Option<string>)
    ensures r.Some? <==> o in c.opts
    ensures r.Some? ==> r.value == c.opts[o]
  {
    Get(c.opts, o)
  }

  /** The options the display hides. */
  predicate IsSecret(o: PqConninfoOption) {
    o == PASSWORD || o == SSLPASSWORD
  }

  /** The map `toString` prints: present secrets become `****`, everything else is kept. */
  function Redacted(m: map<PqConninfoOption, string>): (r: map<PqConninfoOption, string>)
    ensures r.Keys == m.Keys
    ensures forall o :: o in r ==> r[o] == if IsSecret(o) then Redaction else m[o]
  {
    map o | o in m :: if IsSecret(o) then Redaction else m[o]
  }

  /** The options of `m` in the order of `options`. */
  function KeysInOrder(m: map<PqConninfoOption, string>, options: seq<PqConninfoOption>): (r: seq<PqConninfoOption>)
    ensures forall o :: o in r <==> o in options && o in m
    ensures |r| <= |options|
  {
    if options == [] then []
    else (if options[0] in m then [options[0]] else []) + KeysInOrder(m, options[1..])
  }

  /** `NAME=value` for each of `keys`. */
  function Entries(m: map<PqConninfoOption, string>, keys: seq<PqConninfoOption>): (r: seq<string>)
    requires forall o :: o in keys ==> o in m
    ensures |r| == |keys|
    ensures forall i :: 0 <= i < |keys| ==> r[i] == Name(keys[i]) + "=" + m[keys[i]]
  {
    if keys == [] then [] else [Name(keys[0]) + "=" + m[keys[0]]] + Entries(m, keys[1..])
  }

  /** `EnumMap.toString`: `{NAME=value, ...}` in declaration order. */
  function EnumMapToString(m: map<PqConninfoOption, string>): string {
    "{" + Join(", ", Entries(m, KeysInOrder(m, Values))) + "}"
  }

  /** `PqConninfo.toString`. */
  function ToString(c: PqConninfo): string {
    "PqConninfo{" + "opts=" + EnumMapToString(Redacted(c.opts)) + "}"
  }

  /** `PqConninfo.equals`: equality of the stored maps. */
  function Equals(a: PqConninfo, b: PqConninfo): (r: bool)
    ensures r <==> a == b
  {
    a.opts == b.opts
  }

  /** Each option comes strictly before the ones after it in declaration order. */
  predicate InDeclarationOrder(s: seq<PqConninfoOption>) {
    forall i, j :: 0 <= i < j < |s| ==> Ordinal(s[i]) < Ordinal(s[j])
  }

  /** `values()` is in declaration order. */
  lemma ValuesInDeclarationOrder()
    ensures InDeclarationOrder(Values)
  {
    forall i, j | 0 <= i < j < |Values| ensures Ordinal(Values[i]) < Ordinal(Values[j]) {
      OrdinalAt(i);
      OrdinalAt(j);
    }
  }

  /** Every option of `s` comes after `o` in declaration order. */
  predicate AllAfter(o: PqConninfoOption, s: seq<PqConninfoOption>) {
    forall k :: 0 <= k < |s| ==> Ordinal(o) < Ordinal(s[k])
  }

  /** Picking options out of a list keeps them after a bound of the list. */
  lemma KeysInOrderStaysAfter(m: map<PqConninfoOption, string>, options: seq<PqConninfoOption>, o: PqConninfoOption)
    requires AllAfter(o, options)
    ensures AllAfter(o, KeysInOrder(m, options))
  {
    var r := KeysInOrder(m, options);
    forall k | 0 <= k < |r| ensures Ordinal(o) < Ordinal(r[k]) {
      assert r[k] in r;
      var l :| 0 <= l < |options| && options[l] == r[k];
    }
  }

  /** Picking the stored options out of an ordered list keeps them in order. */
  lemma {:induction false} KeysInOrderKeepsOrder(m: map<PqConninfoOption, string>, options: seq<PqConninfoOption>)
    requires InDeclarationOrder(options)
    ensures InDeclarationOrder(KeysInOrder(m, options))
    decreases |options|
  {
    if options != [] {
      var rest := KeysInOrder(m, options[1..]);
      KeysInOrderKeepsOrder(m, options[1..]);
      if options[0] in m {
        assert AllAfter(options[0], options[1..]) by {
          forall k | 0 <= k < |options[1..]| ensures Ordinal(options[0]) < Ordinal(options[1..][k]) {
            assert options[1..][k] == options[k + 1];
          }
        }
        KeysInOrderStaysAfter(m, options[1..], options[0]);
        var r := KeysInOrder(m, options);
        assert r == [options[0]] + rest;
        forall i, j | 0 <= i < j < |r| ensures Ordinal(r[i]) < Ordinal(r[j]) {
          assert r[j] == rest[j - 1];
          if i > 0 {
            assert r[i] == rest[i - 1];
          }
        }
      }
    }
  }

  /** The first option of an ordered list comes before all the others. */
  lemma OrderedFirst(a: seq<PqConninfoOption>)
    requires InDeclarationOrder(a) && a != []
    ensures InDeclarationOrder(a[1..])
    ensures forall o :: o in a <==> o == a[0] || o in a[1..]
    ensures forall o :: o in a[1..] ==> Ordinal(a[0]) < Ordinal(o)
  {
    assert a == [a[0]] + a[1..];
    forall o | o in a[1..] ensures Ordinal(a[0]) < Ordinal(o) {
      var k :| 0 <= k < |a[1..]| && a[1..][k] == o;
      assert a[k + 1] == o;
    }
    forall i, j | 0 <= i < j < |a[1..]| ensures Ordinal(a[1..][i]) < Ordinal(a[1..][j]) {
      assert a[1..][i] == a[i + 1] && a[1..][j] == a[j + 1];
    }
  }

  /** Two ordered lists of the same options are the same list. */
  lemma {:induction false} OrderedBySameOptions(a: seq<PqConninfoOption>, b: seq<PqConninfoOption>)
    requires InDeclarationOrder(a) && InDeclarationOrder(b)
    requires forall o :: o in a <==> o in b
    ensures a == b
    decreases |a|
  {
    assert a == [] || a[0] in a;
    assert b == [] || b[0] in b;
    if a != [] {
      OrderedFirst(a);
      OrderedFirst(b);
      assert a[0] == b[0];
      OrderedBySameOptions(a[1..], b[1..]);
      assert a == [a[0]] + a[1..] && b == [b[0]] + b[1..];
    }
  }

  /** The display lists exactly the stored options, in declaration order. */
  lemma DisplayListsStoredOptions(c: PqConninfo)
    ensures forall o :: o in KeysInOrder(Redacted(c.opts), Values) <==> o in c.opts
    ensures InDeclarationOrder(KeysInOrder(Redacted(c.opts), Values))
  {
    ValuesEnumerate();
    ValuesInDeclarationOrder();
    KeysInOrderKeepsOrder(Redacted(c.opts), Values);
  }

  /**
   * The display never depends on the secrets' values: two instances that agree on
   * every other option and hold the same options display alike.
   */
  lemma DisplayHidesSecrets(a: PqConninfo, b: PqConninfo)
    requires a.opts.Keys == b.opts.Keys
    requires forall o :: o in a.opts && !IsSecret(o) ==> a.opts[o] == b.opts[o]
    ensures ToString(a) == ToString(b)
  {
    assert Redacted(a.opts) == Redacted(b.opts);
  }

  /** A present secret is shown, under its name, as the redaction marker. */
  lemma DisplayShowsSecretAsMarker(c: PqConninfo, o: PqConninfoOption)
    requires IsSecret(o) && o in c.opts
    ensures var m := Redacted(c.opts);
            Name(o) + "=" + Redaction in Entries(m, KeysInOrder(m, Values))
  {
    ValuesEnumerate();
    var m := Redacted(c.opts);
    var keys := KeysInOrder(m, Values);
    assert o in keys;
    var i :| 0 <= i < |keys| && keys[i] == o;
    assert Entries(m, keys)[i] == Name(o) + "=" + Redaction;
  }

  /** The two secrets and the user, in declaration order. */
  lemma SecretsAndUserInOrder()
    ensures InDeclarationOrder([PASSWORD, SSLPASSWORD, USER])
  {
    var expected := [PASSWORD, SSLPASSWORD, USER];
    forall i, j | 0 <= i < j < |expected| ensures Ordinal(expected[i]) < Ordinal(expected[j]) {
      assert i == 0 || i == 1;
    }
  }

  /** A map holding the two secrets and the user lists them in that order. */
  lemma SecretsAndUserKeys(m: map<PqConninfoOption, string>)
    requires m.Keys == {PASSWORD, SSLPASSWORD, USER}
    ensures KeysInOrder(m, Values) == [PASSWORD, SSLPASSWORD, USER]
  {
    ValuesEnumerate();
    ValuesInDeclarationOrder();
    KeysInOrderKeepsOrder(m, Values);
    SecretsAndUserInOrder();
    OrderedBySameOptions(KeysInOrder(m, Values), [PASSWORD, SSLPASSWORD, USER]);
  }

  /** The display of a map holding the two secrets and the user: both secrets masked, in order. */
  lemma SecretsAndUserDisplay(stored: map<PqConninfoOption, string>)
    requires stored.Keys == {PASSWORD, SSLPASSWORD, USER}
    ensures EnumMapToString(Redacted(stored))
            == "{" + Join(", ", ["PASSWORD=****", "SSLPASSWORD=****", "USER=" + stored[USER]]) + "}"
  {
    var m := Redacted(stored);
    SecretsAndUserKeys(m);
    SecretsAndUserEntries(m);
  }

  /** The entries of the two masked secrets and the user. */
  lemma SecretsAndUserEntries(m: map<PqConninfoOption, string>)
    requires m.Keys == {PASSWORD, SSLPASSWORD, USER}
    requires m[PASSWORD] == Redaction && m[SSLPASSWORD] == Redaction
    ensures Entries(m, [PASSWORD, SSLPASSWORD, USER]) == ["PASSWORD=****", "SSLPASSWORD=****", "USER=" + m[USER]]
  {
    SecretsAndUserEntryNames();
    var e := Entries(m, [PASSWORD, SSLPASSWORD, USER]);
    assert e[0] == "PASSWORD=****" && e[1] == "SSLPASSWORD=****" && e[2] == "USER=" + m[USER];
  }

  /** The entry prefixes of the two secrets and the user. */
  lemma SecretsAndUserEntryNames()
    ensures Name(PASSWORD) + "=" + Redaction == "PASSWORD=****"
    ensures Name(SSLPASSWORD) + "=" + Redaction == "SSLPASSWORD=****"
    ensures forall u: string :: Name(USER) + "=" + u == "USER=" + u
  {
  }

  /**
   * The display of the redaction test's conninfo: `PASSWORD=****, SSLPASSWORD=****,
   * USER=alice`, wrapped as `PqConninfo{opts={...}}`.
   */
  lemma RedactedPasswordsDisplay()
    ensures ToString(From(map[USER := "alice", SSLPASSWORD := "change-me", PASSWORD := "super-secret"]))
            == "PqConninfo{" + "opts=" + ("{" + Join(", ", ["PASSWORD=****", "SSLPASSWORD=****", "USER=alice"]) + "}") + "}"
  {
    var stored := map[USER := "alice", SSLPASSWORD := "change-me", PASSWORD := "super-secret"];
    RedactedPasswordsEntries(stored);
    SecretsAndUserDisplay(stored);
  }

  /** The stored options and the user's entry of the redaction test. */
  lemma RedactedPasswordsEntries(stored: map<PqConninfoOption, string>)
    requires stored == map[USER := "alice", SSLPASSWORD := "change-me", PASSWORD := "super-secret"]
    ensures stored.Keys == {PASSWORD, SSLPASSWORD, USER}
    ensures ["PASSWORD=****", "SSLPASSWORD=****", "USER=" + stored[USER]] == ["PASSWORD=****", "SSLPASSWORD=****", "USER=alice"]
  {
    assert "USER=" + stored[USER] == "USER=alice";
  }
}
