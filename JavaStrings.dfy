/** The few `java.lang.String` operations the core relies on, stated over `seq<char>`. */
module JavaStrings {
  import opened Wrappers

  /** `String.trim` removes every leading and trailing character at or below U+0020. */
  predicate IsTrimmed(c: char) {
    c <= ' '
  }

  /** Number of leading characters `String.trim` removes. */
  function LeadingTrimmed(s: string): (n: nat)
    ensures n <= |s|
    ensures forall k :: 0 <= k < n ==> IsTrimmed(s[k])
    ensures n < |s| ==> !IsTrimmed(s[n])
  {
    if s == [] || !IsTrimmed(s[0]) then 0 else 1 + LeadingTrimmed(s[1..])
  }

  /** Length of `s` once its trailing trimmed characters are dropped. */
  function TrailingKept(s: string): (n: nat)
    ensures n <= |s|
    ensures forall k :: n <= k < |s| ==> IsTrimmed(s[k])
    ensures n > 0 ==> !IsTrimmed(s[n - 1])
  {
    if s == [] || !IsTrimmed(s[|s| - 1]) then |s| else TrailingKept(s[..|s| - 1])
  }

  /** `String.trim`. */
  function Trim(s: string): (r: string)
    ensures |r| <= |s|
    ensures r != [] ==> !IsTrimmed(r[0]) && !IsTrimmed(r[|r| - 1])
  {
    var i := LeadingTrimmed(s);
    var j := TrailingKept(s);
    // When the scans cross, every character is trimmed and the result is empty.
    var b := if j <= i then i else j;
    s[i..b]
  }

  /** `trim` removes a run of trimmed characters from each end and nothing else. */
  lemma TrimIsSlice(s: string)
    ensures exists i, j :: 0 <= i <= j <= |s| && Trim(s) == s[i..j]
              && (forall k :: 0 <= k < i ==> IsTrimmed(s[k]))
              && (forall k :: j <= k < |s| ==> IsTrimmed(s[k]))
  {
    var i := LeadingTrimmed(s);
    var j := TrailingKept(s);
    var b := if j <= i then i else j;
    assert Trim(s) == s[i..b];
  }

  /** A string that neither starts nor ends with a trimmed character is left alone by `trim`. */
  lemma TrimKeepsTrimmed(s: string)
    requires s != [] && !IsTrimmed(s[0]) && !IsTrimmed(s[|s| - 1])
    ensures Trim(s) == s
  {
    assert LeadingTrimmed(s) == 0;
    assert TrailingKept(s) == |s|;
  }

  /** `String.startsWith`. */
  predicate StartsWith(s: string, prefix: string) {
    prefix <= s
  }

  /** `String.indexOf(char)`: the first position of `c`, or `None` for Java's -1. */
  function IndexOf(s: string, c: char): (r: Option<nat>)
    ensures r.None? <==> c !in s
    ensures r.Some? ==> r.value < |s| && s[r.value] == c && c !in s[..r.value]
  {
    if s == [] then None
    else if s[0] == c then Some(0)
    else match IndexOf(s[1..], c)
      case None => None
      case Some(k) => assert s[1..][..k] == s[1..k + 1]; Some(k + 1)
  }

  /** `String.join(sep, parts)`. */
  function Join(sep: string, parts: seq<string>): string {
    if parts == [] then ""
    else if |parts| == 1 then parts[0]
    else parts[0] + sep + Join(sep, parts[1..])
  }
}
