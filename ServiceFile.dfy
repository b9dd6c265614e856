/**
 * The connection service file (`pg_service.conf`): an INI-style file of
 * `[service]` groups whose `keyword=value` lines name connection options.
 */
module ServiceFile {
  import opened Wrappers
  import opened JavaStrings
  import opened PqConninfoOptions

  const SyntaxError: string := "syntax error in service file"
  const NestedService: string := "nested service specifications not supported in service file"

  /** `MalformedServiceFileException`: the message, the 1-based line number and the line as read. */
  datatype MalformedServiceFile = MalformedServiceFile(message: string, lineNumber: nat, line: string)

  /** `ServiceFile.optionForKeyword`: the options are tried in declaration order. */
  method OptionForKeyword(keyword: string) returns (r: Option<PqConninfoOption>)
    ensures r == LookupKeyword(keyword)
    ensures r.Some? ==> Keyword(r.value) == keyword
    ensures r.None? ==> forall o :: Keyword(o) != keyword
  {
    LookupKeywordSound(keyword);
    var i := 0;
    while i < |Values|
      invariant 0 <= i <= |Values|
      invariant LookupKeyword(keyword) == FirstWithKeyword(Values[i..], keyword)
    {
      assert Values[i..][1..] == Values[i + 1..];
      if Keyword(Values[i]) == keyword {
        return Some(Values[i]);
      }
      i := i + 1;
    }
    return None;
  }

  /** The header line that opens the group of `service`. */
  function GroupHeader(service: string): string {
    "[" + service + "]"
  }

  /** Blank lines and `#` comments are skipped everywhere. */
  predicate IsIgnorable(trimmed: string) {
    trimmed == [] || trimmed[0] == '#'
  }

  /** A line whose trimmed text starts with `[` opens a group. */
  predicate IsGroupStart(trimmed: string) {
    trimmed != [] && trimmed[0] == '['
  }

  /** The two tests are the `startsWith` calls of the source. */
  lemma LineTestsAreStartsWith(trimmed: string)
    ensures IsIgnorable(trimmed) <==> trimmed == "" || StartsWith(trimmed, "#")
    ensures IsGroupStart(trimmed) <==> StartsWith(trimmed, "[")
  {
  }

  /**
   * A trimmed line inside the group: the keyword is the text before the first `=`
   * and the value all of the text after it. A missing `=`, the keyword `service`
   * and an unknown keyword are errors.
   */
  function KeyLine(trimmed: string): (r: Result<(PqConninfoOption, string), string>)
    ensures r.Failure? ==> r.error == SyntaxError || r.error == NestedService
  {
    match IndexOf(trimmed, '=')
    case None => Failure(SyntaxError)
    case Some(i) =>
      var keyword := trimmed[..i];
      if keyword == Keyword(SERVICE) then Failure(NestedService)
      else match LookupKeyword(keyword)
        case None => Failure(SyntaxError)
        case Some(o) => Success((o, trimmed[i + 1..]))
  }

  /** How a line reads inside a group body, in the order the source tests it. */
  datatype BodyLine =
    | Skipped
    | NextGroup
    | Entry(option: PqConninfoOption, value: string)
    | Malformed(message: string)

  /** Blank and comment lines are skipped, a header ends the group, any other line is a key line. */
  function ReadBodyLine(line: string): BodyLine {
    var t := Trim(line);
    if IsIgnorable(t) then Skipped
    else if IsGroupStart(t) then NextGroup
    else match KeyLine(t)
      case Failure(message) => Malformed(message)
      case Success(entry) => Entry(entry.0, entry.1)
  }

  /** What each reading of a body line means in terms of the trimmed line. */
  lemma ReadBodyLineMeaning(line: string)
    ensures ReadBodyLine(line).Skipped? <==> IsIgnorable(Trim(line))
    ensures ReadBodyLine(line).NextGroup? <==> IsGroupStart(Trim(line))
    ensures ReadBodyLine(line).Malformed? ==>
              KeyLine(Trim(line)) == Failure(ReadBodyLine(line).message)
    ensures ReadBodyLine(line).Entry? ==>
              KeyLine(Trim(line)) == Success((ReadBodyLine(line).option, ReadBodyLine(line).value))
  {
    IgnorableIsNotGroupStart(Trim(line));
  }

  /** Blank and comment lines never open a group. */
  lemma IgnorableIsNotGroupStart(t: string)
    ensures IsIgnorable(t) ==> !IsGroupStart(t)
  {
    if t != [] && IsIgnorable(t) {
      assert t[0] == '#';
    }
  }

  /** The first line at or after `i` whose trimmed text is the header of `service`. */
  function FindGroup(service: string, lines: seq<string>, i: nat): (r: Option<nat>)
    requires i <= |lines|
    ensures r.Some? ==> i <= r.value < |lines|
    decreases |lines| - i
  {
    if i == |lines| then None
    else if Trim(lines[i]) == GroupHeader(service) then Some(i)
    else FindGroup(service, lines, i + 1)
  }

  /** The search finds the first header line of the service at or after `i`, if there is one. */
  lemma {:induction false} FindGroupFinds(service: string, lines: seq<string>, i: nat)
    requires i <= |lines|
    ensures var r := FindGroup(service, lines, i);
            (r.Some? ==> Trim(lines[r.value]) == GroupHeader(service))
            && (r.Some? ==> forall k :: i <= k < r.value ==> Trim(lines[k]) != GroupHeader(service))
            && (r.None? ==> forall k :: i <= k < |lines| ==> Trim(lines[k]) != GroupHeader(service))
    decreases |lines| - i
  {
    if i < |lines| && Trim(lines[i]) != GroupHeader(service) {
      FindGroupFinds(service, lines, i + 1);
    }
  }

  /** The first line at or after `i` that opens a group, or the end of the file. */
  function GroupEnd(lines: seq<string>, i: nat): (r: nat)
    requires i <= |lines|
    ensures i <= r <= |lines|
    ensures forall k :: i <= k < r ==> !ReadBodyLine(lines[k]).NextGroup?
    ensures r < |lines| ==> ReadBodyLine(lines[r]).NextGroup?
    decreases |lines| - i
  {
    if i == |lines| then i
    else if ReadBodyLine(lines[i]).NextGroup? then i
    else GroupEnd(lines, i + 1)
  }

  /**
   * Reads the group body from line `i` on into `acc` until the next group or the
   * end of the file; a later line for the same option replaces the earlier value.
   */
  function ParseGroup(lines: seq<string>, i: nat, acc: map<PqConninfoOption, string>)
    : Result<map<PqConninfoOption, string>, MalformedServiceFile>
    requires i <= |lines|
    decreases |lines| - i
  {
    if i == |lines| then Success(acc)
    else match ReadBodyLine(lines[i])
      case Skipped => ParseGroup(lines, i + 1, acc)
      case NextGroup => Success(acc)
      case Malformed(message) => Failure(MalformedServiceFile(message, i + 1, lines[i]))
      case Entry(o, v) => ParseGroup(lines, i + 1, acc[o := v])
  }

  /**
   * The result of `ServiceFile.getServiceConninfo` on the lines of a file: no
   * options when no line is the service's header, otherwise the options of the body
   * of the first such group, or the error of its first malformed line.
   */
  function ServiceConninfo(service: string, lines: seq<string>)
    : Result<Option<map<PqConninfoOption, string>>, MalformedServiceFile>
  {
    match FindGroup(service, lines, 0)
    case None => Success(None)
    case Some(h) => Found(ParseGroup(lines, h + 1, map[]))
  }

  /** The options of a group that was found, or its error. */
  function Found(r: Result<map<PqConninfoOption, string>, MalformedServiceFile>)
    : Result<Option<map<PqConninfoOption, string>>, MalformedServiceFile>
  {
    match r
    case Failure(e) => Failure(e)
    case Success(m) => Success(Some(m))
  }

  /** `ServiceFile.getServiceConninfo`, reading the lines in turn; an absent stream yields no options. */
  method GetServiceConninfo(service: string, input: Option<seq<string>>)
    returns (r: Result<Option<map<PqConninfoOption, string>>, MalformedServiceFile>)
    ensures input.None? ==> r == Success(None)
    ensures input.Some? ==> r == ServiceConninfo(service, input.value)
  {
    if input.None? {
      return Success(None);
    }
    var lines := input.value;
    var conninfo: Option<map<PqConninfoOption, string>> := None;
    var foundGroup := false;
    var lineNumber := 0;
    var header := "[" + service + "]";
    assert header == GroupHeader(service) && header[0] == '[';
    ghost var group := FindGroup(service, lines, 0);
    var i := 0;
    while i < |lines|
      invariant 0 <= i <= |lines|
      invariant lineNumber == i
      invariant !foundGroup ==> conninfo.None? && group == FindGroup(service, lines, i)
      invariant foundGroup ==> conninfo.Some? && group.Some?
      invariant foundGroup ==> ParseGroup(lines, group.value + 1, map[]) == ParseGroup(lines, i, conninfo.value)
    {
      var line := lines[i];
      var trimmedLine := Trim(line);
      LineTestsAreStartsWith(trimmedLine);
      lineNumber := lineNumber + 1;
      if trimmedLine == "" || StartsWith(trimmedLine, "#") {
        if foundGroup {
          ParseGroupSkips(lines, i, conninfo.value);
        } else {
          FindGroupSkips(service, lines, i);
        }
        i := i + 1;
        continue;
      }
      if StartsWith(trimmedLine, "[") {
        if foundGroup {
          ParseGroupEndsAtHeader(lines, i, conninfo.value);
          break;
        }
        foundGroup := trimmedLine == header;
        if foundGroup {
          FindGroupHits(service, lines, i);
          conninfo := Some(map[]);
        } else {
          FindGroupSkips(service, lines, i);
        }
      } else if foundGroup {
        var entry := ReadKeyLine(trimmedLine);
        if entry.Failure? {
          var failure := MalformedServiceFile(entry.error, lineNumber, line);
          ParseGroupRejects(lines, i, conninfo.value, failure);
          ServiceConninfoOfGroup(service, lines, group.value);
          return Failure(failure);
        }
        ParseGroupTakesEntry(lines, i, conninfo.value);
        conninfo := Some(conninfo.value[entry.value.0 := entry.value.1]);
      } else {
        FindGroupSkips(service, lines, i);
      }
      i := i + 1;
    }
    if foundGroup {
      if i == |lines| {
        ParseGroupStops(lines, i, conninfo.value);
      }
      assert ParseGroup(lines, i, conninfo.value) == Success(conninfo.value);
      assert ParseGroup(lines, group.value + 1, map[]) == Success(conninfo.value);
      ServiceConninfoOfGroup(service, lines, group.value);
      assert ServiceConninfo(service, lines) == Success(Some(conninfo.value));
    } else {
      assert i == |lines|;
      ServiceConninfoWithoutGroup(service, lines);
    }
    assert ServiceConninfo(service, lines) == Success(conninfo);
    return Success(conninfo);
  }

  /** The key-line branch of the loop: split at the first `=`, reject `service`, look the keyword up. */
  method ReadKeyLine(trimmedLine: string) returns (r: Result<(PqConninfoOption, string), string>)
    ensures r == KeyLine(trimmedLine)
  {
    KeyLineCases(trimmedLine);
    var eq := IndexOf(trimmedLine, '=');
    if eq.None? {
      return Failure(SyntaxError);
    }
    var keyword := trimmedLine[..eq.value];
    if Keyword(SERVICE) == keyword {
      return Failure(NestedService);
    }
    var option := OptionForKeyword(keyword);
    if option.None? {
      return Failure(SyntaxError);
    }
    var val := trimmedLine[eq.value + 1..];
    return Success((option.value, val));
  }

  /** `KeyLine` case by case, in the order the source tests. */
  lemma KeyLineCases(t: string)
    ensures IndexOf(t, '=').None? ==> KeyLine(t) == Failure(SyntaxError)
    ensures IndexOf(t, '=').Some? ==>
              var keyword := t[..IndexOf(t, '=').value];
              if keyword == Keyword(SERVICE) then KeyLine(t) == Failure(NestedService)
              else if LookupKeyword(keyword).None? then KeyLine(t) == Failure(SyntaxError)
              else KeyLine(t) == Success((LookupKeyword(keyword).value, t[IndexOf(t, '=').value + 1..]))
  {
  }

  /**
   * An entry line is accepted exactly when it has an `=` and the text before the
   * first `=` is the keyword of an option other than `service`; that option gets
   * the text after the `=`.
   */
  lemma KeyLineMeaning(t: string)
    ensures KeyLine(t).Success? <==>
              exists i :: 0 <= i < |t| && t[i] == '=' && '=' !in t[..i]
                && t[..i] != Keyword(SERVICE) && exists o :: Keyword(o) == t[..i]
    ensures KeyLine(t).Success? ==>
              exists i :: 0 <= i < |t| && t[i] == '=' && '=' !in t[..i]
                && Keyword(KeyLine(t).value.0) == t[..i] && KeyLine(t).value.1 == t[i + 1..]
  {
    KeyLineCases(t);
    match IndexOf(t, '=')
    case None =>
    case Some(i) =>
      LookupKeywordSound(t[..i]);
  }

  lemma ParseGroupRejects(lines: seq<string>, i: nat, acc: map<PqConninfoOption, string>, failure: MalformedServiceFile)
    requires i < |lines| && !IsIgnorable(Trim(lines[i])) && !IsGroupStart(Trim(lines[i]))
    requires KeyLine(Trim(lines[i])) == Failure(failure.message)
    requires failure.lineNumber == i + 1 && failure.line == lines[i]
    ensures ParseGroup(lines, i, acc) == Failure(failure)
  {
  }

  lemma ServiceConninfoOfGroup(service: string, lines: seq<string>, h: nat)
    requires FindGroup(service, lines, 0) == Some(h)
    ensures ServiceConninfo(service, lines) == Found(ParseGroup(lines, h + 1, map[]))
  {
  }

  lemma ServiceConninfoWithoutGroup(service: string, lines: seq<string>)
    requires FindGroup(service, lines, |lines|) == FindGroup(service, lines, 0)
    ensures ServiceConninfo(service, lines) == Success(None)
  {
  }

  lemma FindGroupHits(service: string, lines: seq<string>, i: nat)
    requires i < |lines| && Trim(lines[i]) == GroupHeader(service)
    ensures FindGroup(service, lines, i) == Some(i)
  {
  }

  lemma ParseGroupEndsAtHeader(lines: seq<string>, i: nat, acc: map<PqConninfoOption, string>)
    requires i < |lines| && IsGroupStart(Trim(lines[i]))
    ensures ParseGroup(lines, i, acc) == Success(acc)
  {
  }

  lemma FindGroupSkips(service: string, lines: seq<string>, i: nat)
    requires i < |lines| && Trim(lines[i]) != GroupHeader(service)
    ensures FindGroup(service, lines, i) == FindGroup(service, lines, i + 1)
  {
  }

  lemma ParseGroupSkips(lines: seq<string>, i: nat, acc: map<PqConninfoOption, string>)
    requires i < |lines| && IsIgnorable(Trim(lines[i]))
    ensures ParseGroup(lines, i, acc) == ParseGroup(lines, i + 1, acc)
  {
  }

  lemma ParseGroupTakesEntry(lines: seq<string>, i: nat, acc: map<PqConninfoOption, string>)
    requires i < |lines| && !IsIgnorable(Trim(lines[i])) && !IsGroupStart(Trim(lines[i]))
    requires KeyLine(Trim(lines[i])).Success?
    ensures ParseGroup(lines, i, acc)
            == ParseGroup(lines, i + 1, acc[KeyLine(Trim(lines[i])).value.0 := KeyLine(Trim(lines[i])).value.1])
  {
  }

  // ---------------------------------------------------------------------------
  // What the parse means
  // ---------------------------------------------------------------------------

  /** A body line that sets option `o`. */
  predicate SetsOption(line: string, o: PqConninfoOption) {
    ReadBodyLine(line).Entry? && ReadBodyLine(line).option == o
  }

  /** A body line that is neither blank, a comment, a header nor a well-formed entry. */
  predicate IsMalformed(line: string) {
    ReadBodyLine(line).Malformed?
  }

  /** The options after a line that neither ends the group nor is malformed. */
  function Apply(b: BodyLine, acc: map<PqConninfoOption, string>): map<PqConninfoOption, string> {
    if b.Entry? then acc[b.option := b.value] else acc
  }

  /** Reading goes on past a line that neither ends the group nor is malformed, and so does the group. */
  lemma ParseGroupNext(lines: seq<string>, i: nat, acc: map<PqConninfoOption, string>)
    requires i < |lines| && !ReadBodyLine(lines[i]).NextGroup? && !IsMalformed(lines[i])
    ensures ParseGroup(lines, i, acc) == ParseGroup(lines, i + 1, Apply(ReadBodyLine(lines[i]), acc))
    ensures GroupEnd(lines, i) == GroupEnd(lines, i + 1)
  {
  }

  /** Reading stops at a line that ends the group, and so does the group. */
  lemma ParseGroupStops(lines: seq<string>, i: nat, acc: map<PqConninfoOption, string>)
    requires i <= |lines|
    requires i == |lines| || ReadBodyLine(lines[i]).NextGroup?
    ensures ParseGroup(lines, i, acc) == Success(acc)
    ensures GroupEnd(lines, i) == i
  {
  }

  /**
   * Parsing a group body fails exactly when one of its lines is malformed, and the
   * error names the first such line: its message, its 1-based number and its text.
   */
  lemma {:induction false} ParseGroupFailsAtFirstMalformedLine(lines: seq<string>, i: nat, acc: map<PqConninfoOption, string>)
    requires i <= |lines|
    ensures ParseGroup(lines, i, acc).Failure? <==> exists k :: i <= k < GroupEnd(lines, i) && IsMalformed(lines[k])
    ensures ParseGroup(lines, i, acc).Failure? ==>
              exists k :: i <= k < GroupEnd(lines, i) && IsMalformed(lines[k])
                && (forall k2 :: i <= k2 < k ==> !IsMalformed(lines[k2]))
                && ParseGroup(lines, i, acc).error
                   == MalformedServiceFile(ReadBodyLine(lines[k]).message, k + 1, lines[k])
    decreases |lines| - i
  {
    if i == |lines| || ReadBodyLine(lines[i]).NextGroup? {
      ParseGroupStops(lines, i, acc);
      return;
    }
    var b := ReadBodyLine(lines[i]);
    var r := ParseGroup(lines, i, acc);
    if b.Malformed? {
      assert r == Failure(MalformedServiceFile(b.message, i + 1, lines[i]));
      assert i < GroupEnd(lines, i);
      return;
    }
    ParseGroupNext(lines, i, acc);
    var e := GroupEnd(lines, i);
    var acc' := Apply(b, acc);
    ParseGroupFailsAtFirstMalformedLine(lines, i + 1, acc');
    if exists k :: i <= k < e && IsMalformed(lines[k]) {
      var k :| i <= k < e && IsMalformed(lines[k]);
      assert i + 1 <= k;
    }
    if r.Failure? {
      var k :| i + 1 <= k < e && IsMalformed(lines[k])
               && (forall k2 :: i + 1 <= k2 < k ==> !IsMalformed(lines[k2]))
               && r.error == MalformedServiceFile(ReadBodyLine(lines[k]).message, k + 1, lines[k]);
      assert forall k2 :: i <= k2 < k ==> !IsMalformed(lines[k2]);
    }
  }

  /** A successful parse holds an option exactly when the body sets it or it was already present. */
  lemma {:induction false} ParseGroupHolds(lines: seq<string>, i: nat, acc: map<PqConninfoOption, string>, o: PqConninfoOption)
    requires i <= |lines|
    requires ParseGroup(lines, i, acc).Success?
    ensures o in ParseGroup(lines, i, acc).value <==>
              o in acc || exists k :: i <= k < GroupEnd(lines, i) && SetsOption(lines[k], o)
    decreases |lines| - i
  {
    if i == |lines| || ReadBodyLine(lines[i]).NextGroup? {
      ParseGroupStops(lines, i, acc);
      return;
    }
    var b := ReadBodyLine(lines[i]);
    assert !b.Malformed?;
    ParseGroupNext(lines, i, acc);
    var e := GroupEnd(lines, i);
    var acc' := Apply(b, acc);
    ParseGroupHolds(lines, i + 1, acc', o);
    if SetsOption(lines[i], o) {
      assert o in acc';
    } else {
      assert o in acc' <==> o in acc;
      if exists k :: i <= k < e && SetsOption(lines[k], o) {
        var k :| i <= k < e && SetsOption(lines[k], o);
        assert k != i;
      }
    }
  }

  /** The value of an option is the one given by the last body line that sets it. */
  lemma {:induction false} ParseGroupLastWins(lines: seq<string>, i: nat, acc: map<PqConninfoOption, string>,
                                              o: PqConninfoOption, k: nat)
    requires i <= |lines|
    requires i <= k < GroupEnd(lines, i)
    requires ParseGroup(lines, i, acc).Success?
    requires SetsOption(lines[k], o)
    requires forall k2 :: k < k2 < GroupEnd(lines, i) ==> !SetsOption(lines[k2], o)
    ensures o in ParseGroup(lines, i, acc).value
    ensures ParseGroup(lines, i, acc).value[o] == ReadBodyLine(lines[k]).value
    decreases |lines| - i
  {
    var b := ReadBodyLine(lines[i]);
    assert !b.NextGroup?;
    assert !b.Malformed?;
    ParseGroupNext(lines, i, acc);
    var acc' := Apply(b, acc);
    if k == i {
      ParseGroupKeepsUnset(lines, i + 1, acc', o);
    } else {
      ParseGroupLastWins(lines, i + 1, acc', o, k);
    }
  }

  /** An option no body line sets keeps the value it had. */
  lemma {:induction false} ParseGroupKeepsUnset(lines: seq<string>, i: nat, acc: map<PqConninfoOption, string>, o: PqConninfoOption)
    requires i <= |lines|
    requires ParseGroup(lines, i, acc).Success?
    requires o in acc
    requires forall k :: i <= k < GroupEnd(lines, i) ==> !SetsOption(lines[k], o)
    ensures o in ParseGroup(lines, i, acc).value && ParseGroup(lines, i, acc).value[o] == acc[o]
    decreases |lines| - i
  {
    if i == |lines| || ReadBodyLine(lines[i]).NextGroup? {
      ParseGroupStops(lines, i, acc);
      return;
    }
    var b := ReadBodyLine(lines[i]);
    assert !b.Malformed?;
    ParseGroupNext(lines, i, acc);
    var acc' := Apply(b, acc);
    assert !SetsOption(lines[i], o);
    assert o in acc' && acc'[o] == acc[o];
    ParseGroupKeepsUnset(lines, i + 1, acc', o);
  }

  /** Without the service's header line there are no options for it, and with one there are some or an error. */
  lemma ServiceMissingIffNoHeader(service: string, lines: seq<string>)
    ensures ServiceConninfo(service, lines) == Success(None) <==>
              forall k :: 0 <= k < |lines| ==> Trim(lines[k]) != GroupHeader(service)
  {
    FindGroupFinds(service, lines, 0);
  }

  /** A file holding just the header gives the service with no options. */
  lemma HeaderOnlyGivesEmptyGroup(service: string)
    ensures ServiceConninfo(service, [GroupHeader(service)]) == Success(Some(map[]))
  {
    var h := GroupHeader(service);
    assert h[0] == '[' && h[|h| - 1] == ']';
    TrimKeepsTrimmed(h);
  }

  /** An empty file has no groups at all. */
  lemma EmptyFileHasNoService(service: string)
    ensures ServiceConninfo(service, []) == Success(None)
  {
  }

  /** The group read is the body of the first header line for the service, cut at the next group. */
  lemma ServiceConninfoReadsFirstGroup(service: string, lines: seq<string>)
    requires FindGroup(service, lines, 0).Some?
    ensures var h := FindGroup(service, lines, 0).value;
            (forall k :: 0 <= k < h ==> Trim(lines[k]) != GroupHeader(service))
            && (ServiceConninfo(service, lines).Failure? <==>
                  exists k :: h < k < GroupEnd(lines, h + 1) && IsMalformed(lines[k]))
            && (ServiceConninfo(service, lines).Success? ==>
                  ServiceConninfo(service, lines).value.Some?
                  && forall o :: o in ServiceConninfo(service, lines).value.value <==>
                       exists k :: h < k < GroupEnd(lines, h + 1) && SetsOption(lines[k], o))
  {
    var h := FindGroup(service, lines, 0).value;
    FindGroupFinds(service, lines, 0);
    ParseGroupFailsAtFirstMalformedLine(lines, h + 1, map[]);
    if ParseGroup(lines, h + 1, map[]).Success? {
      forall o ensures o in ServiceConninfo(service, lines).value.value <==>
                       exists k :: h < k < GroupEnd(lines, h + 1) && SetsOption(lines[k], o)
      {
        ParseGroupHolds(lines, h + 1, map[], o);
      }
    }
  }

  /** Lines after the end of the group play no part. */
  lemma {:induction false} ParseGroupIgnoresLaterLines(lines: seq<string>, more: seq<string>, i: nat, acc: map<PqConninfoOption, string>)
    requires i <= |lines|
    requires GroupEnd(lines, i) < |lines|
    ensures ParseGroup(lines + more, i, acc) == ParseGroup(lines, i, acc)
    decreases |lines| - i
  {
    var all := lines + more;
    assert all[i] == lines[i];
    var b := ReadBodyLine(lines[i]);
    if b.NextGroup? {
      ParseGroupStops(lines, i, acc);
      ParseGroupStops(all, i, acc);
      return;
    }
    if b.Malformed? {
      return;
    }
    ParseGroupNext(lines, i, acc);
    ParseGroupNext(all, i, acc);
    ParseGroupIgnoresLaterLines(lines, more, i + 1, Apply(b, acc));
  }
}
