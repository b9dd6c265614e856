# pqconninfo in Dafny

This project models the core of pqconninfo, a Java library that works out a
PostgreSQL connection's parameters the way libpq does. It then translates them
into JDBC connection parameters. Connection options are resolved in a fixed
cascade, and the first source to supply an option wins:

1. the caller's properties;
2. the service file: `PGSERVICEFILE` alone when set, otherwise the user's file
   with the system file as fallback;
3. the `PG*` environment variables;
4. the operating-system user, for `user`;
5. the password file, for `password`.

The modules follow the Java files:

- `PqConninfoOptions` (PqConninfoOption.java) is the catalogue of 34 options.
  Each has a keyword and an optional environment variable.
- `Passfile` (Passfile.java) is the `.pgpass` line splitter, the unescaper and
  the matcher. It includes the first-match search with its host and port
  defaults.
- `PosixPassfile` (PosixPassfile.java) is the owner-only permission rule for the
  password file.
- `ServiceFile` (ServiceFile.java) is the service-file reader. It locates the
  `[service]` group and reads its `keyword=value` lines. It reports malformed
  lines with their 1-based number.
- `Conninfo` (PqConninfo.java) is the immutable result. Its display hides the
  two secrets.
- `EnumMapConninfoReader` (impl/EnumMapConninfoReader.java) is the cascade.
  - The in-place merge uses a small `EnumMap` class.
  - Each stage is a specification function, and a method carries the actual loop.
- `JdbcParameters` (jdbc/JdbcConnectionParameter.java) is the JDBC parameter
  table.
- `JdbcElf` and `JdbcUrls` both come from impl/JdbcElf.java.
  - `JdbcElf` holds the value getters over a conninfo: integer parsing, `0`/`1`
    booleans, clamping, and the sslmode, gssencmode, gsslib and replication
    tables.
  - `JdbcUrls` holds the URL, the query string, and the info/properties maps over
    the parameters.
  - The split breaks the Java cycle between JdbcElf and JdbcConnectionParameters.
- `JdbcConnectionParams` (jdbc/JdbcConnectionParameters.java) holds the
  parameter record, its construction from a conninfo, its equality and its
  redacting display.
- `Wrappers` gives Java's `null` as `Option` and a thrown exception as `Result`.
- `JavaStrings` gives `String.trim`, `startsWith`, `indexOf` and `String.join`.

The system around the core is a `Context` value, following the test double
BasicTestContext. It holds:

- the environment map;
- the contents, as lines, of each service file and password file the context
  could open (`None` where the Java context returns a null stream);
- the system user.

Streams are sequences of lines.

Where the code and the library's own description of it differ, the model follows the code.
A service-file value is the text after the first `=` of the line *trimmed as a
whole*. Trailing blanks are therefore removed and blanks right after `=` are
kept.

## Model

| member | source | states |
|---|---|---|
| Wrappers.Get | src/main/java/com/grzm/pqconninfo/alpha/impl/EnumMapConninfoReader.java:252-253 | a map lookup yields a value exactly when the key is present, and that value is the stored one (Java's `Map.get`, null for a missing key) |
| JavaStrings.Trim | src/main/java/com/grzm/pqconninfo/alpha/ServiceFile.java:82 | `String.trim` never lengthens the line, and a non-empty result neither starts nor ends with a character up to U+0020 |
| JavaStrings.TrimIsSlice | src/main/java/com/grzm/pqconninfo/alpha/ServiceFile.java:82 | the result is the slice of the line left after removing only characters up to U+0020 at both ends |
| JavaStrings.TrimKeepsTrimmed | src/main/java/com/grzm/pqconninfo/alpha/ServiceFile.java:82 | trimming a line that already starts and ends with a visible character leaves it unchanged |
| JavaStrings.IndexOf | src/main/java/com/grzm/pqconninfo/alpha/ServiceFile.java:101 | `indexOf('=')` is absent exactly when the line has no `=`, and otherwise is the first position holding `=` |
| PqConninfoOptions.Ordinal | src/main/java/com/grzm/pqconninfo/alpha/PqConninfoOption.java:8-53 | each option's position in declaration order, which is where it sits in the list of values |
| PqConninfoOptions.OrdinalAt | src/main/java/com/grzm/pqconninfo/alpha/PqConninfoOption.java:8-53 | the option at each position of `values()` has that position as its ordinal |
| PqConninfoOptions.ValuesEnumerate | src/main/java/com/grzm/pqconninfo/alpha/PqConninfoOption.java:8-53 | the catalogue has 34 options, lists every option, and no two share a position |
| PqConninfoOptions.KeywordInjective | src/main/java/com/grzm/pqconninfo/alpha/PqConninfoOption.java:8-53 | `Keyword`: no two options share a keyword |
| PqConninfoOptions.KeywordLookupInverts | src/main/java/com/grzm/pqconninfo/alpha/PqConninfoOption.java:8-53 | looking an option's keyword up in the table yields that option |
| PqConninfoOptions.FirstWithKeyword | src/main/java/com/grzm/pqconninfo/alpha/PqConninfoOption.java:8-53 | a scan of options in order finds one with the keyword, or reports that none of them has it |
| PqConninfoOptions.LookupKeywordSound | src/main/java/com/grzm/pqconninfo/alpha/PqConninfoOption.java:8-53 | keyword lookup finds an option carrying the keyword, and finds nothing exactly when no option carries it |
| PqConninfoOptions.LookupKeywordInverts | src/main/java/com/grzm/pqconninfo/alpha/PqConninfoOption.java:8-53 | keyword lookup is a left inverse of the keyword table |
| PqConninfoOptions.EnvironmentVariableInjective | src/main/java/com/grzm/pqconninfo/alpha/PqConninfoOption.java:8-53 | `EnvironmentVariable`: no two options share a non-null environment variable |
| PqConninfoOptions.EnvironmentVariableLookupInverts | src/main/java/com/grzm/pqconninfo/alpha/PqConninfoOption.java:8-53 | looking an option's environment variable up in the table yields that option |
| PqConninfoOptions.EightWithoutEnvironmentVariable | src/main/java/com/grzm/pqconninfo/alpha/PqConninfoOption.java:73-76 | exactly eight distinct options, built by the one-argument constructor, have no environment variable |
| PqConninfoOptions.LookupOptions | src/main/java/com/grzm/pqconninfo/alpha/PqConninfoOption.java:31-53 | SERVICE is `service`/`PGSERVICE`, PASSFILE is `passfile`/`PGPASSFILE`, USER is `user`/`PGUSER` |
| PosixPassfile.HasValidPermissions | src/main/java/com/grzm/pqconninfo/alpha/PosixPassfile.java:30-47 | a permission set is valid exactly when it is `{OWNER_READ}` or `{OWNER_READ, OWNER_WRITE}` |
| PosixPassfile.ValidIsBetweenReadAndReadWrite | src/main/java/com/grzm/pqconninfo/alpha/PosixPassfile.java:30-47 | valid exactly when the set holds OWNER_READ and nothing outside the two owner bits |
| PosixPassfile.ExtraPermissionInvalidates | src/main/java/com/grzm/pqconninfo/alpha/PosixPassfile.java:42-47 | any permission outside the two owner bits makes the set invalid, whatever else it holds |
| PosixPassfile.PermissionExamples | src/main/java/com/grzm/pqconninfo/alpha/PosixPassfile.java:42-47 | the empty set is invalid; owner-read and owner-read-write are valid; adding OTHERS_READ to either is invalid |
| Passfile.SplitFields | src/main/java/com/grzm/pqconninfo/alpha/Passfile.java:90-92 | splitting yields at least one field and no more fields than characters plus one |
| Passfile.DropTrailingEmpty | src/main/java/com/grzm/pqconninfo/alpha/Passfile.java:90-92 | the kept fields are a prefix, do not end with an empty field, and only empty fields were dropped (Java's `String.split` rule) |
| Passfile.SplitPlainFields | src/main/java/com/grzm/pqconninfo/alpha/Passfile.java:90-92 | fields without `\` or `:` joined by `:` split back into the same fields |
| Passfile.SplitFieldsJoin | src/main/java/com/grzm/pqconninfo/alpha/Passfile.java:90-92 | joining the fields with `:` gives back the line: splitting loses nothing but the separators |
| Passfile.SplitFieldsOnlyEscapedColons | src/main/java/com/grzm/pqconninfo/alpha/Passfile.java:90-92 | every `:` left inside a field is immediately preceded by a backslash |
| Passfile.SplitFieldsAtSeparator | src/main/java/com/grzm/pqconninfo/alpha/Passfile.java:90-92 | a `:` not preceded by a backslash ends a field |
| Passfile.SplitFieldsOnlyAtUnescaped | src/main/java/com/grzm/pqconninfo/alpha/Passfile.java:90-92 | the line is cut only at colons not preceded by a backslash: every field but the last ends in a character other than `\`, and a leading empty field is not preceded by one |
| Passfile.SplitPgpassLineRestores | src/main/java/com/grzm/pqconninfo/alpha/Passfile.java:86-93 | `SplitPgpassLine`: joining its fields back with `:` gives the line less some final colons, so only the trailing empty fields are dropped |
| Passfile.UnescapePassword | src/main/java/com/grzm/pqconninfo/alpha/Passfile.java:100-102 | unescaping never lengthens the field and leaves a field without backslashes unchanged |
| Passfile.UnescapeInvertsEscape | src/main/java/com/grzm/pqconninfo/alpha/Passfile.java:100-102 | unescaping undoes escaping `\` and `:` with a backslash: every password round-trips |
| Passfile.EscapeAppend | src/main/java/com/grzm/pqconninfo/alpha/Passfile.java:100-102 | escaping works character by character |
| Passfile.EscapePlain | src/main/java/com/grzm/pqconninfo/alpha/Passfile.java:100-102 | a password with no `\` and no `:` is its own escaped form |
| Passfile.EscapedIsOneField | src/main/java/com/grzm/pqconninfo/alpha/Passfile.java:90-102 | an escaped password is never split |
| Passfile.ParsePgpassLineMeaning | src/main/java/com/grzm/pqconninfo/alpha/Passfile.java:50-82 | `ParsePgpassLine`: a line yields a password exactly when it splits into five fields whose first four match the options (`*` or equal); the password is the unescaped fifth field; four-field matches and lines with under four or over five fields yield none |
| Passfile.EntryLineSplits | src/main/java/com/grzm/pqconninfo/alpha/Passfile.java:86-93 | `SplitPgpassLine`: an entry written from four plain fields and an escaped password splits back into those five fields |
| Passfile.EntryLineYieldsPassword | src/main/java/com/grzm/pqconninfo/alpha/Passfile.java:50-82 | such an entry yields its password for every option tuple it matches, wildcards included |
| Passfile.MismatchYieldsNothing | src/main/java/com/grzm/pqconninfo/alpha/Passfile.java:63-68 | a line whose first four fields do not all match the options yields nothing |
| Passfile.FirstPasswordIsFirstMatch | src/main/java/com/grzm/pqconninfo/alpha/Passfile.java:239-244 | `FirstPassword`: the search finds nothing exactly when no line yields a password, and otherwise returns the password of the first line that yields one |
| Passfile.FourFieldMatchContinues | src/main/java/com/grzm/pqconninfo/alpha/Passfile.java:77-79 | a four-field line never stops the search |
| Passfile.GetPassword | src/main/java/com/grzm/pqconninfo/alpha/Passfile.java:163-250 | the loop over the lines returns `PasswordFor`, the search specification (defaults applied, first match wins), whose cases PasswordNeedsDbnameAndUser, HostDefaults, PortDefaults and PasswordComesFromMatchingEntry state |
| Passfile.GetPasswordFromConninfo | src/main/java/com/grzm/pqconninfo/alpha/Passfile.java:124-133 | the conninfo overload searches with the HOST, PORT, DBNAME and USER values of the map |
| Passfile.PasswordNeedsDbnameAndUser | src/main/java/com/grzm/pqconninfo/alpha/Passfile.java:186-188 | an absent or empty database name or user gives no password, whatever the lines |
| Passfile.HostDefaults | src/main/java/com/grzm/pqconninfo/alpha/Passfile.java:199-201 | an absent or empty host, or the default socket directory, is searched for as `localhost` |
| Passfile.PortDefaults | src/main/java/com/grzm/pqconninfo/alpha/Passfile.java:210-211 | an absent or empty port is searched for as `5432` |
| Passfile.PasswordComesFromMatchingEntry | src/main/java/com/grzm/pqconninfo/alpha/Passfile.java:186-244 | `PasswordFor`: a password found implies a database name and user were given and some line had five fields |
| Passfile.ParsePgpassLineExactEntry | src/main/java/com/grzm/pqconninfo/alpha/Passfile.java:50-82 | an entry equal to the options yields its password |
| Passfile.ParsePgpassLineWildcardHost | src/main/java/com/grzm/pqconninfo/alpha/Passfile.java:112-114 | `OptMatchesField`: a `*` field matches any value, so a `*` host matches any host (MismatchYieldsNothing gives the other direction) |
| Passfile.ParsePgpassLineOtherDatabase | src/main/java/com/grzm/pqconninfo/alpha/Passfile.java:63-68 | an entry for another database yields nothing |
| Passfile.ParsePgpassLineEscapedColon | src/main/java/com/grzm/pqconninfo/alpha/Passfile.java:90-102 | an escaped colon stays inside the password and loses its backslash |
| Passfile.ParsePgpassLineEscapedBackslashAndColon | src/main/java/com/grzm/pqconninfo/alpha/Passfile.java:90-102 | an escaped backslash followed by an escaped colon unescape to a backslash and a colon |
| ServiceFile.OptionForKeyword | src/main/java/com/grzm/pqconninfo/alpha/ServiceFile.java:27-34 | the loop over the options returns the option with that keyword, or none exactly when no option has it |
| ServiceFile.LineTestsAreStartsWith | src/main/java/com/grzm/pqconninfo/alpha/ServiceFile.java:85-89 | blank or `#` lines are skipped; lines starting with `[` are group headers |
| ServiceFile.KeyLine | src/main/java/com/grzm/pqconninfo/alpha/ServiceFile.java:100-125 | a key line is rejected only with the syntax error or the nested-service error |
| ServiceFile.KeyLineCases | src/main/java/com/grzm/pqconninfo/alpha/ServiceFile.java:100-125 | no `=` is a syntax error; keyword `service` is a nested-service error; an unknown keyword is a syntax error; otherwise the option and the text after the first `=` |
| ServiceFile.KeyLineMeaning | src/main/java/com/grzm/pqconninfo/alpha/ServiceFile.java:100-125 | a key line is accepted exactly when it has an `=` and the text before the first `=` is a keyword other than `service`; the value is the text after it |
| ServiceFile.FindGroup | src/main/java/com/grzm/pqconninfo/alpha/ServiceFile.java:85-98 | a header the search finds lies at or after the starting line |
| ServiceFile.FindGroupFinds | src/main/java/com/grzm/pqconninfo/alpha/ServiceFile.java:85-98 | the search finds the first line whose trimmed form is `[service]`, or reports that no later line is |
| ServiceFile.GroupEnd | src/main/java/com/grzm/pqconninfo/alpha/ServiceFile.java:89-94 | the group's body runs up to the next line starting with `[`, or to the end |
| ServiceFile.GetServiceConninfo | src/main/java/com/grzm/pqconninfo/alpha/ServiceFile.java:54-133 | the loop over the lines returns what the specification of the file gives; a null stream gives no options |
| ServiceFile.ParseGroupRejects | src/main/java/com/grzm/pqconninfo/alpha/ServiceFile.java:100-121 | a malformed line in the group fails with its message, its 1-based line number and the untrimmed line |
| ServiceFile.FindGroupSkips | src/main/java/com/grzm/pqconninfo/alpha/ServiceFile.java:90-98 | lines before the header, key lines included, are passed over without error |
| ServiceFile.ParseGroupSkips | src/main/java/com/grzm/pqconninfo/alpha/ServiceFile.java:85-87 | blank and comment lines inside the group change nothing |
| ServiceFile.ParseGroupTakesEntry | src/main/java/com/grzm/pqconninfo/alpha/ServiceFile.java:123-125 | an accepted key line stores its value under its option |
| ServiceFile.IgnorableIsNotGroupStart | src/main/java/com/grzm/pqconninfo/alpha/ServiceFile.java:85-89 | a skipped line never ends the group |
| ServiceFile.ParseGroupNext | src/main/java/com/grzm/pqconninfo/alpha/ServiceFile.java:85-125 | a line that is neither a header nor malformed is consumed: skipped, or its entry stored, and the group goes on |
| ServiceFile.ParseGroupStops | src/main/java/com/grzm/pqconninfo/alpha/ServiceFile.java:89-94 | the group ends, successfully, at the end of the file or at the next header |
| ServiceFile.ReadBodyLineMeaning | src/main/java/com/grzm/pqconninfo/alpha/ServiceFile.java:85-125 | `ReadBodyLine`: a line is skipped exactly when it is blank or a comment, ends the group exactly when it starts with `[`, and is otherwise read as a key line, malformed or an entry |
| ServiceFile.ReadKeyLine | src/main/java/com/grzm/pqconninfo/alpha/ServiceFile.java:100-125 | the method's checks (no `=`, the nested `service` keyword, an unknown keyword) give exactly the key-line specification |
| ServiceFile.ParseGroupFailsAtFirstMalformedLine | src/main/java/com/grzm/pqconninfo/alpha/ServiceFile.java:100-121 | the group fails exactly when one of its lines is malformed, and the error is that of the first such line |
| ServiceFile.ParseGroupHolds | src/main/java/com/grzm/pqconninfo/alpha/ServiceFile.java:100-125 | `ParseGroup`: an option is in the result exactly when it was set before or some line of the group sets it |
| ServiceFile.ParseGroupLastWins | src/main/java/com/grzm/pqconninfo/alpha/ServiceFile.java:123-125 | a repeated key keeps the value of its last line in the group |
| ServiceFile.ParseGroupKeepsUnset | src/main/java/com/grzm/pqconninfo/alpha/ServiceFile.java:123-125 | options no line of the group sets keep their values |
| ServiceFile.ServiceMissingIffNoHeader | src/main/java/com/grzm/pqconninfo/alpha/ServiceFile.java:59-132 | `ServiceConninfo`: no options exactly when no line is the service's header |
| ServiceFile.HeaderOnlyGivesEmptyGroup | src/main/java/com/grzm/pqconninfo/alpha/ServiceFile.java:95-98 | a header with no key lines gives an empty map, not null |
| ServiceFile.EmptyFileHasNoService | src/main/java/com/grzm/pqconninfo/alpha/ServiceFile.java:63-132 | an empty file gives no options |
| ServiceFile.ServiceConninfoReadsFirstGroup | src/main/java/com/grzm/pqconninfo/alpha/ServiceFile.java:89-98 | the first matching group is the one read |
| ServiceFile.ParseGroupIgnoresLaterLines | src/main/java/com/grzm/pqconninfo/alpha/ServiceFile.java:89-94 | lines after the next header have no effect, errors included |
| Conninfo.From | src/main/java/com/grzm/pqconninfo/alpha/PqConninfo.java:29-41 | `from` holds exactly the contents of the map it was given |
| Conninfo.GetOption | src/main/java/com/grzm/pqconninfo/alpha/PqConninfo.java:49-51 | `get` yields the stored value, or null exactly when the option is absent |
| Conninfo.Redacted | src/main/java/com/grzm/pqconninfo/alpha/PqConninfo.java:55-65 | the display map has the same options; PASSWORD and SSLPASSWORD show `****`, every other value is unchanged |
| Conninfo.KeysInOrder | src/main/java/com/grzm/pqconninfo/alpha/PqConninfo.java:54-66 | the displayed options are exactly the stored ones |
| Conninfo.Entries | src/main/java/com/grzm/pqconninfo/alpha/PqConninfo.java:54-66 | each displayed entry is `NAME=value` for its option |
| Conninfo.Equals | src/main/java/com/grzm/pqconninfo/alpha/PqConninfo.java:68-78 | equal exactly when the stored maps are equal |
| Conninfo.DisplayListsStoredOptions | src/main/java/com/grzm/pqconninfo/alpha/PqConninfo.java:54-66 | `ToString` and `EnumMapToString`: the display lists the stored options and no others, each once, in declaration order |
| Conninfo.ValuesInDeclarationOrder | src/main/java/com/grzm/pqconninfo/alpha/PqConninfoOption.java:8-53 | `values()` lists the options in increasing ordinal |
| Conninfo.KeysInOrderKeepsOrder | src/main/java/com/grzm/pqconninfo/alpha/PqConninfo.java:54-66 | listing a map's keys along an increasing option list gives an increasing list, so an `EnumMap` prints in declaration order |
| Conninfo.OrderedBySameOptions | src/main/java/com/grzm/pqconninfo/alpha/PqConninfo.java:54-66 | two increasing lists of the same options are equal: the display order is determined by the keys alone |
| Conninfo.SecretsAndUserDisplay | src/main/java/com/grzm/pqconninfo/alpha/PqConninfo.java:54-66 | a map holding PASSWORD, SSLPASSWORD and USER prints as `{PASSWORD=****, SSLPASSWORD=****, USER=<user>}` |
| Conninfo.RedactedPasswordsDisplay | src/test/java/com/grzm/pqconninfo/alpha/PqConninfoTest.java:284-292 | the conninfo of user `alice` with both secrets set prints as `PqConninfo{opts={PASSWORD=****, SSLPASSWORD=****, USER=alice}}` |
| Conninfo.DisplayHidesSecrets | src/main/java/com/grzm/pqconninfo/alpha/PqConninfo.java:54-66 | two instances that differ only in their secrets display alike |
| Conninfo.DisplayShowsSecretAsMarker | src/main/java/com/grzm/pqconninfo/alpha/PqConninfo.java:55-65 | a present secret appears in the display under its name as `****` |
| EnumMapConninfoReader.Getenv | src/main/java/com/grzm/pqconninfo/alpha/EnvVars.java:18-24 | an environment variable is set exactly when the context's environment holds it, with that value |
| EnumMapConninfoReader.EnvPassfile | src/main/java/com/grzm/pqconninfo/alpha/impl/EnumMapConninfoReader.java:222-246 | the password file named by `PGPASSFILE` is readable exactly when the context has contents for it |
| EnumMapConninfoReader.EnumMap.constructor | src/main/java/com/grzm/pqconninfo/alpha/impl/EnumMapConninfoReader.java:29-36 | a fresh map holds the given options |
| EnumMapConninfoReader.EnumMap.PutIfAbsent | src/main/java/com/grzm/pqconninfo/alpha/impl/EnumMapConninfoReader.java:51-53 | an existing key keeps its value; a missing key gets the new value; nothing else changes |
| EnumMapConninfoReader.MergeIfAbsent | src/main/java/com/grzm/pqconninfo/alpha/impl/EnumMapConninfoReader.java:45-55 | null leaves `a` as it was; otherwise the keys are the union, `a`'s values are kept and `b` fills only the gaps |
| EnumMapConninfoReader.MergeKeeps | src/main/java/com/grzm/pqconninfo/alpha/impl/EnumMapConninfoReader.java:45-55 | an option already present survives a merge with its value |
| EnumMapConninfoReader.MergeSource | src/main/java/com/grzm/pqconninfo/alpha/impl/EnumMapConninfoReader.java:45-55 | every option of a merge comes from one of its two sides |
| EnumMapConninfoReader.MergeIfAbsentIdempotent | src/main/java/com/grzm/pqconninfo/alpha/impl/EnumMapConninfoReader.java:45-55 | merging the same map twice is the same as merging it once |
| EnumMapConninfoReader.MergeIfAbsentNoOp | src/main/java/com/grzm/pqconninfo/alpha/impl/EnumMapConninfoReader.java:45-55 | merging an empty map, or a map into itself, changes nothing |
| EnumMapConninfoReader.PutAllIfAbsent | src/main/java/com/grzm/pqconninfo/alpha/impl/EnumMapConninfoReader.java:45-55 | the loop updates `a` in place to the first-writer-wins merge |
| EnumMapConninfoReader.OptionsFrom | src/main/java/com/grzm/pqconninfo/alpha/impl/EnumMapConninfoReader.java:64-75 | an option is present exactly when the properties hold its keyword, with that property's value |
| EnumMapConninfoReader.OptsFrom | src/main/java/com/grzm/pqconninfo/alpha/impl/EnumMapConninfoReader.java:64-75 | the loop builds exactly those options |
| EnumMapConninfoReader.UnknownPropertyIgnored | src/main/java/com/grzm/pqconninfo/alpha/impl/EnumMapConninfoReader.java:64-75 | a property name that is no option's keyword has no effect |
| EnumMapConninfoReader.ServiceName | src/main/java/com/grzm/pqconninfo/alpha/impl/EnumMapConninfoReader.java:112-121 | the service is the SERVICE option if present, otherwise `PGSERVICE`; ServiceOptions and ServiceNameIsRecorded state what the stage does with it |
| EnumMapConninfoReader.FileConninfo | src/main/java/com/grzm/pqconninfo/alpha/impl/EnumMapConninfoReader.java:87-106 | a missing file, or one that is malformed, gives no options, otherwise the file's group; ServiceOptionsFromFile and the file-choice lemmas state its use |
| EnumMapConninfoReader.ServiceOptions | src/main/java/com/grzm/pqconninfo/alpha/impl/EnumMapConninfoReader.java:108-173 | null exactly when no service is named; otherwise SERVICE holds the name |
| EnumMapConninfoReader.ReadServiceFile | src/main/java/com/grzm/pqconninfo/alpha/impl/EnumMapConninfoReader.java:87-106 | reading a service file gives the file's options, or none |
| EnumMapConninfoReader.ServiceOpts | src/main/java/com/grzm/pqconninfo/alpha/impl/EnumMapConninfoReader.java:108-173 | the method computes the service stage of the specification |
| EnumMapConninfoReader.EnvServiceFileHasNoFallback | src/main/java/com/grzm/pqconninfo/alpha/impl/EnumMapConninfoReader.java:128-139 | `ServiceFileOptions`: with `PGSERVICEFILE` set only that file is read: the other files cannot change the result |
| EnumMapConninfoReader.UserServiceFileHidesSystemFiles | src/main/java/com/grzm/pqconninfo/alpha/impl/EnumMapConninfoReader.java:140-148 | a user file that defines the service hides both system files |
| EnumMapConninfoReader.SystemServiceFileFallback | src/main/java/com/grzm/pqconninfo/alpha/impl/EnumMapConninfoReader.java:149-170 | otherwise the `PGSYSCONFDIR` file is read when that variable is set, else the configured sysconfdir file |
| EnumMapConninfoReader.ServiceOptionsFromFile | src/main/java/com/grzm/pqconninfo/alpha/impl/EnumMapConninfoReader.java:126-170 | `ServiceFileOptions` through the service stage: every option but SERVICE comes from the chosen file |
| EnumMapConninfoReader.EnvOptions | src/main/java/com/grzm/pqconninfo/alpha/impl/EnumMapConninfoReader.java:175-191 | exactly the options absent from opts whose environment variable exists and is set, with its value |
| EnumMapConninfoReader.EnvironmentVariables | src/main/java/com/grzm/pqconninfo/alpha/impl/EnumMapConninfoReader.java:175-191 | the loop builds exactly those options |
| EnumMapConninfoReader.SystemUserOptions | src/main/java/com/grzm/pqconninfo/alpha/impl/EnumMapConninfoReader.java:205-220 | a map of USER to the system user exactly when USER is absent and a system user is known |
| EnumMapConninfoReader.PassfileLines | src/main/java/com/grzm/pqconninfo/alpha/impl/EnumMapConninfoReader.java:222-246 | the file named by `PGPASSFILE` when that variable is set, otherwise the user's password file; PassfileIgnoresPassfileOption states that the PASSFILE option plays no part |
| EnumMapConninfoReader.PassfilePassword | src/main/java/com/grzm/pqconninfo/alpha/impl/EnumMapConninfoReader.java:222-246 | no password without a file, otherwise the password search over HOST, PORT, DBNAME and USER; PasswordFromPassfile and EarlierPasswordKept state its place in the cascade |
| EnumMapConninfoReader.PassfileOptions | src/main/java/com/grzm/pqconninfo/alpha/impl/EnumMapConninfoReader.java:249-264 | a map of PASSWORD exactly when PASSWORD is absent and the file supplies one |
| EnumMapConninfoReader.PassfileIgnoresPassfileOption | src/main/java/com/grzm/pqconninfo/alpha/impl/EnumMapConninfoReader.java:222-246 | the PASSFILE option does not choose the file |
| EnumMapConninfoReader.Read | src/main/java/com/grzm/pqconninfo/alpha/impl/EnumMapConninfoReader.java:29-36 | the four in-place merges compute `Resolve`, the specification of the cascade |
| EnumMapConninfoReader.StagesOnlyAdd | src/main/java/com/grzm/pqconninfo/alpha/impl/EnumMapConninfoReader.java:29-36 | `AfterService`, `AfterEnvironment`, `AfterSystemUser` and `Resolve`: a later stage never changes or removes an earlier stage's value |
| EnumMapConninfoReader.PropertiesWin | src/main/java/com/grzm/pqconninfo/alpha/impl/EnumMapConninfoReader.java:29-36 | a property that names an option always decides it |
| EnumMapConninfoReader.ServiceFileBeatsEnvironment | src/main/java/com/grzm/pqconninfo/alpha/impl/EnumMapConninfoReader.java:29-36 | a value from the service file beats the environment |
| EnumMapConninfoReader.ServiceNameIsRecorded | src/main/java/com/grzm/pqconninfo/alpha/impl/EnumMapConninfoReader.java:126 | a named service is recorded under SERVICE, even when no file defines it |
| EnumMapConninfoReader.EnvironmentFillsGaps | src/main/java/com/grzm/pqconninfo/alpha/impl/EnumMapConninfoReader.java:175-191 | a set environment variable fills an option still missing after the service stage |
| EnumMapConninfoReader.EnvironmentOnlySetVariables | src/main/java/com/grzm/pqconninfo/alpha/impl/EnumMapConninfoReader.java:175-191 | an option with no set variable is not added by the environment |
| EnumMapConninfoReader.SystemUserIsDefault | src/main/java/com/grzm/pqconninfo/alpha/impl/EnumMapConninfoReader.java:205-220 | the system user is the last resort for USER |
| EnumMapConninfoReader.PasswordFromPassfile | src/main/java/com/grzm/pqconninfo/alpha/impl/EnumMapConninfoReader.java:29-36 | a missing password is looked up with the options of all earlier stages, the user included |
| EnumMapConninfoReader.EarlierPasswordKept | src/main/java/com/grzm/pqconninfo/alpha/impl/EnumMapConninfoReader.java:249-264 | an earlier password is never replaced by the file's |
| EnumMapConninfoReader.ServiceStageSource | src/main/java/com/grzm/pqconninfo/alpha/impl/EnumMapConninfoReader.java:108-173 | an option after the service stage came from the properties, the service name or the chosen file |
| EnumMapConninfoReader.SystemUserStageSource | src/main/java/com/grzm/pqconninfo/alpha/impl/EnumMapConninfoReader.java:29-36 | an option after the system-user stage came from the properties, the service, the environment, or the system user |
| EnumMapConninfoReader.ResolvedOptionsHaveASource | src/main/java/com/grzm/pqconninfo/alpha/impl/EnumMapConninfoReader.java:29-36 | every resolved option came from one of the five sources |
| JdbcParameters.Ordinal | src/main/java/com/grzm/pqconninfo/alpha/jdbc/JdbcConnectionParameter.java:7-25 | each parameter's position in declaration order, where it sits in the list of values |
| JdbcParameters.KeywordLookupInverts | src/main/java/com/grzm/pqconninfo/alpha/jdbc/JdbcConnectionParameter.java:7-25 | looking a parameter's keyword up yields that parameter |
| JdbcParameters.KeywordInjective | src/main/java/com/grzm/pqconninfo/alpha/jdbc/JdbcConnectionParameter.java:7-25 | `Keyword`: no two parameters share a keyword |
| JdbcParameters.OrdinalAt | src/main/java/com/grzm/pqconninfo/alpha/jdbc/JdbcConnectionParameter.java:7-25 | the parameter at each position of `values()` has that position as its ordinal |
| JdbcParameters.ValuesEnumerate | src/main/java/com/grzm/pqconninfo/alpha/jdbc/JdbcConnectionParameter.java:7-25 | there are 19 parameters and the list of values holds all of them |
| JdbcParameters.UrlParameters | src/main/java/com/grzm/pqconninfo/alpha/jdbc/JdbcConnectionParameter.java:7-9 | `IsQueryParameter`: exactly HOST, PORT and DBNAME are not query parameters |
| JdbcElf.DigitValue | src/main/java/com/grzm/pqconninfo/alpha/impl/JdbcElf.java:136-149 | a decimal digit's value is below ten |
| JdbcElf.DigitChar | src/main/java/com/grzm/pqconninfo/alpha/impl/JdbcElf.java:136-149 | each value below ten is written by a digit with that value |
| JdbcElf.ParseInt | src/main/java/com/grzm/pqconninfo/alpha/impl/JdbcElf.java:136-149 | a parsed integer lies in the 32-bit range |
| JdbcElf.NatToString | src/main/java/com/grzm/pqconninfo/alpha/impl/JdbcElf.java:571-585 | a number is written with decimal digits that denote it, with no leading zero |
| JdbcElf.ParseIntInvertsIntToString | src/main/java/com/grzm/pqconninfo/alpha/impl/JdbcElf.java:136-149 | `IntToString` and `ParseInt`: parsing the decimal form of any 32-bit integer gives it back |
| JdbcElf.ParseIntRejects | src/main/java/com/grzm/pqconninfo/alpha/impl/JdbcElf.java:136-149 | empty text, a lone sign, or a non-digit gives null |
| JdbcElf.ParseIntRejectsOutOfRange | src/main/java/com/grzm/pqconninfo/alpha/impl/JdbcElf.java:136-149 | a digit string whose value exceeds 2147483647 gives null when unsigned or after `+`; after `-` it gives null above 2147483648, and `-2147483648` parses to the least `int` |
| JdbcElf.PortExampleToString | src/test/java/com/grzm/pqconninfo/alpha/JdbcConnectionParametersTest.java:84 | `IntToString(6543)` is `6543` |
| JdbcElf.PortExampleParses | src/test/java/com/grzm/pqconninfo/alpha/JdbcConnectionParametersTest.java:80 | the text `6543` parses to 6543 |
| JdbcElf.IntegerFromConninfoOption | src/main/java/com/grzm/pqconninfo/alpha/impl/JdbcElf.java:136-149 | null for an absent option, else the parse of its value; ParseIntInvertsIntToString, ParseIntRejects and ParseIntRejectsOutOfRange state which values parse |
| JdbcElf.BooleanFromConninfoOptionInteger | src/main/java/com/grzm/pqconninfo/alpha/impl/JdbcElf.java:179-196 | false exactly for `0`, true exactly for `1`, null for anything else |
| JdbcElf.GettersReadTheirOptions | src/main/java/com/grzm/pqconninfo/alpha/impl/JdbcElf.java:157-510 | `GetHost` … `GetSslpassword`: each string getter returns the value stored for its own option, or null exactly when that option is absent; `GetPort` is the parse of the `port` option |
| JdbcElf.GetConnectTimeout | src/main/java/com/grzm/pqconninfo/alpha/impl/JdbcElf.java:361-373 | present exactly when the value is an integer; positive values are kept, others become 0 |
| JdbcElf.GetSslmode | src/main/java/com/grzm/pqconninfo/alpha/impl/JdbcElf.java:270-322 | present exactly when the value is one of the six libpq sslmodes, and then that same keyword |
| JdbcElf.GetGssencmode | src/main/java/com/grzm/pqconninfo/alpha/impl/JdbcElf.java:411-454 | present exactly for disable, prefer and require, and then that keyword |
| JdbcElf.GetGsslib | src/main/java/com/grzm/pqconninfo/alpha/impl/JdbcElf.java:459-498 | present exactly for `gssapi` |
| JdbcElf.GetReplication | src/main/java/com/grzm/pqconninfo/alpha/impl/JdbcElf.java:513-556 | `true` exactly for true/on/yes/1, `database` exactly for database, null otherwise |
| JdbcElf.EnumeratedGettersYieldDriverKeywords | src/main/java/com/grzm/pqconninfo/alpha/impl/JdbcElf.java:270-556 | every value these getters yield is a keyword of the driver's enumeration |
| JdbcUrls.MakeUrlUsesOnlyUrlParameters | src/main/java/com/grzm/pqconninfo/alpha/impl/JdbcElf.java:571-585 | the URL depends only on host, port and database |
| JdbcUrls.MakeUrlShape | src/main/java/com/grzm/pqconninfo/alpha/impl/JdbcElf.java:571-585 | `MakeUrl`: the URL starts with the scheme, and with a host it starts `jdbc:postgresql://<host>`; without a host it is `jdbc:postgresql:<dbname>`, or `jdbc:postgresql:/` with no database |
| JdbcUrls.MakeUrlWithoutHostExample | src/test/java/com/grzm/pqconninfo/alpha/JdbcConnectionParametersTest.java:44-48 | no host and no database give `jdbc:postgresql:/` |
| JdbcUrls.MakeUrlDatabaseExample | src/test/java/com/grzm/pqconninfo/alpha/JdbcConnectionParametersTest.java:60-65 | database `some-dbname` alone gives `jdbc:postgresql:some-dbname` |
| JdbcUrls.MakeUrlHostPortExample | src/test/java/com/grzm/pqconninfo/alpha/JdbcConnectionParametersTest.java:78-84 | host `some-host` and port 6543 give `jdbc:postgresql://some-host:6543/` |
| JdbcUrls.MakeUrlFullExample | src/test/java/com/grzm/pqconninfo/alpha/JdbcConnectionParametersTest.java:98-105 | host, port and database give `jdbc:postgresql://some-host:6543/some-dbname` |
| JdbcUrls.SslHasNoValue | src/main/java/com/grzm/pqconninfo/alpha/util/PropertyElf.java:35-50 | the SSL parameter has no field, so never a value |
| JdbcUrls.QueryOrderCoversQueryParameters | src/main/java/com/grzm/pqconninfo/alpha/impl/JdbcElf.java:631-661 | the query order lists exactly the query parameters |
| JdbcUrls.QueryOrderSortedAfterCredentials | src/main/java/com/grzm/pqconninfo/alpha/impl/JdbcElf.java:636-645 | user then password first, the rest in declaration order |
| JdbcUrls.QueryOrderDistinct | src/main/java/com/grzm/pqconninfo/alpha/impl/JdbcElf.java:636-645 | the query order lists no parameter twice |
| JdbcUrls.QueryPairs | src/main/java/com/grzm/pqconninfo/alpha/impl/JdbcElf.java:631-661 | at most one pair per listed parameter; the lemmas below give which pairs appear and in what order |
| JdbcUrls.MakeQueryParameterString | src/main/java/com/grzm/pqconninfo/alpha/impl/JdbcElf.java:631-661 | null exactly when no query parameter has a value; otherwise the pairs of QueryStringPairs, QueryStringCount and QueryStringOrder joined by `&` |
| JdbcUrls.QueryPairsEmpty | src/main/java/com/grzm/pqconninfo/alpha/impl/JdbcElf.java:631-661 | there are no pairs exactly when no listed parameter has a value |
| JdbcUrls.QueryPairsMembers | src/main/java/com/grzm/pqconninfo/alpha/impl/JdbcElf.java:646-655 | a listed parameter with a value contributes its `keyword=encoded value` pair, and every pair is such a parameter's |
| JdbcUrls.QueryPairsCount | src/main/java/com/grzm/pqconninfo/alpha/impl/JdbcElf.java:646-655 | one pair for each listed parameter that has a value, and no others |
| JdbcUrls.QueryPairAt | src/main/java/com/grzm/pqconninfo/alpha/impl/JdbcElf.java:646-655 | the pair of a listed parameter with a value sits right after the pairs of the parameters with values listed before it |
| JdbcUrls.QueryPairsKeepOrder | src/main/java/com/grzm/pqconninfo/alpha/impl/JdbcElf.java:646-655 | the pairs keep the order in which their parameters are listed |
| JdbcUrls.QueryStringPairs | src/main/java/com/grzm/pqconninfo/alpha/impl/JdbcElf.java:631-661 | every query parameter with a value contributes its pair, and every pair belongs to a query parameter other than `ssl` that has a value; host, port, dbname, ssl and absent parameters contribute nothing |
| JdbcUrls.QueryStringCount | src/main/java/com/grzm/pqconninfo/alpha/impl/JdbcElf.java:631-661 | the query string has one pair per query parameter with a value |
| JdbcUrls.QueryStringOrder | src/main/java/com/grzm/pqconninfo/alpha/impl/JdbcElf.java:631-661 | user's pair precedes password's, both precede the others, and the others follow declaration order |
| JdbcUrls.QueryStringStartsWithCredentials | src/main/java/com/grzm/pqconninfo/alpha/impl/JdbcElf.java:631-661 | with user and password set, the string starts with the user pair, then the password pair |
| JdbcUrls.CredentialsLead | src/main/java/com/grzm/pqconninfo/alpha/impl/JdbcElf.java:631-661 | the same for any parameter order that starts with user and password |
| JdbcUrls.MakeUrlWithQueryString | src/main/java/com/grzm/pqconninfo/alpha/impl/JdbcElf.java:670-675 | extends the URL, and equals it exactly when there is no query string |
| JdbcUrls.InfoHoldsQueryParameters | src/main/java/com/grzm/pqconninfo/alpha/impl/JdbcElf.java:684-697 | the info holds a keyword exactly when it names a query parameter with a value, and holds that value |
| JdbcUrls.PropertiesHoldAllParameters | src/main/java/com/grzm/pqconninfo/alpha/impl/JdbcElf.java:705-717 | the properties hold every parameter with a value, and agree with the info on query parameters |
| JdbcUrls.PropertiesNameParameters | src/main/java/com/grzm/pqconninfo/alpha/impl/JdbcElf.java:705-717 | every property key is a parameter's keyword |
| JdbcUrls.InfoCollected | src/main/java/com/grzm/pqconninfo/alpha/impl/JdbcElf.java:684-697 | a map holding every query parameter with a value under its keyword, and only keywords of query parameters with their values, is the info |
| JdbcUrls.PropertiesCollected | src/main/java/com/grzm/pqconninfo/alpha/impl/JdbcElf.java:705-717 | the same for all parameters and the properties |
| JdbcUrls.MakeInfo | src/main/java/com/grzm/pqconninfo/alpha/impl/JdbcElf.java:684-697 | the loop builds exactly the info |
| JdbcUrls.MakeProperties | src/main/java/com/grzm/pqconninfo/alpha/impl/JdbcElf.java:705-717 | the loop builds exactly the properties |
| JdbcConnectionParams.FromIgnoresUnmappedOptions | src/main/java/com/grzm/pqconninfo/alpha/jdbc/JdbcConnectionParameters.java:47-66 | options no field reads, such as SERVICE or PASSFILE, have no effect |
| JdbcConnectionParams.FromReadsMappedOptions | src/main/java/com/grzm/pqconninfo/alpha/jdbc/JdbcConnectionParameters.java:47-66 | `From`: conninfos that agree on every option a field reads give the same parameters (with FromIgnoresUnmappedOptions, FromKeepsSecrets and FromCredentials) |
| JdbcConnectionParams.FromKeepsSecrets | src/main/java/com/grzm/pqconninfo/alpha/jdbc/JdbcConnectionParameters.java:47-66 | the password fields hold the stored values, unredacted |
| JdbcConnectionParams.FromCredentials | src/main/java/com/grzm/pqconninfo/alpha/jdbc/JdbcConnectionParameters.java:47-66 | a conninfo holding only a user and the two secrets gives parameters holding just those three |
| JdbcConnectionParams.Equals | src/main/java/com/grzm/pqconninfo/alpha/jdbc/JdbcConnectionParameters.java:190-217 | equal exactly when every field is equal |
| JdbcConnectionParams.EqualConninfoEqualParameters | src/main/java/com/grzm/pqconninfo/alpha/jdbc/JdbcConnectionParameters.java:47-66 | equal conninfos give equal parameters |
| JdbcConnectionParams.Present | src/main/java/com/grzm/pqconninfo/alpha/jdbc/JdbcConnectionParameters.java:227-258 | the shown entries are exactly the present ones |
| JdbcConnectionParams.ToStringHidesSecrets | src/main/java/com/grzm/pqconninfo/alpha/jdbc/JdbcConnectionParameters.java:227-258 | `ToString`: the display depends only on whether the secrets are set, not on their values |
| JdbcConnectionParams.ToStringShowsPasswordMarker | src/main/java/com/grzm/pqconninfo/alpha/jdbc/JdbcConnectionParameters.java:227-258 | a set password is shown as `password='****'` |
| JdbcConnectionParams.ToStringShowsSslpasswordMarker | src/main/java/com/grzm/pqconninfo/alpha/jdbc/JdbcConnectionParameters.java:227-258 | a set SSL key password is shown as `sslpassword='****'` |
| JdbcConnectionParams.PresentCount | src/main/java/com/grzm/pqconninfo/alpha/jdbc/JdbcConnectionParameters.java:227-258 | one shown entry per present field |
| JdbcConnectionParams.PresentAt | src/main/java/com/grzm/pqconninfo/alpha/jdbc/JdbcConnectionParameters.java:227-258 | a present entry is shown right after the present entries before it |
| JdbcConnectionParams.PresentKeepsOrder | src/main/java/com/grzm/pqconninfo/alpha/jdbc/JdbcConnectionParameters.java:227-258 | the shown entries keep field order |
| JdbcConnectionParams.CredentialsDisplay | src/main/java/com/grzm/pqconninfo/alpha/jdbc/JdbcConnectionParameters.java:227-258 | with only a user and the two secrets set, the entries are `user='<user>'`, `password='****'`, `sslpassword='****'` in that order |
| JdbcConnectionParams.RedactedPasswordsDisplay | src/test/java/com/grzm/pqconninfo/alpha/JdbcConnectionParametersTest.java:18-30 | the parameters from user `alice` with both secrets set print as `JdbcConnectionParameters{user='alice', password='****', sslpassword='****'}` |

## Left out

- Platform context: `Context`, `UnixContext`, `WindowsContext`, `BaseContext`, the file paths, `APPDATA`/`user.home` and the `pg_config --sysconfdir` subprocess are not modelled. Their results are fields of the `Context` value. A file the context cannot open, or one whose permissions it rejects (it fails closed on I/O errors), is `None`.
- PosixPassfile: `hasValidPermissions(File)` reads real file attributes, so only the set predicate is modelled.
- Stream reading: `BufferedReader` line splitting, character decoding and the swallowed `IOException` are not modelled. Each input is already a sequence of lines.
- Logging: the slf4j warnings for a malformed service file are not modelled. The file is treated as absent, as the code does.
- JdbcUrls.GetProperty: the reflective getter lookup of PropertyElf is an explicit keyword-to-field table. For `ssl`, reflection finds no getter, so the table gives nothing.
- JdbcUrls.EncodeUrlParam: `URLEncoder.encode` is the parameter `encode`, applied to the value. The encoder itself is not modelled.
- JdbcElf.ParseInt: the model's ParseInt accepts ASCII digits only. Other Unicode decimal digits, which Java also accepts, are not modelled.
- Thin wrappers: `PqConninfoReader`, `PqConninfoOptionsReader`, `JdbcConnectionParametersReader`, `EnumMapParamsReader`, `JdbcConninfoReader` and the `getUrl`/`getUrlWithQueryString`/`getInfo`/`toProperties`/getter delegations in JdbcConnectionParameters are not modelled. They only call the modelled functions.
- Null arguments: a null map, key or value inside a non-null map is not modelled. The Java code never stores a null value in an `EnumMap`.
- `hashCode` of PqConninfo and JdbcConnectionParameters is not modelled. The model uses value equality.
- Conninfo.From: the defensive copy is implicit because Dafny maps are values. Later mutation of the caller's map cannot be expressed and is not stated.
- Passfile.ParsePgpassLineEscapedColon and Passfile.ParsePgpassLineEscapedBackslashAndColon: the lines are built with `EntryLine` from the escaped password rather than written as raw literals. `EntryLine` joins the fields with `:`.
- PosixPassfile: the input set is not modified. This holds trivially because Dafny sets are values.
