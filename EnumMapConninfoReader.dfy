/**
 * The resolution cascade: connection options are collected stage by stage, each
 * stage filling in only the options no earlier stage supplied.  Stages, in order:
 * the caller's properties, the service file, the environment, the system user and
 * the password file.
 */
module EnumMapConninfoReader {
  import opened Wrappers
  import opened PqConninfoOptions
  import opened Conninfo
  import ServiceFile
  import Passfile

  /** Environment variable naming the service file; when set it is the only one read. */
  const PgServiceFile: string := "PGSERVICEFILE"
  /** Environment variable naming the system configuration directory. */
  const PgSysconfDir: string := "PGSYSCONFDIR"

  type Options = map<PqConninfoOption, string>

  /**
   * What the reader learns from the system: environment variables, the lines of each
   * file it may open (`None` when the file cannot be opened), and the system user.
   * The passfile named by `PGPASSFILE` is looked up by that name.
   */
  datatype Context = Context(
    env: map<string, string>,
    envServiceFile: Option<seq<string>>,
    userServiceFile: Option<seq<string>>,
    envSysconfdirServiceFile: Option<seq<string>>,
    configSysconfdirServiceFile: Option<seq<string>>,
    envPassfiles: map<string, seq<string>>,
    userPassfile: Option<seq<string>>,
    systemUser: Option<string>)

  /** `Context.getenv`. */
  function Getenv(ctx: Context, name: string): (r: Option<string>)
    ensures r.Some? <==> name in ctx.env
    ensures r.Some? ==> r.value == ctx.env[name]
  {
    Get(ctx.env, name)
  }

  /** `Context.getEnvPassfileInputStream(name)`. */
  function EnvPassfile(ctx: Context, name: string): (r: Option<seq<string>>)
    ensures r.Some? <==> name in ctx.envPassfiles
    ensures r.Some? ==> r.value == ctx.envPassfiles[name]
  {
    Get(ctx.envPassfiles, name)
  }

  /** A mutable option map, as the `EnumMap` the cascade fills in place. */
  class EnumMap {
    var entries: Options

    constructor (m: Options)
      ensures entries == m
    {
      entries := m;
    }

    /** `EnumMap.putIfAbsent`. */
    method PutIfAbsent(o: PqConninfoOption, v: string)
      modifies this
      ensures entries == if o in old(entries) then old(entries) else old(entries)[o := v]
    {
      if o !in entries {
        entries := entries[o := v];
      }
    }
  }

  // ---------------------------------------------------------------------------
  // putAllIfAbsent
  // ---------------------------------------------------------------------------

  /** `a` with every option of `b` it lacks; a missing `b` changes nothing. */
  function MergeIfAbsent(a: Options, b: Option<Options>): (r: Options)
    ensures b.None? ==> r == a
    ensures b.Some? ==> r.Keys == a.Keys + b.value.Keys
    ensures forall o :: o in a ==> o in r && r[o] == a[o]
    ensures b.Some? ==> forall o :: o in b.value && o !in a ==> r[o] == b.value[o]
  {
    if b.None? then a
    else map o | o in a.Keys + b.value.Keys :: if o in a then a[o] else b.value[o]
  }

  /** An option `a` already holds survives a merge unchanged. */
  lemma MergeKeeps(a: Options, b: Option<Options>, o: PqConninfoOption)
    requires o in a
    ensures o in MergeIfAbsent(a, b) && MergeIfAbsent(a, b)[o] == a[o]
  {
  }

  /** Every option of a merge comes from one of its two sides. */
  lemma MergeSource(a: Options, b: Option<Options>, o: PqConninfoOption)
    requires o in MergeIfAbsent(a, b)
    ensures o in a || (b.Some? && o in b.value)
  {
  }

  /** Merging is first-writer-wins: merging the same source twice adds nothing. */
  lemma MergeIfAbsentIdempotent(a: Options, b: Option<Options>)
    ensures MergeIfAbsent(MergeIfAbsent(a, b), b) == MergeIfAbsent(a, b)
  {
  }

  /** An empty source changes nothing, and neither does merging a map into itself. */
  lemma MergeIfAbsentNoOp(a: Options)
    ensures MergeIfAbsent(a, Some(map[])) == a
    ensures MergeIfAbsent(a, Some(a)) == a
  {
  }

  /** `putAllIfAbsent(a, b)`: walks the options in declaration order and fills `a` in place. */
  method PutAllIfAbsent(a: EnumMap, b: Option<Options>)
    modifies a
    ensures a.entries == MergeIfAbsent(old(a.entries), b)
  {
    if b.None? || b.value == map[] {
      return;
    }
    var bv := b.value;
    ghost var a0 := a.entries;
    var i := 0;
    while i < |Values|
      invariant 0 <= i <= |Values|
      invariant a0.Keys <= a.entries.Keys
      invariant forall o :: Ordinal(o) < i ==> (o in a.entries <==> o in a0 || o in bv)
      invariant forall o :: o in a.entries ==> (o in a0 || o in bv) && a.entries[o] == if o in a0 then a0[o] else bv[o]
    {
      var o := Values[i];
      OrdinalAt(i);
      ValuesEnumerate();
      if o in bv {
        a.PutIfAbsent(o, bv[o]);
      }
      i := i + 1;
    }
  }

  // ---------------------------------------------------------------------------
  // optsFrom
  // ---------------------------------------------------------------------------

  /** The options whose keyword names a property, with that property's value. */
  function OptionsFrom(props: map<string, string>): (r: Options)
    ensures forall o :: o in r <==> Keyword(o) in props
    ensures forall o :: o in r ==> r[o] == props[Keyword(o)]
  {
    ValuesEnumerate();
    map o | o in Values && Keyword(o) in props :: props[Keyword(o)]
  }

  /** `optsFrom(props)`: looks up every option's keyword in turn. */
  method OptsFrom(props: map<string, string>) returns (opts: Options)
    ensures opts == OptionsFrom(props)
  {
    opts := map[];
    var i := 0;
    while i < |Values|
      invariant 0 <= i <= |Values|
      invariant forall o :: Ordinal(o) < i ==> (o in opts <==> Keyword(o) in props)
      invariant forall o :: o in opts ==> Keyword(o) in props && opts[o] == props[Keyword(o)]
    {
      var o := Values[i];
      OrdinalAt(i);
      ValuesEnumerate();
      if Keyword(o) in props {
        opts := opts[o := props[Keyword(o)]];
      }
      i := i + 1;
    }
  }

  /** A property that is no option's keyword contributes nothing. */
  lemma UnknownPropertyIgnored(props: map<string, string>, name: string, value: string)
    requires LookupKeyword(name).None?
    ensures OptionsFrom(props[name := value]) == OptionsFrom(props - {name})
  {
    LookupKeywordSound(name);
    assert forall o :: Keyword(o) != name;
  }

  // ---------------------------------------------------------------------------
  // serviceOpts
  // ---------------------------------------------------------------------------

  /** The service to look up: the `service` option, else `PGSERVICE`. */
  function ServiceName(ctx: Context, opts: Options): (r: Option<string>)
    ensures SERVICE in opts ==> r == Some(opts[SERVICE])
    ensures SERVICE !in opts ==> r == Getenv(ctx, EnvironmentVariable(SERVICE).value)
  {
    if SERVICE in opts then Some(opts[SERVICE])
    else Getenv(ctx, EnvironmentVariable(SERVICE).value)
  }

  /** A service file's options for `service`: nothing when it is missing, lacks the group or is malformed. */
  function FileConninfo(service: string, file: Option<seq<string>>): (r: Option<Options>)
    ensures file.None? ==> r.None?
    ensures file.Some? && ServiceFile.ServiceConninfo(service, file.value).Success? ==>
              r == ServiceFile.ServiceConninfo(service, file.value).value
    ensures file.Some? && ServiceFile.ServiceConninfo(service, file.value).Failure? ==> r.None?
  {
    if file.None? then None
    else
      match ServiceFile.ServiceConninfo(service, file.value)
      case Success(info) => info
      case Failure(_) => None
  }

  /**
   * The file options for `service`: the `PGSERVICEFILE` file alone when that variable
   * is set; otherwise the user file, falling back to the system file (the
   * `PGSYSCONFDIR` one if that variable is set, else the configured one).
   */
  function ServiceFileOptions(ctx: Context, service: string): Option<Options> {
    if Getenv(ctx, PgServiceFile).Some? then FileConninfo(service, ctx.envServiceFile)
    else
      var user := FileConninfo(service, ctx.userServiceFile);
      if user.Some? then user
      else if Getenv(ctx, PgSysconfDir).Some? then FileConninfo(service, ctx.envSysconfdirServiceFile)
      else FileConninfo(service, ctx.configSysconfdirServiceFile)
  }

  /** `serviceOpts`: nothing without a service name, else the name plus its file options. */
  function ServiceOptions(ctx: Context, opts: Options): (r: Option<Options>)
    ensures r.None? <==> ServiceName(ctx, opts).None?
    ensures r.Some? ==> SERVICE in r.value && r.value[SERVICE] == ServiceName(ctx, opts).value
  {
    match ServiceName(ctx, opts)
    case None => None
    case Some(service) => Some(MergeIfAbsent(map[SERVICE := service], ServiceFileOptions(ctx, service)))
  }

  /** `getServiceConninfo(service, filename, is)`: a malformed file counts as no file. */
  method ReadServiceFile(service: string, file: Option<seq<string>>) returns (r: Option<Options>)
    ensures r == FileConninfo(service, file)
  {
    var res := ServiceFile.GetServiceConninfo(service, file);
    if res.Failure? {
      return None;
    }
    return res.value;
  }

  /** `serviceOpts(context, opts)`, filling a local map in place. */
  method ServiceOpts(ctx: Context, opts: Options) returns (r: Option<Options>)
    ensures r == ServiceOptions(ctx, opts)
  {
    var service := Get(opts, SERVICE);
    if service.None? {
      service := Getenv(ctx, EnvironmentVariable(SERVICE).value);
    }
    if service.None? {
      return None;
    }
    var info := new EnumMap(map[SERVICE := service.value]);
    var envServiceFile := Getenv(ctx, PgServiceFile);
    if envServiceFile.Some? {
      if ctx.envServiceFile.Some? {
        var envServiceInfo := ReadServiceFile(service.value, ctx.envServiceFile);
        if envServiceInfo.Some? {
          PutAllIfAbsent(info, envServiceInfo);
        }
      }
    } else {
      var serviceConninfo := ReadServiceFile(service.value, ctx.userServiceFile);
      if serviceConninfo.None? {
        if Getenv(ctx, PgSysconfDir).Some? {
          serviceConninfo := ReadServiceFile(service.value, ctx.envSysconfdirServiceFile);
        } else {
          serviceConninfo := ReadServiceFile(service.value, ctx.configSysconfdirServiceFile);
        }
      }
      if serviceConninfo.Some? {
        PutAllIfAbsent(info, serviceConninfo);
      }
    }
    return Some(info.entries);
  }

  /** With `PGSERVICEFILE` set, no other service file is consulted. */
  lemma EnvServiceFileHasNoFallback(ctx: Context, other: Context, service: string)
    requires Getenv(ctx, PgServiceFile).Some?
    requires other == ctx.(userServiceFile := other.userServiceFile,
                           envSysconfdirServiceFile := other.envSysconfdirServiceFile,
                           configSysconfdirServiceFile := other.configSysconfdirServiceFile)
    ensures ServiceFileOptions(ctx, service) == FileConninfo(service, ctx.envServiceFile)
    ensures ServiceFileOptions(other, service) == ServiceFileOptions(ctx, service)
  {
  }

  /** Without `PGSERVICEFILE`, a user file that defines the service hides both system files. */
  lemma UserServiceFileHidesSystemFiles(ctx: Context, other: Context, service: string)
    requires Getenv(ctx, PgServiceFile).None?
    requires FileConninfo(service, ctx.userServiceFile).Some?
    requires other == ctx.(envSysconfdirServiceFile := other.envSysconfdirServiceFile,
                           configSysconfdirServiceFile := other.configSysconfdirServiceFile)
    ensures ServiceFileOptions(ctx, service) == FileConninfo(service, ctx.userServiceFile)
    ensures ServiceFileOptions(other, service) == ServiceFileOptions(ctx, service)
  {
  }

  /** Otherwise the system file is read: the `PGSYSCONFDIR` one exactly when that variable is set. */
  lemma SystemServiceFileFallback(ctx: Context, service: string)
    requires Getenv(ctx, PgServiceFile).None?
    requires FileConninfo(service, ctx.userServiceFile).None?
    ensures Getenv(ctx, PgSysconfDir).Some? ==>
              ServiceFileOptions(ctx, service) == FileConninfo(service, ctx.envSysconfdirServiceFile)
    ensures Getenv(ctx, PgSysconfDir).None? ==>
              ServiceFileOptions(ctx, service) == FileConninfo(service, ctx.configSysconfdirServiceFile)
  {
  }

  /** The service stage's options other than `service` itself come from the chosen file. */
  lemma ServiceOptionsFromFile(ctx: Context, opts: Options, o: PqConninfoOption)
    requires ServiceName(ctx, opts).Some? && o != SERVICE
    ensures var r := ServiceOptions(ctx, opts).value;
            var file := ServiceFileOptions(ctx, ServiceName(ctx, opts).value);
            (o in r <==> file.Some? && o in file.value) && (o in r ==> r[o] == file.value[o])
  {
  }

  // ---------------------------------------------------------------------------
  // environmentVariables
  // ---------------------------------------------------------------------------

  /** Whether `o` has an environment variable and that variable is set. */
  predicate EnvironmentSets(ctx: Context, o: PqConninfoOption) {
    EnvironmentVariable(o).Some? && EnvironmentVariable(o).value in ctx.env
  }

  /** The options absent from `opts` whose environment variable is set, with its value. */
  function EnvOptions(ctx: Context, opts: Options): (r: Options)
    ensures forall o :: o in r <==> o !in opts && EnvironmentSets(ctx, o)
    ensures forall o :: o in r ==> EnvironmentSets(ctx, o) && r[o] == ctx.env[EnvironmentVariable(o).value]
  {
    ValuesEnumerate();
    map o | o in Values && o !in opts && EnvironmentSets(ctx, o) :: ctx.env[EnvironmentVariable(o).value]
  }

  /** `environmentVariables(context, opts)`: reads each option's variable in turn. */
  method EnvironmentVariables(ctx: Context, opts: Options) returns (envVars: Options)
    ensures envVars == EnvOptions(ctx, opts)
  {
    envVars := map[];
    var i := 0;
    while i < |Values|
      invariant 0 <= i <= |Values|
      invariant forall o :: Ordinal(o) < i ==> (o in envVars <==> o !in opts && EnvironmentSets(ctx, o))
      invariant forall o :: o in envVars ==>
                  o !in opts && EnvironmentSets(ctx, o) && envVars[o] == ctx.env[EnvironmentVariable(o).value]
    {
      var o := Values[i];
      OrdinalAt(i);
      ValuesEnumerate();
      i := i + 1;
      if EnvironmentVariable(o).None? || o in opts {
        continue;
      }
      var val := Getenv(ctx, EnvironmentVariable(o).value);
      if val.Some? {
        envVars := envVars[o := val.value];
      }
    }
  }

  // ---------------------------------------------------------------------------
  // systemUser, passfilePassword, passfileInfo
  // ---------------------------------------------------------------------------

  /** `systemUser`: the system user as `user`, unless a user is already set. */
  function SystemUserOptions(ctx: Context, opts: Options): (r: Option<Options>)
    ensures r.Some? <==> USER !in opts && ctx.systemUser.Some?
    ensures r.Some? ==> r.value == map[USER := ctx.systemUser.value]
  {
    if USER in opts then None
    else match ctx.systemUser
      case None => None
      case Some(user) => Some(map[USER := user])
  }

  /** The password file: the one `PGPASSFILE` names if that variable is set, else the user's. */
  function PassfileLines(ctx: Context): (r: Option<seq<string>>)
    ensures EnvironmentVariable(PASSFILE).value in ctx.env ==>
              r == EnvPassfile(ctx, ctx.env[EnvironmentVariable(PASSFILE).value])
    ensures EnvironmentVariable(PASSFILE).value !in ctx.env ==> r == ctx.userPassfile
  {
    match Getenv(ctx, EnvironmentVariable(PASSFILE).value)
    case Some(name) => EnvPassfile(ctx, name)
    case None => ctx.userPassfile
  }

  /** `passfilePassword`: the password file's entry for the current host, port, database and user. */
  function PassfilePassword(ctx: Context, opts: Options): (r: Option<string>)
    ensures PassfileLines(ctx).None? ==> r.None?
    ensures PassfileLines(ctx).Some? ==>
              r == Passfile.PasswordFor(Get(opts, HOST), Get(opts, PORT), Get(opts, DBNAME), Get(opts, USER),
                                        PassfileLines(ctx).value)
  {
    match PassfileLines(ctx)
    case None => None
    case Some(lines) => Passfile.PasswordFor(Get(opts, HOST), Get(opts, PORT), Get(opts, DBNAME), Get(opts, USER), lines)
  }

  /** `passfileInfo`: the password file's password, unless a password is already set. */
  function PassfileOptions(ctx: Context, opts: Options): (r: Option<Options>)
    ensures r.Some? <==> PASSWORD !in opts && PassfilePassword(ctx, opts).Some?
    ensures r.Some? ==> r.value == map[PASSWORD := PassfilePassword(ctx, opts).value]
  {
    if PASSWORD in opts then None
    else match PassfilePassword(ctx, opts)
      case None => None
      case Some(password) => Some(map[PASSWORD := password])
  }

  /** The password file is chosen by the environment alone, never by the `passfile` option. */
  lemma PassfileIgnoresPassfileOption(ctx: Context, opts: Options, name: string)
    ensures PassfilePassword(ctx, opts[PASSFILE := name]) == PassfilePassword(ctx, opts)
    ensures PassfilePassword(ctx, opts - {PASSFILE}) == PassfilePassword(ctx, opts)
  {
    assert Get(opts[PASSFILE := name], HOST) == Get(opts, HOST);
    assert Get(opts[PASSFILE := name], PORT) == Get(opts, PORT);
    assert Get(opts[PASSFILE := name], DBNAME) == Get(opts, DBNAME);
    assert Get(opts[PASSFILE := name], USER) == Get(opts, USER);
    assert Get(opts - {PASSFILE}, HOST) == Get(opts, HOST);
    assert Get(opts - {PASSFILE}, PORT) == Get(opts, PORT);
    assert Get(opts - {PASSFILE}, DBNAME) == Get(opts, DBNAME);
    assert Get(opts - {PASSFILE}, USER) == Get(opts, USER);
  }

  // ---------------------------------------------------------------------------
  // read
  // ---------------------------------------------------------------------------

  /** The options after the service stage. */
  function AfterService(ctx: Context, props: map<string, string>): Options {
    var opts := OptionsFrom(props);
    MergeIfAbsent(opts, ServiceOptions(ctx, opts))
  }

  /** The options after the environment stage. */
  function AfterEnvironment(ctx: Context, props: map<string, string>): Options {
    var opts := AfterService(ctx, props);
    MergeIfAbsent(opts, Some(EnvOptions(ctx, opts)))
  }

  /** The options after the system-user stage. */
  function AfterSystemUser(ctx: Context, props: map<string, string>): Options {
    var opts := AfterEnvironment(ctx, props);
    MergeIfAbsent(opts, SystemUserOptions(ctx, opts))
  }

  /** `read(context, props)`: the options after the password-file stage. */
  function Resolve(ctx: Context, props: map<string, string>): PqConninfo {
    var opts := AfterSystemUser(ctx, props);
    From(MergeIfAbsent(opts, PassfileOptions(ctx, opts)))
  }

  /** `read(context, props)`, merging each stage into one map in place. */
  method Read(ctx: Context, props: map<string, string>) returns (r: PqConninfo)
    ensures r == Resolve(ctx, props)
  {
    var initial := OptsFrom(props);
    var opts := new EnumMap(initial);
    var service := ServiceOpts(ctx, opts.entries);
    PutAllIfAbsent(opts, service);
    var env := EnvironmentVariables(ctx, opts.entries);
    PutAllIfAbsent(opts, Some(env));
    PutAllIfAbsent(opts, SystemUserOptions(ctx, opts.entries));
    PutAllIfAbsent(opts, PassfileOptions(ctx, opts.entries));
    r := From(opts.entries);
  }

  /** No stage overrides an earlier one: each only adds options. */
  lemma StagesOnlyAdd(ctx: Context, props: map<string, string>, o: PqConninfoOption)
    ensures var s0 := OptionsFrom(props);
            var s1 := AfterService(ctx, props);
            var s2 := AfterEnvironment(ctx, props);
            var s3 := AfterSystemUser(ctx, props);
            var s4 := Resolve(ctx, props).opts;
            (o in s0 ==> o in s1 && s1[o] == s0[o])
            && (o in s1 ==> o in s2 && s2[o] == s1[o])
            && (o in s2 ==> o in s3 && s3[o] == s2[o])
            && (o in s3 ==> o in s4 && s4[o] == s3[o])
  {
    var s0 := OptionsFrom(props);
    var s1 := AfterService(ctx, props);
    var s2 := AfterEnvironment(ctx, props);
    var s3 := AfterSystemUser(ctx, props);
    if o in s0 { MergeKeeps(s0, ServiceOptions(ctx, s0), o); }
    if o in s1 { MergeKeeps(s1, Some(EnvOptions(ctx, s1)), o); }
    if o in s2 { MergeKeeps(s2, SystemUserOptions(ctx, s2), o); }
    if o in s3 { MergeKeeps(s3, PassfileOptions(ctx, s3), o); }
  }

  /** A caller's property is final. */
  lemma PropertiesWin(ctx: Context, props: map<string, string>, o: PqConninfoOption)
    requires Keyword(o) in props
    ensures o in Resolve(ctx, props).opts && Resolve(ctx, props).opts[o] == props[Keyword(o)]
  {
    StagesOnlyAdd(ctx, props, o);
  }

  /** The service file supplies what the properties leave open, ahead of the environment. */
  lemma ServiceFileBeatsEnvironment(ctx: Context, props: map<string, string>, o: PqConninfoOption)
    requires Keyword(o) !in props && o != SERVICE
    requires var name := ServiceName(ctx, OptionsFrom(props));
             name.Some? && ServiceFileOptions(ctx, name.value).Some?
             && o in ServiceFileOptions(ctx, name.value).value
    ensures var file := ServiceFileOptions(ctx, ServiceName(ctx, OptionsFrom(props)).value).value;
            o in Resolve(ctx, props).opts && Resolve(ctx, props).opts[o] == file[o]
  {
    ServiceOptionsFromFile(ctx, OptionsFrom(props), o);
    StagesOnlyAdd(ctx, props, o);
  }

  /** A service named only by `PGSERVICE` is itself recorded as the `service` option. */
  lemma ServiceNameIsRecorded(ctx: Context, props: map<string, string>)
    requires ServiceName(ctx, OptionsFrom(props)).Some?
    ensures SERVICE in Resolve(ctx, props).opts
    ensures Resolve(ctx, props).opts[SERVICE] == ServiceName(ctx, OptionsFrom(props)).value
  {
    StagesOnlyAdd(ctx, props, SERVICE);
  }

  /** An environment variable supplies its option when neither properties nor service file did. */
  lemma EnvironmentFillsGaps(ctx: Context, props: map<string, string>, o: PqConninfoOption)
    requires o !in AfterService(ctx, props) && EnvironmentSets(ctx, o)
    ensures o in Resolve(ctx, props).opts
    ensures Resolve(ctx, props).opts[o] == ctx.env[EnvironmentVariable(o).value]
  {
    StagesOnlyAdd(ctx, props, o);
  }

  /** An option no stage supplies stays absent; an option without a variable needs an earlier stage. */
  lemma EnvironmentOnlySetVariables(ctx: Context, props: map<string, string>, o: PqConninfoOption)
    requires o !in AfterService(ctx, props) && !EnvironmentSets(ctx, o)
    ensures o !in AfterEnvironment(ctx, props)
  {
  }

  /** The system user is the default user, used only when no earlier stage named one. */
  lemma SystemUserIsDefault(ctx: Context, props: map<string, string>)
    requires USER !in AfterEnvironment(ctx, props) && ctx.systemUser.Some?
    ensures USER in Resolve(ctx, props).opts && Resolve(ctx, props).opts[USER] == ctx.systemUser.value
  {
    StagesOnlyAdd(ctx, props, USER);
  }

  /**
   * The password file is consulted only when no password is set, and then for the
   * host, port, database and user resolved so far (the system user included).
   */
  lemma PasswordFromPassfile(ctx: Context, props: map<string, string>)
    requires PASSWORD !in AfterSystemUser(ctx, props)
    ensures Get(Resolve(ctx, props).opts, PASSWORD) == PassfilePassword(ctx, AfterSystemUser(ctx, props))
  {
  }

  /** A password from an earlier stage is never replaced by the password file's. */
  lemma EarlierPasswordKept(ctx: Context, props: map<string, string>)
    requires PASSWORD in AfterSystemUser(ctx, props)
    ensures Get(Resolve(ctx, props).opts, PASSWORD) == Some(AfterSystemUser(ctx, props)[PASSWORD])
  {
    StagesOnlyAdd(ctx, props, PASSWORD);
  }

  /** Whether the service file chosen for the service named in `opts` sets `o`. */
  predicate ServiceFileSets(ctx: Context, opts: Options, o: PqConninfoOption) {
    var name := ServiceName(ctx, opts);
    name.Some? && ServiceFileOptions(ctx, name.value).Some? && o in ServiceFileOptions(ctx, name.value).value
  }

  /** Whether the properties or the service stage supply `o`. */
  predicate SuppliedBeforeEnvironment(ctx: Context, props: map<string, string>, o: PqConninfoOption) {
    Keyword(o) in props || o == SERVICE || ServiceFileSets(ctx, OptionsFrom(props), o)
  }

  /** After the service stage, every option came from the properties or the service stage. */
  lemma ServiceStageSource(ctx: Context, props: map<string, string>, o: PqConninfoOption)
    requires o in AfterService(ctx, props)
    ensures SuppliedBeforeEnvironment(ctx, props, o)
  {
    var s0 := OptionsFrom(props);
    if o !in s0 && o != SERVICE {
      ServiceOptionsFromFile(ctx, s0, o);
    }
  }

  /** After the system-user stage, every option came from one of the first four stages. */
  lemma SystemUserStageSource(ctx: Context, props: map<string, string>, o: PqConninfoOption)
    requires o in AfterSystemUser(ctx, props)
    ensures SuppliedBeforeEnvironment(ctx, props, o) || EnvironmentSets(ctx, o)
            || (o == USER && ctx.systemUser.Some?)
  {
    var s1 := AfterService(ctx, props);
    var s2 := AfterEnvironment(ctx, props);
    MergeSource(s2, SystemUserOptions(ctx, s2), o);
    if o in s2 {
      MergeSource(s1, Some(EnvOptions(ctx, s1)), o);
      if o in s1 {
        ServiceStageSource(ctx, props, o);
      }
    }
  }

  /** Every resolved option was supplied by some stage. */
  lemma ResolvedOptionsHaveASource(ctx: Context, props: map<string, string>, o: PqConninfoOption)
    requires o in Resolve(ctx, props).opts
    ensures || Keyword(o) in props
            || o == SERVICE
            || ServiceFileSets(ctx, OptionsFrom(props), o)
            || EnvironmentSets(ctx, o)
            || (o == USER && ctx.systemUser.Some?)
            || (o == PASSWORD && PassfileLines(ctx).Some?)
  {
    var s3 := AfterSystemUser(ctx, props);
    MergeSource(s3, PassfileOptions(ctx, s3), o);
    if o in s3 {
      SystemUserStageSource(ctx, props, o);
    }
  }
}
