/**
 Process configuration: defaults, environment and command line, in rising precedence, and the
 bounds a configuration must satisfy before it is accepted. Number formats other than
 integers, URLs and network addresses are library behaviour and enter as parameters.
 */
module Config {
  import opened Wrappers
  import Text
  import FlagIntegers

  datatype Setting =
    | Address | ManagementAddress | ServerURL | CacheControl | AccessLog | MaxProcs | MemoryLimitMiB | LogLevel
    | QueryTimeout | ShutdownTimeout | DatabaseURL | DatabaseSchema | DatabaseHost | DatabaseUsername
    | DatabasePassword | DatabaseName | DatabaseSSLMode | DatabaseMaxConns | DatabaseMinConns | StatementCache
    | MetricsEnabled | TracingEnabled | OTLPEndpoint | TraceSampleRatio

  const SETTINGS: seq<Setting> := [
    Address, ManagementAddress, ServerURL, CacheControl, AccessLog, MaxProcs, MemoryLimitMiB, LogLevel,
    QueryTimeout, ShutdownTimeout, DatabaseURL, DatabaseSchema, DatabaseHost, DatabaseUsername,
    DatabasePassword, DatabaseName, DatabaseSSLMode, DatabaseMaxConns, DatabaseMinConns, StatementCache,
    MetricsEnabled, TracingEnabled, OTLPEndpoint, TraceSampleRatio]

  /** A 64-bit float: exact where it is a number, and every comparison with NotANumber is false. */
  datatype Float = Number(value: real) | PositiveInfinity | NegativeInfinity | NotANumber
  {
    predicate Below(bound: real) { NegativeInfinity? || (Number? && value < bound) }
    predicate Above(bound: real) { PositiveInfinity? || (Number? && value > bound) }
  }

  datatype Value = TextValue(text: string) | BoolValue(on: bool) | IntValue(number: int) | RatioValue(ratio: Float) | DurationValue(nanoseconds: int)

  datatype Kind = TextKind | BoolKind | IntKind | RatioKind | DurationKind

  function KindOf(s: Setting): Kind {
    match s
    case AccessLog | MetricsEnabled | TracingEnabled => BoolKind
    case MaxProcs | MemoryLimitMiB | DatabaseMaxConns | DatabaseMinConns | StatementCache => IntKind
    case TraceSampleRatio => RatioKind
    case QueryTimeout | ShutdownTimeout => DurationKind
    case _ => TextKind
  }

  predicate HasKind(v: Value, k: Kind) {
    match k
    case TextKind => v.TextValue?
    case BoolKind => v.BoolValue?
    case IntKind => v.IntValue? && Text.MIN_INT64 <= v.number <= Text.MAX_INT64
    case RatioKind => v.RatioValue?
    case DurationKind => v.DurationValue?
  }

  function FlagName(s: Setting): string {
    match s
    case Address => "address" case ManagementAddress => "management-address" case ServerURL => "server-url"
    case CacheControl => "cache-control" case AccessLog => "access-log" case MaxProcs => "max-procs"
    case MemoryLimitMiB => "memory-limit-mib" case LogLevel => "log-level" case QueryTimeout => "query-timeout"
    case ShutdownTimeout => "shutdown-timeout" case DatabaseURL => "database-url" case DatabaseSchema => "database-schema"
    case DatabaseHost => "db-host" case DatabaseUsername => "db-username" case DatabasePassword => "db-password"
    case DatabaseName => "db-database" case DatabaseSSLMode => "db-sslmode" case DatabaseMaxConns => "db-max-conns"
    case DatabaseMinConns => "db-min-conns" case StatementCache => "db-statement-cache" case MetricsEnabled => "metrics-enabled"
    case TracingEnabled => "tracing-enabled" case OTLPEndpoint => "otlp-endpoint" case TraceSampleRatio => "trace-sample-ratio"
  }

  function EnvironmentName(s: Setting): string {
    match s
    case Address => "API_ADDRESS" case ManagementAddress => "API_MANAGEMENT_ADDRESS" case ServerURL => "API_SERVER_URL"
    case CacheControl => "API_CACHE_CONTROL" case AccessLog => "API_ACCESS_LOG" case MaxProcs => "API_MAX_PROCS"
    case MemoryLimitMiB => "API_MEMORY_LIMIT_MIB" case LogLevel => "API_LOG_LEVEL" case QueryTimeout => "API_QUERY_TIMEOUT"
    case ShutdownTimeout => "API_SHUTDOWN_TIMEOUT" case DatabaseURL => "API_DATABASE_URL" case DatabaseSchema => "API_DATABASE_SCHEMA"
    case DatabaseHost => "API_DB_HOST" case DatabaseUsername => "API_DB_USERNAME" case DatabasePassword => "API_DB_PASSWORD"
    case DatabaseName => "API_DB_DATABASE" case DatabaseSSLMode => "API_DB_SSLMODE" case DatabaseMaxConns => "API_DB_MAX_CONNS"
    case DatabaseMinConns => "API_DB_MIN_CONNS" case StatementCache => "API_DB_STATEMENT_CACHE" case MetricsEnabled => "API_METRICS_ENABLED"
    case TracingEnabled => "API_TRACING_ENABLED" case OTLPEndpoint => "OTEL_EXPORTER_OTLP_ENDPOINT" case TraceSampleRatio => "OTEL_TRACES_SAMPLER_ARG"
  }

  const SECOND := 1_000_000_000

  function DefaultOf(s: Setting): (v: Value)
    ensures HasKind(v, KindOf(s))
  {
    match s
    case Address => TextValue(":8080")
    case ManagementAddress => TextValue("127.0.0.1:8081")
    case ServerURL => TextValue("http://localhost:8080")
    case CacheControl => TextValue("public, max-age=60, stale-while-revalidate=300")
    case LogLevel => TextValue("info")
    case DatabaseSchema => TextValue("public")
    case DatabaseName => TextValue("discogs")
    case DatabaseSSLMode => TextValue("prefer")
    case DatabaseURL | DatabaseHost | DatabaseUsername | DatabasePassword | OTLPEndpoint => TextValue("")
    case AccessLog | TracingEnabled => BoolValue(false)
    case MetricsEnabled => BoolValue(true)
    case MaxProcs | MemoryLimitMiB | DatabaseMinConns => IntValue(0)
    case DatabaseMaxConns => IntValue(10)
    case StatementCache => IntValue(128)
    case QueryTimeout => DurationValue(10 * SECOND)
    case ShutdownTimeout => DurationValue(30 * SECOND)
    case TraceSampleRatio => RatioValue(Number(0.1))
  }

  /** Library behaviour. */
  datatype Library = Library(
    bool_: string -> Option<bool>,
    ratio: string -> Option<Float>,
    duration: string -> Option<int>,
    absoluteURL: string -> Option<string>,
    resolves: string -> bool,
    level: string -> Option<int>,
    databaseURL: (string, string, string, string, string, string) -> Option<string>)

  function Wrap<T>(parsed: Option<T>, make: T -> Value): Option<Value> {
    if parsed.None? then None else Some(make(parsed.value))
  }

  function ParseTyped(lib: Library, k: Kind, text: string, integer: Option<int>): Option<Value> {
    match k
    case TextKind => Some(TextValue(text))
    case BoolKind => Wrap(lib.bool_(text), b => BoolValue(b))
    case IntKind => Wrap(integer, n => IntValue(n))
    case RatioKind => Wrap(lib.ratio(text), r => RatioValue(r))
    case DurationKind => Wrap(lib.duration(text), d => DurationValue(d))
  }

  /** A setting's value from the environment: set text counts as it stands, blank typed text means the default. */
  function EnvironmentValue(lib: Library, env: map<string, string>, s: Setting): Option<Value> {
    if EnvironmentName(s) !in env then Some(DefaultOf(s))
    else
      var raw := env[EnvironmentName(s)];
      if KindOf(s).TextKind? then Some(TextValue(raw))
      else
        var text := Text.TrimSpace(raw);
        if text == "" then Some(DefaultOf(s))
        else ParseTyped(lib, KindOf(s), text, Text.ParseInt(text, Text.MIN_INT64, Text.MAX_INT64))
  }

  function FlagValue(lib: Library, s: Setting, text: string): Option<Value> {
    ParseTyped(lib, KindOf(s), text, FlagIntegers.ParseFlagInteger(text))
  }

  /** The one variable set, to this text. */
  function Alone(s: Setting, text: string): map<string, string> { map[EnvironmentName(s) := text] }

  /** Decimal text without outer white space, and a leading zero only below 8 in magnitude. */
  predicate PlainInteger(text: string) {
    var n := Text.ParseInt(text, Text.MIN_INT64, Text.MAX_INT64);
    n.Some? && (FlagIntegers.LeadingZero(text) ==> -8 < n.value < 8)
  }

  /**
   Flags are promised the meaning of their variables. For integer settings the two accept a text
   with one meaning exactly when it is a plain integer.
   */
  lemma IntegerFlagMeansVariable(lib: Library, s: Setting, text: string)
    requires KindOf(s).IntKind?
    ensures (FlagValue(lib, s, text).Some? && FlagValue(lib, s, text) == EnvironmentValue(lib, Alone(s, text), s)) <==> PlainInteger(text)
  {
    hide EnvironmentName, FlagIntegers.ParseFlagInteger, Text.ParseInt, Text.TrimSpace;
    var n := Text.ParseInt(text, Text.MIN_INT64, Text.MAX_INT64);
    if n.Some? {
      FlagIntegers.DecimalAgrees(text, n.value);
      FlagIntegers.DecimalTrimmed(text, n.value);
    }
    if FlagValue(lib, s, text).Some? { FlagIntegers.FlagIntegerTrimmed(text); }
  }

  /** The library's parsers of booleans, floats and durations take neither empty text nor outer white space. */
  ghost predicate RefusesOuterSpace(lib: Library) {
    forall text :: text == "" || !Text.Trimmed(text) ==>
      lib.bool_(text).None? && lib.ratio(text).None? && lib.duration(text).None?
  }

  /** The text is not blank and the parser of the variable has no value for it. */
  predicate VariableRefuses(lib: Library, s: Setting, text: string) {
    var trimmed := Text.TrimSpace(text);
    trimmed != "" && ParseTyped(lib, KindOf(s), trimmed, Text.ParseInt(trimmed, Text.MIN_INT64, Text.MAX_INT64)).None?
  }

  /** When a flag and its variable do the same with a text. */
  ghost predicate SameMeaning(lib: Library, s: Setting, text: string) {
    match KindOf(s)
    case TextKind => true
    case IntKind => PlainInteger(text) || (FlagIntegers.ParseFlagInteger(text).None? && VariableRefuses(lib, s, text))
    case _ => (text != "" && Text.Trimmed(text)) || VariableRefuses(lib, s, text)
  }

  /**
   For every setting and every text, refused text included: text settings always agree, integers
   on plain integers, the others on text that needs no trimming, and otherwise the two agree only
   where both refuse. Blank text never agrees: it is the default as a variable and an error as a flag.
   */
  lemma FlagMeansVariable(lib: Library, s: Setting, text: string)
    requires RefusesOuterSpace(lib)
    ensures FlagValue(lib, s, text) == EnvironmentValue(lib, Alone(s, text), s) <==> SameMeaning(lib, s, text)
  {
    hide EnvironmentName, FlagIntegers.ParseFlagInteger, Text.ParseInt, Text.TrimSpace;
    if KindOf(s).IntKind? {
      IntegerFlagMeansVariable(lib, s, text);
    } else {
      OtherFlagMeansVariable(lib, s, text);
    }
  }

  lemma OtherFlagMeansVariable(lib: Library, s: Setting, text: string)
    requires RefusesOuterSpace(lib) && !KindOf(s).IntKind?
    ensures FlagValue(lib, s, text) == EnvironmentValue(lib, Alone(s, text), s) <==> SameMeaning(lib, s, text)
  {
    hide EnvironmentName, FlagIntegers.ParseFlagInteger, Text.ParseInt, Text.TrimSpace;
    var before, after := Text.TrimSpaceDrops(text);
    if Text.Trimmed(text) { Text.TrimSpaceFixesTrimmed(text); }
  }

  /** A leading zero makes a different number: 8 as a flag, 10 as a variable. */
  lemma LeadingZeroDiffers(lib: Library)
    ensures FlagValue(lib, MaxProcs, "010") == Some(IntValue(8))
    ensures EnvironmentValue(lib, Alone(MaxProcs, "010"), MaxProcs) == Some(IntValue(10))
  {
    assert "010"[..2] == "01" && "01"[..1] == "0" && "0"[..0] == "";
    assert Text.DigitsValue("0") == 0 && Text.DigitsValue("01") == 1 && Text.DigitsValue("010") == 10;
    Text.TrimSpaceFixesTrimmed("010");
    FlagIntegers.OctalTen();
  }

  // ---------------------------------------------------------------- the command line

  /** A flag the command line can name: a setting, or one of the two control switches. */
  datatype Target = OfSetting(setting: Setting) | HealthcheckSwitch | VersionSwitch

  datatype Assignment = Assignment(target: Target, text: string)

  function TargetNamed(name: string, candidates: seq<Setting>): Option<Target> {
    if candidates == [] then
      if name == "healthcheck" then Some(HealthcheckSwitch) else if name == "version" then Some(VersionSwitch) else None
    else if FlagName(candidates[0]) == name then Some(OfSetting(candidates[0]))
    else TargetNamed(name, candidates[1..])
  }

  predicate IsSwitch(t: Target) {
    t.HealthcheckSwitch? || t.VersionSwitch? || KindOf(t.setting).BoolKind?
  }

  /** The position of the first equals sign at or after `from`, or the length. */
  function EqualsFrom(name: string, from: nat): (i: nat)
    requires from <= |name|
    ensures from <= i <= |name|
    decreases |name| - from
  {
    if from == |name| || name[from] == '=' then from else EqualsFrom(name, from + 1)
  }

  /** One flag of the command line: the assignment it makes and how many arguments it takes. */
  function NextFlag(args: seq<string>): (next: Option<(Assignment, nat)>)
    requires args != []
    ensures next.Some? ==> 1 <= next.value.1 <= |args|
  {
    var s := args[0];
    if |s| < 2 || s[0] != '-' then None
    else
      var name := if s[1] == '-' then s[2..] else s[1..];
      if name == [] || name[0] == '-' || name[0] == '=' then None
      else
        var cut := EqualsFrom(name, 1);
        var hasValue := cut < |name|;
        var target := TargetNamed(name[..cut], SETTINGS);
        if target.None? then None
        else if hasValue then Some((Assignment(target.value, name[cut + 1..]), 1))
        else if IsSwitch(target.value) then Some((Assignment(target.value, "true"), 1))
        else if |args| > 1 then Some((Assignment(target.value, args[1]), 2))
        else None
  }

  ghost predicate Spells(argument: string, rest: string) {
    argument == "-" + rest || argument == "--" + rest
  }

  /** The forms of a flag: with its value after an equals sign, a switch on its own, or any other with its value as the next argument. */
  ghost predicate FlagForm(args: seq<string>, a: Assignment, taken: nat, name: string)
    requires args != []
  {
    TargetNamed(name, SETTINGS) == Some(a.target) &&
    ((Spells(args[0], name + "=" + a.text) && taken == 1)
     || (Spells(args[0], name) && IsSwitch(a.target) && a.text == "true" && taken == 1)
     || (Spells(args[0], name) && !IsSwitch(a.target) && |args| >= 2 && a.text == args[1] && taken == 2))
  }

  ghost predicate CleanName(name: string) {
    name != "" && name[0] != '-' && forall i :: 0 <= i < |name| ==> name[i] != '='
  }

  /** The setting a flag name belongs to, told from its length and a letter. */
  function SettingOf(name: string): Setting {
    if |name| == 7 then (if name[0] == 'a' then Address else DatabaseHost)
    else if |name| == 9 then (if name[0] == 'm' then MaxProcs else LogLevel)
    else if |name| == 10 then (if name[0] == 's' then ServerURL else if name[0] == 'a' then AccessLog else DatabaseSSLMode)
    else if |name| == 11 then (if name[3] == 'u' then DatabaseUsername else if name[3] == 'p' then DatabasePassword else DatabaseName)
    else if |name| == 12 then (if name[4] == 'b' then DatabaseURL else if name[4] == 'a' then DatabaseMaxConns else DatabaseMinConns)
    else if |name| == 13 then (if name[0] == 'c' then CacheControl else if name[0] == 'q' then QueryTimeout else OTLPEndpoint)
    else if |name| == 15 then (if name[0] == 'd' then DatabaseSchema else if name[0] == 'm' then MetricsEnabled else TracingEnabled)
    else if |name| == 16 then (if name[0] == 'm' then MemoryLimitMiB else ShutdownTimeout)
    else if |name| == 18 then (if name[0] == 'm' then ManagementAddress else if name[0] == 'd' then StatementCache else TraceSampleRatio)
    else Address
  }

  /** Not the name of a control switch. */
  predicate NotControl(name: string) {
    name != "" && name[0] != 'h' && name[0] != 'v'
  }

  lemma FlagNameIsClean(s: Setting)
    ensures CleanName(FlagName(s)) && SettingOf(FlagName(s)) == s && NotControl(FlagName(s))
  {
    hide CleanName, FlagName, SettingOf, NotControl;
    if s.Address? || s.ManagementAddress? || s.ServerURL? || s.CacheControl? { CleanNames1(s); }
    else if s.AccessLog? || s.MaxProcs? || s.MemoryLimitMiB? || s.LogLevel? { CleanNames2(s); }
    else if s.QueryTimeout? || s.ShutdownTimeout? || s.DatabaseURL? || s.DatabaseSchema? { CleanNames3(s); }
    else if s.DatabaseHost? || s.DatabaseUsername? || s.DatabasePassword? || s.DatabaseName? { CleanNames4(s); }
    else if s.DatabaseSSLMode? || s.DatabaseMaxConns? || s.DatabaseMinConns? || s.StatementCache? { CleanNames5(s); }
    else { CleanNames6(s); }
  }

  lemma CleanNames1(s: Setting)
    requires s.Address? || s.ManagementAddress? || s.ServerURL? || s.CacheControl?
    ensures CleanName(FlagName(s)) && SettingOf(FlagName(s)) == s && NotControl(FlagName(s))
  {
  }

  lemma CleanNames2(s: Setting)
    requires s.AccessLog? || s.MaxProcs? || s.MemoryLimitMiB? || s.LogLevel?
    ensures CleanName(FlagName(s)) && SettingOf(FlagName(s)) == s && NotControl(FlagName(s))
  {
  }

  lemma CleanNames3(s: Setting)
    requires s.QueryTimeout? || s.ShutdownTimeout? || s.DatabaseURL? || s.DatabaseSchema?
    ensures CleanName(FlagName(s)) && SettingOf(FlagName(s)) == s && NotControl(FlagName(s))
  {
  }

  lemma CleanNames4(s: Setting)
    requires s.DatabaseHost? || s.DatabaseUsername? || s.DatabasePassword? || s.DatabaseName?
    ensures CleanName(FlagName(s)) && SettingOf(FlagName(s)) == s && NotControl(FlagName(s))
  {
  }

  lemma CleanNames5(s: Setting)
    requires s.DatabaseSSLMode? || s.DatabaseMaxConns? || s.DatabaseMinConns? || s.StatementCache?
    ensures CleanName(FlagName(s)) && SettingOf(FlagName(s)) == s && NotControl(FlagName(s))
  {
  }

  lemma CleanNames6(s: Setting)
    requires s.MetricsEnabled? || s.TracingEnabled? || s.OTLPEndpoint? || s.TraceSampleRatio?
    ensures CleanName(FlagName(s)) && SettingOf(FlagName(s)) == s && NotControl(FlagName(s))
  {
  }

  lemma {:induction false} TargetNameIsClean(name: string, candidates: seq<Setting>)
    requires TargetNamed(name, candidates).Some?
    ensures CleanName(name)
  {
    if candidates != [] {
      FlagNameIsClean(candidates[0]);
      if FlagName(candidates[0]) != name { TargetNameIsClean(name, candidates[1..]); }
    }
  }

  lemma {:induction false} TargetFound(s: Setting, candidates: seq<Setting>)
    requires s in candidates
    ensures TargetNamed(FlagName(s), candidates) == Some(OfSetting(s))
  {
    hide FlagName, SettingOf;
    if candidates[0] != s {
      FlagNameIsClean(s);
      FlagNameIsClean(candidates[0]);
      TargetFound(s, candidates[1..]);
    }
  }

  /** Every setting is reached by its own flag: no two settings share a name, and none has the name of a control switch. */
  lemma FlagReachesSetting(s: Setting)
    ensures TargetNamed(FlagName(s), SETTINGS) == Some(OfSetting(s))
    ensures TargetNamed("healthcheck", SETTINGS) == Some(HealthcheckSwitch)
    ensures TargetNamed("version", SETTINGS) == Some(VersionSwitch)
  {
    ControlFound("healthcheck", SETTINGS);
    ControlFound("version", SETTINGS);
    SettingsComplete(s);
    TargetFound(s, SETTINGS);
  }

  lemma {:induction false} ControlFound(name: string, candidates: seq<Setting>)
    requires name == "healthcheck" || name == "version"
    ensures TargetNamed(name, candidates) == Some(if name == "version" then VersionSwitch else HealthcheckSwitch)
  {
    hide FlagName, SettingOf, CleanName;
    if candidates != [] {
      FlagNameIsClean(candidates[0]);
      ControlFound(name, candidates[1..]);
    }
  }

  lemma {:induction false} FirstEquals(name: string, from: nat, i: nat)
    requires from <= i <= |name| && (i < |name| ==> name[i] == '=') && forall j :: from <= j < i ==> name[j] != '='
    ensures EqualsFrom(name, from) == i
    decreases i - from
  {
    if from < i { FirstEquals(name, from + 1, i); }
  }

  lemma {:induction false} EqualsFromStops(name: string, from: nat)
    requires from <= |name|
    ensures EqualsFrom(name, from) < |name| ==> name[EqualsFrom(name, from)] == '='
    decreases |name| - from
  {
    if from < |name| && name[from] != '=' { EqualsFromStops(name, from + 1); }
  }

  lemma ReadsForm(args: seq<string>, a: Assignment, taken: nat)
    requires args != [] && NextFlag(args) == Some((a, taken))
    ensures exists name :: FlagForm(args, a, taken, name)
  {
    hide TargetNamed, IsSwitch, EqualsFrom;
    var s := args[0];
    var name := if s[1] == '-' then s[2..] else s[1..];
    assert Spells(s, name);
    EqualsFromStops(name, 1);
    var cut := EqualsFrom(name, 1);
    if cut < |name| {
      assert name == name[..cut] + "=" + name[cut + 1..];
      assert FlagForm(args, a, taken, name[..cut]);
    } else {
      assert name[..cut] == name;
      assert FlagForm(args, a, taken, name);
    }
  }

  lemma DashesStripped(s: string, rest: string)
    requires Spells(s, rest) && rest != "" && rest[0] != '-'
    ensures |s| >= 2 && s[0] == '-' && (if s[1] == '-' then s[2..] else s[1..]) == rest
  {
  }

  lemma NameBeforeEquals(name: string, text: string)
    requires CleanName(name)
    ensures var s := name + "=" + text;
      s[0] == name[0] && EqualsFrom(s, 1) == |name| && s[..|name|] == name && s[|name| + 1..] == text
  {
    var s := name + "=" + text;
    assert s[|name|] == '=' && forall j :: 0 <= j < |name| ==> s[j] == name[j];
    FirstEquals(s, 1, |name|);
  }

  lemma FormIsRead(args: seq<string>, a: Assignment, taken: nat, name: string)
    requires args != [] && FlagForm(args, a, taken, name)
    ensures NextFlag(args) == Some((a, taken))
  {
    TargetNameIsClean(name, SETTINGS);
    hide TargetNamed, IsSwitch;
    var s := args[0];
    if Spells(s, name + "=" + a.text) && taken == 1 {
      DashesStripped(s, name + "=" + a.text);
      NameBeforeEquals(name, a.text);
    } else {
      DashesStripped(s, name);
      FirstEquals(name, 1, |name|);
      assert name[..|name|] == name;
    }
  }

  /** One flag is read exactly when the arguments start with one of its forms. */
  lemma NextFlagReads(args: seq<string>, a: Assignment, taken: nat)
    requires args != []
    ensures NextFlag(args) == Some((a, taken)) <==> exists name :: FlagForm(args, a, taken, name)
  {
    if NextFlag(args) == Some((a, taken)) { ReadsForm(args, a, taken); }
    if name :| FlagForm(args, a, taken, name) { FormIsRead(args, a, taken, name); }
  }

  /** All assignments of an argument list; None when it is malformed or leaves positional arguments. */
  function Assignments(args: seq<string>): Option<seq<Assignment>>
    decreases |args|
  {
    if args == [] || args == ["--"] then Some([])
    else
      var next := NextFlag(args);
      if next.None? then None
      else
        var rest := Assignments(args[next.value.1..]);
        if rest.None? then None else Some([next.value.0] + rest.value)
  }

  predicate Parses(lib: Library, a: Assignment) {
    match a.target
    case OfSetting(s) => FlagValue(lib, s, a.text).Some?
    case _ => lib.bool_(a.text).Some?
  }

  /** The text of the last assignment to a setting. */
  function LastFor(assignments: seq<Assignment>, s: Setting): Option<string> {
    if assignments == [] then None
    else if assignments[|assignments| - 1].target == OfSetting(s) then Some(assignments[|assignments| - 1].text)
    else LastFor(assignments[..|assignments| - 1], s)
  }

  ghost predicate AllParse(lib: Library, assignments: seq<Assignment>) {
    forall i :: 0 <= i < |assignments| ==> Parses(lib, assignments[i])
  }

  /** The precedence law: last flag, else environment, else default. */
  ghost predicate Precedence(lib: Library, env: map<string, string>, assignments: seq<Assignment>, s: Setting, v: Value) {
    match LastFor(assignments, s)
    case Some(text) => FlagValue(lib, s, text) == Some(v)
    case None => EnvironmentValue(lib, env, s) == Some(v)
  }

  /** A setting's value after assignments to it, given its value before them. */
  ghost predicate Effective(lib: Library, assignments: seq<Assignment>, s: Setting, base: Value, now: Value) {
    match LastFor(assignments, s)
    case Some(text) => FlagValue(lib, s, text) == Some(now)
    case None => now == base
  }

  lemma EffectiveSnoc(lib: Library, done: seq<Assignment>, a: Assignment, s: Setting, base: Value, was: Value, now: Value)
    requires Effective(lib, done, s, base, was)
    requires if a.target == OfSetting(s) then FlagValue(lib, s, a.text) == Some(now) else now == was
    ensures Effective(lib, done + [a], s, base, now)
  {
  }

  /** Reading one flag moves it from the remaining arguments to the assignments made. */
  lemma AssignmentsStep(args: seq<string>, rest: seq<string>, done: seq<Assignment>)
    requires rest != [] && rest != ["--"] && NextFlag(rest).Some?
    requires Assignments(args) == Prefixed(done, Assignments(rest))
    ensures Assignments(args) == Prefixed(done + [NextFlag(rest).value.0], Assignments(rest[NextFlag(rest).value.1..]))
  {
    hide NextFlag;
    var tail := Assignments(rest[NextFlag(rest).value.1..]);
    if tail.Some? {
      assert done + ([NextFlag(rest).value.0] + tail.value) == done + [NextFlag(rest).value.0] + tail.value;
    }
  }

  function Prefixed(done: seq<Assignment>, rest: Option<seq<Assignment>>): Option<seq<Assignment>> {
    if rest.None? then None else Some(done + rest.value)
  }

  lemma AllParseSnoc(lib: Library, done: seq<Assignment>, a: Assignment, rest: seq<Assignment>)
    ensures AllParse(lib, done) && Parses(lib, a) ==> AllParse(lib, done + [a])
    ensures AllParse(lib, done + [a] + rest) ==> Parses(lib, a)
  {
    hide Parses;
    assert (done + [a] + rest)[|done|] == a;
  }

  lemma SettingsComplete(s: Setting)
    ensures s in SETTINGS
  {
  }

  lemma TypedParse(lib: Library, k: Kind, text: string, integer: Option<int>)
    requires integer.Some? ==> Text.MIN_INT64 <= integer.value <= Text.MAX_INT64
    ensures ParseTyped(lib, k, text, integer).Some? ==> HasKind(ParseTyped(lib, k, text, integer).value, k)
  {
  }

  lemma NothingAssigned(lib: Library, fields: map<Setting, Value>, args: seq<string>)
    requires forall s :: s in fields
    ensures AllParse(lib, []) && forall s :: s in fields && Effective(lib, [], s, fields[s], fields[s])
    ensures Assignments(args) == Prefixed([], Assignments(args))
  {
    assert Assignments(args).Some? ==> [] + Assignments(args).value == Assignments(args).value;
  }

  lemma NoFlagNoAssignments(rest: seq<string>)
    requires rest != [] && rest != ["--"] && NextFlag(rest).None?
    ensures Assignments(rest).None?
  {
  }

  lemma NoArgumentsLeft(rest: seq<string>)
    requires rest == [] || rest == ["--"]
    ensures Assignments(rest) == Some([])
  {
  }

  /** The settings being loaded, updated in place by the environment and then by the flags. */
  class RawValues {
    var fields: map<Setting, Value>

    constructor ()
      ensures fields == map[]
    {
      fields := map[];
    }

    /** environmentValues. */
    method FromEnvironment(lib: Library, env: map<string, string>) returns (ok: bool)
      modifies this
      ensures ok <==> forall s :: EnvironmentValue(lib, env, s).Some?
      ensures ok ==> forall s :: s in fields && EnvironmentValue(lib, env, s) == Some(fields[s])
    {
      for n := 0 to |SETTINGS|
        invariant forall i :: 0 <= i < n ==> SETTINGS[i] in fields && EnvironmentValue(lib, env, SETTINGS[i]) == Some(fields[SETTINGS[i]])
      {
        var v := EnvironmentValue(lib, env, SETTINGS[n]);
        if v.None? {
          return false;
        }
        fields := fields[SETTINGS[n] := v.value];
      }
      forall s ensures s in fields && EnvironmentValue(lib, env, s) == Some(fields[s]) { SettingsComplete(s); }
      ok := true;
    }

    /** Parsing the command line into the fields the flags are bound to. */
    method ApplyFlags(lib: Library, args: seq<string>) returns (ok: bool)
      requires forall s :: s in fields
      modifies this
      ensures ok <==> Assignments(args).Some? && AllParse(lib, Assignments(args).value)
      ensures ok ==> forall s :: s in fields && Effective(lib, Assignments(args).value, s, old(fields)[s], fields[s])
    {
      hide NextFlag, FlagValue, LastFor, AllParse, Assignments, Effective;
      var rest := args;
      ghost var done: seq<Assignment> := [];
      NothingAssigned(lib, fields, args);
      while rest != [] && rest != ["--"]
        invariant Assignments(args) == Prefixed(done, Assignments(rest))
        invariant AllParse(lib, done)
        invariant forall s :: s in fields && Effective(lib, done, s, old(fields)[s], fields[s])
        decreases |rest|
      {
        var next := NextFlag(rest);
        if next.None? {
          NoFlagNoAssignments(rest);
          return false;
        }
        var (assignment, taken) := next.value;
        AssignmentsStep(args, rest, done);
        AllParseSnoc(lib, done, assignment, if Assignments(rest[taken..]).Some? then Assignments(rest[taken..]).value else []);
        ghost var before := fields;
        match assignment.target {
          case OfSetting(s) =>
            var value := FlagValue(lib, s, assignment.text);
            if value.None? {
              return false;
            }
            fields := fields[s := value.value];
          case _ =>
            if lib.bool_(assignment.text).None? {
              return false;
            }
        }
        forall s ensures s in fields && Effective(lib, done + [assignment], s, old(fields)[s], fields[s]) {
          EffectiveSnoc(lib, done, assignment, s, old(fields)[s], before[s], fields[s]);
        }
        done := done + [assignment];
        rest := rest[taken..];
      }
      NoArgumentsLeft(rest);
      assert done + [] == done;
      ok := true;
    }
  }

  /** Loading the raw settings: the environment first, then the flags on top of it. */
  method LoadRaw(lib: Library, env: map<string, string>, args: seq<string>) returns (values: RawValues, ok: bool)
    ensures ok <==>
      && (forall s :: EnvironmentValue(lib, env, s).Some?)
      && Assignments(args).Some? && AllParse(lib, Assignments(args).value)
    ensures ok ==> forall s :: s in values.fields && Precedence(lib, env, Assignments(args).value, s, values.fields[s])
  {
    values := new RawValues();
    ok := values.FromEnvironment(lib, env);
    if ok {
      ok := values.ApplyFlags(lib, args);
    }
  }

  // ---------------------------------------------------------------- validation

  const MAXIMUM_CONNECTIONS := 1024
  const MAXIMUM_STATEMENT_CACHE_SIZE := 65536
  const MAXIMUM_SCHEMA_NAME_LENGTH := 63

  /** Two's-complement narrowing to the given modulus. */
  function Narrow(x: int, modulus: int): int
    requires modulus > 0
  {
    var r := x % modulus;
    if r >= modulus / 2 then r - modulus else r
  }

  /** int64(x) << 20 and int32(x) as the machine computes them. */
  function ShiftToBytes(mebibytes: int): int { Narrow(mebibytes * 0x10_0000, 0x1_0000_0000_0000_0000) }

  function ToInt32(x: int): int { Narrow(x, 0x1_0000_0000) }

  predicate ValidSchemaName(name: string) {
    && 0 < |name| <= MAXIMUM_SCHEMA_NAME_LENGTH
    && ('a' <= name[0] <= 'z' || name[0] == '_')
    && forall i :: 0 < i < |name| ==> 'a' <= name[i] <= 'z' || '0' <= name[i] <= '9' || name[i] == '_'
  }

  datatype Configuration = Configuration(
    publicAddress: string, managementAddress: string, serverURL: string, cacheControl: string, accessLog: bool,
    maxProcs: int, memoryLimitBytes: int, logLevel: int, shutdownTimeout: int, queryTimeout: int, metricsEnabled: bool,
    tracing: bool, tracingEndpoint: string, sampleRatio: Float,
    databaseURL: string, schema: string, maxConnections: int, minConnections: int, statementCache: int)

  /** The loaded values, one field for each setting. */
  datatype Settings = Settings(
    address: string, managementAddress: string, serverURL: string, cacheControl: string, accessLog: bool,
    maxProcs: int, memoryLimitMiB: int, logLevel: string, queryTimeout: int, shutdownTimeout: int,
    databaseURL: string, databaseSchema: string, databaseHost: string, databaseUsername: string,
    databasePassword: string, databaseName: string, databaseSSLMode: string,
    databaseMaxConns: int, databaseMinConns: int, statementCache: int,
    metricsEnabled: bool, tracingEnabled: bool, otlpEndpoint: string, traceSampleRatio: Float)

  ghost predicate Typed(v: map<Setting, Value>) {
    forall s :: s in v && HasKind(v[s], KindOf(s))
  }

  // Reading a field of known type; the fallbacks are unused, as every loaded map is Typed (LoadedIsTyped).
  function TextOf(v: map<Setting, Value>, s: Setting): string { if s in v && v[s].TextValue? then v[s].text else "" }
  function NumberOf(v: map<Setting, Value>, s: Setting): int { if s in v && v[s].IntValue? then v[s].number else 0 }
  function DurationOf(v: map<Setting, Value>, s: Setting): int { if s in v && v[s].DurationValue? then v[s].nanoseconds else 0 }
  function SwitchOf(v: map<Setting, Value>, s: Setting): bool { s in v && v[s].BoolValue? && v[s].on }
  function RatioOf(v: map<Setting, Value>): Float {
    if TraceSampleRatio in v && v[TraceSampleRatio].RatioValue? then v[TraceSampleRatio].ratio else NotANumber
  }

  /** The fields of rawValues. */
  function Fields(v: map<Setting, Value>): Settings {
    Settings(
      TextOf(v, Address), TextOf(v, ManagementAddress), TextOf(v, ServerURL), TextOf(v, CacheControl), SwitchOf(v, AccessLog),
      NumberOf(v, MaxProcs), NumberOf(v, MemoryLimitMiB), TextOf(v, LogLevel), DurationOf(v, QueryTimeout), DurationOf(v, ShutdownTimeout),
      TextOf(v, DatabaseURL), TextOf(v, DatabaseSchema), TextOf(v, DatabaseHost), TextOf(v, DatabaseUsername),
      TextOf(v, DatabasePassword), TextOf(v, DatabaseName), TextOf(v, DatabaseSSLMode),
      NumberOf(v, DatabaseMaxConns), NumberOf(v, DatabaseMinConns), NumberOf(v, StatementCache),
      SwitchOf(v, MetricsEnabled), SwitchOf(v, TracingEnabled), TextOf(v, OTLPEndpoint), RatioOf(v))
  }

  function DatabaseAddress(lib: Library, r: Settings): Option<string> {
    lib.databaseURL(r.databaseURL, r.databaseHost, r.databaseUsername, r.databasePassword, r.databaseName, r.databaseSSLMode)
  }

  /** validate; None stands for any of its errors. */
  function Validate(lib: Library, r: Settings): Option<Configuration> {
    var serverURL := lib.absoluteURL(r.serverURL);
    if serverURL.None? then None
    else if !lib.resolves(r.address) || !lib.resolves(r.managementAddress) then None
    else
      var level := lib.level(r.logLevel);
      var databaseURL := DatabaseAddress(lib, r);
      if level.None? then None
      else if databaseURL.None? then None
      else if r.maxProcs < 0 then None
      else if !ValidSchemaName(r.databaseSchema) then None
      else if r.memoryLimitMiB < 0 then None
      else if r.memoryLimitMiB > Text.MAX_INT64 / 0x10_0000 then None
      else if r.databaseMaxConns > Text.MAX_INT32 || r.databaseMinConns > Text.MAX_INT32 then None
      else if r.databaseMaxConns < 1 || r.databaseMaxConns > MAXIMUM_CONNECTIONS then None
      else if r.databaseMinConns < 0 || r.databaseMinConns > r.databaseMaxConns then None
      else if r.statementCache < 0 || r.statementCache > MAXIMUM_STATEMENT_CACHE_SIZE then None
      else if r.queryTimeout <= 0 || r.shutdownTimeout <= 0 then None
      else if r.traceSampleRatio.Below(0.0) || r.traceSampleRatio.Above(1.0) then None
      else if r.tracingEnabled && lib.absoluteURL(r.otlpEndpoint).None? then None
      else Some(Configuration(
        r.address, r.managementAddress, serverURL.value, r.cacheControl, r.accessLog,
        r.maxProcs, ShiftToBytes(r.memoryLimitMiB), level.value, r.shutdownTimeout, r.queryTimeout, r.metricsEnabled,
        r.tracingEnabled, r.otlpEndpoint, r.traceSampleRatio,
        databaseURL.value, r.databaseSchema, ToInt32(r.databaseMaxConns), ToInt32(r.databaseMinConns), r.statementCache))
  }

  /** The numbers of a configuration are those that were set, without loss, and within their documented bounds. */
  ghost predicate NumbersExact(r: Settings, c: Configuration) {
    && c.maxProcs == r.maxProcs >= 0
    && c.memoryLimitBytes == r.memoryLimitMiB * 0x10_0000 && 0 <= c.memoryLimitBytes <= Text.MAX_INT64
    && c.maxConnections == r.databaseMaxConns && c.minConnections == r.databaseMinConns
    && 1 <= c.maxConnections <= 1024 && 0 <= c.minConnections <= c.maxConnections
    && c.statementCache == r.statementCache && 0 <= c.statementCache <= 65536
    && c.queryTimeout == r.queryTimeout > 0 && c.shutdownTimeout == r.shutdownTimeout > 0
  }

  /** One to 63 lower-case letters, digits or underscores, the first of them no digit. */
  ghost predicate SchemaName(name: string) {
    1 <= |name| <= 63 && forall i :: 0 <= i < |name| ==> name[i] == '_' || 'a' <= name[i] <= 'z' || (i > 0 && Text.IsDigit(name[i]))
  }

  lemma SchemaNameMeaning(name: string)
    ensures ValidSchemaName(name) <==> SchemaName(name)
  {
  }

  ghost predicate AddressesMatch(lib: Library, r: Settings, c: Configuration) {
    && c.publicAddress == r.address && lib.resolves(r.address)
    && c.managementAddress == r.managementAddress && lib.resolves(r.managementAddress)
    && lib.absoluteURL(r.serverURL) == Some(c.serverURL)
    && lib.level(r.logLevel) == Some(c.logLevel)
    && lib.databaseURL(r.databaseURL, r.databaseHost, r.databaseUsername, r.databasePassword, r.databaseName, r.databaseSSLMode) == Some(c.databaseURL)
    && c.schema == r.databaseSchema && SchemaName(c.schema)
    && c.cacheControl == r.cacheControl && c.accessLog == r.accessLog && c.metricsEnabled == r.metricsEnabled
  }

  ghost predicate TracingMatches(lib: Library, r: Settings, c: Configuration) {
    && c.tracing == r.tracingEnabled && c.tracingEndpoint == r.otlpEndpoint && c.sampleRatio == r.traceSampleRatio
    && (c.tracing ==> lib.absoluteURL(c.tracingEndpoint).Some?)
    && (c.sampleRatio == NotANumber || (c.sampleRatio.Number? && 0.0 <= c.sampleRatio.value <= 1.0))
  }

  /** Validation yields a configuration exactly when every setting is within its bounds, and each field carries its own setting. */
  lemma ValidateMeaning(lib: Library, r: Settings, c: Configuration)
    ensures Validate(lib, r) == Some(c) <==> NumbersExact(r, c) && AddressesMatch(lib, r, c) && TracingMatches(lib, r, c)
  {
    SchemaNameMeaning(r.databaseSchema);
    hide ValidSchemaName, SchemaName;
    MemoryExact(r.memoryLimitMiB);
  }

  lemma MemoryExact(mebibytes: int)
    ensures 0 <= mebibytes <= Text.MAX_INT64 / 0x10_0000 <==> 0 <= mebibytes * 0x10_0000 <= Text.MAX_INT64
    ensures 0 <= mebibytes <= Text.MAX_INT64 / 0x10_0000 ==> ShiftToBytes(mebibytes) == mebibytes * 0x10_0000
  {
  }

  /**
   No accepted configuration loses a number in conversion: the memory limit in bytes is the
   configured MiB times 2^20 within 64 bits, connection counts narrow to 32 bits unchanged, and
   0 <= min <= max <= 1024. Its ratio lies in [0, 1] unless it is not a number.
   */
  lemma AcceptedIsExact(lib: Library, r: Settings)
    requires Validate(lib, r).Some?
    ensures NumbersExact(r, Validate(lib, r).value)
    ensures var ratio := Validate(lib, r).value.sampleRatio;
      (ratio.Number? && 0.0 <= ratio.value <= 1.0) <==> r.traceSampleRatio != NotANumber
  {
    ValidateMeaning(lib, r, Validate(lib, r).value);
    hide Validate;
  }

  /** The range check on the sampling ratio lets NaN through: it never turns an accepted configuration into a refused one. */
  lemma NaNRatioIsAccepted(lib: Library, r: Settings)
    requires Validate(lib, r).Some?
    ensures Validate(lib, r.(traceSampleRatio := NotANumber)) == Some(Validate(lib, r).value.(sampleRatio := NotANumber))
  {
    var c := Validate(lib, r).value;
    ValidateMeaning(lib, r, c);
    ValidateMeaning(lib, r.(traceSampleRatio := NotANumber), c.(sampleRatio := NotANumber));
    hide Validate, ValidSchemaName, SchemaName;
  }

  // ---------------------------------------------------------------- from the command line and the environment to the configuration

  /** Whether the parser that a setting demands refuses the text. */
  predicate ParserRefuses(lib: Library, s: Setting, text: string, integerRefused: bool) {
    match s
    case AccessLog | MetricsEnabled | TracingEnabled => lib.bool_(text).None?
    case MaxProcs | MemoryLimitMiB | DatabaseMaxConns | DatabaseMinConns | StatementCache => integerRefused
    case QueryTimeout | ShutdownTimeout => lib.duration(text).None?
    case TraceSampleRatio => lib.ratio(text).None?
    case _ => false
  }

  /** A flag or a variable is refused exactly when its own parser refuses it; unset and blank variables never are. */
  lemma RefusalMeaning(lib: Library, env: map<string, string>, s: Setting, text: string)
    ensures FlagValue(lib, s, text).None? <==> ParserRefuses(lib, s, text, FlagIntegers.ParseFlagInteger(text).None?)
    ensures EnvironmentValue(lib, env, s).None? <==>
      !Unset(env, EnvironmentName(s)) &&
      var trimmed := Text.TrimSpace(env[EnvironmentName(s)]);
      ParserRefuses(lib, s, trimmed, Text.ParseInt(trimmed, Text.MIN_INT64, Text.MAX_INT64).None?)
  {
    UnsetIsBlank(env, EnvironmentName(s));
    hide EnvironmentName, FlagIntegers.ParseFlagInteger, Text.ParseInt, Text.TrimSpace, Unset;
  }

  /** What a text setting is, given its variable and its default. */
  ghost predicate TextFrom(env: map<string, string>, flag: Option<string>, variable: string, default: string, value: string) {
    match flag
    case Some(text) => value == text
    case None => value == if variable in env then env[variable] else default
  }

  ghost predicate Unset(env: map<string, string>, variable: string) {
    variable !in env || Text.Blank(env[variable])
  }

  ghost predicate NumberFrom(env: map<string, string>, flag: Option<string>, variable: string, default: int, value: int) {
    match flag
    case Some(text) => FlagIntegers.ParseFlagInteger(text) == Some(value)
    case None =>
      if Unset(env, variable) then value == default
      else Text.ParseInt(Text.TrimSpace(env[variable]), Text.MIN_INT64, Text.MAX_INT64) == Some(value)
  }

  ghost predicate ParsedFrom<T>(parse: string -> Option<T>, env: map<string, string>, flag: Option<string>, variable: string, default: T, value: T) {
    match flag
    case Some(text) => parse(text) == Some(value)
    case None => if Unset(env, variable) then value == default else parse(Text.TrimSpace(env[variable])) == Some(value)
  }

  ghost predicate Loaded(lib: Library, env: map<string, string>, assignments: seq<Assignment>, v: map<Setting, Value>) {
    forall s :: s in v && Precedence(lib, env, assignments, s, v[s])
  }

  lemma UnsetIsBlank(env: map<string, string>, variable: string)
    ensures Unset(env, variable) <==> variable !in env || Text.TrimSpace(env[variable]) == ""
  {
    if variable in env { Text.TrimSpaceBlank(env[variable]); }
  }

  lemma TextLoaded(lib: Library, env: map<string, string>, assignments: seq<Assignment>, v: map<Setting, Value>, s: Setting)
    requires Loaded(lib, env, assignments, v) && KindOf(s).TextKind?
    ensures TextFrom(env, LastFor(assignments, s), EnvironmentName(s), DefaultOf(s).text, TextOf(v, s))
  {
    hide EnvironmentName, LastFor, FlagIntegers.ParseFlagInteger, Text.ParseInt, Text.TrimSpace;
    assert s in v && Precedence(lib, env, assignments, s, v[s]);
  }

  lemma NumberLoaded(lib: Library, env: map<string, string>, assignments: seq<Assignment>, v: map<Setting, Value>, s: Setting)
    requires Loaded(lib, env, assignments, v) && KindOf(s).IntKind?
    ensures NumberFrom(env, LastFor(assignments, s), EnvironmentName(s), DefaultOf(s).number, NumberOf(v, s))
  {
    UnsetIsBlank(env, EnvironmentName(s));
    hide EnvironmentName, LastFor, FlagIntegers.ParseFlagInteger, Text.ParseInt, Text.TrimSpace, Unset;
    assert s in v && Precedence(lib, env, assignments, s, v[s]);
  }

  lemma SwitchLoaded(lib: Library, env: map<string, string>, assignments: seq<Assignment>, v: map<Setting, Value>, s: Setting)
    requires Loaded(lib, env, assignments, v) && KindOf(s).BoolKind?
    ensures ParsedFrom(lib.bool_, env, LastFor(assignments, s), EnvironmentName(s), DefaultOf(s).on, SwitchOf(v, s))
  {
    UnsetIsBlank(env, EnvironmentName(s));
    hide EnvironmentName, LastFor, Text.TrimSpace, Unset;
    assert s in v && Precedence(lib, env, assignments, s, v[s]);
  }

  lemma DurationLoaded(lib: Library, env: map<string, string>, assignments: seq<Assignment>, v: map<Setting, Value>, s: Setting)
    requires Loaded(lib, env, assignments, v) && KindOf(s).DurationKind?
    ensures ParsedFrom(lib.duration, env, LastFor(assignments, s), EnvironmentName(s), DefaultOf(s).nanoseconds, DurationOf(v, s))
  {
    UnsetIsBlank(env, EnvironmentName(s));
    hide EnvironmentName, LastFor, Text.TrimSpace, Unset;
    assert s in v && Precedence(lib, env, assignments, s, v[s]);
  }

  lemma RatioLoaded(lib: Library, env: map<string, string>, assignments: seq<Assignment>, v: map<Setting, Value>)
    requires Loaded(lib, env, assignments, v)
    ensures ParsedFrom(lib.ratio, env, LastFor(assignments, TraceSampleRatio), EnvironmentName(TraceSampleRatio), Number(0.1), RatioOf(v))
  {
    UnsetIsBlank(env, EnvironmentName(TraceSampleRatio));
    hide EnvironmentName, LastFor, FlagIntegers.ParseFlagInteger, Text.ParseInt, Text.TrimSpace, Unset;
    assert TraceSampleRatio in v && Precedence(lib, env, assignments, TraceSampleRatio, v[TraceSampleRatio]);
  }

  /** Each text field is its own flag's last value, else its own variable, else its own default. */
  ghost predicate TextsLoaded(env: map<string, string>, a: seq<Assignment>, r: Settings) {
    && TextFrom(env, LastFor(a, Address), "API_ADDRESS", ":8080", r.address)
    && TextFrom(env, LastFor(a, ManagementAddress), "API_MANAGEMENT_ADDRESS", "127.0.0.1:8081", r.managementAddress)
    && TextFrom(env, LastFor(a, ServerURL), "API_SERVER_URL", "http://localhost:8080", r.serverURL)
    && TextFrom(env, LastFor(a, CacheControl), "API_CACHE_CONTROL", "public, max-age=60, stale-while-revalidate=300", r.cacheControl)
    && TextFrom(env, LastFor(a, LogLevel), "API_LOG_LEVEL", "info", r.logLevel)
    && TextFrom(env, LastFor(a, OTLPEndpoint), "OTEL_EXPORTER_OTLP_ENDPOINT", "", r.otlpEndpoint)
  }

  ghost predicate DatabaseTextsLoaded(env: map<string, string>, a: seq<Assignment>, r: Settings) {
    && TextFrom(env, LastFor(a, DatabaseURL), "API_DATABASE_URL", "", r.databaseURL)
    && TextFrom(env, LastFor(a, DatabaseSchema), "API_DATABASE_SCHEMA", "public", r.databaseSchema)
    && TextFrom(env, LastFor(a, DatabaseHost), "API_DB_HOST", "", r.databaseHost)
    && TextFrom(env, LastFor(a, DatabaseUsername), "API_DB_USERNAME", "", r.databaseUsername)
    && TextFrom(env, LastFor(a, DatabasePassword), "API_DB_PASSWORD", "", r.databasePassword)
    && TextFrom(env, LastFor(a, DatabaseName), "API_DB_DATABASE", "discogs", r.databaseName)
    && TextFrom(env, LastFor(a, DatabaseSSLMode), "API_DB_SSLMODE", "prefer", r.databaseSSLMode)
  }

  ghost predicate NumbersLoaded(env: map<string, string>, a: seq<Assignment>, r: Settings) {
    && NumberFrom(env, LastFor(a, MaxProcs), "API_MAX_PROCS", 0, r.maxProcs)
    && NumberFrom(env, LastFor(a, MemoryLimitMiB), "API_MEMORY_LIMIT_MIB", 0, r.memoryLimitMiB)
    && NumberFrom(env, LastFor(a, DatabaseMaxConns), "API_DB_MAX_CONNS", 10, r.databaseMaxConns)
    && NumberFrom(env, LastFor(a, DatabaseMinConns), "API_DB_MIN_CONNS", 0, r.databaseMinConns)
    && NumberFrom(env, LastFor(a, StatementCache), "API_DB_STATEMENT_CACHE", 128, r.statementCache)
  }

  ghost predicate ParsedLoaded(lib: Library, env: map<string, string>, a: seq<Assignment>, r: Settings) {
    && ParsedFrom(lib.bool_, env, LastFor(a, AccessLog), "API_ACCESS_LOG", false, r.accessLog)
    && ParsedFrom(lib.bool_, env, LastFor(a, MetricsEnabled), "API_METRICS_ENABLED", true, r.metricsEnabled)
    && ParsedFrom(lib.bool_, env, LastFor(a, TracingEnabled), "API_TRACING_ENABLED", false, r.tracingEnabled)
    && ParsedFrom(lib.duration, env, LastFor(a, QueryTimeout), "API_QUERY_TIMEOUT", 10_000_000_000, r.queryTimeout)
    && ParsedFrom(lib.duration, env, LastFor(a, ShutdownTimeout), "API_SHUTDOWN_TIMEOUT", 30_000_000_000, r.shutdownTimeout)
    && ParsedFrom(lib.ratio, env, LastFor(a, TraceSampleRatio), "OTEL_TRACES_SAMPLER_ARG", Number(0.1), r.traceSampleRatio)
  }

  /** Every loaded field is the value its own setting took. */
  lemma FieldsLoaded(lib: Library, env: map<string, string>, a: seq<Assignment>, v: map<Setting, Value>)
    requires Loaded(lib, env, a, v)
    ensures var r := Fields(v);
      TextsLoaded(env, a, r) && DatabaseTextsLoaded(env, a, r) && NumbersLoaded(env, a, r) && ParsedLoaded(lib, env, a, r)
  {
    TextFieldsLoaded(lib, env, a, v);
    DatabaseFieldsLoaded(lib, env, a, v);
    NumberFieldsLoaded(lib, env, a, v);
    ParsedFieldsLoaded(lib, env, a, v);
  }

  lemma TextFieldsLoaded(lib: Library, env: map<string, string>, a: seq<Assignment>, v: map<Setting, Value>)
    requires Loaded(lib, env, a, v)
    ensures TextsLoaded(env, a, Fields(v))
  {
    hide Loaded, TextFrom, TextOf, NumberOf, SwitchOf, DurationOf, RatioOf, LastFor;
    NetworkTextsLoaded(lib, env, a, v);
    TextLoaded(lib, env, a, v, LogLevel);
    TextLoaded(lib, env, a, v, OTLPEndpoint);
  }

  lemma NetworkTextsLoaded(lib: Library, env: map<string, string>, a: seq<Assignment>, v: map<Setting, Value>)
    requires Loaded(lib, env, a, v)
    ensures TextFrom(env, LastFor(a, Address), "API_ADDRESS", ":8080", TextOf(v, Address))
    ensures TextFrom(env, LastFor(a, ManagementAddress), "API_MANAGEMENT_ADDRESS", "127.0.0.1:8081", TextOf(v, ManagementAddress))
    ensures TextFrom(env, LastFor(a, ServerURL), "API_SERVER_URL", "http://localhost:8080", TextOf(v, ServerURL))
    ensures TextFrom(env, LastFor(a, CacheControl), "API_CACHE_CONTROL", "public, max-age=60, stale-while-revalidate=300", TextOf(v, CacheControl))
  {
    hide Loaded, TextFrom, TextOf, LastFor;
    TextLoaded(lib, env, a, v, Address);
    TextLoaded(lib, env, a, v, ManagementAddress);
    TextLoaded(lib, env, a, v, ServerURL);
    TextLoaded(lib, env, a, v, CacheControl);
  }

  lemma DatabaseFieldsLoaded(lib: Library, env: map<string, string>, a: seq<Assignment>, v: map<Setting, Value>)
    requires Loaded(lib, env, a, v)
    ensures DatabaseTextsLoaded(env, a, Fields(v))
  {
    hide Loaded, TextFrom, TextOf, NumberOf, SwitchOf, DurationOf, RatioOf, LastFor;
    TextLoaded(lib, env, a, v, DatabaseURL);
    TextLoaded(lib, env, a, v, DatabaseSchema);
    TextLoaded(lib, env, a, v, DatabaseHost);
    TextLoaded(lib, env, a, v, DatabaseUsername);
    TextLoaded(lib, env, a, v, DatabasePassword);
    TextLoaded(lib, env, a, v, DatabaseName);
    TextLoaded(lib, env, a, v, DatabaseSSLMode);
  }

  lemma NumberFieldsLoaded(lib: Library, env: map<string, string>, a: seq<Assignment>, v: map<Setting, Value>)
    requires Loaded(lib, env, a, v)
    ensures NumbersLoaded(env, a, Fields(v))
  {
    hide Loaded, NumberFrom, TextOf, NumberOf, SwitchOf, DurationOf, RatioOf, LastFor;
    NumberLoaded(lib, env, a, v, MaxProcs);
    NumberLoaded(lib, env, a, v, MemoryLimitMiB);
    NumberLoaded(lib, env, a, v, DatabaseMaxConns);
    NumberLoaded(lib, env, a, v, DatabaseMinConns);
    NumberLoaded(lib, env, a, v, StatementCache);
  }

  lemma ParsedFieldsLoaded(lib: Library, env: map<string, string>, a: seq<Assignment>, v: map<Setting, Value>)
    requires Loaded(lib, env, a, v)
    ensures ParsedLoaded(lib, env, a, Fields(v))
  {
    hide Loaded, ParsedFrom, TextOf, NumberOf, SwitchOf, DurationOf, RatioOf, LastFor;
    SwitchLoaded(lib, env, a, v, AccessLog);
    SwitchLoaded(lib, env, a, v, MetricsEnabled);
    SwitchLoaded(lib, env, a, v, TracingEnabled);
    DurationLoaded(lib, env, a, v, QueryTimeout);
    DurationLoaded(lib, env, a, v, ShutdownTimeout);
    RatioLoaded(lib, env, a, v);
  }

  /**
   The whole of loading, from environment and arguments to the configuration: it succeeds exactly
   when everything set can be read and the values read are acceptable, and each field of the
   configuration carries the value that its own setting took.
   */
  method Load(lib: Library, env: map<string, string>, args: seq<string>) returns (config: Option<Configuration>)
    ensures config.Some? ==> Assignments(args).Some? && exists r: Settings ::
      && TextsLoaded(env, Assignments(args).value, r) && DatabaseTextsLoaded(env, Assignments(args).value, r)
      && NumbersLoaded(env, Assignments(args).value, r) && ParsedLoaded(lib, env, Assignments(args).value, r)
      && NumbersExact(r, config.value) && AddressesMatch(lib, r, config.value) && TracingMatches(lib, r, config.value)
    ensures config.None? ==>
      || !(forall s :: EnvironmentValue(lib, env, s).Some?)
      || Assignments(args).None? || !AllParse(lib, Assignments(args).value)
      || exists v :: Loaded(lib, env, Assignments(args).value, v) && Validate(lib, Fields(v)).None?
  {
    hide TextsLoaded, DatabaseTextsLoaded, NumbersLoaded, ParsedLoaded, NumbersExact, AddressesMatch, TracingMatches, Validate, Precedence, EnvironmentValue, Assignments, AllParse;
    var values, ok := LoadRaw(lib, env, args);
    if !ok {
      return None;
    }
    config := Validate(lib, Fields(values.fields));
    ghost var r := Fields(values.fields);
    assert Loaded(lib, env, Assignments(args).value, values.fields);
    FieldsLoaded(lib, env, Assignments(args).value, values.fields);
    if config.Some? { ValidateMeaning(lib, r, config.value); }
  }

  /** Whatever was loaded is typed, so it can be validated. */
  lemma LoadedIsTyped(lib: Library, env: map<string, string>, assignments: seq<Assignment>, v: map<Setting, Value>)
    requires forall s :: s in v && Precedence(lib, env, assignments, s, v[s])
    ensures Typed(v)
  {
    forall s ensures s in v && HasKind(v[s], KindOf(s)) {
      match LastFor(assignments, s)
      case Some(text) =>
        FlagIntegers.FlagIntegerInRange(text);
        TypedParse(lib, KindOf(s), text, FlagIntegers.ParseFlagInteger(text));
      case None =>
        if EnvironmentName(s) in env {
          var text := Text.TrimSpace(env[EnvironmentName(s)]);
          TypedParse(lib, KindOf(s), text, Text.ParseInt(text, Text.MIN_INT64, Text.MAX_INT64));
        }
    }
  }
}
