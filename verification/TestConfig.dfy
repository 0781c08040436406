/**
 From parsed options to a test configuration: the options of the test program,
 their lowering to a configuration, its validation, and the pacing of the stress
 test that divides by what was configured.
 */
module TestConfig {
  import opened Arithmetic
  import opened CommandLine
  import opened Sequences
  import opened Wrappers

  // ------------------------------------------------------------------
  // Configuration

  datatype Pattern = SmallFast | LargeBurst | Mixed | Custom

  datatype Scenario = NoErrors | Timeout | Corruption | Overrun

  datatype TransferConfig = TransferConfig(
    pattern: Pattern, minSize: nat, maxSize: nat, rateHz: nat, burstCount: nat, burstIntervalMs: nat)

  datatype ErrorConfig = ErrorConfig(scenario: Scenario, probability: real, recoveryMs: nat)

  datatype StressConfig = StressConfig(stress: bool, threads: nat, durationSeconds: nat)

  datatype Flags = Flags(logging: bool, errors: bool, stress: bool, verbose: bool)

  datatype Config = Config(
    devices: nat, transfer: TransferConfig, error: ErrorConfig, stress: StressConfig, csvFile: string, flags: Flags)

  const SMALL_FAST := TransferConfig(SmallFast, 64, 1024, 10000, 1, 0)
  const LARGE_BURST := TransferConfig(LargeBurst, 1048576, 4194304, 100, 10, 100)
  const MIXED := TransferConfig(Mixed, 1024, 65536, 1000, 5, 50)

  const DEFAULTS := Config(1, MIXED, ErrorConfig(NoErrors, 0.0, 0), StressConfig(false, 1, 10), "",
                           Flags(false, false, false, false))

  /** A negative int stored in an unsigned 32-bit field. */
  function U32(n: int): nat {
    n % 0x1_0000_0000
  }

  function SetPattern(c: Config, p: Pattern): Config {
    match p
    case SmallFast => c.(transfer := SMALL_FAST)
    case LargeBurst => c.(transfer := LARGE_BURST)
    case Mixed => c.(transfer := MIXED)
    case Custom => c.(transfer := c.transfer.(pattern := Custom))
  }

  /** An out-of-range size or rate leaves the configuration as it is; the caller ignores the error. */
  function SetCustomPattern(c: Config, size: nat, rate: nat): Config {
    if size < 64 || size > 4194304 || rate < 1 || rate > 10000 then c
    else c.(transfer := TransferConfig(Custom, size, size, rate, 1, 0))
  }

  function SetScenario(c: Config, s: Scenario): Config {
    var on := c.flags.(errors := true);
    match s
    case NoErrors => c.(error := c.error.(scenario := s, probability := 0.0), flags := c.flags.(errors := false))
    case Timeout => c.(error := ErrorConfig(s, 0.01, 100), flags := on)
    case Corruption => c.(error := ErrorConfig(s, 0.005, 50), flags := on)
    case Overrun => c.(error := ErrorConfig(s, 0.02, 200), flags := on)
  }

  predicate IsValid(c: Config) {
    && 1 <= c.devices <= 8
    && 64 <= c.transfer.minSize <= c.transfer.maxSize <= 4194304
    && 1 <= c.transfer.rateHz <= 10000
    && 0.0 <= c.error.probability <= 1.0
    && c.stress.threads <= 64
    && c.stress.durationSeconds <= 3600
  }

  function ParsePattern(s: string): Pattern {
    if s == "small-fast" then SmallFast
    else if s == "large-burst" then LargeBurst
    else if s == "mixed" then Mixed
    else if s == "custom" then Custom
    else Mixed
  }

  function ParseScenario(s: string): Scenario {
    if s == "timeout" then Timeout
    else if s == "corruption" then Corruption
    else if s == "overrun" then Overrun
    else NoErrors
  }

  function PatternName(p: Pattern): string {
    match p
    case SmallFast => "small-fast"
    case LargeBurst => "large-burst"
    case Mixed => "mixed"
    case Custom => "custom"
  }

  function ScenarioName(s: Scenario): string {
    match s
    case NoErrors => "none"
    case Timeout => "timeout"
    case Corruption => "corruption"
    case Overrun => "overrun"
  }

  /** Names of patterns and scenarios parse back to what they name. */
  lemma NamesParseBack(p: Pattern, s: Scenario)
    ensures ParsePattern(PatternName(p)) == p
    ensures ParseScenario(ScenarioName(s)) == s
  {
    assert |"small-fast"| == 10 && |"large-burst"| == 11 && |"mixed"| == 5 && |"custom"| == 6;
    assert |"none"| == 4 && |"timeout"| == 7 && |"corruption"| == 10;
    assert "overrun"[0] == 'o' && "timeout"[0] == 't';
  }

  /** No other string names a pattern or a scenario: it is taken for the mixed pattern and for no errors. */
  lemma OnlyNamesParse(s: string)
    ensures ParsePattern(s) != Mixed ==> s == PatternName(ParsePattern(s))
    ensures ParseScenario(s) != NoErrors ==> s == ScenarioName(ParseScenario(s))
  {
  }

  // ------------------------------------------------------------------
  // Lowering the parsed values

  /** get<int>: 0 for a missing option; a value that is no int throws. */
  function GetInt(values: map<string, string>, name: string): Option<int> {
    if name in values then Stoi(values[name]) else Some(0)
  }

  function GetString(values: map<string, string>, name: string): string {
    if name in values then values[name] else ""
  }

  function Truncated(s: string, n: nat): (r: string)
    ensures r <= s && |r| == if |s| < n then |s| else n
  {
    if |s| <= n then s else s[..n]
  }

  /** None is an exception thrown by std::stoi. */
  function WithTransfer(values: map<string, string>, c: Config): Option<Config> {
    var p := ParsePattern(GetString(values, "pattern"));
    if p != Custom then Some(SetPattern(c, p))
    else
      var size, rate := GetInt(values, "size"), GetInt(values, "rate");
      if size.None? || rate.None? then None
      else Some(SetCustomPattern(c, U32(size.value), U32(rate.value)))
  }

  function WithStress(values: map<string, string>, c: Config): Option<Config> {
    var threads := GetInt(values, "threads");
    if threads.None? then None
    else if threads.value <= 1 then Some(c)
    else
      var duration := GetInt(values, "duration");
      if duration.None? then None
      else Some(c.(stress := StressConfig(true, U32(threads.value), U32(duration.value)),
                   flags := c.flags.(stress := true)))
  }

  function WithOutput(values: map<string, string>, c: Config): Config {
    var file := GetString(values, "log-csv");
    var c := if file == "" then c else c.(csvFile := Truncated(file, 255), flags := c.flags.(logging := true));
    if "verbose" in values then c.(flags := c.flags.(verbose := true)) else c
  }

  function WithDevices(values: map<string, string>, c: Config): Option<Config> {
    var devices := GetInt(values, "num-devices");
    if devices.None? then None else Some(c.(devices := U32(devices.value)))
  }

  function WithScenario(values: map<string, string>, c: Config): Config {
    SetScenario(c, ParseScenario(GetString(values, "error-scenario")))
  }

  function ToConfig(values: map<string, string>): Option<Config> {
    var c := WithDevices(values, DEFAULTS);
    if c.None? then None
    else
      var c := WithTransfer(values, c.value);
      if c.None? then None
      else
        var c := WithStress(values, WithScenario(values, c.value));
        if c.None? then None else Some(WithOutput(values, c.value))
  }

  // ------------------------------------------------------------------
  // The options of the test program

  const PATTERNS: set<string> := {"small-fast", "large-burst", "mixed", "custom"}
  const SCENARIOS: set<string> := {"timeout", "corruption", "overrun", "none"}

  const NUM_DEVICES := Opt("1", false, IntRange(1, 8))
  const PATTERN := Opt("mixed", false, OneOf(PATTERNS))
  const SIZE := Opt("4096", false, IntRange(64, 4194304))
  const RATE := Opt("1000", false, IntRange(1, 10000))
  const LOG_CSV := Opt("", false, Anything)
  const VERBOSE := Opt("false", false, Anything)
  const ERROR_SCENARIO := Opt("none", false, OneOf(SCENARIOS))
  const THREADS := Opt("1", false, IntRange(1, 64))
  const DURATION := Opt("10", false, IntRange(1, 3600))

  const OPTIONS: map<string, Opt> := map[
    "num-devices" := NUM_DEVICES,
    "pattern" := PATTERN,
    "size" := SIZE,
    "rate" := RATE,
    "log-csv" := LOG_CSV,
    "verbose" := VERBOSE,
    "error-scenario" := ERROR_SCENARIO,
    "threads" := THREADS,
    "duration" := DURATION]

  const ALIASES: map<string, string> := map[
    "d" := "num-devices",
    "p" := "pattern",
    "s" := "size",
    "r" := "rate",
    "l" := "log-csv",
    "v" := "verbose",
    "e" := "error-scenario",
    "t" := "threads",
    "dur" := "duration"]

  /** Every option with a non-empty default has it as its value from the start. */
  const VALUES: map<string, string> := map[
    "num-devices" := "1",
    "pattern" := "mixed",
    "size" := "4096",
    "rate" := "1000",
    "verbose" := "false",
    "error-scenario" := "none",
    "threads" := "1",
    "duration" := "10"]

  /** The parser as the test program sets it up. */
  function Otpu(): Store {
    Store(OPTIONS, ALIASES, VALUES)
  }

  lemma OtpuNames()
    ensures OPTIONS["num-devices"] == NUM_DEVICES && OPTIONS["pattern"] == PATTERN
    ensures OPTIONS["size"] == SIZE && OPTIONS["rate"] == RATE
    ensures OPTIONS["error-scenario"] == ERROR_SCENARIO
    ensures OPTIONS["threads"] == THREADS && OPTIONS["duration"] == DURATION
    ensures OPTIONS["verbose"] == VERBOSE
    ensures forall n :: n in VALUES ==> n in OPTIONS && VALUES[n] == OPTIONS[n].defaultValue
  {
    assert |"num-devices"| == 11 && |"pattern"| == 7 && |"size"| == 4 && |"rate"| == 4 && |"log-csv"| == 7;
    assert |"verbose"| == 7 && |"error-scenario"| == 14 && |"threads"| == 7 && |"duration"| == 8;
    assert "size"[0] != "rate"[0];
    assert "pattern"[0] == 'p' && "log-csv"[0] == 'l' && "verbose"[0] == 'v' && "threads"[0] == 't';
  }

  lemma OtpuIsWellFormed()
    ensures WellFormed(Otpu())
  {
    forall a | a in ALIASES
      ensures !Dashed(a) && ALIASES[a] in OPTIONS && ALIASES[a] != "help"
    {
      assert a[0] != '-';
      assert ALIASES[a] != "help";
    }
  }

  lemma DefaultsPass()
    ensures Stoi("1") == Some(1) && Stoi("10") == Some(10) && Stoi("1000") == Some(1000) && Stoi("4096") == Some(4096)
  {
    StoiOfDigits(1);
    StoiOfDigits(10);
    StoiOfDigits(1000);
    StoiOfDigits(4096);
    assert Digits(1) == "1" && Digits(10) == "10";
    assert Digits(100) == "100" && Digits(1000) == "1000";
    assert Digits(40) == "40" && Digits(409) == "409" && Digits(4096) == "4096";
  }

  /** The options that have a default. */
  const WITH_DEFAULT: set<Opt> := {NUM_DEVICES, PATTERN, SIZE, RATE, VERBOSE, ERROR_SCENARIO, THREADS, DURATION}

  lemma DefaultsAreJudged(o: Opt)
    requires o in WITH_DEFAULT
    ensures Judge(o.validator, o.defaultValue).Pass?
  {
    if o.validator.IntRange? {
      IntDefaultsAreJudged(o.validator.lo, o.validator.hi, o.defaultValue);
    } else {
      assert o in {PATTERN, ERROR_SCENARIO, VERBOSE};
      assert "mixed" in PATTERNS && "none" in SCENARIOS;
    }
  }

  lemma IntDefaultsAreJudged(lo: int, hi: int, s: string)
    requires (lo, hi, s) in {(1, 8, "1"), (64, 4194304, "4096"), (1, 10000, "1000"), (1, 64, "1"), (1, 3600, "10")}
    ensures Judge(IntRange(lo, hi), s).Pass?
  {
    DefaultsPass();
  }

  lemma ValuesAreDefaults(n: string)
    requires n in VALUES
    ensures n in OPTIONS && OPTIONS[n] in WITH_DEFAULT && VALUES[n] == OPTIONS[n].defaultValue
  {
    OtpuNames();
  }

  lemma OtpuIsVetted()
    ensures forall n :: Vetted(Otpu(), n)
  {
    forall n | n in VALUES ensures n in OPTIONS && Judge(OPTIONS[n].validator, VALUES[n]).Pass? {
      ValuesAreDefaults(n);
      DefaultsAreJudged(OPTIONS[n]);
    }
  }

  /** An int option is readable, and then in its range, unless it holds "true". */
  predicate InRange(values: map<string, string>, n: string, lo: int, hi: int) {
    && n in values
    && (GetInt(values, n).None? <==> HoldsTrue(values, n))
    && (GetInt(values, n).Some? ==> lo <= GetInt(values, n).value <= hi)
  }

  /** What the lowering can count on. */
  predicate Sane(values: map<string, string>) {
    && InRange(values, "num-devices", 1, 8)
    && InRange(values, "size", 64, 4194304)
    && InRange(values, "rate", 1, 10000)
    && InRange(values, "threads", 1, 64)
    && InRange(values, "duration", 1, 3600)
    && "verbose" in values
  }

  lemma VettedIsInRange(st: Store, n: string, lo: int, hi: int)
    requires Vetted(st, n) && n in st.options && n in st.values && st.options[n].validator == IntRange(lo, hi)
    ensures InRange(st.values, n, lo, hi)
  {
    TrueIsNoInt();
  }

  lemma DefaultsPresent()
    ensures forall n :: n in {"num-devices", "size", "rate", "threads", "duration", "verbose"} ==> n in Otpu().values
  {
    OtpuNames();
  }

  const INT_OPTIONS: set<string> := {"num-devices", "size", "rate", "threads", "duration"}

  /** The last token naming option `n` is the last token of the command line, or a dashed one follows it. */
  predicate GivenBare(args: seq<string>, n: string) {
    LastUseBare(Otpu(), args, n) == Some(true)
  }

  lemma IntOptionsStartAsInts(n: string)
    requires n in INT_OPTIONS
    ensures n in OPTIONS && OPTIONS[n].validator.IntRange? && !HoldsTrue(VALUES, n)
  {
    OtpuNames();
    assert |"true"| == 4 && "true"[0] == 't' && "1000"[0] == '1' && "4096"[0] == '4';
  }

  lemma GivenBareHoldsTrue(args: seq<string>, n: string)
    requires Parsed(Otpu(), args).Accepted? && n in INT_OPTIONS
    ensures HoldsTrue(Parsed(Otpu(), args).store.values, n) <==> GivenBare(args, n)
  {
    OtpuIsWellFormed();
    IntOptionsStartAsInts(n);
    TrueIffLastUseBare(Otpu(), args, n);
  }

  /**
   Every accepted command line leaves sane values behind, and an int option is
   unreadable exactly when its last use came without a value.
   */
  lemma AcceptedIsSane(args: seq<string>)
    requires Parsed(Otpu(), args).Accepted?
    ensures Sane(Parsed(Otpu(), args).store.values)
    ensures forall n :: n in INT_OPTIONS ==>
              (GetInt(Parsed(Otpu(), args).store.values, n).None? <==> GivenBare(args, n))
  {
    var st := Parsed(Otpu(), args).store;
    AcceptedIsInRange(args);
    forall n | n in INT_OPTIONS ensures GetInt(st.values, n).None? <==> GivenBare(args, n) {
      GivenBareHoldsTrue(args, n);
      SaneIsReadable(st.values, n);
    }
  }

  lemma SaneIsReadable(values: map<string, string>, n: string)
    requires Sane(values) && n in INT_OPTIONS
    ensures GetInt(values, n).None? <==> HoldsTrue(values, n)
  {
  }

  lemma AcceptedIsInRange(args: seq<string>)
    requires Parsed(Otpu(), args).Accepted?
    ensures Sane(Parsed(Otpu(), args).store.values)
  {
    var st := Parsed(Otpu(), args).store;
    OtpuIsWellFormed();
    OtpuIsVetted();
    ParsingVets(Otpu(), args);
    DefaultsPresent();
    OtpuNames();
    VettedIsInRange(st, "num-devices", 1, 8);
    VettedIsInRange(st, "size", 64, 4194304);
    VettedIsInRange(st, "rate", 1, 10000);
    VettedIsInRange(st, "threads", 1, 64);
    VettedIsInRange(st, "duration", 1, 3600);
  }

  /** An accepted command line names a pattern and a scenario, or gives the option without a value. */
  lemma AcceptedNames(args: seq<string>)
    requires Parsed(Otpu(), args).Accepted?
    ensures var v := Parsed(Otpu(), args).store.values;
            && GetString(v, "pattern") in {"small-fast", "large-burst", "mixed", "custom", "true"}
            && GetString(v, "error-scenario") in {"timeout", "corruption", "overrun", "none", "true"}
  {
    NamesHaveDefaults();
    AcceptedIsOneOf(args, "pattern", PATTERNS);
    AcceptedIsOneOf(args, "error-scenario", SCENARIOS);
  }

  lemma AcceptedIsOneOf(args: seq<string>, n: string, accepted: set<string>)
    requires Parsed(Otpu(), args).Accepted?
    requires n in VALUES && n in OPTIONS && OPTIONS[n].validator == OneOf(accepted)
    ensures GetString(Parsed(Otpu(), args).store.values, n) in accepted + {"true"}
  {
    OtpuIsWellFormed();
    OtpuIsVetted();
    ParsingVets(Otpu(), args);
    assert Vetted(Parsed(Otpu(), args).store, n);
  }

  lemma NamesHaveDefaults()
    ensures "pattern" in VALUES && OPTIONS["pattern"] == PATTERN
    ensures "error-scenario" in VALUES && OPTIONS["error-scenario"] == ERROR_SCENARIO
  {
    OtpuNames();
  }

  predicate Paced(t: TransferConfig) {
    && 64 <= t.minSize <= t.maxSize <= 4194304
    && 1 <= t.burstCount <= t.rateHz <= 10000
    && 1 <= t.rateHz / t.burstCount
  }

  lemma TransferIsPaced(values: map<string, string>, c: Config)
    requires Sane(values) && WithTransfer(values, c).Some?
    ensures var c' := WithTransfer(values, c).value;
            Paced(c'.transfer) && c' == c.(transfer := c'.transfer)
  {
  }

  lemma StressIsBounded(values: map<string, string>, c: Config)
    requires Sane(values) && WithStress(values, c).Some? && c.stress == DEFAULTS.stress && !c.flags.stress
    ensures var c' := WithStress(values, c).value;
            && 1 <= c'.stress.threads <= 64 && 1 <= c'.stress.durationSeconds <= 3600
            && (c'.stress.stress <==> GetInt(values, "threads").value > 1)
            && c' == c.(stress := c'.stress, flags := c.flags.(stress := c'.stress.stress))
  {
  }

  lemma ScenarioIsBounded(c: Config, s: Scenario)
    ensures var c' := SetScenario(c, s);
            && 0.0 <= c'.error.probability <= 1.0
            && c'.error.scenario == s && (c'.flags.errors <==> s != NoErrors)
            && c' == c.(error := c'.error, flags := c.flags.(errors := c'.flags.errors))
  {
  }

  /** 1000000 / (rate_hz / burst_count), in microseconds, as each stress worker sleeps. */
  function StressDelay(t: TransferConfig): nat
    requires 1 <= t.burstCount && 1 <= t.rateHz / t.burstCount
  {
    1000000 / (t.rateHz / t.burstCount)
  }

  lemma DelayIsBounded(t: TransferConfig)
    requires Paced(t)
    ensures 100 <= StressDelay(t) <= 1000000
    ensures var per := t.rateHz / t.burstCount;
            StressDelay(t) * per <= 1000000 < (StressDelay(t) + 1) * per
  {
    var per := t.rateHz / t.burstCount;
    assert per <= 10000 by {
      assert per * t.burstCount <= t.rateHz;
      assert per <= per * t.burstCount;
    }
    assert StressDelay(t) == Floor(1000000, per);
    FloorWithin(1000000, per, 100, 1000000);
    FloorBounds(1000000, per);
    Distribute(StressDelay(t), 1, per);
  }

  /**
   Every command line that is accepted and lowered without throwing gives a
   configuration that validates and whose stress pacing divides by no zero.
   */
  lemma AcceptedConfigIsValid(args: seq<string>)
    requires Parsed(Otpu(), args).Accepted?
    requires ToConfig(Parsed(Otpu(), args).store.values).Some?
    ensures var c := ToConfig(Parsed(Otpu(), args).store.values).value;
            && IsValid(c)
            && 1 <= c.transfer.burstCount <= c.transfer.rateHz
            && 1 <= c.transfer.rateHz / c.transfer.burstCount
            && 100 <= StressDelay(c.transfer) <= 1000000
  {
    AcceptedIsSane(args);
    SaneConfig(Parsed(Otpu(), args).store.values);
  }

  lemma OutputFlags(values: map<string, string>, c: Config)
    requires "verbose" in values && c.csvFile == "" && !c.flags.logging
    ensures var c', file := WithOutput(values, c), GetString(values, "log-csv");
            && c'.flags.verbose && (c'.flags.logging <==> file != "") && c'.csvFile == Truncated(file, 255)
            && c' == c.(csvFile := c'.csvFile, flags := c'.flags)
            && c'.flags.errors == c.flags.errors && c'.flags.stress == c.flags.stress
  {
  }

  lemma DevicesAreBounded(values: map<string, string>)
    requires Sane(values) && WithDevices(values, DEFAULTS).Some?
    ensures var c := WithDevices(values, DEFAULTS).value;
            1 <= c.devices <= 8 && c == DEFAULTS.(devices := c.devices)
  {
  }

  /** The configuration just before its stress settings. */
  lemma BeforeStress(values: map<string, string>) returns (c: Config)
    requires Sane(values) && WithDevices(values, DEFAULTS).Some?
    requires WithTransfer(values, WithDevices(values, DEFAULTS).value).Some?
    ensures c == WithScenario(values, WithTransfer(values, WithDevices(values, DEFAULTS).value).value)
    ensures 1 <= c.devices <= 8 && Paced(c.transfer) && 0.0 <= c.error.probability <= 1.0
    ensures c.stress == DEFAULTS.stress && c.csvFile == "" && !c.flags.logging && !c.flags.stress
    ensures c.flags.errors <==> ParseScenario(GetString(values, "error-scenario")) != NoErrors
  {
    var c0 := WithDevices(values, DEFAULTS).value;
    DevicesAreBounded(values);
    TransferIsPaced(values, c0);
    var c1 := WithTransfer(values, c0).value;
    assert c1 == DEFAULTS.(devices := c0.devices, transfer := c1.transfer);
    var scenario := ParseScenario(GetString(values, "error-scenario"));
    ScenarioIsBounded(c1, scenario);
    c := SetScenario(c1, scenario);
  }

  /** The configuration just before its output settings. */
  lemma BeforeOutput(values: map<string, string>) returns (c: Config)
    requires Sane(values) && ToConfig(values).Some?
    ensures ToConfig(values).value == WithOutput(values, c) && GetInt(values, "threads").Some?
    ensures 1 <= c.devices <= 8 && Paced(c.transfer) && 0.0 <= c.error.probability <= 1.0
    ensures c.stress.threads <= 64 && c.stress.durationSeconds <= 3600
    ensures c.csvFile == "" && !c.flags.logging
    ensures c.flags.errors <==> ParseScenario(GetString(values, "error-scenario")) != NoErrors
    ensures c.flags.stress <==> GetInt(values, "threads").value > 1
  {
    var c2 := BeforeStress(values);
    StressIsBounded(values, c2);
    c := WithStress(values, c2).value;
  }

  lemma SaneConfig(values: map<string, string>)
    requires Sane(values) && ToConfig(values).Some?
    ensures var c := ToConfig(values).value;
            && IsValid(c)
            && Paced(c.transfer) && 100 <= StressDelay(c.transfer) <= 1000000
            && FlagsFollow(values, c)
  {
    var c := BeforeOutput(values);
    OutputFlags(values, c);
    DelayIsBounded(c.transfer);
  }

  /** The flags as the parsed values call for them; verbose output is on whatever its value. */
  predicate FlagsFollow(values: map<string, string>, c: Config) {
    && (c.flags.errors <==> GetString(values, "error-scenario") in {"timeout", "corruption", "overrun"})
    && (c.flags.stress <==> GetInt(values, "threads").Some? && GetInt(values, "threads").value > 1)
    && (c.flags.logging <==> GetString(values, "log-csv") != "")
    && c.csvFile == Truncated(GetString(values, "log-csv"), 255)
    && c.flags.verbose
  }

  /** The flags follow the options, except that verbose output is on whether or not it was asked for. */
  lemma ConfigFlags(args: seq<string>)
    requires Parsed(Otpu(), args).Accepted?
    requires ToConfig(Parsed(Otpu(), args).store.values).Some?
    ensures var v := Parsed(Otpu(), args).store.values;
            FlagsFollow(v, ToConfig(v).value)
  {
    AcceptedIsInRange(args);
    SaneConfig(Parsed(Otpu(), args).store.values);
  }

  /** An int option that the lowering consults was last given without a value. */
  predicate ConsultsBare(args: seq<string>, v: map<string, string>) {
    || GivenBare(args, "num-devices")
    || GivenBare(args, "threads")
    || (GetString(v, "pattern") == "custom" && (GivenBare(args, "size") || GivenBare(args, "rate")))
    || (GivenBare(args, "duration") && GetInt(v, "threads").Some? && GetInt(v, "threads").value > 1)
  }

  lemma SaneThrowsIff(v: map<string, string>)
    requires Sane(v)
    ensures ToConfig(v).None? <==>
            || GetInt(v, "num-devices").None?
            || GetInt(v, "threads").None?
            || (GetString(v, "pattern") == "custom" && (GetInt(v, "size").None? || GetInt(v, "rate").None?))
            || (GetInt(v, "duration").None? && GetInt(v, "threads").Some? && GetInt(v, "threads").value > 1)
  {
    assert |"small-fast"| == 10 && |"large-burst"| == 11 && |"mixed"| == 5 && |"custom"| == 6;
    assert ParsePattern(GetString(v, "pattern")) == Custom <==> GetString(v, "pattern") == "custom";
  }

  /** An accepted command line makes the lowering throw exactly when it consults an option without its value. */
  lemma LoweringThrowsIff(args: seq<string>)
    requires Parsed(Otpu(), args).Accepted?
    ensures var v := Parsed(Otpu(), args).store.values;
            ToConfig(v).None? <==> ConsultsBare(args, v)
  {
    AcceptedIsSane(args);
    SaneThrowsIff(Parsed(Otpu(), args).store.values);
  }

  /** The command line `--threads` is accepted, and its lowering throws. */
  lemma AcceptedCanThrow()
    ensures var r := Parsed(Otpu(), ["--threads"]);
            r.Accepted? && ToConfig(r.store.values).None?
  {
    var args := ["--threads"];
    OtpuNames();
    NoOptionIsHelp("threads");
    LongFormIsNamed(Otpu(), "threads");
    assert "--" + "threads" == "--threads";
    assert args[1..] == [];
    assert ParseArgs(Otpu(), args) == Accepted(Assign(Otpu(), "threads", "true"));
    LoweringThrowsIff(args);
  }

  // ------------------------------------------------------------------
  // From settings to configuration

  datatype Settings = Settings(
    devices: nat, pattern: Pattern, size: nat, rate: nat, scenario: Scenario, threads: nat, duration: nat, csv: string)

  predicate InLimits(x: Settings) {
    && 1 <= x.devices <= 8 && 64 <= x.size <= 4194304 && 1 <= x.rate <= 10000
    && 1 <= x.threads <= 64 && 1 <= x.duration <= 3600 && !Dashed(x.csv)
  }

  function Bindings(x: Settings): seq<Binding> {
    [Binding("num-devices", Digits(x.devices)),
     Binding("pattern", PatternName(x.pattern)),
     Binding("size", Digits(x.size)),
     Binding("rate", Digits(x.rate)),
     Binding("error-scenario", ScenarioName(x.scenario)),
     Binding("threads", Digits(x.threads)),
     Binding("duration", Digits(x.duration)),
     Binding("log-csv", x.csv)]
  }

  lemma DigitsAreRenderable(n: string, lo: int, hi: int, k: nat)
    requires n in OPTIONS && OPTIONS[n].validator == IntRange(lo, hi) && n != "help"
    requires lo <= k <= hi && k < 0x8000_0000
    ensures Renderable(Otpu(), Binding(n, Digits(k)))
  {
    StoiOfDigits(k);
  }

  lemma NoOptionIsHelp(n: string)
    requires n in OPTIONS
    ensures n != "help"
  {
    assert |"help"| == 4 && "help"[0] == 'h' && "size"[0] == 's' && "rate"[0] == 'r';
  }

  lemma BindingsAreRenderable(x: Settings, i: nat)
    requires InLimits(x) && i < 8
    ensures Renderable(Otpu(), Bindings(x)[i])
  {
    OtpuNames();
    NoOptionIsHelp(Bindings(x)[i].name);
    if i == 0 {
      DigitsAreRenderable("num-devices", 1, 8, x.devices);
    } else if i == 2 {
      DigitsAreRenderable("size", 64, 4194304, x.size);
    } else if i == 3 {
      DigitsAreRenderable("rate", 1, 10000, x.rate);
    } else if i == 5 {
      DigitsAreRenderable("threads", 1, 64, x.threads);
    } else if i == 6 {
      DigitsAreRenderable("duration", 1, 3600, x.duration);
    } else {
      assert PatternName(x.pattern) in PATTERNS && ScenarioName(x.scenario) in SCENARIOS;
    }
  }

  /** What the lowering reads once the settings have been parsed. */
  predicate Reads(values: map<string, string>, x: Settings) {
    && GetInt(values, "num-devices") == Some(x.devices)
    && GetString(values, "pattern") == PatternName(x.pattern)
    && GetInt(values, "size") == Some(x.size)
    && GetInt(values, "rate") == Some(x.rate)
    && GetString(values, "error-scenario") == ScenarioName(x.scenario)
    && GetInt(values, "threads") == Some(x.threads)
    && GetInt(values, "duration") == Some(x.duration)
    && GetString(values, "log-csv") == x.csv
    && "verbose" in values
  }

  /** A binding overrides exactly its own option when all names differ. */
  lemma {:induction false} OverrideReadsBack(values: map<string, string>, bs: seq<Binding>, i: nat)
    requires i < |bs| && forall j, k :: 0 <= j < k < |bs| ==> bs[j].name != bs[k].name
    ensures var v := Override(values, bs);
            bs[i].name in v && v[bs[i].name] == bs[i].value
    decreases |bs|
  {
    var b, rest := bs[0], bs[1..];
    var next := values[b.name := b.value];
    assert forall j :: 0 <= j < |rest| ==> rest[j] == bs[j + 1];
    if i == 0 {
      UnboundKeepsValue(next, rest, b.name);
    } else {
      OverrideReadsBack(next, rest, i - 1);
    }
  }

  lemma {:induction false} UnboundKeepsValue(values: map<string, string>, bs: seq<Binding>, n: string)
    requires n in values && forall j :: 0 <= j < |bs| ==> bs[j].name != n
    ensures n in Override(values, bs) && Override(values, bs)[n] == values[n]
    decreases |bs|
  {
    if bs != [] {
      var rest := bs[1..];
      assert forall j :: 0 <= j < |rest| ==> rest[j] == bs[j + 1];
      UnboundKeepsValue(values[bs[0].name := bs[0].value], rest, n);
    }
  }

  lemma NamesDiffer(x: Settings)
    ensures forall j, k :: 0 <= j < k < 8 ==> Bindings(x)[j].name != Bindings(x)[k].name
    ensures forall j :: 0 <= j < 8 ==> Bindings(x)[j].name != "verbose"
  {
    assert |"num-devices"| == 11 && |"pattern"| == 7 && |"size"| == 4 && |"rate"| == 4 && |"log-csv"| == 7;
    assert |"verbose"| == 7 && |"error-scenario"| == 14 && |"threads"| == 7 && |"duration"| == 8;
    assert "size"[0] != "rate"[0];
    assert "pattern"[0] == 'p' && "log-csv"[0] == 'l' && "verbose"[0] == 'v' && "threads"[0] == 't';
  }

  lemma BoundReadsBack(x: Settings, i: nat, n: string, value: string)
    requires i < 8 && Bindings(x)[i] == Binding(n, value)
    ensures GetString(Override(VALUES, Bindings(x)), n) == value
    ensures GetInt(Override(VALUES, Bindings(x)), n) == Stoi(value)
  {
    NamesDiffer(x);
    OverrideReadsBack(VALUES, Bindings(x), i);
  }

  lemma VerboseStays(x: Settings)
    ensures "verbose" in Override(VALUES, Bindings(x))
  {
    OtpuNames();
    NamesDiffer(x);
    UnboundKeepsValue(VALUES, Bindings(x), "verbose");
  }

  lemma OverriddenReads(x: Settings)
    requires InLimits(x)
    ensures Reads(Override(VALUES, Bindings(x)), x)
  {
    DigitsReadBack(x);
    BoundReadsBack(x, 0, "num-devices", Digits(x.devices));
    BoundReadsBack(x, 1, "pattern", PatternName(x.pattern));
    BoundReadsBack(x, 2, "size", Digits(x.size));
    BoundReadsBack(x, 3, "rate", Digits(x.rate));
    BoundReadsBack(x, 4, "error-scenario", ScenarioName(x.scenario));
    BoundReadsBack(x, 5, "threads", Digits(x.threads));
    BoundReadsBack(x, 6, "duration", Digits(x.duration));
    BoundReadsBack(x, 7, "log-csv", x.csv);
    VerboseStays(x);
  }

  lemma DigitsReadBack(x: Settings)
    requires InLimits(x)
    ensures Stoi(Digits(x.devices)) == Some(x.devices)
    ensures Stoi(Digits(x.size)) == Some(x.size) && Stoi(Digits(x.rate)) == Some(x.rate)
    ensures Stoi(Digits(x.threads)) == Some(x.threads) && Stoi(Digits(x.duration)) == Some(x.duration)
  {
    StoiOfDigits(x.devices);
    StoiOfDigits(x.size);
    StoiOfDigits(x.rate);
    StoiOfDigits(x.threads);
    StoiOfDigits(x.duration);
  }

  /** The transfer settings asked for: size and rate count for the custom pattern only. */
  function TransferOf(x: Settings): TransferConfig {
    match x.pattern
    case SmallFast => TransferConfig(SmallFast, 64, 1024, 10000, 1, 0)
    case LargeBurst => TransferConfig(LargeBurst, 1048576, 4194304, 100, 10, 100)
    case Mixed => TransferConfig(Mixed, 1024, 65536, 1000, 5, 50)
    case Custom => TransferConfig(Custom, x.size, x.size, x.rate, 1, 0)
  }

  /** The stress settings asked for: a single thread is no stress test. */
  function StressOf(x: Settings): StressConfig {
    if x.threads > 1 then StressConfig(true, x.threads, x.duration) else StressConfig(false, 1, 10)
  }

  lemma TransferReads(values: map<string, string>, x: Settings, c: Config)
    requires InLimits(x) && Reads(values, x)
    ensures WithTransfer(values, c) == Some(c.(transfer := TransferOf(x)))
  {
    NamesParseBack(x.pattern, x.scenario);
  }

  function ErrorOf(x: Settings): ErrorConfig {
    match x.scenario
    case NoErrors => ErrorConfig(NoErrors, 0.0, 0)
    case Timeout => ErrorConfig(Timeout, 0.01, 100)
    case Corruption => ErrorConfig(Corruption, 0.005, 50)
    case Overrun => ErrorConfig(Overrun, 0.02, 200)
  }

  /** The whole configuration asked for. */
  function ConfigOf(x: Settings): Config {
    Config(x.devices, TransferOf(x), ErrorOf(x), StressOf(x), Truncated(x.csv, 255),
           Flags(x.csv != "", x.scenario != NoErrors, x.threads > 1, true))
  }

  lemma StressReads(values: map<string, string>, x: Settings, c: Config)
    requires InLimits(x) && Reads(values, x) && c.stress == DEFAULTS.stress && !c.flags.stress
    ensures WithStress(values, c) == Some(c.(stress := StressOf(x), flags := c.flags.(stress := x.threads > 1)))
  {
  }

  lemma OutputReads(values: map<string, string>, x: Settings, c: Config)
    requires Reads(values, x) && c.csvFile == "" && !c.flags.logging
    ensures WithOutput(values, c) ==
            c.(csvFile := Truncated(x.csv, 255), flags := c.flags.(logging := x.csv != "", verbose := true))
  {
  }

  lemma ReadsLower(values: map<string, string>, x: Settings)
    requires InLimits(x) && Reads(values, x)
    ensures ToConfig(values) == Some(ConfigOf(x))
  {
    NamesParseBack(x.pattern, x.scenario);
    var c0 := DEFAULTS.(devices := x.devices);
    assert WithDevices(values, DEFAULTS) == Some(c0);
    TransferReads(values, x, c0);
    var c1 := WithScenario(values, c0.(transfer := TransferOf(x)));
    StressReads(values, x, c1);
    OutputReads(values, x, WithStress(values, c1).value);
  }

  /** Settings within limits, written as a command line, come out of parsing and lowering unchanged. */
  lemma SettingsReachConfig(x: Settings)
    requires InLimits(x)
    ensures var r := Parsed(Otpu(), Render(Bindings(x)));
            r.Accepted? && ToConfig(r.store.values) == Some(ConfigOf(x))
  {
    var bs := Bindings(x);
    forall i | 0 <= i < |bs| ensures Renderable(Otpu(), bs[i]) {
      BindingsAreRenderable(x, i);
    }
    RenderedSettingsParseBack(Otpu(), bs);
    OverriddenReads(x);
    ReadsLower(Override(VALUES, bs), x);
  }

  /** The aliases of the bindings, in their order. */
  const SHORTS: seq<string> := ["d", "p", "s", "r", "e", "t", "dur", "l"]

  lemma AliasTable()
    ensures {"d", "p", "s", "r", "e", "t", "dur", "l", "v"} <= ALIASES.Keys
    ensures ALIASES["d"] == "num-devices" && ALIASES["p"] == "pattern" && ALIASES["s"] == "size"
    ensures ALIASES["r"] == "rate" && ALIASES["e"] == "error-scenario" && ALIASES["t"] == "threads"
    ensures ALIASES["dur"] == "duration" && ALIASES["l"] == "log-csv" && ALIASES["v"] == "verbose"
  {
    assert "d"[0] == 'd' && "p"[0] == 'p' && "s"[0] == 's' && "r"[0] == 'r' && "l"[0] == 'l';
    assert "v"[0] == 'v' && "e"[0] == 'e' && "t"[0] == 't' && |"d"| == 1 && |"dur"| == 3;
  }

  lemma ShortsStandForBindings(x: Settings, i: nat)
    requires InLimits(x) && i < 8
    ensures StandsFor(Otpu(), SHORTS[i], Bindings(x)[i])
  {
    AliasTable();
    BindingsAreRenderable(x, i);
    assert SHORTS[i][0] != '-' && SHORTS[i] != "h";
  }

  /** The same with the short forms -d, -p, -s, -r, -e, -t, -dur and -l. */
  lemma ShortSettingsReachConfig(x: Settings)
    requires InLimits(x)
    ensures var r := Parsed(Otpu(), RenderShort(SHORTS, Bindings(x)));
            r.Accepted? && ToConfig(r.store.values) == Some(ConfigOf(x))
  {
    var bs := Bindings(x);
    forall i | 0 <= i < |bs| ensures StandsFor(Otpu(), SHORTS[i], bs[i]) {
      ShortsStandForBindings(x, i);
    }
    ShortFormsAreLong(Otpu(), SHORTS, bs);
    OtpuIsWellFormed();
    AliasesAreTransparent(Otpu(), RenderShort(SHORTS, bs));
    SettingsReachConfig(x);
  }

  /** Without any arguments the configuration is the default one, except for its verbose flag. */
  lemma NoArgumentsGiveDefaults()
    ensures var r := Parsed(Otpu(), []);
            && r.Accepted?
            && ToConfig(r.store.values) ==
               Some(Config(1, TransferConfig(Mixed, 1024, 65536, 1000, 5, 50), ErrorConfig(NoErrors, 0.0, 0),
                           StressConfig(false, 1, 10), "", Flags(false, false, false, true)))
  {
    EmptyLineIsAccepted();
    DefaultValuesRead();
    DefaultSettingsMean();
    ReadsLower(Parsed(Otpu(), []).store.values, DEFAULT_SETTINGS);
  }

  lemma DefaultValuesRead()
    ensures Reads(VALUES, DEFAULT_SETTINGS)
  {
    IntDefaultsRead();
    TextDefaultsRead();
  }

  const DEFAULT_SETTINGS := Settings(1, Mixed, 4096, 1000, NoErrors, 1, 10, "")

  lemma DefaultSettingsMean()
    ensures InLimits(DEFAULT_SETTINGS)
    ensures ConfigOf(DEFAULT_SETTINGS) ==
            Config(1, TransferConfig(Mixed, 1024, 65536, 1000, 5, 50), ErrorConfig(NoErrors, 0.0, 0),
                   StressConfig(false, 1, 10), "", Flags(false, false, false, true))
  {
  }

  lemma EmptyLineIsAccepted()
    ensures Parsed(Otpu(), []) == Accepted(Otpu())
  {
    assert forall n :: n in OPTIONS ==> !OPTIONS[n].required;
  }

  lemma DefaultReads(n: string, o: Opt)
    requires n in VALUES && n in OPTIONS && OPTIONS[n] == o
    ensures GetInt(VALUES, n) == Stoi(o.defaultValue) && GetString(VALUES, n) == o.defaultValue
  {
    OtpuNames();
  }

  lemma IntDefaultsRead()
    ensures GetInt(VALUES, "num-devices") == Some(1) && GetInt(VALUES, "size") == Some(4096)
    ensures GetInt(VALUES, "rate") == Some(1000)
    ensures GetInt(VALUES, "threads") == Some(1) && GetInt(VALUES, "duration") == Some(10)
  {
    DefaultsPass();
    OptionTable();
    DefaultReads("num-devices", NUM_DEVICES);
    DefaultReads("size", SIZE);
    DefaultReads("rate", RATE);
    DefaultReads("threads", THREADS);
    DefaultReads("duration", DURATION);
  }

  lemma TextDefaultsRead()
    ensures GetString(VALUES, "pattern") == "mixed" && GetString(VALUES, "error-scenario") == "none"
    ensures GetString(VALUES, "log-csv") == "" && "verbose" in VALUES
  {
    OptionTable();
    DefaultReads("pattern", PATTERN);
    DefaultReads("error-scenario", ERROR_SCENARIO);
    NoCsvByDefault();
  }

  lemma OptionTable()
    ensures OPTIONS["num-devices"] == NUM_DEVICES && OPTIONS["pattern"] == PATTERN
    ensures OPTIONS["size"] == SIZE && OPTIONS["rate"] == RATE
    ensures OPTIONS["error-scenario"] == ERROR_SCENARIO
    ensures OPTIONS["threads"] == THREADS && OPTIONS["duration"] == DURATION
  {
    OtpuNames();
  }

  lemma NoCsvByDefault()
    ensures "log-csv" !in VALUES && "verbose" in VALUES
  {
    assert |"log-csv"| == 7 && "log-csv"[0] == 'l';
    assert |"num-devices"| == 11 && |"size"| == 4 && |"rate"| == 4 && |"error-scenario"| == 14 && |"duration"| == 8;
    assert "pattern"[0] == 'p' && "verbose"[0] == 'v' && "threads"[0] == 't';
  }

  // ------------------------------------------------------------------
  // Any order of setters

  datatype Setter = UsePattern(pattern: Pattern) | UseCustom(size: nat, rate: nat) | UseScenario(scenario: Scenario)

  function Configure(c: Config, s: Setter): Config {
    match s
    case UsePattern(p) => SetPattern(c, p)
    case UseCustom(size, rate) => SetCustomPattern(c, size, rate)
    case UseScenario(scenario) => SetScenario(c, scenario)
  }

  function Configured(ss: seq<Setter>): Config {
    if ss == [] then DEFAULTS else Configure(Configured(Front(ss)), Last(ss))
  }

  function LastScenario(ss: seq<Setter>): Scenario {
    if ss == [] then NoErrors
    else if Last(ss).UseScenario? then Last(ss).scenario
    else LastScenario(Front(ss))
  }

  /**
   Whatever setters are called on a fresh configuration, with whatever arguments,
   it validates, can be paced, and injects errors exactly when the last scenario
   calls for it; no setter touches another one's settings.
   */
  lemma {:induction false} SettersKeepValid(ss: seq<Setter>)
    ensures var c := Configured(ss);
            && IsValid(c) && Paced(c.transfer)
            && c.error.scenario == LastScenario(ss)
            && c == DEFAULTS.(transfer := c.transfer, error := c.error,
                              flags := DEFAULTS.flags.(errors := LastScenario(ss) != NoErrors))
  {
    if ss != [] {
      SettersKeepValid(Front(ss));
      SetterStep(Configured(Front(ss)), Last(ss));
    }
  }

  lemma SetterStep(c: Config, s: Setter)
    requires IsValid(c) && Paced(c.transfer)
    ensures var c' := Configure(c, s);
            && IsValid(c') && Paced(c'.transfer)
            && (if s.UseScenario?
                then c'.error.scenario == s.scenario
                     && c' == c.(error := c'.error, flags := c.flags.(errors := s.scenario != NoErrors))
                else c' == c.(transfer := c'.transfer))
  {
  }

  // ------------------------------------------------------------------
  // The same as objects updated in place

  class Configuration {
    var devices: nat
    var transfer: TransferConfig
    var error: ErrorConfig
    var stress: StressConfig
    var csvFile: string
    var flags: Flags

    ghost function View(): Config
      reads this
    {
      Config(devices, transfer, error, stress, csvFile, flags)
    }

    constructor ()
      ensures View() == DEFAULTS
    {
      devices := 1;
      transfer := MIXED;
      error := ErrorConfig(NoErrors, 0.0, 0);
      stress := StressConfig(false, 1, 10);
      csvFile := "";
      flags := Flags(false, false, false, false);
    }

    method ApplyPattern(p: Pattern)
      modifies this`transfer
      ensures View() == SetPattern(old(View()), p)
    {
      match p
      case SmallFast => transfer := SMALL_FAST;
      case LargeBurst => transfer := LARGE_BURST;
      case Mixed => transfer := MIXED;
      case Custom => transfer := transfer.(pattern := Custom);
    }

    method ApplyCustomPattern(size: nat, rate: nat) returns (ok: bool)
      modifies this`transfer
      ensures View() == SetCustomPattern(old(View()), size, rate)
      ensures ok <==> 64 <= size <= 4194304 && 1 <= rate <= 10000
      ensures transfer == if ok then TransferConfig(Custom, size, size, rate, 1, 0) else old(transfer)
    {
      if size < 64 || size > 4194304 || rate < 1 || rate > 10000 {
        return false;
      }
      transfer := TransferConfig(Custom, size, size, rate, 1, 0);
      return true;
    }

    method ApplyScenario(s: Scenario)
      modifies this`error, this`flags
      ensures View() == SetScenario(old(View()), s)
    {
      error := error.(scenario := s);
      match s
      case NoErrors =>
        error := error.(probability := 0.0);
        flags := flags.(errors := false);
      case Timeout =>
        error := error.(probability := 0.01, recoveryMs := 100);
        flags := flags.(errors := true);
      case Corruption =>
        error := error.(probability := 0.005, recoveryMs := 50);
        flags := flags.(errors := true);
      case Overrun =>
        error := error.(probability := 0.02, recoveryMs := 200);
        flags := flags.(errors := true);
    }

    method ApplyStress(values: map<string, string>) returns (threw: bool)
      modifies this`stress, this`flags
      ensures threw <==> WithStress(values, old(View())).None?
      ensures !threw ==> View() == WithStress(values, old(View())).value
    {
      var threads := GetInt(values, "threads");
      if threads.None? {
        return true;
      }
      if threads.value > 1 {
        var duration := GetInt(values, "duration");
        if duration.None? {
          return true;
        }
        stress := StressConfig(true, U32(threads.value), U32(duration.value));
        flags := flags.(stress := true);
      }
      return false;
    }

    method ApplyOutput(values: map<string, string>)
      modifies this`csvFile, this`flags
      ensures View() == WithOutput(values, old(View()))
    {
      var file := GetString(values, "log-csv");
      if file != "" {
        csvFile := Truncated(file, 255);
        flags := flags.(logging := true);
      }
      if "verbose" in values {
        flags := flags.(verbose := true);
      }
    }

    method Validate() returns (ok: bool)
      ensures ok <==> IsValid(View())
    {
      if devices < 1 || devices > 8 {
        return false;
      }
      if transfer.minSize < 64 || transfer.maxSize > 4194304 {
        return false;
      }
      if transfer.minSize > transfer.maxSize {
        return false;
      }
      if transfer.rateHz < 1 || transfer.rateHz > 10000 {
        return false;
      }
      if error.probability < 0.0 || error.probability > 1.0 {
        return false;
      }
      if stress.threads > 64 {
        return false;
      }
      if stress.durationSeconds > 3600 {
        return false;
      }
      return true;
    }
  }

  method Lower(values: map<string, string>) returns (threw: bool, config: Configuration)
    ensures fresh(config)
    ensures threw <==> ToConfig(values).None?
    ensures !threw ==> config.View() == ToConfig(values).value
  {
    config := new Configuration();
    var devices := GetInt(values, "num-devices");
    if devices.None? {
      return true, config;
    }
    config.devices := U32(devices.value);
    var pattern := ParsePattern(GetString(values, "pattern"));
    if pattern == Custom {
      var size, rate := GetInt(values, "size"), GetInt(values, "rate");
      if size.None? || rate.None? {
        return true, config;
      }
      var _ := config.ApplyCustomPattern(U32(size.value), U32(rate.value));
    } else {
      config.ApplyPattern(pattern);
    }
    config.ApplyScenario(ParseScenario(GetString(values, "error-scenario")));
    threw := config.ApplyStress(values);
    if !threw {
      config.ApplyOutput(values);
    }
  }

  /** create_otpu_options builds exactly the store the results above are about. */
  method CreateOtpuOptions() returns (p: ProgramOptions)
    ensures fresh(p) && p.View() == Otpu()
  {
    p := new ProgramOptions();
    p.AddOption("num-devices", NUM_DEVICES);
    p.AddOption("pattern", PATTERN);
    p.AddOption("size", SIZE);
    p.AddOption("rate", RATE);
    p.AddOption("log-csv", LOG_CSV);
    p.AddOption("verbose", VERBOSE);
    p.AddOption("error-scenario", ERROR_SCENARIO);
    p.AddOption("threads", THREADS);
    p.AddOption("duration", DURATION);
    p.AddAlias("d", "num-devices");
    p.AddAlias("p", "pattern");
    p.AddAlias("s", "size");
    p.AddAlias("r", "rate");
    p.AddAlias("l", "log-csv");
    p.AddAlias("v", "verbose");
    p.AddAlias("e", "error-scenario");
    p.AddAlias("t", "threads");
    p.AddAlias("dur", "duration");
  }
}
