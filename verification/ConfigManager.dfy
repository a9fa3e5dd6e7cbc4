/** The analyzer's configuration: the six settings, their validation, and
    the command-line parser that fills them in. */
module ConfigManager {
  import opened Wrappers
  import opened Decimal
  import EventDetector

  /** The detection thresholds and the two file paths. */
  datatype Configuration = Configuration(
    failedLoginThreshold: int,
    timeWindowMinutes: int,
    businessHourStart: int,
    businessHourEnd: int,
    logFilePath: string,
    reportOutputPath: string)

  /** What the default constructor sets up. */
  function DefaultConfiguration(): (c: Configuration)
    ensures c.failedLoginThreshold == 5 && c.timeWindowMinutes == 10
    ensures c.businessHourStart == 8 && c.businessHourEnd == 18
    ensures c.logFilePath == "logs/sample.log" && c.reportOutputPath == "reports/report.txt"
  {
    Configuration(5, 10, 8, 18, "logs/sample.log", "reports/report.txt")
  }

  /** The manager: the current configuration and whether help was asked for. */
  datatype ConfigManager = ConfigManager(config: Configuration, helpRequested: bool)

  /** A fresh manager: the defaults, which are valid, and no help request. */
  function NewConfigManager(): (cm: ConfigManager)
    ensures cm.config == DefaultConfiguration() && !cm.helpRequested
    ensures IsValid(cm.config)
  {
    ConfigManager(DefaultConfiguration(), false)
  }

  /** The detector a configuration sets up: its four thresholds, in order. */
  function DetectorOf(c: Configuration): EventDetector.Detector
  {
    EventDetector.Detector(c.failedLoginThreshold, c.timeWindowMinutes, c.businessHourStart, c.businessHourEnd)
  }

  // ---------------------------------------------------------------------------
  // Validation
  // ---------------------------------------------------------------------------

  /** The documented validation rules, all at once. */
  ghost predicate IsValid(c: Configuration)
  {
    && c.failedLoginThreshold > 0
    && c.timeWindowMinutes > 0
    && 0 <= c.businessHourStart <= 23
    && 0 <= c.businessHourEnd <= 23
    && c.businessHourStart < c.businessHourEnd
    && |c.logFilePath| > 0
    && |c.reportOutputPath| > 0
  }

  /** The checks one at a time, returning at the first that fails. */
  function ValidateConfiguration(c: Configuration): (ok: bool)
    ensures ok <==> IsValid(c)
  {
    if c.failedLoginThreshold <= 0 then false
    else if c.timeWindowMinutes <= 0 then false
    else if c.businessHourStart < 0 || c.businessHourStart > 23 then false
    else if c.businessHourEnd < 0 || c.businessHourEnd > 23 then false
    else if c.businessHourStart >= c.businessHourEnd then false
    else if |c.logFilePath| == 0 then false
    else if |c.reportOutputPath| == 0 then false
    else true
  }

  /** Installs `c` and validates it, putting the previous configuration back
      when it does not validate. */
  function SetConfiguration(cm: ConfigManager, c: Configuration): (r: (bool, ConfigManager))
    ensures r.0 <==> IsValid(c)
    ensures r.0 ==> r.1 == cm.(config := c)
    ensures !r.0 ==> r.1 == cm
  {
    var installed := cm.(config := c);
    if !ValidateConfiguration(installed.config) then (false, cm) else (true, installed)
  }

  // ---------------------------------------------------------------------------
  // Numbers and hour ranges
  // ---------------------------------------------------------------------------

  /** An optional minus sign followed by one or more ASCII digits. */
  ghost predicate IntegerSyntax(s: string)
  {
    && |s| > 0
    && (s[0] == '-' ==> |s| > 1 && AllDigits(s[1..]))
    && (s[0] != '-' ==> AllDigits(s))
  }

  /** The value such a string denotes. */
  ghost function NumeralValue(s: string): int
    requires IntegerSyntax(s)
  {
    if s[0] == '-' then -(DigitsValue(s[1..]) as int) else DigitsValue(s)
  }

  /** Reads a 32-bit `int`: rejects the empty string, a lone minus sign, any
      other character than a leading minus and digits, and, as the stream
      extraction does, a value outside the 32-bit range. */
  function ParseInteger(s: string): (r: Option<int>)
    ensures r.Some? ==> IntegerSyntax(s) && r.value == NumeralValue(s)
    ensures r.Some? ==> INT_MIN <= r.value <= INT_MAX
    ensures IntegerSyntax(s) && INT_MIN <= NumeralValue(s) <= INT_MAX ==> r.Some?
  {
    if |s| == 0 then None
    else if s[0] == '-' && |s| == 1 then None
    else
      var digits := if s[0] == '-' then s[1..] else s;
      if !AllDigits(digits) then None
      else
        var v: int := if s[0] == '-' then -(DigitsValue(digits) as int) else DigitsValue(digits);
        if v < INT_MIN || v > INT_MAX then None else Some(v)
  }

  /** The position of the first `c` in `s`, if any. */
  function FindFirst(s: string, c: char): (r: Option<nat>)
    ensures r.Some? ==> r.value < |s| && s[r.value] == c && c !in s[..r.value]
    ensures r.None? ==> c !in s
  {
    if |s| == 0 then None
    else if s[0] == c then Some(0)
    else
      match FindFirst(s[1..], c)
      case None => None
      case Some(p) =>
        assert s[..p + 1] == [s[0]] + s[1..][..p];
        Some(p + 1)
  }

  /** Reads `start-end`: splits at the first minus sign, reads both sides as
      integers and accepts them when `0 <= start < end <= 23`. */
  function ParseBusinessHours(s: string): (r: Option<(int, int)>)
    ensures r.Some? ==> 0 <= r.value.0 < r.value.1 <= 23
    ensures '-' !in s ==> r.None?
  {
    match FindFirst(s, '-')
    case None => None
    case Some(dash) =>
      var startText := s[..dash];
      var endText := s[dash + 1..];
      match ParseInteger(startText)
      case None => None
      case Some(start) =>
        match ParseInteger(endText)
        case None => None
        case Some(end) =>
          if start < 0 || start > 23 || end < 0 || end > 23 then None
          else if start >= end then None
          else Some((start, end))
  }

  // ---------------------------------------------------------------------------
  // Command-line arguments
  // ---------------------------------------------------------------------------

  /** The settings an option can change. */
  datatype Setting = InputPath | OutputPath | Threshold | Window | Hours

  /** The help flags. */
  predicate IsHelpFlag(arg: string)
  {
    arg == "--help" || arg == "-h"
  }

  /** The setting an option names, by its long or short spelling. */
  function SettingOf(arg: string): Option<Setting>
  {
    if arg == "--input" || arg == "-i" then Some(InputPath)
    else if arg == "--output" || arg == "-o" then Some(OutputPath)
    else if arg == "--threshold" || arg == "-t" then Some(Threshold)
    else if arg == "--window" || arg == "-w" then Some(Window)
    else if arg == "--hours" then Some(Hours)
    else None
  }

  /** `c` and `c'` agree on every field that setting `s` does not own. */
  ghost predicate OnlyChanges(c: Configuration, c': Configuration, s: Setting)
  {
    && (s != InputPath ==> c'.logFilePath == c.logFilePath)
    && (s != OutputPath ==> c'.reportOutputPath == c.reportOutputPath)
    && (s != Threshold ==> c'.failedLoginThreshold == c.failedLoginThreshold)
    && (s != Window ==> c'.timeWindowMinutes == c.timeWindowMinutes)
    && (s != Hours ==> c'.businessHourStart == c.businessHourStart && c'.businessHourEnd == c.businessHourEnd)
  }

  /** The value of an option applied to `c`: paths are taken verbatim,
      numbers and hour ranges must parse. */
  function Apply(c: Configuration, s: Setting, value: string): (r: Option<Configuration>)
    ensures r.Some? ==> OnlyChanges(c, r.value, s)
    ensures s in {InputPath, OutputPath} ==> r.Some?
    ensures s in {Threshold, Window} ==> (r.Some? <==> ParseInteger(value).Some?)
    ensures s == Hours ==> (r.Some? <==> ParseBusinessHours(value).Some?)
    ensures s == Threshold && r.Some? ==> r.value.failedLoginThreshold == ParseInteger(value).value
    ensures s == Window && r.Some? ==> r.value.timeWindowMinutes == ParseInteger(value).value
    ensures s == Hours && r.Some? ==> 0 <= r.value.businessHourStart < r.value.businessHourEnd <= 23
  {
    match s
    case InputPath => Some(c.(logFilePath := value))
    case OutputPath => Some(c.(reportOutputPath := value))
    case Threshold =>
      (match ParseInteger(value)
       case None => None
       case Some(n) => Some(c.(failedLoginThreshold := n)))
    case Window =>
      (match ParseInteger(value)
       case None => None
       case Some(n) => Some(c.(timeWindowMinutes := n)))
    case Hours =>
      (match ParseBusinessHours(value)
       case None => None
       case Some(h) => Some(c.(businessHourStart := h.0, businessHourEnd := h.1)))
  }

  /** How the loop over the arguments ends, with the configuration as it
      stands at that point. */
  datatype ParseOutcome =
    | HelpRequested(config: Configuration)
    | ParseError(config: Configuration)
    | Parsed(config: Configuration)

  /** Hours that a successful `--hours` option could have produced. */
  ghost predicate HoursInRange(c: Configuration)
  {
    0 <= c.businessHourStart < c.businessHourEnd <= 23
  }

  /** Numbers that a 32-bit `int` can hold. */
  ghost predicate Int32Numbers(c: Configuration)
  {
    && INT_MIN <= c.failedLoginThreshold <= INT_MAX
    && INT_MIN <= c.timeWindowMinutes <= INT_MAX
  }

  /** The loop over the arguments after the program name, left to right:
      help ends it at once; an option needs the next argument as its value,
      which it consumes; a missing or unreadable value or an unknown
      argument ends it with an error, keeping what earlier options set. */
  function ParseOptions(c: Configuration, args: seq<string>): (r: ParseOutcome)
    ensures HoursInRange(c) ==> HoursInRange(r.config)
    ensures Int32Numbers(c) ==> Int32Numbers(r.config)
    decreases |args|
  {
    if |args| == 0 then Parsed(c)
    else if IsHelpFlag(args[0]) then HelpRequested(c)
    else
      match SettingOf(args[0])
      case None => ParseError(c)
      case Some(s) =>
        if |args| < 2 then ParseError(c)
        else
          match Apply(c, s, args[1])
          case None => ParseError(c)
          case Some(c') => ParseOptions(c', args[2..])
  }

  /** `parseCommandLineArgs` on the full argument vector, program name
      first: clears the help flag, runs the loop, and unless help was asked
      for validates what the loop left. The configuration keeps every change
      made before an error. */
  function ParseCommandLineArgs(cm: ConfigManager, argv: seq<string>): (r: (bool, ConfigManager))
    ensures r.1.helpRequested ==> r.0
    ensures r.0 && !r.1.helpRequested ==> IsValid(r.1.config)
    ensures HoursInRange(cm.config) ==> HoursInRange(r.1.config)
  {
    var args := if |argv| == 0 then [] else argv[1..];
    match ParseOptions(cm.config, args)
    case HelpRequested(c) => (true, ConfigManager(c, true))
    case ParseError(c) => (false, ConfigManager(c, false))
    case Parsed(c) => (ValidateConfiguration(c), ConfigManager(c, false))
  }
}
