/** Properties of configuration validation and of the argument parser. */
module ConfigProperties {
  import opened Wrappers
  import opened Decimal
  import opened ConfigManager
  import EventDetector

  /** The default configuration validates and sets up the default detector. */
  lemma DefaultConfigurationValid()
    ensures IsValid(DefaultConfiguration())
    ensures DetectorOf(DefaultConfiguration()) == EventDetector.DefaultDetector()
  {
  }

  // ---------------------------------------------------------------------------
  // Numbers
  // ---------------------------------------------------------------------------

  /** A numeral is made of digits only, so it holds no minus sign. */
  lemma DigitsHaveNoMinus(s: string)
    requires AllDigits(s)
    ensures '-' !in s
  {
    forall k | 0 <= k < |s| ensures s[k] != '-' {
      assert IsDigit(s[k]);
    }
  }

  /** Reading back the decimal text of any integer gives that integer when
      it fits in 32 bits, and fails otherwise. */
  lemma ParseIntegerRoundTrip(n: int)
    ensures ParseInteger(IntToString(n)) == if INT_MIN <= n <= INT_MAX then Some(n) else None
  {
    var s := IntToString(n);
    if n < 0 {
      assert |s[1..]| > 0;
      assert IntegerSyntax(s) && NumeralValue(s) == n;
    } else {
      assert IntegerSyntax(s) && NumeralValue(s) == n;
    }
  }

  /** The empty string, a lone minus sign, letters and a plus sign are
      rejected; a minus zero reads as zero; the 32-bit limits are the edge. */
  lemma ParseIntegerExamples()
    ensures ParseInteger("") == None
    ensures ParseInteger("-") == None
    ensures ParseInteger("abc") == None
    ensures ParseInteger("+5") == None
    ensures ParseInteger("12a") == None
    ensures ParseInteger("-0") == Some(0)
    ensures ParseInteger("007") == Some(7)
  {
    assert !IsDigit('a') && !IsDigit('+');
    assert "12a"[2] == 'a';
    assert "-0"[1..] == "0";
    assert "007"[..2] == "00" && "00"[..1] == "0" && "0"[..0] == "";
    assert DigitsValue("00") == 0;
  }

  // ---------------------------------------------------------------------------
  // Hour ranges
  // ---------------------------------------------------------------------------

  /** `FindFirst` finds a character at the first position holding it. */
  lemma {:induction false} FindFirstAt(s: string, c: char, p: nat)
    requires p < |s| && s[p] == c && c !in s[..p]
    ensures FindFirst(s, c) == Some(p)
    decreases p
  {
    if p > 0 {
      assert s[0] in s[..p];
      var t := s[1..][..p - 1];
      forall j | 0 <= j < |t| ensures t[j] != c {
        assert t[j] == s[..p][j + 1];
      }
      FindFirstAt(s[1..], c, p - 1);
    }
  }

  /** Two non-negative integers written with a minus sign between them read
      back exactly when they form a business-hour range. */
  lemma HoursRoundTrip(a: nat, b: nat)
    ensures ParseBusinessHours(IntToString(a) + "-" + IntToString(b))
            == if a < b <= 23 then Some((a, b)) else None
  {
    var left := IntToString(a);
    var right := IntToString(b);
    var s := left + "-" + right;
    DigitsHaveNoMinus(left);
    assert s[..|left|] == left;
    FindFirstAt(s, '-', |left|);
    assert s[|left| + 1..] == right;
    ParseIntegerRoundTrip(a);
    ParseIntegerRoundTrip(b);
  }

  /** Two texts joined by a minus sign, the first free of minus signs, read
      back as a business-hour range exactly when the integer reader accepts
      both and their values form one; a half it cannot read (`9-x`, `a-5`,
      `9-`) rejects the whole. The first text must be free of minus signs
      because the split is at the first `-`. */
  lemma HoursFromParts(x: string, y: string)
    requires '-' !in x
    ensures ParseBusinessHours(x + "-" + y)
            == if ParseInteger(x).Some? && ParseInteger(y).Some?
                  && 0 <= ParseInteger(x).value < ParseInteger(y).value <= 23
               then Some((ParseInteger(x).value, ParseInteger(y).value))
               else None
  {
    var s := x + "-" + y;
    assert s[..|x|] == x;
    FindFirstAt(s, '-', |x|);
    assert s[|x| + 1..] == y;
  }

  /** "9-17" is nine to five. */
  lemma NineToFive()
    ensures ParseBusinessHours("9-17") == Some((9, 17))
  {
    HoursRoundTrip(9, 17);
    assert IntToString(17) == "17";
    assert IntToString(9) + "-" + IntToString(17) == "9-17";
  }

  /** Leading zeros are read: `08-18` is 8 to 18, the default business hours. */
  lemma LeadingZeroHours()
    ensures ParseBusinessHours("08-18") == Some((8, 18))
  {
    var s := "08-18";
    FindFirstAt(s, '-', 2);
    assert s[..2] == "08" && s[3..] == "18";
    TwoDigitHours();
  }

  lemma TwoDigitHours()
    ensures ParseInteger("08") == Some(8) && ParseInteger("18") == Some(18)
  {
    assert "08"[..1] == "0" && "0"[..0] == "";
    assert "18"[..1] == "1" && "1"[..0] == "";
  }

  /** A colon instead of a minus sign, a reversed or empty range, an hour
      past 23 and a negative start are rejected. */
  lemma HoursRejected()
    ensures ParseBusinessHours("9:17") == None
    ensures ParseBusinessHours("17-9") == None
    ensures ParseBusinessHours("9-9") == None
    ensures ParseBusinessHours("8-24") == None
    ensures ParseBusinessHours("-5-10") == None
  {
    assert '-' !in "9:17";
    ReversedRejected();
    EmptyRangeRejected();
    LateEndRejected();
    LeadingMinusRejected();
  }

  lemma ReversedRejected()
    ensures ParseBusinessHours("17-9") == None
  {
    HoursRoundTrip(17, 9);
    assert IntToString(17) + "-" + IntToString(9) == "17-9";
  }

  lemma EmptyRangeRejected()
    ensures ParseBusinessHours("9-9") == None
  {
    HoursRoundTrip(9, 9);
    assert IntToString(9) + "-" + IntToString(9) == "9-9";
  }

  lemma LateEndRejected()
    ensures ParseBusinessHours("8-24") == None
  {
    HoursRoundTrip(8, 24);
    assert IntToString(8) + "-" + IntToString(24) == "8-24";
  }

  lemma LeadingMinusRejected()
    ensures ParseBusinessHours("-5-10") == None
  {
    FindFirstAt("-5-10", '-', 0);
    assert "-5-10"[..0] == "";
  }

  // ---------------------------------------------------------------------------
  // The argument loop
  // ---------------------------------------------------------------------------

  /** The loop composes: once a prefix of the arguments has been read
      without error the rest is read from the configuration it left, and
      help in the prefix ignores whatever follows. */
  lemma {:induction false} ParseOptionsAppend(c: Configuration, xs: seq<string>, ys: seq<string>)
    ensures ParseOptions(c, xs).Parsed? ==> ParseOptions(c, xs + ys) == ParseOptions(ParseOptions(c, xs).config, ys)
    ensures ParseOptions(c, xs).HelpRequested? ==> ParseOptions(c, xs + ys) == ParseOptions(c, xs)
    decreases |xs|
  {
    if |xs| == 0 {
      assert xs + ys == ys;
    } else {
      assert (xs + ys)[0] == xs[0];
      if !IsHelpFlag(xs[0]) && SettingOf(xs[0]).Some? && |xs| >= 2 {
        assert (xs + ys)[1] == xs[1];
        assert (xs + ys)[2..] == xs[2..] + ys;
        var s := SettingOf(xs[0]).value;
        if Apply(c, s, xs[1]).Some? {
          ParseOptionsAppend(Apply(c, s, xs[1]).value, xs[2..], ys);
        }
      }
    }
  }

  /** Help returns at once with the configuration as earlier options left
      it, skipping the remaining arguments and the final validation. */
  lemma HelpStopsTheLoop(cm: ConfigManager, argv: seq<string>, k: nat)
    requires 1 <= k < |argv| && IsHelpFlag(argv[k])
    requires ParseOptions(cm.config, argv[1..k]).Parsed?
    ensures ParseCommandLineArgs(cm, argv) == (true, ConfigManager(ParseOptions(cm.config, argv[1..k]).config, true))
  {
    assert argv[1..] == argv[1..k] + argv[k..];
    ParseOptionsAppend(cm.config, argv[1..k], argv[k..]);
  }

  /** Help as the first argument returns at once with nothing changed. */
  lemma HelpFirst(cm: ConfigManager, prog: string, h: string, rest: seq<string>)
    requires IsHelpFlag(h)
    ensures ParseCommandLineArgs(cm, [prog, h] + rest) == (true, ConfigManager(cm.config, true))
  {
    assert ([prog, h] + rest)[1..] == [h] + rest;
  }

  /** An option as the last argument, without its value, is an error. */
  lemma MissingValue(cm: ConfigManager, prog: string, option: string)
    requires SettingOf(option).Some?
    ensures ParseCommandLineArgs(cm, [prog, option]) == (false, ConfigManager(cm.config, false))
  {
    assert [prog, option][1..] == [option];
  }

  /** An argument that is neither help nor an option is an error. */
  lemma UnknownArgument(c: Configuration, arg: string, rest: seq<string>)
    requires !IsHelpFlag(arg) && SettingOf(arg).None?
    ensures ParseOptions(c, [arg] + rest) == ParseError(c)
  {
  }

  /** Applying a setting twice keeps only the second value. */
  lemma ApplyOverwrites(c: Configuration, s: Setting, x: string, y: string)
    requires Apply(c, s, x).Some?
    ensures Apply(Apply(c, s, x).value, s, y) == Apply(c, s, y)
  {
  }

  /** Of two occurrences of options for the same setting, the later wins. */
  lemma LaterOccurrenceWins(c: Configuration, f: string, x: string, g: string, y: string, rest: seq<string>)
    requires !IsHelpFlag(f) && !IsHelpFlag(g)
    requires SettingOf(f).Some? && SettingOf(f) == SettingOf(g)
    requires Apply(c, SettingOf(f).value, x).Some? && Apply(c, SettingOf(f).value, y).Some?
    ensures ParseOptions(c, [f, x, g, y] + rest) == ParseOptions(c, [g, y] + rest)
  {
    var s := SettingOf(f).value;
    var c1 := Apply(c, s, x).value;
    assert ([f, x, g, y] + rest)[2..] == [g, y] + rest;
    assert ([g, y] + rest)[2..] == rest;
    assert ParseOptions(c, [f, x, g, y] + rest) == ParseOptions(c1, [g, y] + rest);
    ApplyOverwrites(c, s, x, y);
    var c2 := Apply(c, s, y).value;
    assert ParseOptions(c1, [g, y] + rest) == ParseOptions(c2, rest);
  }

  /** One option with its value changes only the fields of its setting,
      or ends in an error with nothing changed. */
  lemma OneOptionOneSetting(c: Configuration, option: string, value: string)
    requires !IsHelpFlag(option) && SettingOf(option).Some?
    ensures ParseOptions(c, [option, value]).Parsed? || ParseOptions(c, [option, value]) == ParseError(c)
    ensures OnlyChanges(c, ParseOptions(c, [option, value]).config, SettingOf(option).value)
  {
    assert [option, value][2..] == [];
  }

  /** With no arguments but the program name, or none at all, the defaults
      stay and validate. */
  lemma NoOptionsKeepsDefaults(prog: string)
    ensures ParseCommandLineArgs(NewConfigManager(), [prog]) == (true, NewConfigManager())
    ensures ParseCommandLineArgs(NewConfigManager(), []) == (true, NewConfigManager())
  {
    DefaultConfigurationValid();
  }

  /** Without help, the call succeeds exactly when the configuration the
      loop leaves validates. */
  lemma ResultIsValidation(cm: ConfigManager, argv: seq<string>)
    requires |argv| > 0 && ParseOptions(cm.config, argv[1..]).Parsed?
    ensures ParseCommandLineArgs(cm, argv).0 <==> IsValid(ParseOptions(cm.config, argv[1..]).config)
    ensures !ParseCommandLineArgs(cm, argv).1.helpRequested
  {
  }

  /** A threshold of zero reads fine but fails validation. */
  lemma ZeroThresholdRejected(cm: ConfigManager, prog: string)
    ensures !ParseCommandLineArgs(cm, [prog, "--threshold", "0"]).0
  {
    var args := ["--threshold", "0"];
    assert [prog, "--threshold", "0"][1..] == args;
    assert args[2..] == [];
    assert DigitsValue("0") == 0;
    assert ParseInteger("0") == Some(0);
    var c := cm.config.(failedLoginThreshold := 0);
    assert Apply(cm.config, Threshold, "0") == Some(c);
    assert ParseOptions(cm.config, args) == ParseOptions(c, []);
  }

  /** An error keeps what the options before it changed. */
  lemma ErrorKeepsEarlierOptions(cm: ConfigManager, prog: string, path: string)
    ensures ParseCommandLineArgs(cm, [prog, "--input", path, "--bogus"])
            == (false, ConfigManager(cm.config.(logFilePath := path), false))
  {
    var args := ["--input", path, "--bogus"];
    assert [prog, "--input", path, "--bogus"][1..] == args;
    assert args[2..] == ["--bogus"];
    assert ParseOptions(cm.config, args) == ParseOptions(cm.config.(logFilePath := path), ["--bogus"]);
  }

  /** The documented example: threshold 3, a five-minute window, nine to
      five, and the default paths. */
  lemma UsageExample(prog: string)
    ensures ParseCommandLineArgs(NewConfigManager(),
              [prog, "--threshold", "3", "--window", "5", "--hours", "9-17"])
            == (true, ConfigManager(Configuration(3, 5, 9, 17, "logs/sample.log", "reports/report.txt"), false))
  {
    var args := ["--threshold", "3", "--window", "5", "--hours", "9-17"];
    assert [prog, "--threshold", "3", "--window", "5", "--hours", "9-17"][1..] == args;
    UsageExampleOptions();
  }

  /** One option and its value, read from `c`. */
  lemma OptionStep(c: Configuration, option: string, value: string, rest: seq<string>, c': Configuration)
    requires !IsHelpFlag(option) && SettingOf(option).Some?
    requires Apply(c, SettingOf(option).value, value) == Some(c')
    ensures ParseOptions(c, [option, value] + rest) == ParseOptions(c', rest)
  {
    assert ([option, value] + rest)[2..] == rest;
  }

  lemma UsageExampleOptions()
    ensures ParseOptions(DefaultConfiguration(), ["--threshold", "3", "--window", "5", "--hours", "9-17"])
            == Parsed(Configuration(3, 5, 9, 17, "logs/sample.log", "reports/report.txt"))
  {
    var c0 := DefaultConfiguration();
    var c1 := c0.(failedLoginThreshold := 3);
    var c2 := c1.(timeWindowMinutes := 5);
    var c3 := c2.(businessHourStart := 9, businessHourEnd := 17);
    ExampleValues(c0, c1, c2);
    OptionStep(c0, "--threshold", "3", ["--window", "5", "--hours", "9-17"], c1);
    OptionStep(c1, "--window", "5", ["--hours", "9-17"], c2);
    OptionStep(c2, "--hours", "9-17", [], c3);
    assert ["--threshold", "3"] + ["--window", "5", "--hours", "9-17"] == ["--threshold", "3", "--window", "5", "--hours", "9-17"];
    assert ["--window", "5"] + ["--hours", "9-17"] == ["--window", "5", "--hours", "9-17"];
    assert ["--hours", "9-17"] + [] == ["--hours", "9-17"];
  }

  /** The three options of the usage example, each applied on its own. */
  lemma ExampleValues(c0: Configuration, c1: Configuration, c2: Configuration)
    requires c1 == c0.(failedLoginThreshold := 3) && c2 == c1.(timeWindowMinutes := 5)
    ensures SettingOf("--threshold") == Some(Threshold) && Apply(c0, Threshold, "3") == Some(c1)
    ensures SettingOf("--window") == Some(Window) && Apply(c1, Window, "5") == Some(c2)
    ensures SettingOf("--hours") == Some(Hours) && Apply(c2, Hours, "9-17") == Some(c2.(businessHourStart := 9, businessHourEnd := 17))
  {
    SingleDigits();
    NineToFive();
  }

  lemma SingleDigits()
    ensures ParseInteger("3") == Some(3) && ParseInteger("5") == Some(5)
  {
    assert DigitsValue("3") == 3 && DigitsValue("5") == 5;
  }
}
