# LogAnalyzer core in Dafny

A model of the analysis core of LogAnalyzer, a command-line tool that reads
authentication logs and reports suspicious login activity. It covers three
parts.

- **Log-line parser.** It turns a line `TIMESTAMP | USERNAME | IP | STATUS`
  into a login record.
- **Detection engine.** It has three detectors:
  - bursts of failed logins per user;
  - successful logins outside business hours;
  - successful logins of one user from several addresses within a time
    window.

  A fourth function concatenates their findings.
- **Configuration manager.** It holds six settings, validates them, and reads
  them from the command line.

Everything is a pure function over immutable datatypes. Conventions:

- Timestamps are whole seconds (`int`). The minute truncation of the window
  test is integer division of a non-negative difference by 60.
- Calendar-dependent steps are parameters of the model:
  - `hourOf: int -> int` gives the local hour of day of a timestamp;
  - `parseTimestamp: string -> Option<int>` reads the timestamp text.
- A `std::map` from user to records is a strictly key-sorted association list
  (`Ordered.MapAppend` is `m[k].push_back(v)`).
- A `std::set` of addresses is a strictly ascending sequence
  (`Ordered.SetInsert`). Strings are ordered by character code.
- `parseInteger` reads a 32-bit `int`. Values outside
  `[-2^31, 2^31 - 1]` are rejected, as the stream extraction does.
- `parseCommandLineArgs` is a recursion over `argv[1..]`. It ends with help,
  with an error (keeping the options applied so far), or after the last
  argument, where it validates.

Files:

| file | contents |
|---|---|
| `Wrappers.dfy` | `Option` |
| `Ordered.dfy` | string order, the sorted-set and sorted-map containers |
| `Decimal.dfy` | digits, `std::to_string` on integers, 32-bit bounds |
| `LogEntry.dfy` | `LoginStatus`, `LogEntry`, the status filter |
| `EventDetector.dfy` | window test, grouping, sorting, the anchor scan, the detectors |
| `DetectorProperties.dfy` | properties of one user's scan against reference definitions |
| `DetectorResults.dfy` | properties of the four entry points |
| `ConfigManager.dfy` | configuration, validation, integer and hour parsing, argument parsing |
| `ConfigProperties.dfy` | round trips and behaviour of the argument loop |
| `LogParser.dfy` | `trim`, `parseStatus`, `getline`, `parseLogLine` |
| `ParserProperties.dfy` | properties of trimming, status and line parsing |

## How the scan is modelled

Both cluster detectors use the same outer loop, modelled once as
`EventDetector.Anchors`. It is parameterised by which anchors fire and where
each anchor's window ends.

- **Window.** For an anchor, the window extends forward over the time-sorted
  records of one user while each record is within the time window of the
  anchor. It stops at the first record that is not (`ScanForward`).
- **Firing.** A failed-login anchor fires when the window holds at least the
  threshold number of records. A multi-address anchor fires when the window
  holds at least two distinct addresses.
- **Skip-ahead.** After a finding, the scan resumes one past the window end.
  Otherwise it moves to the next record.

The contract of `Anchors` (`ScanSpec`) says three things. Every anchor fires.
Windows are disjoint and ascending. Nothing fires before the first anchor or
in a gap between one window's end and the next anchor.

`DetectorProperties` relates the scan to reference definitions. `InWindow`
holds the positions of records within the window of the anchor, wherever they
lie. `AddressesIn` holds the addresses of a set of positions. On time-sorted
records the scanned window is exactly the reference window, so the early
`break` loses nothing.

Two behaviours of the scan are worth stating plainly:

- After a finding the anchor moves one past the last record of the window,
  so no record belongs to two findings of the same user.
- Every record of the window is counted, the anchor included: seven failed
  logins one minute apart with a ten-minute window give one finding with
  count 7.

One documented promise the code does not keep, and the model follows the
code: `parseLogLine` does not reject extra `|` characters. The header
comment (include/LogParser.h:56) promises exactly four fields. The extra
characters stay in the status text, which then reads as `Unknown`, and the
record is kept.

## Model

| member | source | states |
|---|---|---|
| EventDetector.IsWithinTimeWindow | src/EventDetector.cpp:33-45 | the window test holds exactly when the distance is below `60 * (window + 1)` seconds, so W minutes 59 seconds still counts as inside |
| DetectorProperties.WithinWindowCharacterised | src/EventDetector.cpp:33-45 | the window test is symmetric in its two instants |
| DetectorProperties.WithinWindowMonotone | src/EventDetector.cpp:101-114 | on ordered instants, a record within the window of the anchor makes every record between them within it too |
| DetectorProperties.EarlyExitSound | src/EventDetector.cpp:101-114 | on time-sorted records, a later record is within the window of the anchor exactly when it lies at or before the window end the early-exit scan stops at |
| EventDetector.NewEvent | include/EventDetector.h:63-75 | the positional constructor stores kind, user, both instants and the count as given, the single address `ip` as the address list, and an empty description |
| EventDetector.DefaultDetector | src/EventDetector.cpp:10-16 | the argument-less detector has threshold 5, window 10 and hours 8 to 18 |
| EventDetector.SortByTime | src/EventDetector.cpp:84-89 | the result is sorted by timestamp and is a permutation of the group |
| EventDetector.Select | src/EventDetector.cpp:72-79 | a record is in the result exactly when it is in the input with that user and status, and it occurs there as often as in the input |
| EventDetector.GroupByUser | src/EventDetector.cpp:70-79 | the map's keys are sorted; each key holds exactly that user's records of the status, each as often as in the input and in input order (`DetectorResults.SelectAppend`); the keys are exactly the users with such a record |
| EventDetector.ScanForward | src/EventDetector.cpp:96-114 | every record up to the result is within the window of the anchor, and the next one, if any, is not |
| EventDetector.Anchors | src/EventDetector.cpp:92-142 | anchors all fire, windows are disjoint and ascending, and no firing position is skipped before the first anchor or between windows |
| EventDetector.ClusterFinding | src/EventDetector.cpp:116-137 | the finding has the rule's kind and names the user |
| EventDetector.ScanUser | src/EventDetector.cpp:92-142 | every finding of a user's scan has the rule's kind and names that user |
| EventDetector.OverGroups | src/EventDetector.cpp:82-143 | every finding has the rule's kind and names a user that is a key of the map |
| EventDetector.DetectMultipleFailedLogins | src/EventDetector.cpp:63-146 | every finding is a failed-login finding about a user with a failed login |
| EventDetector.DetectMultipleIpAddresses | src/EventDetector.cpp:196-288 | every finding is a multi-address finding about a user with a successful login |
| EventDetector.DetectLoginsOutsideBusinessHours | src/EventDetector.cpp:148-194 | at most one finding per record; each is an after-hours finding with count 1, equal first and last time and one address |
| EventDetector.DetectAll | src/EventDetector.cpp:290-306 | the findings come grouped by kind: failed logins, then after-hours logins, then multiple addresses |
| DetectorProperties.WindowIsInterval | src/EventDetector.cpp:92-114 | on time-sorted records the reference window of an anchor is the interval from the anchor to the window end the scan finds |
| DetectorProperties.FailedRuleFiresIff | src/EventDetector.cpp:96-117 | a failed-login anchor fires exactly when its reference window holds at least the threshold number of records |
| DetectorProperties.WindowIpsElements | src/EventDetector.cpp:228-247 | the collected address set is ascending and holds exactly the addresses of the records from the anchor to the window end |
| DetectorProperties.IpRuleFiresIff | src/EventDetector.cpp:228-251 | the collected addresses are ascending, distinct, and exactly the addresses of the reference window; the anchor fires exactly when there are at least two |
| DetectorProperties.AnchorFacts | src/EventDetector.cpp:92-142 | every anchor of a user's scan fires, and each later anchor lies past an earlier anchor's window end |
| DetectorProperties.WindowEndIsWindow | src/EventDetector.cpp:96-114 | the anchor and the records up to the window end form a window: all within the time window, the next record not |
| DetectorProperties.RunAddresses | src/EventDetector.cpp:229-247 | the address set of a window is ascending and holds exactly the addresses of the records from the anchor to the window end |
| DetectorProperties.FailedScanFindings | src/EventDetector.cpp:116-140 | every failed-login finding names the user, reaches the threshold, carries only its anchor's address, spans one window, and counts exactly its records |
| DetectorProperties.IpScanFindings | src/EventDetector.cpp:249-282 | every multi-address finding names the user, carries at least two ascending distinct addresses, counts them, and they are exactly the addresses of the window it spans |
| DetectorProperties.FailedFindingShape | src/EventDetector.cpp:116-137 | the finding of a firing failed-login anchor has the failed-login shape |
| DetectorProperties.IpFindingShape | src/EventDetector.cpp:249-279 | the finding of a firing multi-address anchor has the multi-address shape |
| DetectorProperties.FindingSpan | src/EventDetector.cpp:122-129 | a finding starts at its anchor's timestamp and ends at its window end's timestamp |
| DetectorProperties.FindingForward | src/EventDetector.cpp:117-127 | on time-sorted records a finding's first occurrence is not after its last |
| DetectorProperties.FindingsInOrder | src/EventDetector.cpp:139-140 | a finding whose anchor lies past another's window end starts no earlier than the other ends |
| DetectorProperties.ScanFindingsAscending | src/EventDetector.cpp:92-142 | a user's findings are each forward in time and come in time order without overlap |
| DetectorProperties.SpanSumBound | src/EventDetector.cpp:139-140 | windows of ascending, disjoint anchors from position `lo` hold at most the records from `lo` on |
| DetectorProperties.SumCountsFrom | src/EventDetector.cpp:97-128 | the counts of a user's failed-login findings add up to the sizes of their windows |
| DetectorProperties.FailedCountsBounded | src/EventDetector.cpp:92-142 | the counts of a user's failed-login findings add up to at most that user's failed logins |
| DetectorProperties.FindingNeedsThreshold | src/EventDetector.cpp:117 | a user with a failed-login finding has at least the threshold number of failed logins |
| DetectorProperties.BelowThresholdNoFinding | src/EventDetector.cpp:117 | fewer failed logins than the threshold give no finding |
| DetectorProperties.OneBurstOneFinding | src/EventDetector.cpp:92-142 | a burst of at least the threshold number of failed logins, all within the window of the first, gives exactly one finding counting all of them, spanning first to last, with the first one's address |
| DetectorResults.OverGroupsPerUser | src/EventDetector.cpp:82-89 | scanning a sorted map's groups in order gives each user exactly the findings of a scan of that user's own time-sorted group |
| DetectorResults.FailedLoginsPerUser | src/EventDetector.cpp:68-143 | a user's failed-login findings are exactly the scan of that user's failed logins, sorted by time |
| DetectorResults.IpAddressesPerUser | src/EventDetector.cpp:201-285 | a user's multi-address findings are exactly the scan of that user's successful logins, sorted by time |
| DetectorResults.FailedLoginFindings | src/EventDetector.cpp:63-146 | every failed-login finding about a user has the failed-login shape over that user's failed logins, and their counts add up to at most the number of those logins |
| DetectorResults.IpAddressFindings | src/EventDetector.cpp:196-288 | every multi-address finding about a user has the multi-address shape over that user's successful logins |
| DetectorResults.SelectAppend | src/EventDetector.cpp:72-79 | selecting from two runs of records is selecting from the first, then from the second: the selection keeps input order |
| DetectorResults.SelectOne | src/EventDetector.cpp:72-79 | a single record is selected exactly when it has the user and the status |
| DetectorResults.SelectLast | src/EventDetector.cpp:72-79 | each record is appended after the ones before it, when it has the user and the status |
| DetectorResults.WithStatusLast | src/EventDetector.cpp:72-79 | each record is appended after the ones before it, when it has the status |
| DetectorResults.GroupByUserStatusOnly | src/EventDetector.cpp:72-79 | grouping by user for a status depends only on the records with that status |
| DetectorResults.StatusOnly | src/EventDetector.cpp:72-79 | the failed-login detector depends only on failed logins and the other two only on successful logins, so other records neither count nor break a cluster |
| DetectorResults.AfterHoursStatusOnly | src/EventDetector.cpp:154-160 | the after-hours detector depends only on successful logins |
| DetectorResults.AfterHoursAppend | src/EventDetector.cpp:154-191 | the after-hours detector works record by record: on a concatenation it gives the concatenation of the findings |
| DetectorResults.UnknownRecordIgnored | src/EventDetector.cpp:290-306 | inserting a record with unknown status anywhere changes no finding of the combined report |
| DetectorResults.AfterHoursFindings | src/EventDetector.cpp:154-191 | a finding is reported exactly when it is the finding of a successful login outside business hours |
| EventDetector.AfterHoursFinding | src/EventDetector.cpp:173-187 | an after-hours finding names the user and the address of its login, starts and ends at its timestamp, counts 1, and its description opens with the user and the words "logged in at hour" |
| DetectorResults.AfterHoursInOrder | src/EventDetector.cpp:154-191 | the detector reports exactly the findings of the successful logins outside business hours, one each, in input order |
| DetectorResults.AfterHoursOne | src/EventDetector.cpp:154-191 | a single record gives its finding when it is a successful login outside business hours, and nothing otherwise |
| DetectorResults.BusinessHourBoundaries | src/EventDetector.cpp:166-170 | with hours 8 to 18, logins at hours 8 and 17 are inside, at hours 7 and 18 outside; a failed login is never reported |
| DetectorResults.TwoAddressScan | src/EventDetector.cpp:224-283 | two time-ordered logins from different addresses give one finding naming both when within the window, and none otherwise |
| DetectorResults.TwoAddressLogins | src/EventDetector.cpp:196-288 | two successful logins of one user from different addresses give one finding with count 2 naming both addresses when within the window, and nothing otherwise |
| DetectorResults.DetectAllParts | src/EventDetector.cpp:290-306 | the combined report has the three detectors' lengths summed, and holds exactly their findings, each with its detector's kind |
| DetectorResults.NoRecordsNoFindings | src/EventDetector.cpp:290-306 | no records give no findings |
| Ordered.SetInsert | src/EventDetector.cpp:229-240 | inserting into an ascending set keeps it ascending, adds exactly the element, and grows only when the element was new |
| Ordered.SetOf | src/EventDetector.cpp:229-240 | the set of a list is ascending and holds exactly the list's elements |
| Ordered.StrictlySortedDistinct | src/EventDetector.cpp:262-270 | an ascending set has no duplicates, so its size is its number of distinct elements |
| Ordered.MapAppend | src/EventDetector.cpp:77 | appending under a key keeps the keys sorted, extends that key's list by the value, leaves the other keys' lists, and adds the key |
| Decimal.IntToString | src/EventDetector.cpp:132-135 | the decimal text of an integer has a minus sign exactly for negative values, its digits denote the absolute value, and it is the shortest such text: no leading zero except for 0 itself, and never `-0` |
| ConfigManager.DefaultConfiguration | include/ConfigManager.h:38-45 | the defaults are threshold 5, window 10, hours 8 to 18, and the two default paths |
| ConfigManager.NewConfigManager | src/ConfigManager.cpp:10-14 | a fresh manager holds the default configuration, which is valid, and no help request |
| ConfigProperties.DefaultConfigurationValid | include/ConfigManager.h:38-45 | the default configuration is valid, and it sets up the detector's default thresholds |
| ConfigManager.ValidateConfiguration | src/ConfigManager.cpp:153-197 | the check succeeds exactly when threshold and window are positive, both hours lie in 0..23 with start before end, and both paths are non-empty |
| ConfigManager.SetConfiguration | src/ConfigManager.cpp:136-151 | it succeeds exactly for a valid configuration and then stores it; on failure the manager is unchanged |
| ConfigManager.ParseInteger | src/ConfigManager.cpp:273-311 | it accepts exactly an optional minus and at least one digit whose value fits in 32 bits, and returns that value |
| ConfigProperties.ParseIntegerRoundTrip | src/ConfigManager.cpp:273-311 | reading the decimal text of any integer gives it back exactly when it fits in 32 bits |
| ConfigProperties.ParseIntegerExamples | src/ConfigManager.cpp:276-299 | the empty string, a lone minus, letters, a plus sign and trailing letters are rejected; leading zeros and `-0` are read |
| ConfigManager.FindFirst | src/ConfigManager.cpp:236-242 | it finds the first occurrence of the character, or reports that there is none |
| ConfigManager.ParseBusinessHours | src/ConfigManager.cpp:231-271 | an accepted range has `0 <= start < end <= 23`; text without a minus is rejected; the rest, including rejection of an unreadable half, is stated by `ConfigProperties.HoursFromParts` |
| ConfigProperties.HoursRoundTrip | src/ConfigManager.cpp:231-271 | `a-b` for natural numbers is read back as `(a, b)` exactly when `a < b <= 23` |
| ConfigProperties.NineToFive | src/ConfigManager.cpp:231-271 | `9-17` is read as 9 to 17 |
| ConfigProperties.HoursFromParts | src/ConfigManager.cpp:231-271 | two texts joined by `-`, the first without a minus sign, read back as their values exactly when the integer reader accepts both and `0 <= a < b <= 23`; a half it cannot read (`9-x`, `a-5`, `9-`) rejects the range |
| ConfigProperties.LeadingZeroHours | src/ConfigManager.cpp:231-271 | `08-18` is read as 8 to 18: leading zeros are accepted |
| ConfigProperties.HoursRejected | src/ConfigManager.cpp:236-268 | a colon, a reversed range, an empty range, an end past 23 and a negative start are all rejected |
| ConfigManager.Apply | src/ConfigManager.cpp:39-111 | an option changes only its own fields; paths are always taken; a number or hour range is taken exactly when it parses, with the parsed value |
| ConfigManager.ParseOptions | src/ConfigManager.cpp:27-119 | the loop keeps hours in range and numbers within 32 bits |
| ConfigManager.ParseCommandLineArgs | src/ConfigManager.cpp:20-129 | help always reports success; success without help leaves a valid configuration |
| ConfigProperties.ParseOptionsAppend | src/ConfigManager.cpp:27-119 | the loop composes: after an error-free prefix the rest is read from the configuration the prefix left, and help in the prefix ignores what follows |
| ConfigProperties.HelpStopsTheLoop | src/ConfigManager.cpp:32-36 | help after error-free options reports success with the help flag, skipping the remaining arguments and the validation |
| ConfigProperties.HelpFirst | src/ConfigManager.cpp:32-36 | help as the first argument leaves the configuration as it was |
| ConfigProperties.MissingValue | src/ConfigManager.cpp:42-46 | an option without a value fails and keeps the configuration |
| ConfigProperties.UnknownArgument | src/ConfigManager.cpp:113-118 | an unknown argument ends the loop with an error |
| ConfigProperties.ApplyOverwrites | src/ConfigManager.cpp:47-110 | applying the same option twice is applying the second value |
| ConfigProperties.LaterOccurrenceWins | src/ConfigManager.cpp:27-111 | of two occurrences of one option with readable values, the later one wins |
| ConfigProperties.OneOptionOneSetting | src/ConfigManager.cpp:39-111 | one option either parses or fails with the configuration unchanged, and touches only its own fields |
| ConfigProperties.NoOptionsKeepsDefaults | src/ConfigManager.cpp:20-129 | with no options the defaults are kept and the result is success |
| ConfigProperties.ResultIsValidation | src/ConfigManager.cpp:121-128 | without help or error, the result is success exactly when the final configuration is valid |
| ConfigProperties.ZeroThresholdRejected | src/ConfigManager.cpp:121-128 | `--threshold 0` fails validation |
| ConfigProperties.ErrorKeepsEarlierOptions | src/ConfigManager.cpp:39-118 | an error keeps the changes of the options before it |
| ConfigProperties.UsageExample | src/ConfigManager.cpp:223 | the documented example `--threshold 3 --window 5 --hours 9-17` succeeds with exactly those settings |
| LogParser.Trim | src/LogParser.cpp:16-28 | the result has no whitespace at either end, and is empty exactly when the input is all whitespace |
| LogEntries.WithStatus | src/EventDetector.cpp:72-79 | the records of one status: a record is kept exactly when it has that status, as often as it occurs in the input |
| LogEntries.DefaultEntry | include/LogEntry.h:43-47 | the default record has the given current time, empty user and address, and unknown status |
| ParserProperties.TrimPadded | src/LogParser.cpp:16-28 | trimming removes exactly the surrounding whitespace of a core that neither starts nor ends with whitespace |
| ParserProperties.TrimDecomposition | src/LogParser.cpp:16-28 | a string is its leading whitespace, its trimmed text and its trailing whitespace |
| ParserProperties.TrimIdempotent | src/LogParser.cpp:16-28 | trimming twice is trimming once |
| ParserProperties.TrimAllSpace | src/LogParser.cpp:16-28 | all-whitespace text trims to the empty string |
| ParserProperties.TrimKeepsNonSpace | src/LogParser.cpp:16-28 | a character that is not whitespace survives trimming |
| LogParser.ParseStatus | src/LogParser.cpp:58-81 | the status is success or failure exactly for a letter-case variant of the word, and unknown otherwise |
| ParserProperties.ParseStatusExamples | include/LogParser.h:33-43 | upper, lower and mixed case are accepted; empty text, another word and a leading space give unknown |
| LogParser.GetLine | src/LogParser.cpp:91-106 | a field never contains its delimiter, the stream shrinks, and reading fails exactly at the end of input |
| ParserProperties.GetLineShape | src/LogParser.cpp:91-106 | a field is the text up to the delimiter, which is consumed, or all the rest, which sets the end flag |
| LogParser.SplitFields | src/LogParser.cpp:86-106 | the first three fields contain no `\|` and the status contains no newline |
| ParserProperties.FewerThanThreePipes | src/LogParser.cpp:91-106 | a line with fewer than three `\|` characters is rejected |
| ParserProperties.SplitKnownLine | src/LogParser.cpp:86-106 | a line built from three pipe-free fields and a status splits into exactly those fields |
| LogParser.ParseLogLine | src/LogParser.cpp:83-136 | an accepted record's user and address are non-empty, pipe-free and without surrounding whitespace |
| ParserProperties.ParseKnownLine | src/LogParser.cpp:83-136 | for a line built from four fields, including a line that ends right after the third separator with an empty status: rejected when a trimmed field is empty or the timestamp does not parse, otherwise the record of the trimmed fields with the status read case-insensitively |
| ParserProperties.ExtraPipesKeepEntry | src/LogParser.cpp:103-135 | extra `\|` characters stay in the status, which reads as unknown, and the record is kept |
| ParserProperties.PipeMeansUnknown | src/LogParser.cpp:58-81 | status text containing `\|` is unknown |
| ParserProperties.SampleLine | include/LogParser.h:48-49 | the documented sample line gives user `jdoe`, address `192.168.1.10`, a failed login at the parsed time |

## Left out

- The report generator and the program's `main` are not part of this model.
  They render text, open files and set exit codes.
- `parseTimestamp` (`std::get_time` and `mktime`) and `getHourOfDay`
  (`localtime`) depend on the calendar and the local time zone. They are
  parameters of the model, so time zones and daylight-saving time are not
  modelled.
- The current time read by the default constructors of `LogEntry` and
  `SuspiciousEvent` is a parameter of `LogEntries.DefaultEntry`. The default
  `SuspiciousEvent` is not modelled.
- Messages written to `std::cerr` and `displayUsage` are not modelled.
- The `description` texts are built as in the source, with `std::to_string`
  modelled by `Decimal.IntToString`.
- EventDetector.AfterHoursFinding: states every field of the finding but only
  the opening words of its description, because the rest is display text
  built from the local hour and the configured business hours.
- `std::sort` is not stable. The model sorts with a stable insertion sort.
  The scan properties in `DetectorProperties` hold for any time-sorted group,
  so they do not depend on tie order. `DetectorResults.OverGroupsPerUser` and
  the lemmas built on it name the model's sort and therefore fix one tie
  order.
- `ConfigManager.ParseOptions` states only that hours stay in range and
  numbers stay within 32 bits. Its behaviour is stated by the lemmas in
  `ConfigProperties`.
- `EventDetector.ClusterFinding` states only kind and user. The full shape of
  a finding is stated by `DetectorProperties.FailedFindingShape` and
  `DetectorProperties.IpFindingShape`.
- The detectors take their input by `const` reference and never change it.
  In the model every value is immutable, so there is no separate property for
  this.
- `getConfiguration` and `isHelpRequested` are field reads. They are the
  fields of `ConfigManager.ConfigManager`.
