/** The detection engine: pure functions from a sequence of login records and
    four integer thresholds to a sequence of suspicious-event findings. */
module EventDetector {
  import opened LogEntries
  import opened Ordered
  import Decimal

  /** The three kinds of finding, and no others. */
  datatype SuspiciousEventType = MultipleFailedLogins | LoginOutsideBusinessHours | MultipleIpAddresses

  /** A finding. `firstOccurrence` and `lastOccurrence` bound the events it
      covers; `eventCount` is the number of records for a failed-login
      cluster and the number of distinct addresses for a multi-address one. */
  datatype SuspiciousEvent = SuspiciousEvent(
    kind: SuspiciousEventType,
    username: string,
    ipAddresses: seq<string>,
    firstOccurrence: int,
    lastOccurrence: int,
    eventCount: int,
    description: string)

  /** The positional constructor: the single address `ip`, no description. */
  function NewEvent(kind: SuspiciousEventType, user: string, ip: string,
                    first: int, last: int, count: int): (r: SuspiciousEvent)
    ensures r.kind == kind && r.username == user
    ensures r.ipAddresses == [ip] && r.description == ""
    ensures r.firstOccurrence == first && r.lastOccurrence == last && r.eventCount == count
  {
    SuspiciousEvent(kind, user, [ip], first, last, count, "")
  }

  /** The detector's configuration; nothing is range-checked on construction. */
  datatype Detector = Detector(
    failedLoginThreshold: int,
    timeWindowMinutes: int,
    businessHourStart: int,
    businessHourEnd: int)

  /** What the argument-less constructor sets up. */
  function DefaultDetector(): (d: Detector)
    ensures d.failedLoginThreshold == 5 && d.timeWindowMinutes == 10
    ensures d.businessHourStart == 8 && d.businessHourEnd == 18
  {
    Detector(5, 10, 8, 18)
  }

  const SECONDS_PER_MINUTE: int := 60

  function Abs(x: int): nat
  {
    if x < 0 then -x else x
  }

  /** The distance between two instants, truncated to whole minutes, is at
      most the window: so it is below one minute more than the window. */
  predicate IsWithinTimeWindow(d: Detector, t1: int, t2: int)
    ensures IsWithinTimeWindow(d, t1, t2) <==> Abs(t1 - t2) < SECONDS_PER_MINUTE * (d.timeWindowMinutes + 1)
  {
    MinutesWithin(Abs(t1 - t2), d.timeWindowMinutes);
    Abs(t1 - t2) / SECONDS_PER_MINUTE <= d.timeWindowMinutes
  }

  /** Whole minutes in `a` seconds are at most `w` exactly when `a` is below
      `w + 1` minutes. */
  lemma MinutesWithin(a: nat, w: int)
    ensures a / SECONDS_PER_MINUTE <= w <==> a < SECONDS_PER_MINUTE * (w + 1)
  {
    var q := a / SECONDS_PER_MINUTE;
    assert a == SECONDS_PER_MINUTE * q + a % SECONDS_PER_MINUTE;
    if q <= w {
      assert SECONDS_PER_MINUTE * q <= SECONDS_PER_MINUTE * w;
    } else {
      assert SECONDS_PER_MINUTE * (w + 1) <= SECONDS_PER_MINUTE * q;
    }
  }

  // ---------------------------------------------------------------------------
  // Ordering records by time
  // ---------------------------------------------------------------------------

  ghost predicate SortedByTime(g: seq<LogEntry>)
  {
    forall i, j :: 0 <= i < j < |g| ==> g[i].timestamp <= g[j].timestamp
  }

  /** Places `e` after every record not later than it. */
  function InsertByTime(s: seq<LogEntry>, e: LogEntry): (r: seq<LogEntry>)
    requires SortedByTime(s)
    ensures SortedByTime(r)
    ensures multiset(r) == multiset(s) + multiset{e}
    ensures |r| == |s| + 1
  {
    if |s| == 0 then [e]
    else if e.timestamp < s[0].timestamp then [e] + s
    else
      var rest := InsertByTime(s[1..], e);
      InsertByTimeTail(s, e, rest);
      [s[0]] + rest
  }

  lemma InsertByTimeTail(s: seq<LogEntry>, e: LogEntry, rest: seq<LogEntry>)
    requires SortedByTime(s) && |s| > 0 && s[0].timestamp <= e.timestamp
    requires SortedByTime(rest) && multiset(rest) == multiset(s[1..]) + multiset{e}
    ensures SortedByTime([s[0]] + rest)
    ensures multiset([s[0]] + rest) == multiset(s) + multiset{e}
  {
    assert s == [s[0]] + s[1..];
    forall k | 0 <= k < |rest| ensures s[0].timestamp <= rest[k].timestamp {
      assert rest[k] in multiset(rest);
      if rest[k] != e {
        assert rest[k] in multiset(s[1..]);
        var j :| 0 <= j < |s[1..]| && s[1..][j] == rest[k];
        assert s[j + 1] == rest[k];
      }
    }
    var r := [s[0]] + rest;
    forall i, j | 0 <= i < j < |r| ensures r[i].timestamp <= r[j].timestamp {
      if i > 0 { assert r[i] == rest[i - 1] && r[j] == rest[j - 1]; }
    }
  }

  /** Orders one user's records by timestamp. The source uses an unstable
      sort; this one keeps equal timestamps in input order, and every
      property of the scans below holds for any time-sorted order. */
  function SortByTime(g: seq<LogEntry>): (r: seq<LogEntry>)
    ensures SortedByTime(r)
    ensures multiset(r) == multiset(g)
    ensures |r| == |g|
  {
    if |g| == 0 then []
    else
      assert g == g[..|g| - 1] + [g[|g| - 1]];
      InsertByTime(SortByTime(g[..|g| - 1]), g[|g| - 1])
  }

  // ---------------------------------------------------------------------------
  // Grouping records by user
  // ---------------------------------------------------------------------------

  /** The records of `user` with status `st`, in input order. */
  function Select(entries: seq<LogEntry>, user: string, st: LoginStatus): (r: seq<LogEntry>)
    ensures forall e :: e in r <==> e in entries && e.username == user && e.status == st
    ensures forall e :: multiset(r)[e]
                        == if e.username == user && e.status == st then multiset(entries)[e] else 0
  {
    if |entries| == 0 then []
    else
      var last := entries[|entries| - 1];
      assert entries == entries[..|entries| - 1] + [last];
      assert multiset(entries) == multiset(entries[..|entries| - 1]) + multiset{last};
      var prefix := Select(entries[..|entries| - 1], user, st);
      if last.username == user && last.status == st then prefix + [last] else prefix
  }

  /** The usernames of records with status `st`. */
  ghost function UsersWith(entries: seq<LogEntry>, st: LoginStatus): set<string>
  {
    set e | e in entries && e.status == st :: e.username
  }

  /** `by_user[entry.username].push_back(entry)` for every record with status
      `st`, first to last, into an initially empty map. */
  function GroupByUser(entries: seq<LogEntry>, st: LoginStatus): (m: seq<(string, seq<LogEntry>)>)
    ensures KeysSorted(m)
    ensures forall u :: Lookup(m, u) == Select(entries, u, st)
    ensures Elements(Keys(m)) == UsersWith(entries, st)
  {
    if |entries| == 0 then []
    else
      var last := entries[|entries| - 1];
      var prefix := entries[..|entries| - 1];
      assert entries == prefix + [last];
      var m := GroupByUser(prefix, st);
      assert UsersWith(entries, st) == UsersWith(prefix, st) + (if last.status == st then {last.username} else {});
      if last.status == st then MapAppend(m, last.username, last) else m
  }

  // ---------------------------------------------------------------------------
  // The window of an anchor
  // ---------------------------------------------------------------------------

  /** The forward scan from anchor `i`: extends the window while the next
      record is within the time window of the anchor and stops at the first
      one that is not. */
  function ScanForward(d: Detector, g: seq<LogEntry>, i: nat, j: nat): (r: nat)
    requires i <= j < |g|
    requires forall k {:trigger IsWithinTimeWindow(d, g[i].timestamp, g[k].timestamp)} ::
               i < k <= j ==> IsWithinTimeWindow(d, g[i].timestamp, g[k].timestamp)
    ensures j <= r < |g|
    ensures forall k {:trigger IsWithinTimeWindow(d, g[i].timestamp, g[k].timestamp)} ::
              i < k <= r ==> IsWithinTimeWindow(d, g[i].timestamp, g[k].timestamp)
    ensures r + 1 < |g| ==> !IsWithinTimeWindow(d, g[i].timestamp, g[r + 1].timestamp)
    decreases |g| - j
  {
    if j + 1 < |g| && IsWithinTimeWindow(d, g[i].timestamp, g[j + 1].timestamp) then
      ScanForward(d, g, i, j + 1)
    else j
  }

  /** The index of the last record of anchor `i`'s window. */
  function WindowEnd(d: Detector, g: seq<LogEntry>, i: nat): (r: nat)
    requires i < |g|
    ensures i <= r < |g|
  {
    ScanForward(d, g, i, i)
  }

  /** The source addresses of a run of records, in order. */
  function Ips(g: seq<LogEntry>): (r: seq<string>)
    ensures |r| == |g|
    ensures forall k :: 0 <= k < |g| ==> r[k] == g[k].ipAddress
  {
    if |g| == 0 then [] else [g[0].ipAddress] + Ips(g[1..])
  }

  /** The distinct addresses of anchor `i`'s window, ascending: the anchor's
      address inserted first, then each later record's. */
  function WindowIps(d: Detector, g: seq<LogEntry>, i: nat): seq<string>
    requires i < |g|
  {
    SetOf(Ips(g[i..WindowEnd(d, g, i) + 1]))
  }

  // ---------------------------------------------------------------------------
  // The anchor scan shared by both cluster detectors
  // ---------------------------------------------------------------------------

  /** Which cluster rule a scan applies. */
  datatype ClusterRule = FailedCluster | IpCluster

  /** Whether the window of anchor `i` yields a finding: at least the
      threshold number of records, or at least two distinct addresses. */
  predicate Fires(d: Detector, rule: ClusterRule, g: seq<LogEntry>, i: nat)
    requires i < |g|
  {
    match rule
    case FailedCluster => WindowEnd(d, g, i) - i + 1 >= d.failedLoginThreshold
    case IpCluster => |WindowIps(d, g, i)| >= 2
  }

  /** No position in `[lo, hi)` fires. */
  ghost predicate Quiet(fires: nat -> bool, lo: nat, hi: nat)
  {
    forall p :: lo <= p < hi ==> !fires(p)
  }

  /** The position after the `k`-th anchor, or `n` when there is none. */
  function NextAnchor(a: seq<nat>, k: nat, n: nat): nat
  {
    if k + 1 < |a| then a[k + 1] else n
  }

  /** Every position in `[i, n)` has its window end in `[p, n)`. */
  ghost predicate WindowsInRange(n: nat, windowEnd: nat -> nat, i: nat)
  {
    forall p :: i <= p < n ==> p <= windowEnd(p) < n
  }

  /** Every anchor lies in `[i, n)` and fires. */
  ghost predicate AnchorsFire(n: nat, fires: nat -> bool, i: nat, a: seq<nat>)
  {
    forall k :: 0 <= k < |a| ==> i <= a[k] < n && fires(a[k])
  }

  /** Each later anchor lies past an earlier anchor's window end. */
  ghost predicate WindowsAscending(windowEnd: nat -> nat, a: seq<nat>)
  {
    forall k, l :: 0 <= k < l < |a| ==> windowEnd(a[k]) < a[l]
  }

  /** Nothing fires between a window's end and the next anchor. */
  ghost predicate GapsQuiet(n: nat, fires: nat -> bool, windowEnd: nat -> nat, a: seq<nat>)
  {
    forall k :: 0 <= k < |a| ==> Quiet(fires, windowEnd(a[k]) + 1, NextAnchor(a, k, n))
  }

  /** What a correct anchor scan from `i` returns: anchors in `[i, n)`, each
      of which fires; each later anchor lies past an earlier anchor's window
      end (windows are disjoint and ascending); and no position fires before
      the first anchor or between one window's end and the next anchor, so
      no finding outside the reported windows is missed. */
  ghost predicate ScanSpec(n: nat, fires: nat -> bool, windowEnd: nat -> nat, i: nat, a: seq<nat>)
  {
    && AnchorsFire(n, fires, i, a)
    && WindowsAscending(windowEnd, a)
    && Quiet(fires, i, if |a| == 0 then n else a[0])
    && GapsQuiet(n, fires, windowEnd, a)
  }

  /** The outer loop of both cluster detectors over positions `[i, n)`: when
      the anchor fires it is reported and the scan resumes one past the end
      of its window; otherwise the scan moves to the next position. */
  function Anchors(n: nat, fires: nat -> bool, windowEnd: nat -> nat, i: nat): (a: seq<nat>)
    requires i <= n
    requires WindowsInRange(n, windowEnd, i)
    ensures ScanSpec(n, fires, windowEnd, i, a)
    decreases n - i
  {
    if i == n then []
    else if fires(i) then
      var rest := Anchors(n, fires, windowEnd, windowEnd(i) + 1);
      ScanSpecFires(n, fires, windowEnd, i, rest);
      [i] + rest
    else
      var rest := Anchors(n, fires, windowEnd, i + 1);
      ScanSpecSkip(n, fires, windowEnd, i, rest);
      rest
  }

  lemma ScanSpecSkip(n: nat, fires: nat -> bool, windowEnd: nat -> nat, i: nat, rest: seq<nat>)
    requires i < n && !fires(i)
    requires ScanSpec(n, fires, windowEnd, i + 1, rest)
    ensures ScanSpec(n, fires, windowEnd, i, rest)
  {
  }

  lemma ScanSpecFires(n: nat, fires: nat -> bool, windowEnd: nat -> nat, i: nat, rest: seq<nat>)
    requires i < n && fires(i) && i <= windowEnd(i) < n
    requires ScanSpec(n, fires, windowEnd, windowEnd(i) + 1, rest)
    ensures ScanSpec(n, fires, windowEnd, i, [i] + rest)
  {
    FiresCons(n, fires, i, windowEnd(i) + 1, rest);
    AscendingCons(windowEnd, i, rest);
    GapsCons(n, fires, windowEnd, i, rest);
  }

  lemma FiresCons(n: nat, fires: nat -> bool, i: nat, lo: nat, rest: seq<nat>)
    requires i < n && fires(i) && i < lo
    requires AnchorsFire(n, fires, lo, rest)
    ensures AnchorsFire(n, fires, i, [i] + rest)
  {
    var a := [i] + rest;
    forall k | 0 <= k < |a| ensures i <= a[k] < n && fires(a[k]) {
      if k > 0 { assert a[k] == rest[k - 1]; }
    }
  }

  lemma AscendingCons(windowEnd: nat -> nat, i: nat, rest: seq<nat>)
    requires forall k :: 0 <= k < |rest| ==> windowEnd(i) < rest[k]
    requires WindowsAscending(windowEnd, rest)
    ensures WindowsAscending(windowEnd, [i] + rest)
  {
    var a := [i] + rest;
    forall k, l | 0 <= k < l < |a| ensures windowEnd(a[k]) < a[l] {
      assert a[l] == rest[l - 1];
      if k > 0 { assert a[k] == rest[k - 1]; }
    }
  }

  lemma GapsCons(n: nat, fires: nat -> bool, windowEnd: nat -> nat, i: nat, rest: seq<nat>)
    requires Quiet(fires, windowEnd(i) + 1, if |rest| == 0 then n else rest[0])
    requires GapsQuiet(n, fires, windowEnd, rest)
    ensures GapsQuiet(n, fires, windowEnd, [i] + rest)
  {
    var a := [i] + rest;
    forall k | 0 <= k < |a|
      ensures Quiet(fires, windowEnd(a[k]) + 1, NextAnchor(a, k, n))
    {
      if k > 0 {
        assert a[k] == rest[k - 1];
        assert NextAnchor(a, k, n) == NextAnchor(rest, k - 1, n);
      }
    }
  }

  /** Whether anchor `p` of `g` fires, as a total function of positions. */
  function FiresAt(d: Detector, rule: ClusterRule, g: seq<LogEntry>): nat -> bool
  {
    (p: nat) => p < |g| && Fires(d, rule, g, p)
  }

  /** The window end of anchor `p` of `g`, as a total function of positions. */
  function EndAt(d: Detector, g: seq<LogEntry>): nat -> nat
  {
    (p: nat) => if p < |g| then WindowEnd(d, g, p) else p
  }

  /** The firing anchors of one user's records. */
  function ClusterAnchors(d: Detector, rule: ClusterRule, g: seq<LogEntry>): (a: seq<nat>)
    ensures ScanSpec(|g|, FiresAt(d, rule, g), EndAt(d, g), 0, a)
  {
    Anchors(|g|, FiresAt(d, rule, g), EndAt(d, g), 0)
  }

  /** The finding reported for the firing anchor `i` of user `user`. */
  function ClusterFinding(d: Detector, rule: ClusterRule, user: string, g: seq<LogEntry>, i: nat): (r: SuspiciousEvent)
    requires i < |g|
    ensures r.kind == RuleKind(rule) && r.username == user
  {
    var e := WindowEnd(d, g, i);
    match rule
    case FailedCluster =>
      var count := e - i + 1;
      NewEvent(MultipleFailedLogins, user, g[i].ipAddress, g[i].timestamp, g[e].timestamp, count)
        .(description := "User '" + user + "' had " + Decimal.IntToString(count)
                         + " failed login attempts within "
                         + Decimal.IntToString(d.timeWindowMinutes) + " minutes")
    case IpCluster =>
      var ips := WindowIps(d, g, i);
      NewEvent(MultipleIpAddresses, user, "", g[i].timestamp, g[e].timestamp, |ips|)
        .(ipAddresses := ips,
          description := "User '" + user + "' logged in from " + Decimal.IntToString(|ips|)
                         + " different IP addresses within "
                         + Decimal.IntToString(d.timeWindowMinutes) + " minutes")
  }

  /** The kind of finding a rule reports. */
  function RuleKind(rule: ClusterRule): SuspiciousEventType
  {
    match rule
    case FailedCluster => MultipleFailedLogins
    case IpCluster => MultipleIpAddresses
  }

  /** The findings for one user's time-sorted records, in anchor order. */
  function ScanUser(d: Detector, rule: ClusterRule, user: string, g: seq<LogEntry>): (r: seq<SuspiciousEvent>)
    ensures forall k :: 0 <= k < |r| ==> r[k].kind == RuleKind(rule) && r[k].username == user
  {
    var a := ClusterAnchors(d, rule, g);
    assert AnchorsFire(|g|, FiresAt(d, rule, g), 0, a);
    seq(|a|, k requires 0 <= k < |a| => ClusterFinding(d, rule, user, g, a[k]))
  }

  /** Every user's findings, users in key order, each group sorted first. */
  function OverGroups(d: Detector, rule: ClusterRule, m: seq<(string, seq<LogEntry>)>): (r: seq<SuspiciousEvent>)
    ensures forall k :: 0 <= k < |r| ==> r[k].kind == RuleKind(rule) && r[k].username in Elements(Keys(m))
  {
    if |m| == 0 then []
    else
      KeysCons(m);
      ScanUser(d, rule, m[0].0, SortByTime(m[0].1)) + OverGroups(d, rule, m[1..])
  }

  // ---------------------------------------------------------------------------
  // The four entry points
  // ---------------------------------------------------------------------------

  /** Bursts of failed logins per user. */
  function DetectMultipleFailedLogins(d: Detector, entries: seq<LogEntry>): (r: seq<SuspiciousEvent>)
    ensures forall k :: 0 <= k < |r| ==>
              r[k].kind == MultipleFailedLogins && r[k].username in UsersWith(entries, Failed)
  {
    OverGroups(d, FailedCluster, GroupByUser(entries, Failed))
  }

  /** Successful logins of one user from two or more addresses within a window. */
  function DetectMultipleIpAddresses(d: Detector, entries: seq<LogEntry>): (r: seq<SuspiciousEvent>)
    ensures forall k :: 0 <= k < |r| ==>
              r[k].kind == MultipleIpAddresses && r[k].username in UsersWith(entries, Success)
  {
    OverGroups(d, IpCluster, GroupByUser(entries, Success))
  }

  /** Business hours are the half-open interval [start, end). */
  predicate OutsideBusinessHours(d: Detector, hour: int)
  {
    hour < d.businessHourStart || hour >= d.businessHourEnd
  }

  /** The finding for one after-hours login; `hourOf` is the local hour of
      day of a timestamp. */
  function AfterHoursFinding(d: Detector, hourOf: int -> int, e: LogEntry): (r: SuspiciousEvent)
    ensures r.kind == LoginOutsideBusinessHours && r.username == e.username
    ensures r.ipAddresses == [e.ipAddress] && r.eventCount == 1
    ensures r.firstOccurrence == e.timestamp == r.lastOccurrence
    ensures "User '" + e.username + "' logged in at hour " <= r.description
  {
    var hour := hourOf(e.timestamp);
    NewEvent(LoginOutsideBusinessHours, e.username, e.ipAddress, e.timestamp, e.timestamp, 1)
      .(description := "User '" + e.username + "' logged in at hour " + Decimal.IntToString(hour)
                       + " (outside business hours: " + Decimal.IntToString(d.businessHourStart)
                       + ":00-" + Decimal.IntToString(d.businessHourEnd) + ":00)")
  }

  /** One finding per successful login outside business hours, in input order. */
  function DetectLoginsOutsideBusinessHours(d: Detector, hourOf: int -> int, entries: seq<LogEntry>): (r: seq<SuspiciousEvent>)
    ensures |r| <= |entries|
    ensures forall k :: 0 <= k < |r| ==>
              r[k].kind == LoginOutsideBusinessHours && r[k].eventCount == 1
              && r[k].firstOccurrence == r[k].lastOccurrence && |r[k].ipAddresses| == 1
  {
    if |entries| == 0 then []
    else
      var e := entries[0];
      var rest := DetectLoginsOutsideBusinessHours(d, hourOf, entries[1..]);
      if e.status == Success && OutsideBusinessHours(d, hourOf(e.timestamp)) then
        [AfterHoursFinding(d, hourOf, e)] + rest
      else rest
  }

  /** The position of a kind in the combined report. */
  function KindRank(kind: SuspiciousEventType): nat
  {
    match kind
    case MultipleFailedLogins => 0
    case LoginOutsideBusinessHours => 1
    case MultipleIpAddresses => 2
  }

  /** The three detectors' findings, concatenated in a fixed order. */
  function DetectAll(d: Detector, hourOf: int -> int, entries: seq<LogEntry>): (r: seq<SuspiciousEvent>)
    ensures forall i, j :: 0 <= i < j < |r| ==> KindRank(r[i].kind) <= KindRank(r[j].kind)
  {
    DetectMultipleFailedLogins(d, entries)
      + DetectLoginsOutsideBusinessHours(d, hourOf, entries)
      + DetectMultipleIpAddresses(d, entries)
  }
}
