/** Properties of the four detector entry points: each user is scanned on
    their own, only the status a detector looks at matters, and the combined
    report is the three lists in a fixed order. */
module DetectorResults {
  import opened LogEntries
  import opened Ordered
  import opened EventDetector
  import opened DetectorProperties

  /** The findings about user `u`, in order. */
  function ForUser(fs: seq<SuspiciousEvent>, u: string): (r: seq<SuspiciousEvent>)
    ensures |r| <= |fs|
    ensures forall f :: f in r <==> f in fs && f.username == u
  {
    if |fs| == 0 then []
    else
      var rest := ForUser(fs[1..], u);
      assert fs == [fs[0]] + fs[1..];
      if fs[0].username == u then [fs[0]] + rest else rest
  }

  lemma {:induction false} ForUserAppend(a: seq<SuspiciousEvent>, b: seq<SuspiciousEvent>, u: string)
    ensures ForUser(a + b, u) == ForUser(a, u) + ForUser(b, u)
    decreases |a|
  {
    if |a| > 0 {
      assert (a + b)[1..] == a[1..] + b;
      ForUserAppend(a[1..], b, u);
    } else {
      assert a + b == b;
    }
  }

  /** Findings all about `u` are kept whole. */
  lemma {:induction false} ForUserAll(fs: seq<SuspiciousEvent>, u: string)
    requires forall k :: 0 <= k < |fs| ==> fs[k].username == u
    ensures ForUser(fs, u) == fs
    decreases |fs|
  {
    if |fs| > 0 {
      ForUserAll(fs[1..], u);
      assert fs == [fs[0]] + fs[1..];
    }
  }

  /** Findings none of which is about `u` are dropped. */
  lemma {:induction false} ForUserNone(fs: seq<SuspiciousEvent>, u: string)
    requires forall k :: 0 <= k < |fs| ==> fs[k].username != u
    ensures ForUser(fs, u) == []
    decreases |fs|
  {
    if |fs| > 0 {
      ForUserNone(fs[1..], u);
    }
  }

  /** A user with no records has no cluster findings. */
  lemma ScanUserEmpty(d: Detector, rule: ClusterRule, u: string)
    ensures ScanUser(d, rule, u, []) == []
  {
  }

  /** Scanning the groups of a map one after the other gives each user
      exactly the findings of a scan of that user's own records. */
  lemma {:induction false} OverGroupsPerUser(d: Detector, rule: ClusterRule, m: seq<(string, seq<LogEntry>)>, u: string)
    requires KeysSorted(m)
    ensures ForUser(OverGroups(d, rule, m), u) == ScanUser(d, rule, u, SortByTime(Lookup(m, u)))
    decreases |m|
  {
    if |m| == 0 {
      ScanUserEmpty(d, rule, u);
    } else if m[0].0 == u {
      FirstGroupFindings(d, rule, m);
    } else {
      OtherGroupFindings(d, rule, m, u);
      OverGroupsPerUser(d, rule, m[1..], u);
    }
  }

  /** The first group's user gets that group's findings. */
  lemma FirstGroupFindings(d: Detector, rule: ClusterRule, m: seq<(string, seq<LogEntry>)>)
    requires KeysSorted(m) && |m| > 0
    ensures ForUser(OverGroups(d, rule, m), m[0].0) == ScanUser(d, rule, m[0].0, SortByTime(m[0].1))
  {
    var u := m[0].0;
    var head := ScanUser(d, rule, u, SortByTime(m[0].1));
    var tail := OverGroups(d, rule, m[1..]);
    ForUserAppend(head, tail, u);
    ForUserAll(head, u);
    LaterGroupsOtherUsers(d, rule, m);
    ForUserNone(tail, u);
  }

  /** Any other user gets nothing from the first group. */
  lemma OtherGroupFindings(d: Detector, rule: ClusterRule, m: seq<(string, seq<LogEntry>)>, u: string)
    requires |m| > 0 && m[0].0 != u
    ensures ForUser(OverGroups(d, rule, m), u) == ForUser(OverGroups(d, rule, m[1..]), u)
  {
    var head := ScanUser(d, rule, m[0].0, SortByTime(m[0].1));
    var tail := OverGroups(d, rule, m[1..]);
    ForUserAppend(head, tail, u);
    ForUserNone(head, u);
  }

  /** The groups after the first are about other users than the first. */
  lemma LaterGroupsOtherUsers(d: Detector, rule: ClusterRule, m: seq<(string, seq<LogEntry>)>)
    requires KeysSorted(m) && |m| > 0
    ensures forall f :: f in OverGroups(d, rule, m[1..]) ==> f.username != m[0].0
  {
    var tail := OverGroups(d, rule, m[1..]);
    forall k | 0 <= k < |tail| ensures tail[k].username != m[0].0 {
      var v := tail[k].username;
      var j :| 0 <= j < |Keys(m[1..])| && Keys(m[1..])[j] == v;
      assert m[j + 1].0 == v;
      assert Less(m[0].0, m[j + 1].0);
      LessIrreflexive(m[0].0);
    }
  }

  /** The failed-login findings about `u` are exactly those of a scan of
      `u`'s failed logins, sorted by time. */
  lemma FailedLoginsPerUser(d: Detector, entries: seq<LogEntry>, u: string)
    ensures ForUser(DetectMultipleFailedLogins(d, entries), u)
            == ScanUser(d, FailedCluster, u, SortByTime(Select(entries, u, Failed)))
  {
    OverGroupsPerUser(d, FailedCluster, GroupByUser(entries, Failed), u);
  }

  /** The multi-address findings about `u` are exactly those of a scan of
      `u`'s successful logins, sorted by time. */
  lemma IpAddressesPerUser(d: Detector, entries: seq<LogEntry>, u: string)
    ensures ForUser(DetectMultipleIpAddresses(d, entries), u)
            == ScanUser(d, IpCluster, u, SortByTime(Select(entries, u, Success)))
  {
    OverGroupsPerUser(d, IpCluster, GroupByUser(entries, Success), u);
  }

  /** Every failed-login finding about `u` is a window of `u`'s time-sorted
      failed logins that reaches the threshold, reported from its first to
      its last record; and together they count each failed login of `u` at
      most once. */
  lemma FailedLoginFindings(d: Detector, entries: seq<LogEntry>, u: string)
    ensures forall f :: f in ForUser(DetectMultipleFailedLogins(d, entries), u) ==>
              FailedFindingOf(d, u, SortByTime(Select(entries, u, Failed)), f)
    ensures SumCounts(ForUser(DetectMultipleFailedLogins(d, entries), u)) <= |Select(entries, u, Failed)|
  {
    var g := SortByTime(Select(entries, u, Failed));
    FailedLoginsPerUser(d, entries, u);
    FailedScanFindings(d, u, g);
    FailedCountsBounded(d, u, g);
  }

  /** Every multi-address finding about `u` names the two or more distinct
      addresses of a window of `u`'s time-sorted successful logins. */
  lemma IpAddressFindings(d: Detector, entries: seq<LogEntry>, u: string)
    ensures forall f :: f in ForUser(DetectMultipleIpAddresses(d, entries), u) ==>
              IpFindingOf(d, u, SortByTime(Select(entries, u, Success)), f)
  {
    var g := SortByTime(Select(entries, u, Success));
    IpAddressesPerUser(d, entries, u);
    IpScanFindings(d, u, g);
  }

  // ---------------------------------------------------------------------------
  // Grouping keeps input order
  // ---------------------------------------------------------------------------

  /** Selecting from two runs of records selects from each in turn, so the
      selected records keep the order they had in the input. */
  lemma {:induction false} SelectAppend(a: seq<LogEntry>, b: seq<LogEntry>, u: string, st: LoginStatus)
    ensures Select(a + b, u, st) == Select(a, u, st) + Select(b, u, st)
    decreases |b|
  {
    if |b| == 0 {
      assert a + b == a;
    } else {
      var b' := b[..|b| - 1];
      var ab := a + b;
      assert ab[..|ab| - 1] == a + b' && ab[|ab| - 1] == b[|b| - 1];
      SelectAppend(a, b', u, st);
      SelectLast(ab, u, st);
      SelectLast(b, u, st);
      var last := b[|b| - 1];
      AppendAssociative(Select(a, u, st), Select(b', u, st),
                        if last.username == u && last.status == st then [last] else []);
    }
  }

  lemma AppendAssociative<T>(x: seq<T>, y: seq<T>, t: seq<T>)
    ensures (x + y) + t == x + (y + t)
  {
  }

  /** Selecting from a non-empty run is selecting from all but its last record,
      then the last record if it matches. */
  lemma SelectLast(s: seq<LogEntry>, u: string, st: LoginStatus)
    requires |s| > 0
    ensures Select(s, u, st) == Select(s[..|s| - 1], u, st)
              + (if s[|s| - 1].username == u && s[|s| - 1].status == st then [s[|s| - 1]] else [])
  {
  }

  /** One record is selected exactly when it has the user and the status. */
  lemma SelectOne(e: LogEntry, u: string, st: LoginStatus)
    ensures Select([e], u, st) == if e.username == u && e.status == st then [e] else []
  {
    assert [e][..0] == [];
  }

  // ---------------------------------------------------------------------------
  // Only the status a detector looks at matters
  // ---------------------------------------------------------------------------

  lemma {:induction false} WithStatusAppend(a: seq<LogEntry>, b: seq<LogEntry>, st: LoginStatus)
    ensures WithStatus(a + b, st) == WithStatus(a, st) + WithStatus(b, st)
    decreases |b|
  {
    if |b| == 0 {
      assert a + b == a;
    } else {
      var b' := b[..|b| - 1];
      var ab := a + b;
      assert ab[..|ab| - 1] == a + b' && ab[|ab| - 1] == b[|b| - 1];
      WithStatusAppend(a, b', st);
      WithStatusLast(ab, st);
      WithStatusLast(b, st);
      var last := b[|b| - 1];
      AppendAssociative(WithStatus(a, st), WithStatus(b', st), if last.status == st then [last] else []);
    }
  }

  /** Filtering a non-empty run by status is filtering all but its last record,
      then the last record if it has the status. */
  lemma WithStatusLast(s: seq<LogEntry>, st: LoginStatus)
    requires |s| > 0
    ensures WithStatus(s, st) == WithStatus(s[..|s| - 1], st) + (if s[|s| - 1].status == st then [s[|s| - 1]] else [])
  {
  }

  /** Grouping the records of status `st` sees only those records. */
  lemma {:induction false} GroupByUserStatusOnly(entries: seq<LogEntry>, st: LoginStatus)
    ensures GroupByUser(entries, st) == GroupByUser(WithStatus(entries, st), st)
    decreases |entries|
  {
    if |entries| > 0 {
      var prefix := entries[..|entries| - 1];
      var last := entries[|entries| - 1];
      GroupByUserStatusOnly(prefix, st);
      var w := WithStatus(prefix, st);
      if last.status == st {
        assert WithStatus(entries, st) == w + [last];
        assert (w + [last])[..|w + [last]| - 1] == w;
      }
    }
  }

  lemma {:induction false} AfterHoursAppend(d: Detector, hourOf: int -> int, a: seq<LogEntry>, b: seq<LogEntry>)
    ensures DetectLoginsOutsideBusinessHours(d, hourOf, a + b)
            == DetectLoginsOutsideBusinessHours(d, hourOf, a) + DetectLoginsOutsideBusinessHours(d, hourOf, b)
    decreases |a|
  {
    if |a| > 0 {
      assert (a + b)[1..] == a[1..] + b;
      AfterHoursAppend(d, hourOf, a[1..], b);
    } else {
      assert a + b == b;
    }
  }

  /** The after-hours detector sees only successful logins. */
  lemma {:induction false} AfterHoursStatusOnly(d: Detector, hourOf: int -> int, entries: seq<LogEntry>)
    ensures DetectLoginsOutsideBusinessHours(d, hourOf, entries)
            == DetectLoginsOutsideBusinessHours(d, hourOf, WithStatus(entries, Success))
    decreases |entries|
  {
    if |entries| > 0 {
      AfterHoursStatusOnly(d, hourOf, entries[..|entries| - 1]);
      AfterHoursLast(d, hourOf, entries);
      AfterHoursStep(d, hourOf, entries);
    }
  }

  /** The successful logins of a sequence are those of all but its last
      record, then the last record when it is one. */
  lemma AfterHoursStep(d: Detector, hourOf: int -> int, entries: seq<LogEntry>)
    requires |entries| > 0
    ensures DetectLoginsOutsideBusinessHours(d, hourOf, WithStatus(entries, Success))
            == DetectLoginsOutsideBusinessHours(d, hourOf, WithStatus(entries[..|entries| - 1], Success))
               + DetectLoginsOutsideBusinessHours(d, hourOf, [entries[|entries| - 1]])
  {
    var last := entries[|entries| - 1];
    var kept := WithStatus(entries[..|entries| - 1], Success);
    if last.status == Success {
      assert WithStatus(entries, Success) == kept + [last];
      AfterHoursAppend(d, hourOf, kept, [last]);
    } else {
      assert WithStatus(entries, Success) == kept;
      AfterHoursNotSuccess(d, hourOf, last);
    }
  }

  lemma AfterHoursLast(d: Detector, hourOf: int -> int, entries: seq<LogEntry>)
    requires |entries| > 0
    ensures DetectLoginsOutsideBusinessHours(d, hourOf, entries)
            == DetectLoginsOutsideBusinessHours(d, hourOf, entries[..|entries| - 1])
               + DetectLoginsOutsideBusinessHours(d, hourOf, [entries[|entries| - 1]])
  {
    var p := entries[..|entries| - 1];
    var q := [entries[|entries| - 1]];
    assert entries == p + q;
    AfterHoursAppend(d, hourOf, p, q);
  }

  lemma AfterHoursNotSuccess(d: Detector, hourOf: int -> int, x: LogEntry)
    requires x.status != Success
    ensures DetectLoginsOutsideBusinessHours(d, hourOf, [x]) == []
  {
    assert [x][1..] == [];
  }

  /** A record whose status is neither success nor failure, such as the
      default-constructed one, changes no detector's findings wherever it
      is inserted. */
  lemma UnknownRecordIgnored(d: Detector, hourOf: int -> int, a: seq<LogEntry>, x: LogEntry, b: seq<LogEntry>)
    requires x.status == Unknown
    ensures DetectAll(d, hourOf, a + [x] + b) == DetectAll(d, hourOf, a + b)
  {
    var withX := a + [x] + b;
    var without := a + b;
    forall st | st != Unknown
      ensures WithStatus(withX, st) == WithStatus(without, st)
    {
      WithStatusAppend(a + [x], b, st);
      WithStatusAppend(a, [x], st);
      WithStatusAppend(a, b, st);
      assert WithStatus([x], st) == [];
    }
    StatusOnly(d, hourOf, withX);
    StatusOnly(d, hourOf, without);
  }

  /** Each detector sees only the records of the status it looks at:
      failed logins for the failed-login clusters, successful logins for
      the other two, so other records neither count nor break a cluster. */
  lemma StatusOnly(d: Detector, hourOf: int -> int, entries: seq<LogEntry>)
    ensures DetectMultipleFailedLogins(d, entries) == DetectMultipleFailedLogins(d, WithStatus(entries, Failed))
    ensures DetectLoginsOutsideBusinessHours(d, hourOf, entries)
            == DetectLoginsOutsideBusinessHours(d, hourOf, WithStatus(entries, Success))
    ensures DetectMultipleIpAddresses(d, entries) == DetectMultipleIpAddresses(d, WithStatus(entries, Success))
  {
    GroupByUserStatusOnly(entries, Failed);
    GroupByUserStatusOnly(entries, Success);
    AfterHoursStatusOnly(d, hourOf, entries);
  }

  // ---------------------------------------------------------------------------
  // After-hours logins
  // ---------------------------------------------------------------------------

  /** A successful login outside business hours, by the local hour of its
      timestamp. */
  predicate AfterHours(d: Detector, hourOf: int -> int, e: LogEntry)
  {
    e.status == Success && OutsideBusinessHours(d, hourOf(e.timestamp))
  }

  /** The after-hours findings are exactly the findings for the records that
      are successful logins outside business hours, one each. */
  lemma {:induction false} AfterHoursFindings(d: Detector, hourOf: int -> int, entries: seq<LogEntry>)
    ensures forall f :: f in DetectLoginsOutsideBusinessHours(d, hourOf, entries) <==>
              exists e :: e in entries && AfterHours(d, hourOf, e) && f == AfterHoursFinding(d, hourOf, e)
    decreases |entries|
  {
    if |entries| > 0 {
      AfterHoursFindings(d, hourOf, entries[1..]);
      assert entries == [entries[0]] + entries[1..];
      forall f | f in DetectLoginsOutsideBusinessHours(d, hourOf, entries)
        ensures exists e :: e in entries && AfterHours(d, hourOf, e) && f == AfterHoursFinding(d, hourOf, e)
      {
        if f !in DetectLoginsOutsideBusinessHours(d, hourOf, entries[1..]) {
          assert AfterHours(d, hourOf, entries[0]) && f == AfterHoursFinding(d, hourOf, entries[0]);
        }
      }
    }
  }

  /** The successful logins outside business hours, in input order. */
  function AfterHoursLogins(d: Detector, hourOf: int -> int, entries: seq<LogEntry>): (r: seq<LogEntry>)
    ensures |r| <= |entries|
    ensures forall e :: e in r <==> e in entries && AfterHours(d, hourOf, e)
  {
    if |entries| == 0 then []
    else
      var rest := AfterHoursLogins(d, hourOf, entries[1..]);
      assert forall e :: e in entries <==> e == entries[0] || e in entries[1..];
      if AfterHours(d, hourOf, entries[0]) then [entries[0]] + rest else rest
  }

  /** The after-hours finding of each login of `logins`, position by position. */
  function FindingsOf(d: Detector, hourOf: int -> int, logins: seq<LogEntry>): (r: seq<SuspiciousEvent>)
    ensures |r| == |logins|
    ensures forall k :: 0 <= k < |r| ==> r[k] == AfterHoursFinding(d, hourOf, logins[k])
  {
    seq(|logins|, k requires 0 <= k < |logins| => AfterHoursFinding(d, hourOf, logins[k]))
  }

  lemma FindingsOfCons(d: Detector, hourOf: int -> int, e: LogEntry, logins: seq<LogEntry>)
    ensures FindingsOf(d, hourOf, [e] + logins)
            == [AfterHoursFinding(d, hourOf, e)] + FindingsOf(d, hourOf, logins)
  {
    var l := FindingsOf(d, hourOf, [e] + logins);
    var r := [AfterHoursFinding(d, hourOf, e)] + FindingsOf(d, hourOf, logins);
    assert |l| == |r|;
    forall k | 0 <= k < |l| ensures l[k] == r[k] {
      if k > 0 { assert ([e] + logins)[k] == logins[k - 1]; }
    }
  }

  /** The after-hours detector reports exactly one finding per successful
      login outside business hours, in the order of the input. */
  lemma {:induction false} AfterHoursInOrder(d: Detector, hourOf: int -> int, entries: seq<LogEntry>)
    ensures DetectLoginsOutsideBusinessHours(d, hourOf, entries)
            == FindingsOf(d, hourOf, AfterHoursLogins(d, hourOf, entries))
    decreases |entries|
  {
    if |entries| > 0 {
      AfterHoursInOrder(d, hourOf, entries[1..]);
      if AfterHours(d, hourOf, entries[0]) {
        FindingsOfCons(d, hourOf, entries[0], AfterHoursLogins(d, hourOf, entries[1..]));
      }
    }
  }

  /** One record gives its finding when it is a successful login outside
      business hours, and nothing otherwise. */
  lemma AfterHoursOne(d: Detector, hourOf: int -> int, e: LogEntry)
    ensures DetectLoginsOutsideBusinessHours(d, hourOf, [e])
            == if AfterHours(d, hourOf, e) then [AfterHoursFinding(d, hourOf, e)] else []
  {
    AfterHoursInOrder(d, hourOf, [e]);
    assert [e][1..] == [];
  }

  /** Business hours are half-open: with the default hours 8 to 18, a login
      at 8:00 or during hour 17 is inside, one during hour 7 or at 18:00 is
      reported, and a failed login at any hour is not. */
  lemma BusinessHourBoundaries(hourOf: int -> int, u: string, ip: string, t: int)
    ensures hourOf(t) == 8 ==> DetectLoginsOutsideBusinessHours(DefaultDetector(), hourOf, [LogEntry(t, u, ip, Success)]) == []
    ensures hourOf(t) == 17 ==> DetectLoginsOutsideBusinessHours(DefaultDetector(), hourOf, [LogEntry(t, u, ip, Success)]) == []
    ensures hourOf(t) == 7 ==> |DetectLoginsOutsideBusinessHours(DefaultDetector(), hourOf, [LogEntry(t, u, ip, Success)])| == 1
    ensures hourOf(t) == 18 ==> |DetectLoginsOutsideBusinessHours(DefaultDetector(), hourOf, [LogEntry(t, u, ip, Success)])| == 1
    ensures DetectLoginsOutsideBusinessHours(DefaultDetector(), hourOf, [LogEntry(t, u, ip, Failed)]) == []
  {
  }

  // ---------------------------------------------------------------------------
  // Two successful logins of one user
  // ---------------------------------------------------------------------------

  /** Two time-ordered logins from different addresses make one finding
      naming both when they are within the window, and none otherwise. */
  lemma TwoAddressScan(d: Detector, u: string, e1: LogEntry, e2: LogEntry)
    requires e1.timestamp <= e2.timestamp && e1.ipAddress != e2.ipAddress
    ensures IsWithinTimeWindow(d, e1.timestamp, e2.timestamp) ==>
              |ScanUser(d, IpCluster, u, [e1, e2])| == 1
              && ScanUser(d, IpCluster, u, [e1, e2])[0].eventCount == 2
              && Elements(ScanUser(d, IpCluster, u, [e1, e2])[0].ipAddresses) == {e1.ipAddress, e2.ipAddress}
              && ScanUser(d, IpCluster, u, [e1, e2])[0].firstOccurrence == e1.timestamp
              && ScanUser(d, IpCluster, u, [e1, e2])[0].lastOccurrence == e2.timestamp
    ensures !IsWithinTimeWindow(d, e1.timestamp, e2.timestamp) ==> ScanUser(d, IpCluster, u, [e1, e2]) == []
  {
    if IsWithinTimeWindow(d, e1.timestamp, e2.timestamp) {
      TwoAddressesClose(d, u, e1, e2);
    } else {
      TwoAddressesApart(d, u, e1, e2);
    }
  }

  lemma TwoAddressesClose(d: Detector, u: string, e1: LogEntry, e2: LogEntry)
    requires e1.ipAddress != e2.ipAddress && IsWithinTimeWindow(d, e1.timestamp, e2.timestamp)
    ensures ClusterAnchors(d, IpCluster, [e1, e2]) == [0]
    ensures WindowEnd(d, [e1, e2], 0) == 1
    ensures Elements(WindowIps(d, [e1, e2], 0)) == {e1.ipAddress, e2.ipAddress}
    ensures |WindowIps(d, [e1, e2], 0)| == 2
  {
    var g := [e1, e2];
    var fires := FiresAt(d, IpCluster, g);
    var ends := EndAt(d, g);
    assert WindowEnd(d, g, 0) == 1;
    assert g[0..2] == g;
    var ips := WindowIps(d, g, 0);
    assert Elements(Ips(g)) == {e1.ipAddress, e2.ipAddress};
    StrictlySortedDistinct(ips);
    assert fires(0) && ends(0) == 1;
    assert Anchors(2, fires, ends, 2) == [];
  }

  lemma TwoAddressesApart(d: Detector, u: string, e1: LogEntry, e2: LogEntry)
    requires !IsWithinTimeWindow(d, e1.timestamp, e2.timestamp)
    ensures ClusterAnchors(d, IpCluster, [e1, e2]) == []
  {
    var g := [e1, e2];
    var fires := FiresAt(d, IpCluster, g);
    var ends := EndAt(d, g);
    assert WindowEnd(d, g, 0) == 0 && WindowEnd(d, g, 1) == 1;
    assert g[0..1] == [e1] && g[1..2] == [e2];
    assert |WindowIps(d, g, 0)| == 1 && |WindowIps(d, g, 1)| == 1;
    assert !fires(0) && !fires(1);
    assert Anchors(2, fires, ends, 2) == [];
    assert Anchors(2, fires, ends, 1) == [];
  }

  /** With a single user, the multi-address detector is that user's scan. */
  lemma OneUserOnly(d: Detector, entries: seq<LogEntry>, u: string)
    requires forall k :: 0 <= k < |entries| ==> entries[k].username == u
    ensures DetectMultipleIpAddresses(d, entries) == ScanUser(d, IpCluster, u, SortByTime(Select(entries, u, Success)))
  {
    var r := DetectMultipleIpAddresses(d, entries);
    assert UsersWith(entries, Success) <= {u};
    ForUserAll(r, u);
    IpAddressesPerUser(d, entries, u);
  }

  lemma TwoLoginsOneScan(d: Detector, e1: LogEntry, e2: LogEntry)
    requires e1.status == Success && e2.status == Success && e1.username == e2.username
    requires e1.timestamp <= e2.timestamp
    ensures DetectMultipleIpAddresses(d, [e1, e2]) == ScanUser(d, IpCluster, e1.username, [e1, e2])
  {
    var entries := [e1, e2];
    var u := e1.username;
    var g := Select(entries, u, Success);
    assert forall k :: 0 <= k < |entries| ==> entries[k].username == u;
    OneUserOnly(d, entries, u);
    TwoLoginsGroup(e1, e2);
    assert SortByTime(g) == entries;
  }

  lemma TwoLoginsGroup(e1: LogEntry, e2: LogEntry)
    requires e1.timestamp <= e2.timestamp && e1.username == e2.username
    requires e1.status == Success && e2.status == Success
    ensures SortByTime(Select([e1, e2], e1.username, Success)) == [e1, e2]
  {
    var entries := [e1, e2];
    assert entries[..1] == [e1];
    assert [e1][..0] == [];
    assert Select([e1], e1.username, Success) == [e1];
    assert Select(entries, e1.username, Success) == entries;
    assert SortByTime([e1]) == [e1];
  }

  /** The same two logins as the only records: the multi-address detector
      reports one finding naming both addresses when they are within the
      window, and nothing otherwise. */
  lemma TwoAddressLogins(d: Detector, e1: LogEntry, e2: LogEntry)
    requires e1.status == Success && e2.status == Success && e1.username == e2.username
    requires e1.timestamp <= e2.timestamp && e1.ipAddress != e2.ipAddress
    ensures IsWithinTimeWindow(d, e1.timestamp, e2.timestamp) ==>
              |DetectMultipleIpAddresses(d, [e1, e2])| == 1
              && DetectMultipleIpAddresses(d, [e1, e2])[0].eventCount == 2
              && Elements(DetectMultipleIpAddresses(d, [e1, e2])[0].ipAddresses) == {e1.ipAddress, e2.ipAddress}
    ensures !IsWithinTimeWindow(d, e1.timestamp, e2.timestamp) ==> DetectMultipleIpAddresses(d, [e1, e2]) == []
  {
    TwoLoginsOneScan(d, e1, e2);
    TwoAddressScan(d, e1.username, e1, e2);
  }

  // ---------------------------------------------------------------------------
  // The combined report
  // ---------------------------------------------------------------------------

  /** The combined report holds every finding of the three detectors, the
      failed-login ones first, then the after-hours ones, then the
      multi-address ones. */
  lemma DetectAllParts(d: Detector, hourOf: int -> int, entries: seq<LogEntry>)
    ensures |DetectAll(d, hourOf, entries)|
            == |DetectMultipleFailedLogins(d, entries)|
               + |DetectLoginsOutsideBusinessHours(d, hourOf, entries)|
               + |DetectMultipleIpAddresses(d, entries)|
    ensures forall f :: f in DetectAll(d, hourOf, entries) <==>
              (f in DetectMultipleFailedLogins(d, entries) && f.kind == MultipleFailedLogins)
              || (f in DetectLoginsOutsideBusinessHours(d, hourOf, entries) && f.kind == LoginOutsideBusinessHours)
              || (f in DetectMultipleIpAddresses(d, entries) && f.kind == MultipleIpAddresses)
  {
    var r1 := DetectMultipleFailedLogins(d, entries);
    var r2 := DetectLoginsOutsideBusinessHours(d, hourOf, entries);
    var r3 := DetectMultipleIpAddresses(d, entries);
    forall f | f in r1 ensures f.kind == MultipleFailedLogins { }
    forall f | f in r2 ensures f.kind == LoginOutsideBusinessHours { }
    forall f | f in r3 ensures f.kind == MultipleIpAddresses { }
  }

  /** No records, no findings. */
  lemma NoRecordsNoFindings(d: Detector, hourOf: int -> int)
    ensures DetectAll(d, hourOf, []) == []
  {
  }
}
