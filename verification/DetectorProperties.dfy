/** Properties of the detection engine: the window test, the early exit of
    the forward scan, the shape of every finding, overlap avoidance, the
    per-user decomposition and the combinator. */
module DetectorProperties {
  import opened LogEntries
  import opened Ordered
  import opened EventDetector

  // ---------------------------------------------------------------------------
  // The window test
  // ---------------------------------------------------------------------------

  /** The window test is symmetric, and it holds exactly when the two
      instants are less than `window + 1` whole minutes apart: a distance of
      `window` minutes and 59 seconds is still inside. */
  lemma WithinWindowCharacterised(d: Detector, t1: int, t2: int)
    ensures IsWithinTimeWindow(d, t1, t2) <==> IsWithinTimeWindow(d, t2, t1)
    ensures IsWithinTimeWindow(d, t1, t2) <==> Abs(t1 - t2) < SECONDS_PER_MINUTE * (d.timeWindowMinutes + 1)
  {
    assert Abs(t2 - t1) == Abs(t1 - t2);
  }

  /** Moving the second instant further away from the first never brings it
      into the window. */
  lemma WithinWindowMonotone(d: Detector, t0: int, t1: int, t2: int)
    requires t0 <= t1 <= t2
    ensures IsWithinTimeWindow(d, t0, t2) ==> IsWithinTimeWindow(d, t0, t1)
  {
    WithinWindowCharacterised(d, t0, t1);
    WithinWindowCharacterised(d, t0, t2);
  }

  // ---------------------------------------------------------------------------
  // The forward scan
  // ---------------------------------------------------------------------------

  /** On time-sorted records the early exit loses nothing: a later record is
      within the anchor's window exactly when it lies at or before the
      window end. */
  lemma EarlyExitSound(d: Detector, g: seq<LogEntry>, i: nat)
    requires SortedByTime(g) && i < |g|
    ensures forall k :: i < k < |g| ==>
              (IsWithinTimeWindow(d, g[i].timestamp, g[k].timestamp) <==> k <= WindowEnd(d, g, i))
  {
    var e := WindowEnd(d, g, i);
    forall k | e < k < |g|
      ensures !IsWithinTimeWindow(d, g[i].timestamp, g[k].timestamp)
    {
      WithinWindowMonotone(d, g[i].timestamp, g[e + 1].timestamp, g[k].timestamp);
    }
  }

  /** The positions `[lo, hi)`. */
  ghost function Range(lo: nat, hi: nat): (r: set<nat>)
    ensures forall k :: k in r <==> lo <= k < hi
    ensures |r| == if lo <= hi then hi - lo else 0
    decreases hi - lo
  {
    if lo >= hi then {} else {lo} + Range(lo + 1, hi)
  }

  /** Reference definition of a window: the anchor and every later record
      within the time window of it, wherever it lies. */
  ghost function InWindow(d: Detector, g: seq<LogEntry>, i: nat): set<nat>
  {
    set k | k in Range(i, |g|) && (k == i || IsWithinTimeWindow(d, g[i].timestamp, g[k].timestamp))
  }

  /** The addresses of the records of a window. */
  ghost function AddressesIn(g: seq<LogEntry>, ks: set<nat>): set<string>
  {
    set k | k in ks && k < |g| :: g[k].ipAddress
  }

  /** On time-sorted records the window the scan finds is the reference
      window: the positions from the anchor to the window end. */
  lemma WindowIsInterval(d: Detector, g: seq<LogEntry>, i: nat)
    requires SortedByTime(g) && i < |g|
    ensures InWindow(d, g, i) == Range(i, WindowEnd(d, g, i) + 1)
    ensures |InWindow(d, g, i)| == WindowEnd(d, g, i) - i + 1
  {
    EarlyExitSound(d, g, i);
  }

  /** A failed-login anchor fires exactly when its reference window holds
      at least the threshold number of records. */
  lemma FailedRuleFiresIff(d: Detector, g: seq<LogEntry>, i: nat)
    requires SortedByTime(g) && i < |g|
    ensures Fires(d, FailedCluster, g, i) <==> |InWindow(d, g, i)| >= d.failedLoginThreshold
  {
    WindowIsInterval(d, g, i);
  }

  /** The addresses collected for an anchor are, ascending and without
      duplicates, the distinct addresses of its reference window; so a
      multi-address anchor fires exactly when that window holds at least
      two distinct addresses. */
  lemma IpRuleFiresIff(d: Detector, g: seq<LogEntry>, i: nat)
    requires SortedByTime(g) && i < |g|
    ensures StrictlySorted(WindowIps(d, g, i))
    ensures Elements(WindowIps(d, g, i)) == AddressesIn(g, InWindow(d, g, i))
    ensures |WindowIps(d, g, i)| == |AddressesIn(g, InWindow(d, g, i))|
    ensures Fires(d, IpCluster, g, i) <==> |AddressesIn(g, InWindow(d, g, i))| >= 2
  {
    RunAddresses(d, g, i);
    WindowIsInterval(d, g, i);
    StrictlySortedDistinct(WindowIps(d, g, i));
  }

  lemma WindowIpsElements(d: Detector, g: seq<LogEntry>, i: nat)
    requires i < |g|
    ensures StrictlySorted(WindowIps(d, g, i))
    ensures Elements(WindowIps(d, g, i)) == Elements(Ips(g[i..WindowEnd(d, g, i) + 1]))
  {
  }

  // ---------------------------------------------------------------------------
  // One user's scan
  // ---------------------------------------------------------------------------

  /** The anchors of one user's scan, with the lambdas of the generic scan
      spelled out. */
  lemma AnchorFacts(d: Detector, rule: ClusterRule, g: seq<LogEntry>)
    ensures forall k :: 0 <= k < |ClusterAnchors(d, rule, g)| ==>
              ClusterAnchors(d, rule, g)[k] < |g| && Fires(d, rule, g, ClusterAnchors(d, rule, g)[k])
    ensures forall k, l :: 0 <= k < l < |ClusterAnchors(d, rule, g)| ==>
              ClusterAnchors(d, rule, g)[k] < |g| &&
              WindowEnd(d, g, ClusterAnchors(d, rule, g)[k]) < ClusterAnchors(d, rule, g)[l]
  {
    var a := ClusterAnchors(d, rule, g);
    forall k | 0 <= k < |a| ensures a[k] < |g| && Fires(d, rule, g, a[k]) {
      assert FiresAt(d, rule, g)(a[k]);
    }
    forall k, l | 0 <= k < l < |a| ensures a[k] < |g| && WindowEnd(d, g, a[k]) < a[l] {
      assert EndAt(d, g)(a[k]) < a[l];
    }
  }

  /** The anchor `a` and the positions up to `b` form a window: every one is
      within the time window of the anchor, and the next record, if any, is
      not. */
  ghost predicate IsWindow(d: Detector, g: seq<LogEntry>, a: nat, b: nat)
  {
    && a <= b < |g|
    && (forall k :: a < k <= b ==> IsWithinTimeWindow(d, g[a].timestamp, g[k].timestamp))
    && (b + 1 < |g| ==> !IsWithinTimeWindow(d, g[a].timestamp, g[b + 1].timestamp))
  }

  /** A failed-login finding of user `u` over records `g`: it names that
      user, reaches the threshold, carries its anchor's address and only
      that, starts at its anchor, ends at the last record of the anchor's
      window, and counts exactly the records of that window. */
  ghost predicate FailedFindingOf(d: Detector, u: string, g: seq<LogEntry>, f: SuspiciousEvent)
  {
    && f.kind == MultipleFailedLogins
    && f.username == u
    && f.eventCount >= d.failedLoginThreshold
    && exists a: nat, b: nat :: IsWindow(d, g, a, b)
         && f.firstOccurrence == g[a].timestamp
         && f.lastOccurrence == g[b].timestamp
         && f.ipAddresses == [g[a].ipAddress]
         && f.eventCount == b - a + 1
  }

  /** A multi-address finding of user `u` over records `g`: it names that
      user, carries at least two addresses, ascending and without
      duplicates, counts exactly those, and they are the addresses of the
      records of one window, which it spans. */
  ghost predicate IpFindingOf(d: Detector, u: string, g: seq<LogEntry>, f: SuspiciousEvent)
  {
    && f.kind == MultipleIpAddresses
    && f.username == u
    && f.eventCount == |f.ipAddresses| >= 2
    && StrictlySorted(f.ipAddresses)
    && exists a: nat, b: nat :: IsWindow(d, g, a, b)
         && f.firstOccurrence == g[a].timestamp
         && f.lastOccurrence == g[b].timestamp
         && Elements(f.ipAddresses) == AddressesIn(g, Range(a, b + 1))
  }

  /** Every failed-login finding of one user's scan has the shape above. */
  lemma FailedScanFindings(d: Detector, u: string, g: seq<LogEntry>)
    ensures forall f :: f in ScanUser(d, FailedCluster, u, g) ==> FailedFindingOf(d, u, g, f)
  {
    var a := ClusterAnchors(d, FailedCluster, g);
    var r := ScanUser(d, FailedCluster, u, g);
    AnchorFacts(d, FailedCluster, g);
    forall k | 0 <= k < |r| ensures FailedFindingOf(d, u, g, r[k]) {
      FailedFindingShape(d, u, g, a[k]);
    }
  }

  /** Every multi-address finding of one user's scan has the shape above. */
  lemma IpScanFindings(d: Detector, u: string, g: seq<LogEntry>)
    ensures forall f :: f in ScanUser(d, IpCluster, u, g) ==> IpFindingOf(d, u, g, f)
  {
    var a := ClusterAnchors(d, IpCluster, g);
    var r := ScanUser(d, IpCluster, u, g);
    AnchorFacts(d, IpCluster, g);
    forall k | 0 <= k < |r| ensures IpFindingOf(d, u, g, r[k]) {
      IpFindingShape(d, u, g, a[k]);
    }
  }

  lemma FailedFindingShape(d: Detector, u: string, g: seq<LogEntry>, i: nat)
    requires i < |g| && Fires(d, FailedCluster, g, i)
    ensures FailedFindingOf(d, u, g, ClusterFinding(d, FailedCluster, u, g, i))
  {
    WindowEndIsWindow(d, g, i);
  }

  lemma IpFindingShape(d: Detector, u: string, g: seq<LogEntry>, i: nat)
    requires i < |g| && Fires(d, IpCluster, g, i)
    ensures IpFindingOf(d, u, g, ClusterFinding(d, IpCluster, u, g, i))
  {
    WindowEndIsWindow(d, g, i);
    RunAddresses(d, g, i);
  }

  lemma WindowEndIsWindow(d: Detector, g: seq<LogEntry>, i: nat)
    requires i < |g|
    ensures IsWindow(d, g, i, WindowEnd(d, g, i))
  {
  }

  lemma RunAddresses(d: Detector, g: seq<LogEntry>, i: nat)
    requires i < |g|
    ensures StrictlySorted(WindowIps(d, g, i))
    ensures Elements(WindowIps(d, g, i)) == AddressesIn(g, Range(i, WindowEnd(d, g, i) + 1))
  {
    WindowIpsElements(d, g, i);
    IpsOfSlice(g, i, WindowEnd(d, g, i) + 1);
  }

  /** The addresses listed for a slice are those of its positions. */
  lemma IpsOfSlice(g: seq<LogEntry>, lo: nat, hi: nat)
    requires lo <= hi <= |g|
    ensures Elements(Ips(g[lo..hi])) == AddressesIn(g, Range(lo, hi))
  {
    var ips := Ips(g[lo..hi]);
    forall x | x in Elements(ips) ensures x in AddressesIn(g, Range(lo, hi)) {
      var k :| 0 <= k < |ips| && ips[k] == x;
      assert g[lo + k].ipAddress == x;
      assert lo + k in Range(lo, hi);
    }
    forall x | x in AddressesIn(g, Range(lo, hi)) ensures x in Elements(ips) {
      var k :| k in Range(lo, hi) && k < |g| && g[k].ipAddress == x;
      assert ips[k - lo] == x;
    }
  }

  /** A finding spans from its anchor's timestamp to its window end's. */
  lemma FindingSpan(d: Detector, rule: ClusterRule, u: string, g: seq<LogEntry>, i: nat)
    requires i < |g|
    ensures ClusterFinding(d, rule, u, g, i).firstOccurrence == g[i].timestamp
    ensures ClusterFinding(d, rule, u, g, i).lastOccurrence == g[WindowEnd(d, g, i)].timestamp
  {
  }

  /** Two findings whose windows do not overlap come in time order. */
  lemma FindingsInOrder(d: Detector, rule: ClusterRule, u: string, g: seq<LogEntry>, i: nat, j: nat)
    requires SortedByTime(g)
    requires i < |g| && j < |g| && WindowEnd(d, g, i) < j
    ensures ClusterFinding(d, rule, u, g, i).lastOccurrence <= ClusterFinding(d, rule, u, g, j).firstOccurrence
  {
    FindingSpan(d, rule, u, g, i);
    FindingSpan(d, rule, u, g, j);
  }

  /** A finding starts no later than it ends. */
  lemma FindingForward(d: Detector, rule: ClusterRule, u: string, g: seq<LogEntry>, i: nat)
    requires SortedByTime(g)
    requires i < |g|
    ensures ClusterFinding(d, rule, u, g, i).firstOccurrence <= ClusterFinding(d, rule, u, g, i).lastOccurrence
  {
    FindingSpan(d, rule, u, g, i);
  }

  /** On time-sorted records each finding starts no later than it ends, and
      the findings of one user come in time order without overlapping: each
      one ends no later than any later one starts. */
  lemma ScanFindingsAscending(d: Detector, rule: ClusterRule, u: string, g: seq<LogEntry>)
    requires SortedByTime(g)
    ensures forall k :: 0 <= k < |ScanUser(d, rule, u, g)| ==>
              ScanUser(d, rule, u, g)[k].firstOccurrence <= ScanUser(d, rule, u, g)[k].lastOccurrence
    ensures forall k, l :: 0 <= k < l < |ScanUser(d, rule, u, g)| ==>
              ScanUser(d, rule, u, g)[k].lastOccurrence <= ScanUser(d, rule, u, g)[l].firstOccurrence
  {
    var a := ClusterAnchors(d, rule, g);
    var r := ScanUser(d, rule, u, g);
    AnchorFacts(d, rule, g);
    forall k | 0 <= k < |r| ensures r[k].firstOccurrence <= r[k].lastOccurrence {
      FindingForward(d, rule, u, g, a[k]);
    }
    forall k, l | 0 <= k < l < |r| ensures r[k].lastOccurrence <= r[l].firstOccurrence {
      FindingsInOrder(d, rule, u, g, a[k], a[l]);
    }
  }

  /** The total number of events the findings report. */
  function SumCounts(fs: seq<SuspiciousEvent>): int
  {
    if |fs| == 0 then 0 else fs[0].eventCount + SumCounts(fs[1..])
  }

  /** The total size of the windows of anchors `a`. */
  ghost function SpanSum(d: Detector, g: seq<LogEntry>, a: seq<nat>): int
    requires forall k :: 0 <= k < |a| ==> a[k] < |g|
  {
    if |a| == 0 then 0 else WindowEnd(d, g, a[0]) - a[0] + 1 + SpanSum(d, g, a[1..])
  }

  /** Disjoint ascending windows inside `[lo, |g|)` hold at most
      `|g| - lo` records between them. */
  lemma {:induction false} SpanSumBound(d: Detector, g: seq<LogEntry>, a: seq<nat>, lo: nat)
    requires lo <= |g|
    requires forall k :: 0 <= k < |a| ==> lo <= a[k] < |g|
    requires forall k, l :: 0 <= k < l < |a| ==> a[k] < |g| && WindowEnd(d, g, a[k]) < a[l]
    ensures SpanSum(d, g, a) <= |g| - lo
    decreases |a|
  {
    if |a| > 0 {
      var e := WindowEnd(d, g, a[0]);
      var rest := a[1..];
      assert a[0] <= e < |g|;
      assert forall k :: 0 <= k < |rest| ==> rest[k] == a[k + 1] && e + 1 <= rest[k] < |g|;
      SpanSumBound(d, g, rest, e + 1);
      assert SpanSum(d, g, a) == e - a[0] + 1 + SpanSum(d, g, rest);
    }
  }

  lemma {:induction false} SumCountsFrom(d: Detector, u: string, g: seq<LogEntry>, j: nat)
    requires j <= |ClusterAnchors(d, FailedCluster, g)|
    ensures forall k :: 0 <= k < |ClusterAnchors(d, FailedCluster, g)| ==> ClusterAnchors(d, FailedCluster, g)[k] < |g|
    ensures SumCounts(ScanUser(d, FailedCluster, u, g)[j..]) == SpanSum(d, g, ClusterAnchors(d, FailedCluster, g)[j..])
    decreases |ClusterAnchors(d, FailedCluster, g)| - j
  {
    var a := ClusterAnchors(d, FailedCluster, g);
    var r := ScanUser(d, FailedCluster, u, g);
    AnchorFacts(d, FailedCluster, g);
    if j < |a| {
      SumCountsFrom(d, u, g, j + 1);
      assert r[j..][1..] == r[j + 1..];
      assert a[j..][1..] == a[j + 1..];
      FailedFindingShape(d, u, g, a[j]);
    }
  }

  /** Overlap avoidance: the failed-login findings of one user count no
      record twice, so together they count at most that user's failed
      logins. */
  lemma FailedCountsBounded(d: Detector, u: string, g: seq<LogEntry>)
    ensures SumCounts(ScanUser(d, FailedCluster, u, g)) <= |g|
  {
    var a := ClusterAnchors(d, FailedCluster, g);
    AnchorFacts(d, FailedCluster, g);
    SumCountsFrom(d, u, g, 0);
    assert ScanUser(d, FailedCluster, u, g)[0..] == ScanUser(d, FailedCluster, u, g);
    assert a[0..] == a;
    SpanSumBound(d, g, a, 0);
  }

  /** A failed-login finding needs at least threshold many records. */
  lemma FindingNeedsThreshold(d: Detector, u: string, g: seq<LogEntry>)
    ensures |ScanUser(d, FailedCluster, u, g)| > 0 ==> d.failedLoginThreshold <= |g|
  {
    var a := ClusterAnchors(d, FailedCluster, g);
    AnchorFacts(d, FailedCluster, g);
    if |a| > 0 {
      assert Fires(d, FailedCluster, g, a[0]);
    }
  }

  /** Fewer records than the threshold never make a failed-login finding. */
  lemma BelowThresholdNoFinding(d: Detector, u: string, g: seq<LogEntry>)
    requires |g| < d.failedLoginThreshold
    ensures ScanUser(d, FailedCluster, u, g) == []
  {
    FindingNeedsThreshold(d, u, g);
  }

  /** One burst, one finding: when every record is within the window of the
      first and there are at least threshold many, the scan reports a single
      finding that counts them all and spans first to last, instead of one
      per anchor. */
  lemma OneBurstOneFinding(d: Detector, u: string, g: seq<LogEntry>)
    requires |g| > 0 && |g| >= d.failedLoginThreshold
    requires forall k :: 0 < k < |g| ==> IsWithinTimeWindow(d, g[0].timestamp, g[k].timestamp)
    ensures |ScanUser(d, FailedCluster, u, g)| == 1
    ensures ScanUser(d, FailedCluster, u, g)[0].eventCount == |g|
    ensures ScanUser(d, FailedCluster, u, g)[0].firstOccurrence == g[0].timestamp
    ensures ScanUser(d, FailedCluster, u, g)[0].lastOccurrence == g[|g| - 1].timestamp
    ensures ScanUser(d, FailedCluster, u, g)[0].ipAddresses == [g[0].ipAddress]
  {
    var e := WindowEnd(d, g, 0);
    assert e == |g| - 1;
    assert Fires(d, FailedCluster, g, 0);
    assert FiresAt(d, FailedCluster, g)(0);
    assert EndAt(d, g)(0) == |g| - 1;
    assert Anchors(|g|, FiresAt(d, FailedCluster, g), EndAt(d, g), |g|) == [];
    assert ClusterAnchors(d, FailedCluster, g) == [0];
  }
}
