/** The login record every other component exchanges. Timestamps are whole
    seconds on the system clock; the parser only ever yields whole seconds. */
module LogEntries {

  /** Outcome of a login attempt; `Unknown` marks a status text that was
      neither "SUCCESS" nor "FAILED" in any letter case. */
  datatype LoginStatus = Success | Failed | Unknown

  /** One authentication event, immutable once built. The positional
      constructor stores its four arguments verbatim. */
  datatype LogEntry = LogEntry(timestamp: int, username: string, ipAddress: string, status: LoginStatus)

  /** The default-constructed record: empty user and address, unknown status,
      stamped with the current time, which is passed in. */
  function DefaultEntry(now: int): (e: LogEntry)
    ensures e.timestamp == now && e.status == Unknown
    ensures e.username == "" && e.ipAddress == ""
  {
    LogEntry(now, "", "", Unknown)
  }

  /** The entries with status `st`, in input order. */
  function WithStatus(entries: seq<LogEntry>, st: LoginStatus): (r: seq<LogEntry>)
    ensures |r| <= |entries|
    ensures forall e :: e in r <==> e in entries && e.status == st
    ensures forall e :: multiset(r)[e] == if e.status == st then multiset(entries)[e] else 0
  {
    if |entries| == 0 then []
    else
      var prefix := WithStatus(entries[..|entries| - 1], st);
      var last := entries[|entries| - 1];
      assert entries == entries[..|entries| - 1] + [last];
      assert multiset(entries) == multiset(entries[..|entries| - 1]) + multiset{last};
      if last.status == st then prefix + [last] else prefix
  }
}
