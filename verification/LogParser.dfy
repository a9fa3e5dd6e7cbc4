/** Reading one log line, `TIMESTAMP | USERNAME | IP | STATUS`, into a login
    record. Turning the timestamp text into seconds depends on the calendar
    and the local time zone and is passed in as `parseTimestamp`. */
module LogParser {
  import opened Wrappers
  import opened LogEntries

  // ---------------------------------------------------------------------------
  // Whitespace
  // ---------------------------------------------------------------------------

  /** `std::isspace` in the C locale: space, tab, newline, vertical tab,
      form feed and carriage return. */
  predicate IsSpace(c: char)
  {
    c == ' ' || c == '\t' || c == '\n' || c == '\U{B}' || c == '\U{C}' || c == '\r'
  }

  predicate AllSpace(s: string)
  {
    forall i :: 0 <= i < |s| ==> IsSpace(s[i])
  }

  /** The index of the first non-space character, or `|s|`. */
  function FirstNonSpace(s: string): (i: nat)
    ensures i <= |s|
    ensures AllSpace(s[..i])
    ensures i < |s| ==> !IsSpace(s[i])
  {
    if |s| == 0 then 0
    else if !IsSpace(s[0]) then 0
    else
      var i := 1 + FirstNonSpace(s[1..]);
      assert s[..i] == [s[0]] + s[1..][..i - 1];
      i
  }

  /** One past the index of the last non-space character, or 0. */
  function EndNonSpace(s: string): (j: nat)
    ensures j <= |s|
    ensures AllSpace(s[j..])
    ensures j > 0 ==> !IsSpace(s[j - 1])
  {
    if |s| == 0 then 0
    else if !IsSpace(s[|s| - 1]) then |s|
    else
      var j := EndNonSpace(s[..|s| - 1]);
      assert s[j..] == s[..|s| - 1][j..] + [s[|s| - 1]];
      j
  }

  /** Removes leading and trailing whitespace: the text between the first
      and the last non-space character, or the empty string when there is
      none. */
  function Trim(s: string): (r: string)
    ensures |r| <= |s|
    ensures |r| > 0 ==> !IsSpace(r[0]) && !IsSpace(r[|r| - 1])
    ensures r == [] <==> AllSpace(s)
  {
    var start := FirstNonSpace(s);
    var end := EndNonSpace(s);
    if start < end then s[start..end]
    else
      assert AllSpace(s) by {
        forall k | 0 <= k < |s| ensures IsSpace(s[k]) {
          if k < start { assert s[k] == s[..start][k]; }
        }
      }
      []
  }

  // ---------------------------------------------------------------------------
  // Status
  // ---------------------------------------------------------------------------

  /** `std::toupper` in the C locale: only ASCII letters change. */
  function ToUpper(c: char): char
  {
    if 'a' <= c <= 'z' then (c as int - 32) as char else c
  }

  function ToUpperString(s: string): (r: string)
    ensures |r| == |s|
    ensures forall i :: 0 <= i < |s| ==> r[i] == ToUpper(s[i])
  {
    seq(|s|, i requires 0 <= i < |s| => ToUpper(s[i]))
  }

  /** The status for a status text, ignoring letter case: a success exactly
      when it spells SUCCESS in any mix of letter cases, a failure exactly
      when it so spells FAILED, and unknown otherwise. */
  function ParseStatus(s: string): (r: LoginStatus)
    ensures r == Success <==> CaseVariant(s, "SUCCESS")
    ensures r == Failed <==> CaseVariant(s, "FAILED")
    ensures r == Unknown <==> !CaseVariant(s, "SUCCESS") && !CaseVariant(s, "FAILED")
  {
    CaseVariantIff(s, "SUCCESS");
    CaseVariantIff(s, "FAILED");
    var upper := ToUpperString(s);
    if upper == "SUCCESS" then Success
    else if upper == "FAILED" then Failed
    else Unknown
  }

  /** `s` spells the upper-case word `word`, each letter in either case. */
  ghost predicate CaseVariant(s: string, word: string)
  {
    |s| == |word| && forall i :: 0 <= i < |s| ==> s[i] == word[i] || s[i] as int == word[i] as int + 32
  }

  /** The upper-case image of a character is an upper-case letter exactly
      for that letter and its lower-case form. */
  lemma ToUpperInverse(c: char, w: char)
    requires 'A' <= w <= 'Z'
    ensures ToUpper(c) == w <==> c == w || c as int == w as int + 32
  {
  }

  lemma CaseVariantIff(s: string, word: string)
    requires forall i :: 0 <= i < |word| ==> 'A' <= word[i] <= 'Z'
    ensures ToUpperString(s) == word <==> CaseVariant(s, word)
  {
    if |s| == |word| {
      forall i | 0 <= i < |s| ensures ToUpperString(s)[i] == word[i] <==> s[i] == word[i] || s[i] as int == word[i] as int + 32 {
        ToUpperInverse(s[i], word[i]);
      }
    }
  }

  // ---------------------------------------------------------------------------
  // Splitting a line
  // ---------------------------------------------------------------------------

  /** An input string stream: what is left to read, and whether the end has
      been hit. */
  datatype Stream = Stream(rest: string, eof: bool)

  /** `std::getline(stream, field, delim)`: the characters up to the first
      `delim`, which is consumed and dropped, or up to the end, which sets
      the end flag. Fails once the end flag is set, and when nothing at all
      is left to read. */
  function GetLine(st: Stream, delim: char): (r: Option<(string, Stream)>)
    ensures r.Some? ==> delim !in r.value.0
    ensures r.Some? ==> |r.value.1.rest| < |st.rest|
    ensures r.None? <==> st.eof || |st.rest| == 0
  {
    if st.eof || |st.rest| == 0 then None
    else if delim in st.rest then
      var p := IndexOf(st.rest, delim);
      Some((st.rest[..p], Stream(st.rest[p + 1..], false)))
    else Some((st.rest, Stream([], true)))
  }

  /** The index of the first `c` in `s`, which holds one. */
  function IndexOf(s: string, c: char): (p: nat)
    requires c in s
    ensures p < |s| && s[p] == c && c !in s[..p]
  {
    if s[0] == c then 0
    else
      var p := 1 + IndexOf(s[1..], c);
      assert s[..p] == [s[0]] + s[1..][..p - 1];
      p
  }

  /** The four raw fields of a line: three read up to a `|` each, then the
      status read up to a newline. */
  function SplitFields(line: string): (r: Option<(string, string, string, string)>)
    ensures r.Some? ==> '|' !in r.value.0 && '|' !in r.value.1 && '|' !in r.value.2
    ensures r.Some? ==> '\n' !in r.value.3
  {
    var s0 := Stream(line, false);
    match GetLine(s0, '|')
    case None => None
    case Some((timestampText, s1)) =>
      match GetLine(s1, '|')
      case None => None
      case Some((userText, s2)) =>
        match GetLine(s2, '|')
        case None => None
        case Some((ipText, s3)) =>
          match GetLine(s3, '\n')
          case None => None
          case Some((statusText, _)) => Some((timestampText, userText, ipText, statusText))
  }

  /** Reads a line: splits it into its four fields, trims them, rejects an
      empty field and a timestamp that does not parse. A status that is
      neither success nor failure is kept as `Unknown`. */
  function ParseLogLine(line: string, parseTimestamp: string -> Option<int>): (r: Option<LogEntry>)
    ensures r.Some? ==> CleanField(r.value.username) && CleanField(r.value.ipAddress)
  {
    match SplitFields(line)
    case None => None
    case Some((timestampText, userText, ipText, statusText)) =>
      var timestamp := Trim(timestampText);
      var user := Trim(userText);
      var ip := Trim(ipText);
      var status := Trim(statusText);
      if |timestamp| == 0 || |user| == 0 || |ip| == 0 || |status| == 0 then None
      else
        TrimmedFieldClean(userText);
        TrimmedFieldClean(ipText);
        match parseTimestamp(timestamp)
        case None => None
        case Some(t) => Some(LogEntry(t, user, ip, ParseStatus(status)))
  }

  /** A non-empty field without `|` and without surrounding whitespace. */
  ghost predicate CleanField(s: string)
  {
    |s| > 0 && '|' !in s && !IsSpace(s[0]) && !IsSpace(s[|s| - 1])
  }

  lemma TrimmedFieldClean(s: string)
    requires '|' !in s && |Trim(s)| > 0
    ensures CleanField(Trim(s))
  {
    TrimKeepsOut(s, '|');
  }

  /** Trimming keeps a character out that was not there. */
  lemma TrimKeepsOut(s: string, c: char)
    requires c !in s
    ensures c !in Trim(s)
  {
    var r := Trim(s);
    forall k | 0 <= k < |r| ensures r[k] != c {
      var start := FirstNonSpace(s);
      assert r[k] == s[start + k];
    }
  }
}
