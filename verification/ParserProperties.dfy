/** Properties of trimming, status parsing and line splitting. */
module ParserProperties {
  import opened Wrappers
  import opened LogEntries
  import opened LogParser

  // ---------------------------------------------------------------------------
  // Trimming
  // ---------------------------------------------------------------------------

  lemma {:induction false} FirstNonSpaceAfter(pre: string, rest: string)
    requires AllSpace(pre) && |rest| > 0 && !IsSpace(rest[0])
    ensures FirstNonSpace(pre + rest) == |pre|
    decreases |pre|
  {
    if |pre| == 0 {
      assert pre + rest == rest;
    } else {
      assert (pre + rest)[1..] == pre[1..] + rest;
      FirstNonSpaceAfter(pre[1..], rest);
    }
  }

  lemma {:induction false} EndNonSpaceBefore(rest: string, post: string)
    requires AllSpace(post) && |rest| > 0 && !IsSpace(rest[|rest| - 1])
    ensures EndNonSpace(rest + post) == |rest|
    decreases |post|
  {
    if |post| == 0 {
      assert rest + post == rest;
    } else {
      var s := rest + post;
      assert s[..|s| - 1] == rest + post[..|post| - 1];
      EndNonSpaceBefore(rest, post[..|post| - 1]);
    }
  }

  /** Trimming strips exactly the whitespace around a text that neither
      starts nor ends with whitespace. */
  lemma TrimPadded(pre: string, core: string, post: string)
    requires AllSpace(pre) && AllSpace(post)
    requires |core| > 0 && !IsSpace(core[0]) && !IsSpace(core[|core| - 1])
    ensures Trim(pre + core + post) == core
  {
    var s := pre + core + post;
    assert s == pre + (core + post);
    FirstNonSpaceAfter(pre, core + post);
    assert s == (pre + core) + post;
    EndNonSpaceBefore(pre + core, post);
    assert s[|pre|..|pre| + |core|] == core;
  }

  /** Trimming removes only whitespace, and only at the two ends. */
  lemma TrimDecomposition(s: string)
    ensures AllSpace(s[..FirstNonSpace(s)])
    ensures Trim(s) != [] ==> s == s[..FirstNonSpace(s)] + Trim(s) + s[EndNonSpace(s)..]
    ensures Trim(s) != [] ==> AllSpace(s[EndNonSpace(s)..])
  {
    var i := FirstNonSpace(s);
    var j := EndNonSpace(s);
    if Trim(s) != [] {
      assert s == s[..i] + s[i..j] + s[j..];
    }
  }

  /** Trimming twice is trimming once. */
  lemma TrimIdempotent(s: string)
    ensures Trim(Trim(s)) == Trim(s)
  {
    var r := Trim(s);
    if |r| > 0 {
      TrimPadded([], r, []);
      assert [] + r + [] == r;
    }
  }

  /** An all-whitespace text trims to the empty string. */
  lemma TrimAllSpace(s: string)
    requires AllSpace(s)
    ensures Trim(s) == []
  {
  }

  // ---------------------------------------------------------------------------
  // Status
  // ---------------------------------------------------------------------------

  lemma ParseStatusExamples()
    ensures ParseStatus("SUCCESS") == Success
    ensures ParseStatus("success") == Success
    ensures ParseStatus("Failed") == Failed
    ensures ParseStatus("") == Unknown
    ensures ParseStatus("PENDING") == Unknown
    ensures ParseStatus(" SUCCESS") == Unknown
  {
    assert "PENDING"[0] == 'P';
  }

  // ---------------------------------------------------------------------------
  // Splitting
  // ---------------------------------------------------------------------------

  /** Occurrences of `c` in `s`. */
  function Count(s: string, c: char): (n: nat)
    ensures n <= |s|
    ensures n == 0 <==> c !in s
  {
    if |s| == 0 then 0 else (if s[0] == c then 1 else 0) + Count(s[1..], c)
  }

  lemma {:induction false} CountAppend(a: string, b: string, c: char)
    ensures Count(a + b, c) == Count(a, c) + Count(b, c)
    decreases |a|
  {
    if |a| == 0 {
      assert a + b == b;
    } else {
      assert (a + b)[1..] == a[1..] + b;
      CountAppend(a[1..], b, c);
    }
  }

  /** What one `getline` takes off the stream: a field and its delimiter,
      or the whole remainder, which sets the end flag. */
  lemma GetLineShape(st: Stream, delim: char)
    requires GetLine(st, delim).Some?
    ensures var (f, st') := GetLine(st, delim).value;
            (!st'.eof && st.rest == f + [delim] + st'.rest) || (st'.eof && st'.rest == [] && st.rest == f)
  {
    var (f, st') := GetLine(st, delim).value;
    if delim in st.rest {
      var p := IndexOf(st.rest, delim);
      assert st.rest == st.rest[..p] + [delim] + st.rest[p + 1..];
    }
  }

  /** Each `getline` up to `|` uses up one `|`, or the end of the line. */
  lemma GetLineUsesOnePipe(st: Stream)
    requires GetLine(st, '|').Some?
    ensures var st' := GetLine(st, '|').value.1;
            st'.eof || Count(st'.rest, '|') + 1 == Count(st.rest, '|')
  {
    var (f, st') := GetLine(st, '|').value;
    GetLineShape(st, '|');
    if !st'.eof {
      CountAppend(f + ['|'], st'.rest, '|');
      CountAppend(f, ['|'], '|');
    }
  }

  /** A line with fewer than three `|` separators, the empty line among
      them, is rejected. */
  lemma FewerThanThreePipes(line: string, parseTimestamp: string -> Option<int>)
    requires Count(line, '|') < 3
    ensures SplitFields(line) == None
    ensures ParseLogLine(line, parseTimestamp) == None
  {
    var s0 := Stream(line, false);
    if GetLine(s0, '|').Some? {
      var s1 := GetLine(s0, '|').value.1;
      GetLineUsesOnePipe(s0);
      if GetLine(s1, '|').Some? {
        var s2 := GetLine(s1, '|').value.1;
        GetLineUsesOnePipe(s1);
        if GetLine(s2, '|').Some? {
          var s3 := GetLine(s2, '|').value.1;
          GetLineUsesOnePipe(s2);
          assert s3.eof || |s3.rest| == 0;
        }
      }
    }
  }

  /** A line made of three `|`-free fields, each followed by `|`, and a
      status that runs to the end of the line or to a newline, splits into
      exactly those four texts. Further `|` stay in the status. */
  lemma SplitKnownLine(a: string, b: string, c: string, d: string, tail: string)
    requires '|' !in a && '|' !in b && '|' !in c && '\n' !in d
    requires tail == [] || tail[0] == '\n'
    requires |d| > 0 || |tail| > 0
    ensures SplitFields(a + "|" + b + "|" + c + "|" + d + tail) == Some((a, b, c, d))
  {
    LineShape(a, b, c, d, tail);
    StatusField(d, tail);
    SplitFrom(a, b, c, d + tail);
  }

  lemma LineShape(a: string, b: string, c: string, d: string, tail: string)
    ensures a + "|" + b + "|" + c + "|" + d + tail == a + ['|'] + (b + ['|'] + (c + ['|'] + (d + tail)))
  {
  }

  /** The status field: up to the newline, or the rest of the line. */
  lemma StatusField(d: string, tail: string)
    requires '\n' !in d
    requires tail == [] || tail[0] == '\n'
    requires |d| > 0 || |tail| > 0
    ensures GetLine(Stream(d + tail, false), '\n').Some?
    ensures GetLine(Stream(d + tail, false), '\n').value.0 == d
  {
    if |tail| > 0 {
      FieldUpTo(d, '\n', tail[1..]);
      assert d + tail == d + ['\n'] + tail[1..];
    } else {
      assert d + tail == d;
    }
  }

  /** Three pipe-free fields, each followed by a `|`, split off the front of
      a line; the status is whatever `getline` reads from the rest. */
  lemma SplitFrom(a: string, b: string, c: string, rest: string)
    requires '|' !in a && '|' !in b && '|' !in c
    requires GetLine(Stream(rest, false), '\n').Some?
    ensures SplitFields(a + ['|'] + (b + ['|'] + (c + ['|'] + rest)))
            == Some((a, b, c, GetLine(Stream(rest, false), '\n').value.0))
  {
    var r2 := c + ['|'] + rest;
    var r1 := b + ['|'] + r2;
    FieldUpTo(a, '|', r1);
    FieldUpTo(b, '|', r2);
    FieldUpTo(c, '|', rest);
  }

  /** `getline` on `f`, the delimiter, and more returns `f`. */
  lemma FieldUpTo(f: string, delim: char, more: string)
    requires delim !in f
    ensures GetLine(Stream(f + [delim] + more, false), delim) == Some((f, Stream(more, false)))
  {
    var s := f + [delim] + more;
    assert s[|f|] == delim;
    assert s[..|f|] == f;
    IndexOfAt(s, delim, |f|);
    assert s[|f| + 1..] == more;
  }

  lemma {:induction false} IndexOfAt(s: string, c: char, p: nat)
    requires p < |s| && s[p] == c && c !in s[..p]
    ensures IndexOf(s, c) == p
    decreases p
  {
    if p > 0 {
      assert s[0] in s[..p];
      var t := s[1..][..p - 1];
      forall j | 0 <= j < |t| ensures t[j] != c {
        assert t[j] == s[..p][j + 1];
      }
      IndexOfAt(s[1..], c, p - 1);
    }
  }

  /** A well-formed line parses into its trimmed fields: the timestamp
      through `parseTimestamp`, the status through `ParseStatus`; an empty
      trimmed field or an unreadable timestamp rejects it, an unknown status
      does not. */
  lemma ParseKnownLine(a: string, b: string, c: string, d: string, tail: string, parseTimestamp: string -> Option<int>)
    requires '|' !in a && '|' !in b && '|' !in c && '\n' !in d
    requires tail == [] || tail[0] == '\n'
    ensures ParseLogLine(a + "|" + b + "|" + c + "|" + d + tail, parseTimestamp)
            == if |Trim(a)| == 0 || |Trim(b)| == 0 || |Trim(c)| == 0 || |Trim(d)| == 0 then None
               else if parseTimestamp(Trim(a)).None? then None
               else Some(LogEntry(parseTimestamp(Trim(a)).value, Trim(b), Trim(c), ParseStatus(Trim(d))))
  {
    if |d| > 0 || |tail| > 0 {
      SplitKnownLine(a, b, c, d, tail);
    } else {
      // `a|b|c|`: the status read finds nothing at the end of the line.
      LineShape(a, b, c, d, tail);
      FieldUpTo(a, '|', b + ['|'] + (c + ['|'] + (d + tail)));
      FieldUpTo(b, '|', c + ['|'] + (d + tail));
      FieldUpTo(c, '|', d + tail);
      assert Trim(d) == [];
    }
  }

  /** A line of exactly four fields, without a trailing newline. */
  lemma ParseFourFields(a: string, b: string, c: string, d: string, parseTimestamp: string -> Option<int>)
    requires '|' !in a && '|' !in b && '|' !in c && '\n' !in d && |d| > 0
    ensures ParseLogLine(a + "|" + b + "|" + c + "|" + d, parseTimestamp)
            == if |Trim(a)| == 0 || |Trim(b)| == 0 || |Trim(c)| == 0 || |Trim(d)| == 0 then None
               else if parseTimestamp(Trim(a)).None? then None
               else Some(LogEntry(parseTimestamp(Trim(a)).value, Trim(b), Trim(c), ParseStatus(Trim(d))))
  {
    ParseKnownLine(a, b, c, d, [], parseTimestamp);
    assert a + "|" + b + "|" + c + "|" + d + [] == a + "|" + b + "|" + c + "|" + d;
  }

  /** A character that is not whitespace survives trimming. */
  lemma TrimKeepsNonSpace(s: string, c: char)
    requires c in s && !IsSpace(c)
    ensures c in Trim(s)
  {
    var k :| 0 <= k < |s| && s[k] == c;
    var i := FirstNonSpace(s);
    var j := EndNonSpace(s);
    assert i <= k;
    assert k < j;
    assert Trim(s)[k - i] == c;
  }

  /** A status text holding a `|` is neither known word. */
  lemma PipeMeansUnknown(s: string)
    requires '|' in s
    ensures ParseStatus(s) == Unknown
  {
    var k :| 0 <= k < |s| && s[k] == '|';
    assert !CaseVariant(s, "SUCCESS") && !CaseVariant(s, "FAILED");
  }

  /** Extra `|` separators are not rejected: they end up in the status,
      which then reads as unknown, and the record is kept. */
  lemma ExtraPipesKeepEntry(a: string, b: string, c: string, d: string, parseTimestamp: string -> Option<int>)
    requires '|' !in a && '|' !in b && '|' !in c && '\n' !in d && '|' in d
    requires !AllSpace(a) && !AllSpace(b) && !AllSpace(c)
    requires parseTimestamp(Trim(a)).Some?
    ensures ParseLogLine(a + "|" + b + "|" + c + "|" + d, parseTimestamp)
            == Some(LogEntry(parseTimestamp(Trim(a)).value, Trim(b), Trim(c), Unknown))
  {
    TrimKeepsNonSpace(d, '|');
    PipeMeansUnknown(Trim(d));
    ParseFourFields(a, b, c, d, parseTimestamp);
  }

  /** The documented sample line, the timestamp read by `parseTimestamp`. */
  lemma SampleLine(parseTimestamp: string -> Option<int>, t: int)
    requires parseTimestamp("2026-01-10 08:45:12") == Some(t)
    ensures ParseLogLine("2026-01-10 08:45:12 " + "|" + " jdoe " + "|" + " 192.168.1.10 " + "|" + " FAILED", parseTimestamp)
            == Some(LogEntry(t, "jdoe", "192.168.1.10", Failed))
  {
    var a := "2026-01-10 08:45:12 ";
    var b := " jdoe ";
    var c := " 192.168.1.10 ";
    var d := " FAILED";
    SampleFields();
    ParseFourFields(a, b, c, d, parseTimestamp);
  }

  /** The fields of the sample line, trimmed and read. */
  lemma SampleFields()
    ensures Trim("2026-01-10 08:45:12 ") == "2026-01-10 08:45:12"
    ensures Trim(" jdoe ") == "jdoe"
    ensures Trim(" 192.168.1.10 ") == "192.168.1.10"
    ensures Trim(" FAILED") == "FAILED"
    ensures ParseStatus("FAILED") == Failed
  {
    SampleTimestamp();
    SampleUser();
    SampleAddress();
    SampleStatus();
  }

  lemma SampleTimestamp()
    ensures Trim("2026-01-10 08:45:12 ") == "2026-01-10 08:45:12"
  {
    TrimRight("2026-01-10 08:45:12");
  }

  lemma SampleUser()
    ensures Trim(" jdoe ") == "jdoe"
  {
    TrimBoth("jdoe");
  }

  lemma SampleAddress()
    ensures Trim(" 192.168.1.10 ") == "192.168.1.10"
  {
    TrimBoth("192.168.1.10");
  }

  lemma SampleStatus()
    ensures Trim(" FAILED") == "FAILED"
    ensures ParseStatus("FAILED") == Failed
  {
    TrimLeft("FAILED");
  }

  lemma TrimBoth(core: string)
    requires |core| > 0 && !IsSpace(core[0]) && !IsSpace(core[|core| - 1])
    ensures Trim(" " + core + " ") == core
  {
    TrimPadded(" ", core, " ");
  }

  lemma TrimLeft(core: string)
    requires |core| > 0 && !IsSpace(core[0]) && !IsSpace(core[|core| - 1])
    ensures Trim(" " + core) == core
  {
    TrimPadded(" ", core, []);
    assert " " + core + [] == " " + core;
  }

  lemma TrimRight(core: string)
    requires |core| > 0 && !IsSpace(core[0]) && !IsSpace(core[|core| - 1])
    ensures Trim(core + " ") == core
  {
    TrimPadded([], core, " ");
    assert [] + core + " " == core + " ";
  }
}
