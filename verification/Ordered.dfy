/** Ordered string collections: the lexicographic order of `std::string`
    (`std::less<std::string>`, which compares characters as unsigned values),
    a sorted duplicate-free sequence standing for `std::set<std::string>`, and
    a key-sorted association list standing for `std::map<std::string, V>`. */
module Ordered {

  /** Strict lexicographic order on strings: a proper prefix comes first,
      otherwise the first differing character decides. */
  predicate Less(a: string, b: string)
    decreases |a|
  {
    if |b| == 0 then false
    else if |a| == 0 then true
    else if a[0] != b[0] then a[0] < b[0]
    else Less(a[1..], b[1..])
  }

  lemma {:induction false} LessIrreflexive(a: string)
    ensures !Less(a, a)
    decreases |a|
  {
    if |a| > 0 {
      LessIrreflexive(a[1..]);
    }
  }

  lemma {:induction false} LessAsymmetric(a: string, b: string)
    ensures Less(a, b) ==> !Less(b, a)
    decreases |a|
  {
    if |a| > 0 && |b| > 0 && a[0] == b[0] {
      LessAsymmetric(a[1..], b[1..]);
    }
  }

  lemma {:induction false} LessTransitive(a: string, b: string, c: string)
    ensures Less(a, b) && Less(b, c) ==> Less(a, c)
    decreases |a|
  {
    if |a| > 0 && |b| > 0 && |c| > 0 && a[0] == b[0] && b[0] == c[0] {
      LessTransitive(a[1..], b[1..], c[1..]);
    }
  }

  /** Any two distinct strings are ordered one way or the other. */
  lemma {:induction false} LessTotal(a: string, b: string)
    ensures a != b ==> Less(a, b) || Less(b, a)
    decreases |a|
  {
    if |a| > 0 && |b| > 0 && a[0] == b[0] {
      LessTotal(a[1..], b[1..]);
      if a[1..] == b[1..] {
        assert a == [a[0]] + a[1..] && b == [b[0]] + b[1..];
      }
    }
  }

  /** The elements of a sequence, as a set. */
  function Elements(s: seq<string>): set<string>
  {
    set y | y in s
  }

  /** Strictly ascending, hence free of duplicates. */
  ghost predicate StrictlySorted(s: seq<string>)
  {
    forall i, j :: 0 <= i < j < |s| ==> Less(s[i], s[j])
  }

  lemma StrictlySortedDistinct(s: seq<string>)
    requires StrictlySorted(s)
    ensures |Elements(s)| == |s|
    ensures forall i, j :: 0 <= i < j < |s| ==> s[i] != s[j]
  {
    forall i, j | 0 <= i < j < |s|
      ensures s[i] != s[j]
    {
      LessIrreflexive(s[i]);
    }
    DistinctCardinality(s);
  }

  lemma {:induction false} DistinctCardinality(s: seq<string>)
    requires forall i, j :: 0 <= i < j < |s| ==> s[i] != s[j]
    ensures |Elements(s)| == |s|
  {
    if |s| > 0 {
      var t := s[1..];
      DistinctCardinality(t);
      assert Elements(s) == Elements(t) + {s[0]};
      assert s[0] !in t;
    }
  }

  /** `std::set<std::string>::insert`: adds `x` unless present, keeping the
      elements ascending. */
  function SetInsert(s: seq<string>, x: string): (r: seq<string>)
    requires StrictlySorted(s)
    ensures StrictlySorted(r)
    ensures Elements(r) == Elements(s) + {x}
    ensures |s| <= |r| <= |s| + 1
    ensures |r| == |s| <==> x in s
  {
    if |s| == 0 then [x]
    else if x == s[0] then s
    else if Less(x, s[0]) then
      InsertFrontSorted(s, x);
      assert x !in s by {
        forall k | 0 <= k < |s| ensures s[k] != x {
          if k > 0 { LessTransitive(x, s[0], s[k]); }
          LessIrreflexive(x);
        }
      }
      [x] + s
    else
      var rest := SetInsert(s[1..], x);
      SetInsertTail(s, x, rest);
      [s[0]] + rest
  }

  lemma SetInsertTail(s: seq<string>, x: string, rest: seq<string>)
    requires StrictlySorted(s) && |s| > 0 && x != s[0] && !Less(x, s[0])
    requires StrictlySorted(rest) && Elements(rest) == Elements(s[1..]) + {x}
    requires |rest| == |s| - 1 <==> x in s[1..]
    ensures StrictlySorted([s[0]] + rest)
    ensures Elements([s[0]] + rest) == Elements(s) + {x}
    ensures x in s <==> x in s[1..]
  {
    LessTotal(x, s[0]);
    assert s == [s[0]] + s[1..];
    assert Elements(s) == {s[0]} + Elements(s[1..]);
    forall i | 0 <= i < |rest| ensures Less(s[0], rest[i]) {
      assert rest[i] in Elements(rest);
      if rest[i] != x {
        assert rest[i] in Elements(s[1..]);
        var k :| 0 <= k < |s[1..]| && s[1..][k] == rest[i];
        assert s[k + 1] == rest[i];
      }
    }
    assert Elements([s[0]] + rest) == {s[0]} + Elements(rest);
  }

  lemma InsertFrontSorted(s: seq<string>, x: string)
    requires StrictlySorted(s) && |s| > 0 && Less(x, s[0])
    ensures StrictlySorted([x] + s)
  {
    forall k | 0 <= k < |s| ensures Less(x, s[k]) {
      if k > 0 { LessTransitive(x, s[0], s[k]); }
    }
  }

  /** The distinct elements of `xs` in ascending order, built by inserting
      them one after the other, first to last. */
  function SetOf(xs: seq<string>): (r: seq<string>)
    ensures StrictlySorted(r)
    ensures Elements(r) == Elements(xs)
    ensures |r| <= |xs|
  {
    if |xs| == 0 then []
    else
      var prefix := xs[..|xs| - 1];
      assert xs == prefix + [xs[|xs| - 1]];
      assert Elements(xs) == Elements(prefix) + {xs[|xs| - 1]};
      SetInsert(SetOf(prefix), xs[|xs| - 1])
  }

  /** A key-sorted association list: the model of `std::map<std::string, V>`. */
  ghost predicate KeysSorted<V>(m: seq<(string, V)>)
  {
    forall i, j :: 0 <= i < j < |m| ==> Less(m[i].0, m[j].0)
  }

  /** The keys in iteration order. */
  function Keys<V>(m: seq<(string, V)>): (r: seq<string>)
    ensures |r| == |m|
    ensures forall i :: 0 <= i < |m| ==> r[i] == m[i].0
  {
    if |m| == 0 then [] else [m[0].0] + Keys(m[1..])
  }

  /** The sequence stored under `k`, or the empty sequence that `operator[]`
      default-constructs when `k` is absent. */
  function Lookup<V>(m: seq<(string, seq<V>)>, k: string): seq<V>
  {
    if |m| == 0 then []
    else if m[0].0 == k then m[0].1
    else Lookup(m[1..], k)
  }

  /** `m[k].push_back(v)` on a `std::map<std::string, std::vector<V>>`. */
  function MapAppend<V>(m: seq<(string, seq<V>)>, k: string, v: V): (r: seq<(string, seq<V>)>)
    requires KeysSorted(m)
    ensures KeysSorted(r)
    ensures forall key :: Lookup(r, key) == if key == k then Lookup(m, k) + [v] else Lookup(m, key)
    ensures Elements(Keys(r)) == Elements(Keys(m)) + {k}
  {
    if |m| == 0 then [(k, [v])]
    else if k == m[0].0 then
      MapAppendHere(m, k, v);
      [(k, m[0].1 + [v])] + m[1..]
    else if Less(k, m[0].0) then
      MapAppendFront(m, k, v);
      [(k, [v])] + m
    else
      var rest := MapAppend(m[1..], k, v);
      MapAppendTail(m, k, v, rest);
      [m[0]] + rest
  }

  lemma KeysCons<V>(m: seq<(string, V)>)
    requires |m| > 0
    ensures Elements(Keys(m)) == {m[0].0} + Elements(Keys(m[1..]))
  {
    assert Keys(m) == [m[0].0] + Keys(m[1..]);
  }

  lemma MapAppendHere<V>(m: seq<(string, seq<V>)>, k: string, v: V)
    requires KeysSorted(m) && |m| > 0 && k == m[0].0
    ensures KeysSorted([(k, m[0].1 + [v])] + m[1..])
    ensures forall key :: Lookup([(k, m[0].1 + [v])] + m[1..], key)
                          == if key == k then Lookup(m, k) + [v] else Lookup(m, key)
    ensures Elements(Keys([(k, m[0].1 + [v])] + m[1..])) == Elements(Keys(m)) + {k}
  {
    var r := [(k, m[0].1 + [v])] + m[1..];
    assert r[1..] == m[1..];
    KeysCons(m);
    KeysCons(r);
  }

  lemma MapAppendFront<V>(m: seq<(string, seq<V>)>, k: string, v: V)
    requires KeysSorted(m) && |m| > 0 && Less(k, m[0].0)
    ensures KeysSorted([(k, [v])] + m)
    ensures forall key :: Lookup([(k, [v])] + m, key)
                          == if key == k then Lookup(m, k) + [v] else Lookup(m, key)
    ensures Elements(Keys([(k, [v])] + m)) == Elements(Keys(m)) + {k}
  {
    var r := [(k, [v])] + m;
    assert r[1..] == m;
    LookupAbsent(m, k);
    forall j | 0 <= j < |m| ensures Less(k, m[j].0) {
      if j > 0 { LessTransitive(k, m[0].0, m[j].0); }
    }
    KeysCons(r);
  }

  lemma MapAppendTail<V>(m: seq<(string, seq<V>)>, k: string, v: V, rest: seq<(string, seq<V>)>)
    requires KeysSorted(m) && |m| > 0 && k != m[0].0 && !Less(k, m[0].0)
    requires KeysSorted(rest)
    requires forall key :: Lookup(rest, key) == if key == k then Lookup(m[1..], k) + [v] else Lookup(m[1..], key)
    requires Elements(Keys(rest)) == Elements(Keys(m[1..])) + {k}
    ensures KeysSorted([m[0]] + rest)
    ensures forall key :: Lookup([m[0]] + rest, key)
                          == if key == k then Lookup(m, k) + [v] else Lookup(m, key)
    ensures Elements(Keys([m[0]] + rest)) == Elements(Keys(m)) + {k}
  {
    var r := [m[0]] + rest;
    assert r[1..] == rest;
    KeysCons(m);
    KeysCons(r);
    MapAppendTailSorted(m, k, rest);
  }

  lemma MapAppendTailSorted<V>(m: seq<(string, V)>, k: string, rest: seq<(string, V)>)
    requires KeysSorted(m) && |m| > 0 && k != m[0].0 && !Less(k, m[0].0)
    requires KeysSorted(rest)
    requires Elements(Keys(rest)) == Elements(Keys(m[1..])) + {k}
    ensures KeysSorted([m[0]] + rest)
  {
    LessTotal(k, m[0].0);
    forall i | 0 <= i < |rest| ensures Less(m[0].0, rest[i].0) {
      assert Keys(rest)[i] == rest[i].0;
      assert rest[i].0 in Elements(Keys(rest));
      if rest[i].0 != k {
        assert rest[i].0 in Elements(Keys(m[1..]));
        var j :| 0 <= j < |Keys(m[1..])| && Keys(m[1..])[j] == rest[i].0;
        assert m[j + 1].0 == rest[i].0;
      }
    }
    var r := [m[0]] + rest;
    forall i, j | 0 <= i < j < |r| ensures Less(r[i].0, r[j].0) {
      if i > 0 { assert r[i] == rest[i - 1] && r[j] == rest[j - 1]; }
    }
  }

  lemma {:induction false} LookupMissing<V>(m: seq<(string, seq<V>)>, k: string)
    requires forall j :: 0 <= j < |m| ==> m[j].0 != k
    ensures Lookup(m, k) == []
  {
    if |m| > 0 {
      LookupMissing(m[1..], k);
    }
  }

  lemma LookupAbsent<V>(m: seq<(string, seq<V>)>, k: string)
    requires KeysSorted(m) && |m| > 0 && Less(k, m[0].0)
    ensures Lookup(m, k) == []
  {
    forall j | 0 <= j < |m| ensures m[j].0 != k {
      if j > 0 { LessTransitive(k, m[0].0, m[j].0); }
      LessIrreflexive(k);
    }
    LookupMissing(m, k);
  }
}
