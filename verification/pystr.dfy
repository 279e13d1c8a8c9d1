/** The Python string operations the core relies on, with their edge cases spelled out. */
module PyStr {

  /** `sub` occurs in `s` at index `i`. */
  predicate MatchesAt(s: string, sub: string, i: int)
  {
    0 <= i && i + |sub| <= |s| && s[i..i + |sub|] == sub
  }

  /** `sub in s` (the empty string occurs in every string). */
  ghost predicate Occurs(sub: string, s: string)
  {
    exists i :: MatchesAt(s, sub, i)
  }

  /** `s.count(sub)`: non-overlapping occurrences scanned left to right; `len(s) + 1` for an empty `sub`. */
  function Count(s: string, sub: string): (r: nat)
    ensures sub == [] ==> r == |s| + 1
    ensures sub != [] ==> r <= |s|
    decreases |s|
  {
    if sub == [] then |s| + 1
    else if |s| < |sub| then 0
    else if s[..|sub|] == sub then 1 + Count(s[|sub|..], sub)
    else Count(s[1..], sub)
  }

  /** `s.replace(pattern, replacement)`: every non-overlapping occurrence, left to right.
      With an empty pattern Python inserts the replacement before every character and at the end. */
  function ReplaceAll(s: string, pattern: string, replacement: string): (r: string)
    ensures pattern != [] && |replacement| == |pattern| ==> |r| == |s|
    decreases |s|
  {
    if pattern == [] then
      (if s == [] then replacement else replacement + [s[0]] + ReplaceAll(s[1..], pattern, replacement))
    else if |s| < |pattern| then s
    else if s[..|pattern|] == pattern then replacement + ReplaceAll(s[|pattern|..], pattern, replacement)
    else [s[0]] + ReplaceAll(s[1..], pattern, replacement)
  }

  lemma Distrib(c: int, k: int)
    ensures (c + 1) * k == c * k + k
  {
  }

  /** The counted occurrences of a non-empty pattern are disjoint, so they fit in the string. */
  lemma {:induction false} CountBound(s: string, sub: string)
    requires sub != []
    ensures Count(s, sub) * |sub| <= |s|
    decreases |s|
  {
    if |s| >= |sub| {
      if s[..|sub|] == sub {
        CountBound(s[|sub|..], sub);
        Distrib(Count(s[|sub|..], sub), |sub|);
      } else {
        CountBound(s[1..], sub);
      }
    }
  }

  /** `replace` substitutes exactly the occurrences `count` counts: each one trades the
      pattern's length for the replacement's. */
  lemma {:induction false} ReplaceAllLength(s: string, pattern: string, replacement: string)
    ensures |ReplaceAll(s, pattern, replacement)| + Count(s, pattern) * |pattern|
         == |s| + Count(s, pattern) * |replacement|
    decreases |s|
  {
    if pattern == [] {
      if s != [] {
        ReplaceAllLength(s[1..], pattern, replacement);
        Distrib(|s[1..]| + 1, |replacement|);
        assert Count(s, pattern) == Count(s[1..], pattern) + 1;
      }
    } else if |s| >= |pattern| {
      if s[..|pattern|] == pattern {
        var c := Count(s[|pattern|..], pattern);
        ReplaceAllLength(s[|pattern|..], pattern, replacement);
        Distrib(c, |pattern|);
        Distrib(c, |replacement|);
      } else {
        ReplaceAllLength(s[1..], pattern, replacement);
      }
    }
  }

  /** `s.endswith(suffix)` */
  predicate EndsWith(s: string, suffix: string)
  {
    |suffix| <= |s| && s[|s| - |suffix|..] == suffix
  }

  /** `s.startswith(prefix)` */
  predicate StartsWith(s: string, prefix: string)
  {
    |prefix| <= |s| && s[..|prefix|] == prefix
  }

  /** `s[k:]` for `k >= 0`: empty once `k` passes the end. */
  function SliceFrom(s: string, k: nat): string
  {
    if k <= |s| then s[k..] else []
  }

  /** `s[:-k]` for `k >= 0`. Python reads `-0` as `0`, so `k == 0` yields the empty string. */
  function SliceDropLast(s: string, k: nat): string
  {
    if k == 0 then [] else if k < |s| then s[..|s| - k] else []
  }

  /** `",".join(fields)` */
  function JoinCommas(fields: seq<string>): string
  {
    if |fields| == 0 then []
    else if |fields| == 1 then fields[0]
    else fields[0] + "," + JoinCommas(fields[1..])
  }

  /** `s.split(",")` */
  function SplitCommas(s: string): (r: seq<string>)
    ensures |r| >= 1
    decreases |s|
  {
    if s == [] then [[]]
    else if s[0] == ',' then [[]] + SplitCommas(s[1..])
    else
      var rest := SplitCommas(s[1..]);
      [[s[0]] + rest[0]] + rest[1..]
  }

  predicate CommaFree(s: string)
  {
    ',' !in s
  }

  /** `s.count(sub)` is positive exactly when `sub` occurs in `s`: the test in `update_variable`
      rejects precisely the files that do not contain the text being replaced. */
  lemma {:induction false} CountPositiveIff(s: string, sub: string)
    ensures Count(s, sub) > 0 <==> Occurs(sub, s)
    decreases |s|
  {
    if sub == [] {
      assert MatchesAt(s, sub, 0);
    } else if |s| < |sub| {
    } else if s[..|sub|] == sub {
      assert MatchesAt(s, sub, 0);
    } else {
      CountPositiveIff(s[1..], sub);
      if Occurs(sub, s) {
        var i :| MatchesAt(s, sub, i);
        assert i != 0;
        assert s[1..][i - 1..i - 1 + |sub|] == s[i..i + |sub|];
        assert MatchesAt(s[1..], sub, i - 1);
      }
      if Occurs(sub, s[1..]) {
        var i :| MatchesAt(s[1..], sub, i);
        assert s[1..][i..i + |sub|] == s[i + 1..i + 1 + |sub|];
        assert MatchesAt(s, sub, i + 1);
      }
    }
  }

  /** Replacing a text by itself changes nothing, for every text including the empty one. */
  lemma {:induction false} ReplaceAllIdentity(s: string, pattern: string)
    ensures ReplaceAll(s, pattern, pattern) == s
    decreases |s|
  {
    if pattern == [] {
      if s != [] {
        ReplaceAllIdentity(s[1..], pattern);
        assert [s[0]] + s[1..] == s;
      }
    } else if |s| < |pattern| {
    } else if s[..|pattern|] == pattern {
      ReplaceAllIdentity(s[|pattern|..], pattern);
      assert s[..|pattern|] + s[|pattern|..] == s;
    } else {
      ReplaceAllIdentity(s[1..], pattern);
      assert [s[0]] + s[1..] == s;
    }
  }

  /** A text without the pattern comes through `replace` untouched. */
  lemma {:induction false} ReplaceAllAbsent(s: string, pattern: string, replacement: string)
    requires pattern != []
    requires !Occurs(pattern, s)
    ensures ReplaceAll(s, pattern, replacement) == s
    decreases |s|
  {
    if |s| < |pattern| {
    } else if s[..|pattern|] == pattern {
      assert MatchesAt(s, pattern, 0);
    } else {
      forall i | 0 <= i && i + |pattern| <= |s| - 1
        ensures !MatchesAt(s[1..], pattern, i)
      {
        assert s[1..][i..i + |pattern|] == s[i + 1..i + 1 + |pattern|];
        assert !MatchesAt(s, pattern, i + 1);
      }
      ReplaceAllAbsent(s[1..], pattern, replacement);
      assert [s[0]] + s[1..] == s;
    }
  }

  lemma {:induction false} SplitCommaFree(a: string)
    requires CommaFree(a)
    ensures SplitCommas(a) == [a]
    decreases |a|
  {
    if a != [] {
      SplitCommaFree(a[1..]);
      assert [a[0]] + a[1..] == a;
    }
  }

  lemma {:induction false} SplitAfterField(a: string, b: string)
    requires CommaFree(a)
    ensures SplitCommas(a + "," + b) == [a] + SplitCommas(b)
    decreases |a|
  {
    var s := a + "," + b;
    if a == [] {
      assert s[0] == ',' && s[1..] == b;
    } else {
      assert s[0] == a[0] && a[0] != ',';
      assert s[1..] == a[1..] + "," + b;
      SplitAfterField(a[1..], b);
      assert [a[0]] + a[1..] == a;
    }
  }

  /** Splitting a comma-joined name at its commas gives back the fields: a result file name
      built from comma-free parts identifies its cell. */
  lemma {:induction false} SplitJoin(fields: seq<string>)
    requires |fields| >= 1
    requires forall i :: 0 <= i < |fields| ==> CommaFree(fields[i])
    ensures SplitCommas(JoinCommas(fields)) == fields
    decreases |fields|
  {
    if |fields| == 1 {
      SplitCommaFree(fields[0]);
    } else {
      SplitAfterField(fields[0], JoinCommas(fields[1..]));
      SplitJoin(fields[1..]);
      assert [fields[0]] + fields[1..] == fields;
    }
  }

  /** Distinct comma-free field lists never share a joined name. */
  lemma JoinInjective(a: seq<string>, b: seq<string>)
    requires |a| >= 1 && |b| >= 1
    requires forall i :: 0 <= i < |a| ==> CommaFree(a[i])
    requires forall i :: 0 <= i < |b| ==> CommaFree(b[i])
    requires JoinCommas(a) == JoinCommas(b)
    ensures a == b
  {
    SplitJoin(a);
    SplitJoin(b);
  }
}
