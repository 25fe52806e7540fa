/** The few Python `str` operations the converter relies on, with their
    Python semantics: `endswith`, `in`, `replace`, `split` and `join`. */
module PyStr {
  import opened Wrappers

  /** `s.endswith(suffix)` */
  predicate EndsWith(s: string, suffix: string) {
    |suffix| <= |s| && s[|s| - |suffix|..] == suffix
  }

  lemma EndsWithAppend(a: string, b: string, suffix: string)
    requires EndsWith(b, suffix)
    ensures EndsWith(a + b, suffix)
  {
    assert (a + b)[|a + b| - |suffix|..] == b[|b| - |suffix|..];
  }

  /** `pat` occurs in `s` starting at index `i`. */
  predicate OccursAt(s: string, pat: string, i: nat) {
    i + |pat| <= |s| && s[i..i + |pat|] == pat
  }

  lemma OccursAtShift(s: string, pat: string, i: nat)
    requires |s| > 0
    ensures OccursAt(s, pat, i + 1) <==> OccursAt(s[1..], pat, i)
  {
    if i + 1 + |pat| <= |s| {
      assert s[i + 1..i + 1 + |pat|] == s[1..][i..i + |pat|];
    }
  }

  /** `pat in s` */
  predicate Contains(s: string, pat: string) {
    exists i: nat :: i <= |s| && OccursAt(s, pat, i)
  }

  /** `s.replace("", rep)`: `rep` before every character and at the end. */
  function Interleave(s: string, rep: string): string {
    if s == [] then rep else rep + [s[0]] + Interleave(s[1..], rep)
  }

  /** `s.replace(pat, rep)`: every occurrence of `pat`, found left to right
      and without overlap, is replaced; the replacement is not rescanned. */
  function Replace(s: string, pat: string, rep: string): string
    decreases |s|
  {
    if pat == [] then Interleave(s, rep)
    else if |s| < |pat| then s
    else if s[..|pat|] == pat then rep + Replace(s[|pat|..], pat, rep)
    else [s[0]] + Replace(s[1..], pat, rep)
  }

  /** `s.split(sep)` for a non-empty separator (Python raises on an empty
      one): the scan that `replace` makes, cutting at each occurrence. */
  function Split(s: string, sep: string): (parts: seq<string>)
    requires sep != []
    ensures |parts| >= 1
    decreases |s|
  {
    if |s| < |sep| then [s]
    else if s[..|sep|] == sep then [[]] + Split(s[|sep|..], sep)
    else
      var parts := Split(s[1..], sep);
      [[s[0]] + parts[0]] + parts[1..]
  }

  /** `sep.join(parts)` */
  function Join(sep: string, parts: seq<string>): string {
    if parts == [] then []
    else if |parts| == 1 then parts[0]
    else parts[0] + sep + Join(sep, parts[1..])
  }

  /** `sep.join([head] + tail)` for a non-empty tail. */
  lemma JoinCons(sep: string, head: string, tail: seq<string>)
    requires |tail| >= 1
    ensures Join(sep, [head] + tail) == head + sep + Join(sep, tail)
  {
    assert ([head] + tail)[1..] == tail;
  }

  /** A character put in front of the first part comes first in the join. */
  lemma JoinHead(sep: string, c: char, parts: seq<string>)
    requires |parts| >= 1
    ensures Join(sep, [[c] + parts[0]] + parts[1..]) == [c] + Join(sep, parts)
  {
    var q := [[c] + parts[0]] + parts[1..];
    assert q[0] == [c] + parts[0] && q[1..] == parts[1..];
  }

  /** Joining what `split` cut reproduces the string. */
  lemma {:induction false} SplitJoin(s: string, sep: string)
    requires sep != []
    ensures Join(sep, Split(s, sep)) == s
    decreases |s|
  {
    if |s| < |sep| {
      assert Split(s, sep) == [s];
    } else if s[..|sep|] == sep {
      var t := s[|sep|..];
      var parts := Split(t, sep);
      assert Split(s, sep) == [[]] + parts;
      SplitJoin(t, sep);
      JoinCons(sep, [], parts);
      assert s == s[..|sep|] + t;
    } else {
      var t := s[1..];
      var parts := Split(t, sep);
      assert Split(s, sep) == [[s[0]] + parts[0]] + parts[1..];
      SplitJoin(t, sep);
      JoinHead(sep, s[0], parts);
      assert s == [s[0]] + t;
    }
  }

  /** The first piece of `s.split(sep)` is a prefix of `s`. */
  lemma {:induction false} SplitHeadPrefix(s: string, sep: string)
    requires sep != []
    ensures Split(s, sep)[0] <= s
    decreases |s|
  {
    if |s| >= |sep| && s[..|sep|] != sep {
      var t := s[1..];
      SplitHeadPrefix(t, sep);
      var p := Split(t, sep)[0];
      assert Split(s, sep)[0] == [s[0]] + p;
      assert s == [s[0]] + t;
    }
  }

  /** A character in front of a string without `pat` adds no occurrence
      unless `pat` occurs at the front. */
  lemma ConsKeepsOut(c: char, p: string, pat: string)
    requires !Contains(p, pat) && !OccursAt([c] + p, pat, 0)
    ensures !Contains([c] + p, pat)
  {
    var h := [c] + p;
    assert h[1..] == p;
    forall i: nat | 0 < i <= |h|
      ensures !OccursAt(h, pat, i)
    {
      OccursAtShift(h, pat, i - 1);
    }
  }

  /** `split` cuts at every occurrence: no piece contains the separator.
      With SplitJoin this characterises `split` without reference to how
      it scans. */
  lemma {:induction false} SplitPiecesFree(s: string, sep: string)
    requires sep != []
    ensures forall k :: 0 <= k < |Split(s, sep)| ==> !Contains(Split(s, sep)[k], sep)
    decreases |s|
  {
    var parts := Split(s, sep);
    if |s| < |sep| {
      assert parts == [s];
    } else if s[..|sep|] == sep {
      var t := s[|sep|..];
      SplitPiecesFree(t, sep);
      assert parts == [[]] + Split(t, sep);
      assert !Contains([], sep);
      forall k | 0 < k < |parts| ensures !Contains(parts[k], sep) {
        assert parts[k] == Split(t, sep)[k - 1];
      }
    } else {
      var t := s[1..];
      var rest := Split(t, sep);
      SplitPiecesFree(t, sep);
      SplitHeadPrefix(s, sep);
      var h := [s[0]] + rest[0];
      assert parts == [h] + rest[1..];
      if |sep| <= |h| {
        assert h[0..|sep|] == s[..|sep|];
      }
      ConsKeepsOut(s[0], rest[0], sep);
      forall k | 0 < k < |parts| ensures !Contains(parts[k], sep) {
        assert parts[k] == rest[k];
      }
    }
  }

  /** `s.replace(pat, rep) == rep.join(s.split(pat))`: the replacement goes
      exactly where `split` cuts. */
  lemma {:induction false} ReplaceIsSplitJoin(s: string, pat: string, rep: string)
    requires pat != []
    ensures Replace(s, pat, rep) == Join(rep, Split(s, pat))
    decreases |s|
  {
    if |s| < |pat| {
      assert Split(s, pat) == [s];
    } else if s[..|pat|] == pat {
      var t := s[|pat|..];
      var parts := Split(t, pat);
      assert Split(s, pat) == [[]] + parts;
      assert Replace(s, pat, rep) == rep + Replace(t, pat, rep);
      ReplaceIsSplitJoin(t, pat, rep);
      JoinCons(rep, [], parts);
    } else {
      var t := s[1..];
      var parts := Split(t, pat);
      assert Split(s, pat) == [[s[0]] + parts[0]] + parts[1..];
      assert Replace(s, pat, rep) == [s[0]] + Replace(t, pat, rep);
      ReplaceIsSplitJoin(t, pat, rep);
      JoinHead(rep, s[0], parts);
    }
  }

  /** Without an occurrence of `pat`, replace changes nothing. */
  lemma {:induction false} ReplaceWithoutMatch(s: string, pat: string, rep: string)
    requires pat != [] && !Contains(s, pat)
    ensures Replace(s, pat, rep) == s
    decreases |s|
  {
    if |s| >= |pat| {
      assert !OccursAt(s, pat, 0);
      assert s[0..|pat|] == s[..|pat|];
      forall i: nat
        ensures !OccursAt(s[1..], pat, i)
      {
        OccursAtShift(s, pat, i);
      }
      ReplaceWithoutMatch(s[1..], pat, rep);
    }
  }

  /** A character that cannot start `pat` is copied and the scan moves on. */
  lemma ReplaceSkipsChar(c: char, t: string, pat: string, rep: string)
    requires pat != [] && c != pat[0]
    ensures Replace([c] + t, pat, rep) == [c] + Replace(t, pat, rep)
  {
    var s := [c] + t;
    if |s| >= |pat| {
      assert s[..|pat|][0] == c;
      assert s[1..] == t;
    }
  }

  /** A stretch holding no first character of `pat` is copied unchanged,
      and the scan resumes after it as if it were not there. */
  lemma {:induction false} ReplaceAfterFree(x: string, t: string, pat: string, rep: string)
    requires pat != [] && pat[0] !in x
    ensures Replace(x + t, pat, rep) == x + Replace(t, pat, rep)
    decreases |x|
  {
    if x == [] {
      assert x + t == t;
    } else {
      assert x + t == [x[0]] + (x[1..] + t);
      ReplaceSkipsChar(x[0], x[1..] + t, pat, rep);
      ReplaceAfterFree(x[1..], t, pat, rep);
      assert x == [x[0]] + x[1..];
    }
  }

  /** A leading `pat` is replaced and the scan resumes right after it. */
  lemma ReplaceLeading(t: string, pat: string, rep: string)
    requires pat != []
    ensures Replace(pat + t, pat, rep) == rep + Replace(t, pat, rep)
  {
    var s := pat + t;
    assert s[..|pat|] == pat && s[|pat|..] == t;
  }

  /** Every occurrence is removed, not only the last: with stretches `x`
      and `y` holding no first character of `pat`, `x pat y pat` gives `x y`. */
  lemma RemoveEach(x: string, y: string, pat: string)
    requires pat != [] && pat[0] !in x && pat[0] !in y
    ensures Replace(x + pat + y + pat, pat, []) == x + y
  {
    var tail := y + pat;
    var rest := pat + tail;
    assert x + pat + y + pat == x + rest;
    ReplaceLeading([], pat, []);
    assert pat + [] == pat;
    assert Replace(pat, pat, []) == [];
    ReplaceAfterFree(y, pat, pat, []);
    assert Replace(tail, pat, []) == y;
    ReplaceLeading(tail, pat, []);
    assert Replace(rest, pat, []) == y;
    ReplaceAfterFree(x, rest, pat, []);
  }

  /** A character found neither in `s` nor in `rep` is not in the result. */
  lemma {:induction false} ReplaceKeepsOut(s: string, pat: string, rep: string, c: char)
    requires c !in s && c !in rep
    ensures c !in Replace(s, pat, rep)
    decreases |s|
  {
    if pat == [] {
      InterleaveKeepsOut(s, rep, c);
    } else if |s| < |pat| {
    } else if s[..|pat|] == pat {
      ReplaceKeepsOut(s[|pat|..], pat, rep, c);
    } else {
      ReplaceKeepsOut(s[1..], pat, rep, c);
    }
  }

  lemma {:induction false} InterleaveKeepsOut(s: string, rep: string, c: char)
    requires c !in s && c !in rep
    ensures c !in Interleave(s, rep)
    decreases |s|
  {
    if s != [] {
      InterleaveKeepsOut(s[1..], rep, c);
    }
  }
}
