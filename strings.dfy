/**
 * The Python string operations the launcher relies on: `startswith`,
 * `endswith`, the `in` operator, `str.replace` (replace all occurrences),
 * and `str.split` / `str.join`, which serve as an independent reference
 * definition for `str.replace`.
 */
module Strings {
  import opened Wrappers

  /** Python's `s.startswith(prefix)`. */
  predicate StartsWith(s: string, prefix: string) {
    |prefix| <= |s| && s[..|prefix|] == prefix
  }

  /** A string starting with `a + b` starts with `a`. */
  lemma StartsWithPrefix(s: string, a: string, b: string)
    ensures StartsWith(s, a + b) ==> StartsWith(s, a)
  {
    if StartsWith(s, a + b) {
      assert s[..|a|] == s[..|a + b|][..|a|];
    }
  }

  /** Python's `s.endswith(suffix)`; true for the empty suffix. */
  predicate EndsWith(s: string, suffix: string) {
    |suffix| <= |s| && s[|s| - |suffix|..] == suffix
  }

  /** `pat` occurs in `s` starting at index `i`. */
  predicate OccursAt(s: string, pat: string, i: int) {
    0 <= i && i + |pat| <= |s| && s[i..i + |pat|] == pat
  }

  /** Python's `pat in s`. */
  predicate Contains(s: string, pat: string) {
    exists i :: 0 <= i <= |s| - |pat| && OccursAt(s, pat, i)
  }

  lemma OccursShift(s: string, pat: string)
    requires |s| > 0
    ensures forall j :: 1 <= j ==> (OccursAt(s, pat, j) <==> OccursAt(s[1..], pat, j - 1))
    ensures forall i :: 0 <= i ==> (OccursAt(s[1..], pat, i) <==> OccursAt(s, pat, i + 1))
  {
    forall i | 0 <= i && i + |pat| <= |s| - 1
      ensures OccursAt(s[1..], pat, i) == OccursAt(s, pat, i + 1)
    {
      assert s[1..][i..i + |pat|] == s[i + 1..i + 1 + |pat|];
    }
  }

  /** Python's `s.find(pat)`, with `None` for -1: the first occurrence. */
  function IndexOf(s: string, pat: string): (r: Option<nat>)
    requires pat != ""
    ensures r.Some? ==> OccursAt(s, pat, r.value)
    ensures r.Some? ==> forall j :: 0 <= j < r.value ==> !OccursAt(s, pat, j)
    ensures r.None? <==> !Contains(s, pat)
    decreases |s|
  {
    if |s| < |pat| then None
    else if s[..|pat|] == pat then assert OccursAt(s, pat, 0); Some(0)
    else
      OccursShift(s, pat);
      assert !OccursAt(s, pat, 0);
      match IndexOf(s[1..], pat)
      case Some(i) => Some(i + 1)
      case None => None
  }

  /**
   * Python's `s.replace(target, replacement)`: every non-overlapping
   * occurrence of `target`, scanning left to right, is replaced.
   */
  function ReplaceAll(s: string, target: string, replacement: string): (r: string)
    requires target != ""
    ensures !Contains(s, target) ==> r == s
    decreases |s|
  {
    if |s| < |target| then s
    else if s[..|target|] == target then
      assert OccursAt(s, target, 0);
      replacement + ReplaceAll(s[|target|..], target, replacement)
    else
      OccursShift(s, target);
      [s[0]] + ReplaceAll(s[1..], target, replacement)
  }

  /** Python's `s.split(sep)` for a non-empty separator. */
  function Split(s: string, sep: string): (parts: seq<string>)
    requires sep != ""
    ensures |parts| >= 1
    decreases |s|
  {
    match IndexOf(s, sep)
    case None => [s]
    case Some(i) => [s[..i]] + Split(s[i + |sep|..], sep)
  }

  /** Python's `sep.join(parts)`. */
  function Join(parts: seq<string>, sep: string): string {
    if parts == [] then ""
    else if |parts| == 1 then parts[0]
    else parts[0] + sep + Join(parts[1..], sep)
  }

  /** One step of `split`: the first part ends at the first occurrence of `sep`. */
  lemma SplitAtFirst(s: string, sep: string, i: nat)
    requires sep != "" && IndexOf(s, sep) == Some(i)
    ensures i + |sep| <= |s|
    ensures Split(s, sep) == [s[..i]] + Split(s[i + |sep|..], sep)
  {
    assert OccursAt(s, sep, i);
    var rest := s[i + |sep|..];
    assert Split(s, sep) == [s[..i]] + Split(rest, sep);
  }

  /** Without an occurrence of `sep`, `split` gives the whole string. */
  lemma SplitNone(s: string, sep: string)
    requires sep != "" && IndexOf(s, sep).None?
    ensures Split(s, sep) == [s]
  {
  }

  /** Searching a string that does not start with `pat` is searching its tail, one position further on. */
  lemma IndexOfTail(s: string, pat: string)
    requires pat != "" && |s| > 0 && !StartsWith(s, pat)
    ensures IndexOf(s[1..], pat).None? ==> IndexOf(s, pat).None?
    ensures IndexOf(s[1..], pat).Some? ==> IndexOf(s, pat) == Some(IndexOf(s[1..], pat).value + 1)
  {
    if |s| < |pat| {
      assert IndexOf(s[1..], pat).None?;
    }
  }

  /** Splitting a string that does not start with `sep` moves its first character into the first part. */
  lemma SplitCons(s: string, sep: string)
    requires sep != "" && |s| > 0 && !StartsWith(s, sep)
    ensures Split(s, sep) == [[s[0]] + Split(s[1..], sep)[0]] + Split(s[1..], sep)[1..]
  {
    IndexOfTail(s, sep);
    var t := s[1..];
    assert s == [s[0]] + t;
    if IndexOf(t, sep).None? {
      SplitNone(s, sep);
      SplitNone(t, sep);
    } else {
      var i := IndexOf(t, sep).value;
      SplitAtFirst(s, sep, i + 1);
      SplitAtFirst(t, sep, i);
      assert t[i + |sep|..] == s[i + 1 + |sep|..];
      assert s[..i + 1] == [s[0]] + t[..i];
    }
  }

  lemma JoinCons(c: char, first: string, rest: seq<string>, sep: string)
    ensures Join([[c] + first] + rest, sep) == [c] + Join([first] + rest, sep)
  {
    if rest != [] {
      assert ([[c] + first] + rest)[1..] == rest;
      assert ([first] + rest)[1..] == rest;
    }
  }

  /** `s.replace(t, u) == u.join(s.split(t))`: replacing is splitting and re-joining. */
  lemma {:induction false} ReplaceAllIsSplitJoin(s: string, target: string, replacement: string)
    requires target != ""
    ensures ReplaceAll(s, target, replacement) == Join(Split(s, target), replacement)
    decreases |s|
  {
    if |s| < |target| {
      assert !OccursAt(s, target, 0);
      assert IndexOf(s, target).None?;
    } else if s[..|target|] == target {
      assert OccursAt(s, target, 0);
      assert IndexOf(s, target) == Some(0);
      ReplaceAllIsSplitJoin(s[|target|..], target, replacement);
      var rest := Split(s[|target|..], target);
      assert Split(s, target) == [""] + rest;
      assert ([""] + rest)[1..] == rest;
    } else {
      ReplaceAllIsSplitJoin(s[1..], target, replacement);
      SplitCons(s, target);
      var parts := Split(s[1..], target);
      JoinCons(s[0], parts[0], parts[1..], replacement);
      assert [parts[0]] + parts[1..] == parts;
    }
  }

  /** Replacing a string by itself changes nothing. */
  lemma {:induction false} ReplaceAllSelf(s: string, target: string)
    requires target != ""
    ensures ReplaceAll(s, target, target) == s
    decreases |s|
  {
    if |s| < |target| {
    } else if s[..|target|] == target {
      ReplaceAllSelf(s[|target|..], target);
      assert s == s[..|target|] + s[|target|..];
    } else {
      ReplaceAllSelf(s[1..], target);
      assert s == [s[0]] + s[1..];
    }
  }
}
