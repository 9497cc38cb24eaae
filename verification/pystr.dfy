/**
 The handful of Python `str` methods the filesystem relies on, over
 `string == seq<char>`: `startswith`, `endswith`, `split` with and without
 `maxsplit`, `rsplit(sep, 1)`, `replace` of one character, `lower` and
 `count`.  Separators are single characters except in `AfterLeading`, which
 models splitting on a longer separator.
 */
module PyStr {
  import opened Types

  predicate StartsWith(s: string, prefix: string) {
    |prefix| <= |s| && s[..|prefix|] == prefix
  }

  predicate EndsWith(s: string, suffix: string) {
    |suffix| <= |s| && s[|s| - |suffix|..] == suffix
  }

  /** Index of the first `c` in `s` (`s.find(c)`, with `None` for -1). */
  function Find(s: string, c: char): (r: Option<nat>)
    ensures r.None? <==> c !in s
    ensures r.Some? ==> r.value < |s| && s[r.value] == c && c !in s[..r.value]
  {
    if |s| == 0 then None
    else if s[0] == c then Some(0)
    else match Find(s[1..], c)
      case None => None
      case Some(i) =>
        assert s[1..][..i] == s[1..i + 1];
        assert s[..i + 1] == [s[0]] + s[1..i + 1];
        Some(i + 1)
  }

  /** Index of the last `c` in `s` (`s.rfind(c)`). */
  function RFind(s: string, c: char): (r: Option<nat>)
    ensures r.None? <==> c !in s
    ensures r.Some? ==> r.value < |s| && s[r.value] == c && c !in s[r.value + 1..]
  {
    if |s| == 0 then None
    else if s[|s| - 1] == c then Some(|s| - 1)
    else
      var init := s[..|s| - 1];
      assert s == init + [s[|s| - 1]];
      match RFind(init, c)
      case None => None
      case Some(i) =>
        assert s[i + 1..] == init[i + 1..] + [s[|s| - 1]];
        Some(i)
  }

  /** `sep.join(parts)` for a one-character separator. */
  function Join(parts: seq<string>, sep: char): string {
    if |parts| == 0 then ""
    else if |parts| == 1 then parts[0]
    else parts[0] + [sep] + Join(parts[1..], sep)
  }

  /** Joining a piece onto a non-empty list puts one separator between them. */
  lemma JoinCons(a: string, rest: seq<string>, sep: char)
    requires |rest| >= 1
    ensures Join([a] + rest, sep) == a + [sep] + Join(rest, sep)
  {
    assert ([a] + rest)[1..] == rest;
  }

  /** Cutting `s` at a separator at index `i` and joining the pieces back gives `s`. */
  lemma CutAt(s: string, i: nat, rest: seq<string>, sep: char)
    requires i < |s| && s[i] == sep
    requires |rest| >= 1 && Join(rest, sep) == s[i + 1..]
    ensures Join([s[..i]] + rest, sep) == s
  {
    JoinCons(s[..i], rest, sep);
    assert s == s[..i] + [sep] + s[i + 1..];
  }

  /** `s.split(sep)`: every piece, in order; never empty. */
  function Split(s: string, sep: char): (r: seq<string>)
    ensures |r| >= 1
    ensures forall i :: 0 <= i < |r| ==> sep !in r[i]
    ensures Join(r, sep) == s
    decreases |s|
  {
    match Find(s, sep)
    case None => [s]
    case Some(i) =>
      var rest := Split(s[i + 1..], sep);
      CutAt(s, i, rest, sep);
      [s[..i]] + rest
  }

  /** `s.split(sep, maxsplit)`: at most `maxsplit` cuts, the tail kept whole. */
  function SplitN(s: string, sep: char, maxsplit: nat): (r: seq<string>)
    ensures 1 <= |r| <= maxsplit + 1
    ensures forall i :: 0 <= i < |r| - 1 ==> sep !in r[i]
    ensures |r| <= maxsplit ==> sep !in r[|r| - 1]
    ensures Join(r, sep) == s
    decreases maxsplit
  {
    if maxsplit == 0 then [s]
    else match Find(s, sep)
      case None => [s]
      case Some(i) =>
        var rest := SplitN(s[i + 1..], sep, maxsplit - 1);
        CutAt(s, i, rest, sep);
        var r := [s[..i]] + rest;
        assert r[0] == s[..i] && r[1..] == rest;
        assert r[|rest|] == rest[|rest| - 1];
        r
  }

  /** `s.rsplit(sep, 1)`: one cut at the last separator, if any. */
  function RSplitOnce(s: string, sep: char): (r: seq<string>)
    ensures 1 <= |r| <= 2
    ensures |r| == 1 <==> sep !in s
    ensures |r| == 1 ==> r[0] == s
    ensures |r| == 2 ==> s == r[0] + [sep] + r[1] && sep !in r[1]
  {
    match RFind(s, sep)
    case None => [s]
    case Some(j) =>
      assert s == s[..j] + [sep] + s[j + 1..];
      [s[..j], s[j + 1..]]
  }

  /** `s.split(sep)[0]`: the text before the first `sep`, or all of `s`. */
  function Before(s: string, sep: char): (r: string)
    ensures StartsWith(s, r) && sep !in r
    ensures |r| < |s| ==> s[|r|] == sep
  {
    match Find(s, sep)
    case None => s
    case Some(i) => s[..i]
  }

  /** The text before the first `sep` is whatever precedes a separator it does not contain. */
  lemma BeforeFirst(s: string, a: string, b: string, sep: char)
    requires s == a + [sep] + b && sep !in a
    ensures Before(s, sep) == a
  {
    assert s[|a|] == sep;
    assert s[..|a|] == a;
  }

  /** The first `sep` of `a + [sep] + b`, when `a` has none, is the one after `a`. */
  lemma FindAfter(a: string, b: string, sep: char)
    requires sep !in a
    ensures Find(a + [sep] + b, sep) == Some(|a|)
  {
    var s := a + [sep] + b;
    assert s[|a|] == sep;
    assert s[..|a|] == a;
  }

  /** Splitting `a + [sep] + b` cuts off `a` first, when `a` has no `sep`. */
  lemma SplitNAfter(a: string, b: string, sep: char, maxsplit: nat)
    requires sep !in a && maxsplit >= 1
    ensures SplitN(a + [sep] + b, sep, maxsplit) == [a] + SplitN(b, sep, maxsplit - 1)
  {
    var s := a + [sep] + b;
    FindAfter(a, b, sep);
    assert s[..|a|] == a && s[|a| + 1..] == b;
  }

  /** The last `sep` of `a + [sep] + b`, when `b` has none, is the one before `b`. */
  lemma RSplitAfterLast(a: string, b: string, sep: char)
    requires sep !in b
    ensures RSplitOnce(a + [sep] + b, sep) == [a, b]
  {
    var s := a + [sep] + b;
    assert s[|a|] == sep;
    assert s[|a| + 1..] == b;
    assert s[..|a|] == a;
  }

  /** `s.split(sep, 1)` cuts at the first `sep` exactly when there is one. */
  lemma SplitOnceAtFirst(s: string, sep: char)
    ensures |SplitN(s, sep, 1)| == 2 <==> sep in s
    ensures SplitN(s, sep, 1)[0] == Before(s, sep)
  {
    var r := SplitN(s, sep, 1);
    if |r| == 2 {
      assert s == r[0] + [sep] + r[1];
      BeforeFirst(s, r[0], r[1], sep);
    } else {
      assert r[0] == s;
    }
  }

  /** `pat` occurs in `s` starting at index `k`. */
  predicate OccursAt(s: string, pat: string, k: int) {
    0 <= k && k + |pat| <= |s| && s[k..k + |pat|] == pat
  }

  /** Index of the first occurrence of a non-empty `pat` in `s` (`s.find(pat)`). */
  function FindSub(s: string, pat: string): (r: Option<nat>)
    requires |pat| > 0
    ensures r.Some? ==> OccursAt(s, pat, r.value)
    ensures r.Some? ==> forall k :: 0 <= k < r.value ==> !OccursAt(s, pat, k)
    ensures r.None? ==> forall k :: !OccursAt(s, pat, k)
    decreases |s|
  {
    if |s| < |pat| then None
    else if s[..|pat|] == pat then Some(0)
    else
      assert !OccursAt(s, pat, 0);
      assert forall k :: OccursAt(s, pat, k) && k >= 1 ==> OccursAt(s[1..], pat, k - 1) by {
        forall k | OccursAt(s, pat, k) && k >= 1
          ensures OccursAt(s[1..], pat, k - 1)
        {
          var shifted, direct := s[1..][k - 1..k - 1 + |pat|], s[k..k + |pat|];
          assert forall j :: 0 <= j < |pat| ==> shifted[j] == direct[j];
          assert shifted == direct;
        }
      }
      match FindSub(s[1..], pat)
      case None => None
      case Some(i) =>
        assert s[i + 1..i + 1 + |pat|] == s[1..][i..i + |pat|];
        Some(i + 1)
  }

  /**
   `s.split(pat)[1]` when `s` starts with `pat`: the text after that first
   occurrence, up to the next occurrence of `pat` or the end.
   */
  function AfterLeading(s: string, pat: string): (r: string)
    requires |pat| > 0 && StartsWith(s, pat)
    ensures StartsWith(s[|pat|..], r)
    ensures forall k :: 0 <= k < |r| ==> !OccursAt(r, pat, k)
    ensures |pat| + |r| < |s| ==> OccursAt(s, pat, |pat| + |r|)
  {
    var rest := s[|pat|..];
    match FindSub(rest, pat)
    case None => rest
    case Some(i) =>
      assert forall k :: 0 <= k < i && OccursAt(rest[..i], pat, k) ==> OccursAt(rest, pat, k) by {
        forall k | 0 <= k < i && OccursAt(rest[..i], pat, k)
          ensures OccursAt(rest, pat, k)
        {
          assert rest[..i][k..k + |pat|] == rest[k..k + |pat|];
        }
      }
      rest[..i]
  }

  /** `pat` does not occur in a prefix of a text it does not occur in. */
  lemma NoOccurrenceInPrefix(s: string, p: string, pat: string)
    requires StartsWith(s, p)
    requires forall k :: 0 <= k < |s| ==> !OccursAt(s, pat, k)
    ensures forall k :: 0 <= k < |p| ==> !OccursAt(p, pat, k)
  {
    forall k | 0 <= k < |p| && OccursAt(p, pat, k)
      ensures OccursAt(s, pat, k)
    {
      assert p[k..k + |pat|] == s[k..k + |pat|];
    }
  }

  /** `s.replace(old, new)` for single characters. */
  function Replace(s: string, from: char, to: char): (r: string)
    ensures |r| == |s|
    ensures forall i :: 0 <= i < |s| ==> r[i] == (if s[i] == from then to else s[i])
  {
    if |s| == 0 then "" else [if s[0] == from then to else s[0]] + Replace(s[1..], from, to)
  }

  /** ASCII `lower()`: maps 'A'..'Z' to 'a'..'z' and keeps every other character. */
  function LowerChar(c: char): char {
    if 'A' <= c <= 'Z' then (c as int + 32) as char else c
  }

  function Lower(s: string): (r: string)
    ensures |r| == |s|
    ensures forall i :: 0 <= i < |s| ==> r[i] == LowerChar(s[i])
  {
    if |s| == 0 then "" else [LowerChar(s[0])] + Lower(s[1..])
  }

  /** `s.count(c)` for a single character. */
  function Count(s: string, c: char): (n: nat)
    ensures n <= |s|
    ensures n == 0 <==> c !in s
    ensures n == |s| <==> forall i :: 0 <= i < |s| ==> s[i] == c
  {
    if |s| == 0 then 0 else (if s[0] == c then 1 else 0) + Count(s[1..], c)
  }

  /** `s[-n:]`: the last `n` characters, or all of `s` when it is shorter. */
  function LastN(s: string, n: nat): (r: string)
    ensures |r| == if |s| < n then |s| else n
    ensures EndsWith(s, r)
  {
    if |s| <= n then s else s[|s| - n..]
  }
}
