/** Splitting text on a single separator character, as Rust's `str::splitn`
    and `str::split` do it. Both the connection actor (frames, join payloads)
    and the coordinator (control instructions) parse with these. */
module Text {

  /** Position of the first occurrence of `c` in `s`. */
  function IndexOf(s: string, c: char): (i: nat)
    requires c in s
    ensures i < |s| && s[i] == c && forall j | 0 <= j < i :: s[j] != c
  {
    if s[0] == c then 0
    else
      var j := IndexOf(s[1..], c);
      assert s[1..][..j] == s[1..j + 1];
      assert s[..j + 1] == [s[0]] + s[1..][..j];
      j + 1
  }

  /** The parts put back together with `sep` between neighbours. */
  function Join(parts: seq<string>, sep: char): string
  {
    if |parts| == 0 then ""
    else if |parts| == 1 then parts[0]
    else parts[0] + [sep] + Join(parts[1..], sep)
  }

  /** No part but possibly the last holds `sep`; the last holds it only when
      the split was cut short by the limit `n`. */
  ghost predicate SeparatorFree(parts: seq<string>, sep: char, n: nat)
  {
    && (forall k | 0 <= k < |parts| - 1 :: sep !in parts[k])
    && (|parts| < n && |parts| > 0 ==> sep !in parts[|parts| - 1])
  }

  /** `s.splitn(n, sep)` collected into a vector: at most `n` parts, cut at
      the first `n - 1` occurrences of `sep`; the last part keeps the rest. */
  function SplitN(s: string, sep: char, n: nat): (parts: seq<string>)
    requires n >= 1
    ensures 1 <= |parts| <= n
    ensures Join(parts, sep) == s
    ensures SeparatorFree(parts, sep, n)
    decreases n, 1
  {
    if n == 1 || sep !in s then [s] else Cut(s, sep, n)
  }

  /** One step of `SplitN`: the text before the first `sep`, then the split
      of what follows it. */
  function Cut(s: string, sep: char, n: nat): (parts: seq<string>)
    requires n >= 2 && sep in s
    ensures 2 <= |parts| <= n
    ensures Join(parts, sep) == s
    ensures SeparatorFree(parts, sep, n)
    decreases n, 0
  {
    var i := IndexOf(s, sep);
    var rest := SplitN(s[i + 1..], sep, n - 1);
    assert s == s[..i] + [sep] + s[i + 1..];
    assert ([s[..i]] + rest)[1..] == rest;
    [s[..i]] + rest
  }

  /** `s.split(sep)` collected: cut at every occurrence of `sep`. No split
      of `s` can have more than `|s| + 1` parts, so this is `SplitN` with a
      limit that is never reached. */
  function Split(s: string, sep: char): (parts: seq<string>)
    ensures 1 <= |parts|
    ensures Join(parts, sep) == s
    ensures forall k | 0 <= k < |parts| :: sep !in parts[k]
  {
    var parts := SplitN(s, sep, |s| + 1);
    if |parts| == |s| + 1 then
      JoinLength(parts, sep);
      EmptyParts(parts, |parts| - 1);
      parts
    else
      parts
  }

  function TotalLength(parts: seq<string>): nat
  {
    if parts == [] then 0 else |parts[0]| + TotalLength(parts[1..])
  }

  lemma {:induction false} JoinLength(parts: seq<string>, sep: char)
    requires |parts| >= 1
    ensures |Join(parts, sep)| == TotalLength(parts) + |parts| - 1
  {
    if |parts| > 1 {
      JoinLength(parts[1..], sep);
    }
  }

  lemma {:induction false} EmptyParts(parts: seq<string>, k: nat)
    requires k < |parts| && TotalLength(parts) == 0
    ensures parts[k] == ""
  {
    if k > 0 {
      EmptyParts(parts[1..], k - 1);
    }
  }

  /** Splitting undoes joining: parts that carry no separator (the last one
      may, when there are `n` of them) come back out of `SplitN` unchanged. */
  lemma SplitNJoin(parts: seq<string>, sep: char, n: nat)
    requires 1 <= |parts| <= n
    requires SeparatorFree(parts, sep, n)
    ensures SplitN(Join(parts, sep), sep, n) == parts
  {
    SplitNOfJoin(Join(parts, sep), parts, sep, n);
  }

  lemma {:induction false} SplitNOfJoin(s: string, parts: seq<string>, sep: char, n: nat)
    requires 1 <= |parts| <= n
    requires SeparatorFree(parts, sep, n)
    requires Join(parts, sep) == s
    ensures SplitN(s, sep, n) == parts
    decreases n
  {
    if |parts| == 1 {
      assert n == 1 || sep !in s;
    } else {
      var rest := Join(parts[1..], sep);
      SeparatorFreeTail(parts, sep, n);
      SplitNOfJoin(rest, parts[1..], sep, n - 1);
      SplitNCons(s, sep, rest, parts, n);
    }
  }

  lemma SeparatorFreeTail(parts: seq<string>, sep: char, n: nat)
    requires 2 <= |parts| <= n
    requires SeparatorFree(parts, sep, n)
    ensures sep !in parts[0] && SeparatorFree(parts[1..], sep, n - 1)
  {
    var tail := parts[1..];
    forall k | 0 <= k < |tail| - 1 ensures sep !in tail[k] {
      assert tail[k] == parts[k + 1];
    }
  }

  /** A first part free of `sep` is cut off at the separator that follows it. */
  lemma SplitNCons(s: string, sep: char, rest: string, parts: seq<string>, n: nat)
    requires |parts| >= 2 && n >= 2
    requires s == parts[0] + [sep] + rest && sep !in parts[0]
    requires SplitN(rest, sep, n - 1) == parts[1..]
    ensures SplitN(s, sep, n) == parts
  {
    var p := parts[0];
    assert s[|p|] == sep;
    assert s[..|p|] == p;
    assert s[|p| + 1..] == rest;
    assert [p] + parts[1..] == parts;
  }

  /** `Split` undoes joining parts that carry no separator at all. */
  lemma SplitJoin(parts: seq<string>, sep: char)
    requires 1 <= |parts|
    requires forall k | 0 <= k < |parts| :: sep !in parts[k]
    ensures Split(Join(parts, sep), sep) == parts
  {
    var s := Join(parts, sep);
    JoinLength(parts, sep);
    SplitNJoin(parts, sep, |s| + 1);
  }
}
