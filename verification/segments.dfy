/**
  Splitting and joining strings around a one-character separator, as Go's
  `strings.Split` and `strings.Join` do when the separator is a single
  character. The notifier uses them to strip tags and digests from an image
  reference, to take the last path segment of a repository name, and (through
  `fmt.Sprintf`) to build `/`-separated MQTT topics.
 */
module Segments {

  /** Number of occurrences of `c` in `s`. */
  function Count(s: string, c: char): nat
    decreases |s|
  {
    if s == [] then 0 else (if s[0] == c then 1 else 0) + Count(s[1..], c)
  }

  /** The parts glued back together with `sep` between consecutive parts. */
  function Join(parts: seq<string>, sep: char): (r: string)
    requires |parts| >= 1
    ensures parts[0] <= r
    ensures |parts| == 1 ==> r == parts[0]
    ensures |parts| > 1 ==> |r| > |parts[0]| && r[|parts[0]|] == sep
    decreases |parts|
  {
    if |parts| == 1 then parts[0]
    else
      parts[0] + [sep] + Join(parts[1..], sep)
  }

  /**
    Go's `strings.Split(s, string(sep))`: the maximal runs of `s` between
    separators, so there is always one more part than there are separators,
    and `Split("", sep)` is `[""]`.
   */
  function Split(s: string, sep: char): (parts: seq<string>)
    ensures |parts| == Count(s, sep) + 1
    ensures forall i :: 0 <= i < |parts| ==> sep !in parts[i]
    ensures Join(parts, sep) == s
    decreases |s|
  {
    if s == [] then [[]]
    else
      var rest := Split(s[1..], sep);
      if s[0] == sep then
        var parts := [[]] + rest;
        assert parts[1..] == rest;
        assert s == [] + [sep] + s[1..];
        parts
      else
        var parts := [[s[0]] + rest[0]] + rest[1..];
        assert s == [s[0]] + s[1..];
        if |rest| == 1 then
          parts
        else
          assert parts[1..] == rest[1..];
          assert Join(rest, sep) == rest[0] + [sep] + Join(rest[1..], sep);
          parts
  }

  /** The first element of `Split(s, sep)`: everything before the first `sep`. */
  function Head(s: string, sep: char): (r: string)
    ensures r <= s
    ensures sep !in r
    ensures |r| < |s| ==> s[|r|] == sep
  {
    Split(s, sep)[0]
  }

  /** The last element of `Split(s, sep)`: everything after the last `sep`. */
  function Last(s: string, sep: char): (r: string)
    ensures |r| <= |s| && s[|s| - |r|..] == r
    ensures sep !in r
    ensures |r| < |s| ==> s[|s| - |r| - 1] == sep
  {
    var parts := Split(s, sep);
    JoinLast(parts, sep);
    parts[|parts| - 1]
  }

  /** The last part closes the joined string, preceded by a separator when there are several parts. */
  lemma {:induction false} JoinLast(parts: seq<string>, sep: char)
    requires |parts| >= 1
    ensures |parts[|parts| - 1]| <= |Join(parts, sep)|
    ensures Join(parts, sep)[|Join(parts, sep)| - |parts[|parts| - 1]|..] == parts[|parts| - 1]
    ensures |parts| > 1 ==> |Join(parts, sep)| > |parts[|parts| - 1]|
    ensures |parts| > 1 ==> Join(parts, sep)[|Join(parts, sep)| - |parts[|parts| - 1]| - 1] == sep
    decreases |parts|
  {
    if |parts| > 1 {
      var l := parts[|parts| - 1];
      var tail := parts[1..];
      assert tail[|tail| - 1] == l;
      JoinLast(tail, sep);
      var j := Join(tail, sep);
      var r := Join(parts, sep);
      assert r == parts[0] + [sep] + j;
      assert r[|r| - |l|..] == j[|j| - |l|..];
      if |tail| == 1 {
        assert r[|r| - |l| - 1] == sep;
      } else {
        assert r[|r| - |l| - 1] == j[|j| - |l| - 1];
      }
    }
  }

  /** Splitting `p + s` when `p` holds no separator only lengthens the first part. */
  lemma {:induction false} SplitPrepend(p: string, s: string, sep: char)
    requires sep !in p
    ensures Split(p + s, sep) == [p + Split(s, sep)[0]] + Split(s, sep)[1..]
    decreases |p|
  {
    if p != [] {
      var ps := p + s;
      assert ps[0] == p[0] != sep;
      assert ps[1..] == p[1..] + s;
      SplitPrepend(p[1..], s, sep);
      var rest := Split(ps[1..], sep);
      var tail := Split(s, sep);
      assert rest == [p[1..] + tail[0]] + tail[1..];
      assert Split(ps, sep) == [[p[0]] + rest[0]] + rest[1..];
      assert [p[0]] + (p[1..] + tail[0]) == p + tail[0];
      assert rest[1..] == tail[1..];
    } else {
      var tail := Split(s, sep);
      assert p + s == s;
      assert p + tail[0] == tail[0];
      assert [tail[0]] + tail[1..] == tail;
    }
  }

  /** A leading separator splits off an empty first part. */
  lemma SplitLeadingSep(s: string, sep: char)
    ensures Split([sep] + s, sep) == [[]] + Split(s, sep)
  {
    assert ([sep] + s)[1..] == s;
  }

  /** Joining parts that hold no separator and splitting again gives the parts back. */
  lemma {:induction false} SplitJoin(parts: seq<string>, sep: char)
    requires |parts| >= 1
    requires forall i :: 0 <= i < |parts| ==> sep !in parts[i]
    ensures Split(Join(parts, sep), sep) == parts
    decreases |parts|
  {
    var first := parts[0];
    assert sep !in first;
    if |parts| == 1 {
      SplitPrepend(first, [], sep);
      assert first + [] == first;
    } else {
      var tail := parts[1..];
      var rest := Join(tail, sep);
      assert Join(parts, sep) == first + ([sep] + rest) by {
        assert first + [sep] + rest == first + ([sep] + rest);
      }
      assert Split([sep] + rest, sep) == [[]] + tail by {
        SplitJoin(tail, sep);
        SplitLeadingSep(rest, sep);
      }
      assert Split(first + ([sep] + rest), sep) == [first] + tail by {
        SplitPrepend(first, [sep] + rest, sep);
        var t: seq<string> := [[]] + tail;
        assert t[0] == [] && t[1..] == tail;
        assert first + [] == first;
      }
      assert [first] + tail == parts;
    }
  }

  /** `Head` is the longest prefix free of the separator: nothing else has its three properties. */
  lemma HeadUnique(s: string, sep: char, q: string)
    requires q <= s && sep !in q
    requires |q| < |s| ==> s[|q|] == sep
    ensures q == Head(s, sep)
  {
  }

  /** `Last` is the longest suffix free of the separator. */
  lemma LastUnique(s: string, sep: char, q: string)
    requires |q| <= |s| && s[|s| - |q|..] == q && sep !in q
    requires |q| < |s| ==> s[|s| - |q| - 1] == sep
    ensures q == Last(s, sep)
  {
  }
}
