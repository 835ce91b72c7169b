/**
  The few Python string operations the channel code relies on, written out
  on `seq<char>`: `str.endswith`, `str.split(sep)` and `sep.join(parts)` for
  a one-character separator, `str.replace` of one character by another and of
  a substring by the empty string, and `str.strip()`.
 */
module Strings {

  /** `s.endswith(suffix)` */
  predicate EndsWith(s: string, suffix: string) {
    |suffix| <= |s| && s[|s| - |suffix|..] == suffix
  }

  /** `p` occurs in `s` starting at index `j`. */
  predicate OccursAt(s: string, p: string, j: int) {
    0 <= j && j + |p| <= |s| && s[j..j + |p|] == p
  }

  /** `p in s` */
  predicate Occurs(s: string, p: string) {
    exists j :: 0 <= j <= |s| && OccursAt(s, p, j)
  }

  /** `s.split(sep)`: the pieces between separators, empty pieces included. */
  function Split(s: string, sep: char): (r: seq<string>)
    ensures |r| >= 1
    ensures forall i :: 0 <= i < |r| ==> sep !in r[i]
    decreases |s|
  {
    if |s| == 0 then [""]
    else if s[0] == sep then [""] + Split(s[1..], sep)
    else
      var rest := Split(s[1..], sep);
      [[s[0]] + rest[0]] + rest[1..]
  }

  /** `sep.join(parts)` */
  function Join(parts: seq<string>, sep: char): string
    decreases |parts|
  {
    if |parts| == 0 then ""
    else if |parts| == 1 then parts[0]
    else parts[0] + [sep] + Join(parts[1..], sep)
  }

  /** Joining the pieces of a split gives back the original string. */
  lemma {:induction false} JoinSplit(s: string, sep: char)
    ensures Join(Split(s, sep), sep) == s
    decreases |s|
  {
    if |s| == 0 {
    } else if s[0] == sep {
      JoinSplit(s[1..], sep);
      assert Split(s, sep) == [""] + Split(s[1..], sep);
      assert s == [sep] + s[1..];
    } else {
      var rest := Split(s[1..], sep);
      JoinSplit(s[1..], sep);
      assert s == [s[0]] + s[1..];
      if |rest| == 1 {
        assert Split(s, sep) == [[s[0]] + rest[0]];
      } else {
        assert Split(s, sep) == [[s[0]] + rest[0]] + rest[1..];
        assert Join(rest, sep) == rest[0] + [sep] + Join(rest[1..], sep);
      }
    }
  }

  /** Splitting a join of separator-free pieces gives back the pieces. */
  lemma {:induction false} SplitJoin(parts: seq<string>, sep: char)
    requires |parts| >= 1
    requires forall i :: 0 <= i < |parts| ==> sep !in parts[i]
    ensures Split(Join(parts, sep), sep) == parts
    decreases |parts|
  {
    if |parts| == 1 {
      SplitFree(parts[0], sep);
    } else {
      SplitJoin(parts[1..], sep);
      SplitPrefix(parts[0], Join(parts[1..], sep), sep);
    }
  }

  /** A string without the separator splits into itself alone. */
  lemma {:induction false} SplitFree(s: string, sep: char)
    requires sep !in s
    ensures Split(s, sep) == [s]
    decreases |s|
  {
    if |s| > 0 {
      SplitFree(s[1..], sep);
      assert [s[0]] + s[1..] == s;
    }
  }

  /** Splitting `a + [sep] + b`, where `a` has no separator, gives `a` then the pieces of `b`. */
  lemma {:induction false} SplitPrefix(a: string, b: string, sep: char)
    requires sep !in a
    ensures Split(a + [sep] + b, sep) == [a] + Split(b, sep)
    decreases |a|
  {
    if |a| == 0 {
      assert a + [sep] + b == [sep] + b;
      assert ([sep] + b)[1..] == b;
    } else {
      var t := a + [sep] + b;
      assert t[0] == a[0];
      assert t[1..] == a[1..] + [sep] + b;
      SplitPrefix(a[1..], b, sep);
      assert [a[0]] + a[1..] == a;
    }
  }

  /** `s.replace(old, new)` for single characters. */
  function ReplaceChar(s: string, from: char, to: char): (r: string)
    ensures |r| == |s|
    ensures forall i :: 0 <= i < |s| ==> r[i] == (if s[i] == from then to else s[i])
  {
    seq(|s|, i requires 0 <= i < |s| => if s[i] == from then to else s[i])
  }

  /** `s.replace(pat, "")`: every occurrence of `pat`, found left to right without overlap, is dropped. */
  function RemoveAll(s: string, pat: string): string
    requires |pat| > 0
    decreases |s|
  {
    if |s| < |pat| then s
    else if s[..|pat|] == pat then RemoveAll(s[|pat|..], pat)
    else [s[0]] + RemoveAll(s[1..], pat)
  }

  /** An occurrence in `s[d..]` is an occurrence in `s`, `d` places further on. */
  lemma OccursAtDrop(s: string, pat: string, d: int, j: int)
    requires 0 <= d <= |s| && 0 <= j
    ensures OccursAt(s[d..], pat, j) <==> OccursAt(s, pat, j + d)
  {
    if j + |pat| <= |s| - d {
      assert s[d..][j..j + |pat|] == s[j + d..j + d + |pat|];
    }
  }

  /** Dropping a prefix of `a` keeps the pattern from straddling the border with `b`. */
  lemma NoStraddleDrop(a: string, b: string, pat: string, d: int)
    requires 0 < d <= |a|
    requires forall j :: 0 <= j < |a| && |a| < j + |pat| ==> !OccursAt(a + b, pat, j)
    ensures forall j :: 0 <= j < |a| - d && |a| - d < j + |pat| ==> !OccursAt(a[d..] + b, pat, j)
  {
    assert (a + b)[d..] == a[d..] + b;
    forall j | 0 <= j < |a| - d && |a| - d < j + |pat| ensures !OccursAt(a[d..] + b, pat, j) {
      OccursAtDrop(a + b, pat, d, j);
    }
  }

  /** Removal works on two parts separately when no occurrence of the pattern straddles them. */
  lemma {:induction false} RemoveAllSplit(a: string, b: string, pat: string)
    requires |pat| > 0
    requires forall j :: 0 <= j < |a| && |a| < j + |pat| ==> !OccursAt(a + b, pat, j)
    ensures RemoveAll(a + b, pat) == RemoveAll(a, pat) + RemoveAll(b, pat)
    decreases |a|
  {
    if |a| == 0 {
      assert a + b == b;
    } else if |a + b| < |pat| {
    } else if |a| < |pat| {
      assert !OccursAt(a + b, pat, 0);
      assert (a + b)[1..] == a[1..] + b;
      NoStraddleDrop(a, b, pat, 1);
      RemoveAllSplit(a[1..], b, pat);
      assert RemoveAll(a[1..], pat) == a[1..];
      assert [a[0]] + a[1..] == a;
    } else {
      assert (a + b)[..|pat|] == a[..|pat|];
      if a[..|pat|] == pat {
        assert (a + b)[|pat|..] == a[|pat|..] + b;
        NoStraddleDrop(a, b, pat, |pat|);
        RemoveAllSplit(a[|pat|..], b, pat);
      } else {
        assert (a + b)[1..] == a[1..] + b;
        NoStraddleDrop(a, b, pat, 1);
        RemoveAllSplit(a[1..], b, pat);
      }
    }
  }

  /** A string without the pattern has none in its tail either. */
  lemma AbsentFromTail(s: string, pat: string)
    requires |s| > 0 && !Occurs(s, pat)
    ensures !Occurs(s[1..], pat)
  {
    forall j | 0 <= j <= |s[1..]| ensures !OccursAt(s[1..], pat, j) {
      OccursAtDrop(s, pat, 1, j);
    }
  }

  /** A string without the pattern is left as it is. */
  lemma {:induction false} RemoveAllAbsent(s: string, pat: string)
    requires |pat| > 0 && !Occurs(s, pat)
    ensures RemoveAll(s, pat) == s
    decreases |s|
  {
    if |s| >= |pat| {
      assert !OccursAt(s, pat, 0);
      AbsentFromTail(s, pat);
      RemoveAllAbsent(s[1..], pat);
      assert [s[0]] + s[1..] == s;
    }
  }

  /** The characters Python's `str.isspace()` accepts, which `str.strip()` removes. */
  predicate IsSpace(c: char) {
    ('\t' <= c <= '\r') || ('\U{1c}' <= c <= ' ') || c == '\U{85}' || c == '\U{a0}'
    || c == '\U{1680}' || ('\U{2000}' <= c <= '\U{200a}') || c == '\U{2028}' || c == '\U{2029}'
    || c == '\U{202f}' || c == '\U{205f}' || c == '\U{3000}'
  }

  function StripLeft(s: string): (r: string)
    ensures |r| <= |s| && r == s[|s| - |r|..]
    ensures |r| > 0 ==> !IsSpace(r[0])
    ensures forall i :: 0 <= i < |s| - |r| ==> IsSpace(s[i])
    decreases |s|
  {
    if |s| > 0 && IsSpace(s[0]) then StripLeft(s[1..]) else s
  }

  function StripRight(s: string): (r: string)
    ensures |r| <= |s| && r == s[..|r|]
    ensures |r| > 0 ==> !IsSpace(r[|r| - 1])
    ensures forall i :: |r| <= i < |s| ==> IsSpace(s[i])
    decreases |s|
  {
    if |s| > 0 && IsSpace(s[|s| - 1]) then StripRight(s[..|s| - 1]) else s
  }

  /** `r` is `s[i..i + |r|]` and everything of `s` around it is whitespace. */
  ghost predicate StrippedAt(s: string, r: string, i: int) {
    0 <= i <= |s| - |r| && r == s[i..i + |r|]
    && (forall k :: 0 <= k < i ==> IsSpace(s[k]))
    && (forall k :: i + |r| <= k < |s| ==> IsSpace(s[k]))
  }

  /** `s.strip()`: `s` without its leading and trailing whitespace. */
  function Strip(s: string): (r: string)
    ensures |r| == 0 || (!IsSpace(r[0]) && !IsSpace(r[|r| - 1]))
    ensures exists i :: StrippedAt(s, r, i)
  {
    var t := StripRight(s);
    var r := StripLeft(t);
    StripBoth(s, t, r);
    r
  }

  /** Stripping the right end and then the left end leaves a slice of `s` padded only by whitespace. */
  lemma StripBoth(s: string, t: string, r: string)
    requires t == StripRight(s) && r == StripLeft(t)
    ensures StrippedAt(s, r, |t| - |r|)
  {
    var i := |t| - |r|;
    assert r == s[i..i + |r|] by {
      assert t == s[..|t|];
      assert r == t[i..];
    }
    forall k | 0 <= k < i ensures IsSpace(s[k]) {
      assert s[k] == t[k];
    }
  }

  /** A string that neither starts nor ends with whitespace is left alone by strip. */
  lemma StripUnpadded(s: string)
    requires |s| == 0 || (!IsSpace(s[0]) && !IsSpace(s[|s| - 1]))
    ensures Strip(s) == s
  {
  }

  /** Stripping is idempotent. */
  lemma StripIdempotent(s: string)
    ensures Strip(Strip(s)) == Strip(s)
  {
    StripUnpadded(Strip(s));
  }

  /** `s + "/" if not s.endswith("/") else s`: the URI with exactly one added trailing slash at most. */
  function WithSlash(s: string): (r: string)
    ensures EndsWith(r, "/")
    ensures r == s || r == s + "/"
    ensures EndsWith(s, "/") ==> r == s
  {
    if EndsWith(s, "/") then s else s + "/"
  }

  /** A URI and the same URI with a trailing slash normalise to the same string. */
  lemma SlashInsensitive(s: string)
    requires !EndsWith(s, "/")
    ensures WithSlash(s) == WithSlash(s + "/")
  {
  }
}
