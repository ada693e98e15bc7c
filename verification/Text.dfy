/** Python's whitespace stripping and joining of strings. */
module Text {

  /** `str.isspace` for one character. */
  predicate IsSpace(c: char)
  {
    || '\t' <= c <= '\r' || '\U{1c}' <= c <= ' ' || c == '\U{85}' || c == '\U{a0}' || c == '\U{1680}'
    || '\U{2000}' <= c <= '\U{200a}' || c == '\U{2028}' || c == '\U{2029}' || c == '\U{202f}' || c == '\U{205f}' || c == '\U{3000}'
  }

  function StripLeft(s: string): string
  {
    if s != [] && IsSpace(s[0]) then StripLeft(s[1..]) else s
  }

  function StripRight(s: string): string
  {
    if s != [] && IsSpace(s[|s| - 1]) then StripRight(s[..|s| - 1]) else s
  }

  function Strip(s: string): string
  {
    StripRight(StripLeft(s))
  }

  /** Neither end is a space. */
  predicate Trimmed(s: string)
  {
    s == [] || (!IsSpace(s[0]) && !IsSpace(s[|s| - 1]))
  }

  lemma {:induction false} StripLeftEnd(s: string)
    ensures StripLeft(s) != [] ==> !IsSpace(StripLeft(s)[0]) && StripLeft(s)[|StripLeft(s)| - 1] == s[|s| - 1]
    ensures |StripLeft(s)| <= |s|
  {
    if s != [] && IsSpace(s[0]) {
      StripLeftEnd(s[1..]);
    }
  }

  lemma {:induction false} StripRightEnd(s: string)
    ensures StripRight(s) != [] ==> !IsSpace(StripRight(s)[|StripRight(s)| - 1])
    ensures StripRight(s) <= s
  {
    if s != [] && IsSpace(s[|s| - 1]) {
      StripRightEnd(s[..|s| - 1]);
    }
  }

  lemma StripIsTrimmed(s: string)
    ensures Trimmed(Strip(s))
  {
    StripLeftEnd(s);
    StripRightEnd(StripLeft(s));
  }

  lemma TrimmedIsKept(s: string)
    requires Trimmed(s)
    ensures Strip(s) == s
  {
  }

  /** `sep.join(parts[k:])` for a one-character separator. */
  function JoinFrom(parts: seq<string>, k: nat, sep: char): string
    requires k <= |parts|
    decreases |parts| - k
  {
    if k == |parts| then "" else if k + 1 == |parts| then parts[k] else parts[k] + [sep] + JoinFrom(parts, k + 1, sep)
  }

  function Join(parts: seq<string>, sep: char): string
  {
    JoinFrom(parts, 0, sep)
  }

  /** The first `n` pieces, stripped and without the blank ones. */
  function NonBlank(out: seq<string>, n: nat): seq<string>
    requires n <= |out|
  {
    if n == 0 then [] else NonBlank(out, n - 1) + if Strip(out[n - 1]) != "" then [Strip(out[n - 1])] else []
  }

  method DropBlank(out: seq<string>) returns (statements: seq<string>)
    ensures statements == NonBlank(out, |out|)
  {
    statements := [];
    for j := 0 to |out|
      invariant statements == NonBlank(out, j)
    {
      var stripped := Strip(out[j]);
      if stripped != "" {
        statements := statements + [stripped];
      }
    }
  }

  /** From `i` on, the text is the parts from `k` on with separators between them. */
  predicate Joined(t: string, i: nat, parts: seq<string>, k: nat, sep: char)
    requires i <= |t| && k < |parts|
    decreases |parts| - k
  {
    var n := i + |parts[k]|;
    && n <= |t| && t[i..n] == parts[k]
    && (if k + 1 == |parts| then n == |t| else n < |t| && t[n] == sep && Joined(t, n + 1, parts, k + 1, sep))
  }

  lemma JoinedHead(t: string, i: nat, p: string, rest: string, sep: char)
    requires i <= |t| && t[i..] == p + [sep] + rest
    ensures i + |p| < |t| && t[i..i + |p|] == p && t[i + |p|] == sep && t[i + |p| + 1..] == rest
  {
    var tail := t[i..];
    assert tail[..|p|] == p && tail[|p|] == sep && tail[|p| + 1..] == rest;
  }

  lemma JoinedLast(t: string, i: nat, p: string)
    requires i <= |t| && t[i..] == p
    ensures i + |p| == |t| && t[i..i + |p|] == p
  {
  }

  lemma JoinUnfolds(t: string, i: nat, parts: seq<string>, k: nat, sep: char)
    requires i <= |t| && k < |parts| && t[i..] == JoinFrom(parts, k, sep)
    ensures i + |parts[k]| <= |t| && t[i..i + |parts[k]|] == parts[k]
    ensures if k + 1 == |parts| then i + |parts[k]| == |t|
            else i + |parts[k]| < |t| && t[i + |parts[k]|] == sep && t[i + |parts[k]| + 1..] == JoinFrom(parts, k + 1, sep)
  {
    var part := parts[k];
    if k + 1 < |parts| {
      JoinedHead(t, i, part, JoinFrom(parts, k + 1, sep), sep);
    } else {
      JoinedLast(t, i, part);
    }
  }

  lemma {:induction false} JoinIsJoined(t: string, i: nat, parts: seq<string>, k: nat, sep: char)
    requires i <= |t| && k < |parts| && t[i..] == JoinFrom(parts, k, sep)
    ensures Joined(t, i, parts, k, sep)
    decreases |parts| - k
  {
    JoinUnfolds(t, i, parts, k, sep);
    if k + 1 < |parts| {
      JoinIsJoined(t, i + |parts[k]| + 1, parts, k + 1, sep);
    }
  }

  lemma Reassociate(a: string, b: string, c: string)
    ensures a + (b + c) == a + b + c
  {
  }

  lemma {:induction false} JoinExtendsLast(parts: seq<string>, x: string, y: string, k: nat, sep: char)
    requires k <= |parts|
    ensures JoinFrom(parts + [x + y], k, sep) == JoinFrom(parts + [x], k, sep) + y
    decreases |parts| - k
  {
    if k < |parts| {
      JoinExtendsLast(parts, x, y, k + 1, sep);
      Reassociate(parts[k] + [sep], JoinFrom(parts + [x], k + 1, sep), y);
    }
  }

  lemma {:induction false} JoinStartsNext(parts: seq<string>, x: string, k: nat, sep: char)
    requires k <= |parts|
    ensures JoinFrom(parts + [x] + [""], k, sep) == JoinFrom(parts + [x], k, sep) + [sep]
    decreases |parts| - k
  {
    var more := parts + [x] + [""];
    if k < |parts| {
      JoinStartsNext(parts, x, k + 1, sep);
      Reassociate(parts[k] + [sep], JoinFrom(parts + [x], k + 1, sep), [sep]);
    } else {
      assert JoinFrom(more, k + 1, sep) == "";
      assert x + [sep] + "" == x + [sep];
    }
  }

  lemma {:induction false} StripLeftBound(s: string, i: nat) returns (d: nat)
    requires i < |s| && !IsSpace(s[i])
    ensures d <= i && StripLeft(s) == s[d..] && forall k | 0 <= k < d :: IsSpace(s[k])
  {
    if IsSpace(s[0]) {
      d := StripLeftBound(s[1..], i - 1);
      d := d + 1;
    } else {
      d := 0;
    }
  }

  lemma {:induction false} StripRightBound(s: string, j: nat) returns (m: nat)
    requires j < |s| && !IsSpace(s[j])
    ensures j < m <= |s| && StripRight(s) == s[..m]
  {
    if IsSpace(s[|s| - 1]) {
      m := StripRightBound(s[..|s| - 1], j);
    } else {
      m := |s|;
    }
  }

  /** Whatever stands between two characters that are not spaces is kept. */
  lemma StripKeepsInner(s: string, i: nat, k: nat, j: nat)
    requires i <= k <= j < |s| && !IsSpace(s[i]) && !IsSpace(s[j])
    ensures s[k] in Strip(s)
  {
    var d := StripLeftBound(s, i);
    var left := s[d..];
    assert left[j - d] == s[j];
    var m := StripRightBound(left, j - d);
    assert left[..m][k - d] == s[k];
  }

  lemma StripsNothing(s: string)
    requires forall k | 0 <= k < |s| :: !IsSpace(s[k])
    ensures Strip(s) == s
  {
    TrimmedIsKept(s);
  }
}
