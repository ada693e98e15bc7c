/**
 Escaping values for SQL literals and LIKE patterns (backend/validators.py), against the
 readers that undo it: the statement scanner, the decoding of a literal, and LIKE.
 */
module Escapes {
  import opened SplitSql
  import opened Wrappers

  /** `s.replace(c, with)` for a single character. */
  function Replace(s: string, c: char, with: string): string
  {
    if s == [] then "" else Replace(s[..|s| - 1], c, with) + if s[|s| - 1] == c then with else [s[|s| - 1]]
  }

  /** `v[:limit]` when a positive limit is given. */
  function Truncated(value: Option<string>, limit: Option<int>): (r: string)
    ensures value.Some? ==> r <= value.value && (limit.Some? && limit.value > 0 ==> |r| <= limit.value)
    ensures value.Some? ==> r == value.value || (limit.Some? && 0 < limit.value == |r|)
    ensures value.None? ==> r == ""
  {
    var v := if value.None? then "" else value.value;
    if limit.Some? && 0 < limit.value < |v| then v[..limit.value] else v
  }

  function SqlStr(value: Option<string>, limit: Option<int>): string
  {
    Replace(Replace(Truncated(value, limit), '\\', "\\\\"), '\'', "''")
  }

  function LikeEscape(value: Option<string>): string
  {
    Replace(Replace(Replace(Truncated(value, None), '\\', "\\\\"), '%', "\\%"), '_', "\\_")
  }

  // ---------------------------------------------------------------------------
  // One character at a time
  // ---------------------------------------------------------------------------

  function Quoted(c: char): string
  {
    if c == '\\' then "\\\\" else if c == '\'' then "''" else [c]
  }

  function Guarded(c: char): string
  {
    if c == '\\' || c == '%' || c == '_' then ['\\', c] else [c]
  }

  /** The characters of `s` from `k` on, each encoded on its own. */
  function Encode(f: char -> string, s: string, k: nat): string
    requires k <= |s|
    decreases |s| - k
  {
    if k == |s| then "" else f(s[k]) + Encode(f, s, k + 1)
  }

  lemma {:induction false} ReplaceConcat(a: string, b: string, c: char, with: string)
    ensures Replace(a + b, c, with) == Replace(a, c, with) + Replace(b, c, with)
    decreases |b|
  {
    if b == [] {
      assert a + b == a;
    } else {
      assert (a + b)[..|a + b| - 1] == a + b[..|b| - 1];
      ReplaceConcat(a, b[..|b| - 1], c, with);
    }
  }

  lemma ReplaceOne(x: char, c: char, with: string)
    ensures Replace([x], c, with) == if x == c then with else [x]
  {
    assert [x][..0] == "";
    assert "" + [x] == [x] && "" + with == with;
  }

  lemma ReplaceTwo(x: char, y: char, c: char, with: string)
    ensures Replace([x, y], c, with) == (if x == c then with else [x]) + (if y == c then with else [y])
  {
    assert [x, y] == [x] + [y];
    ReplaceConcat([x], [y], c, with);
    ReplaceOne(x, c, with);
    ReplaceOne(y, c, with);
  }

  lemma QuotingOne(c: char)
    ensures Replace(Replace([c], '\\', "\\\\"), '\'', "''") == Quoted(c)
  {
    ReplaceOne(c, '\\', "\\\\");
    ReplaceOne(c, '\'', "''");
    ReplaceTwo('\\', '\\', '\'', "''");
  }

  /** Doubling backslashes and then quotes encodes each character on its own. */
  lemma {:induction false} QuotingIsPointwise(s: string, k: nat)
    requires k <= |s|
    ensures Replace(Replace(s[k..], '\\', "\\\\"), '\'', "''") == Encode(Quoted, s, k)
    decreases |s| - k
  {
    if k < |s| {
      var c, rest := [s[k]], s[k + 1..];
      assert s[k..] == c + rest;
      ReplaceConcat(c, rest, '\\', "\\\\");
      ReplaceConcat(Replace(c, '\\', "\\\\"), Replace(rest, '\\', "\\\\"), '\'', "''");
      QuotingOne(s[k]);
      QuotingIsPointwise(s, k + 1);
    }
  }

  lemma GuardingOne(c: char)
    ensures Replace(Replace(Replace([c], '\\', "\\\\"), '%', "\\%"), '_', "\\_") == Guarded(c)
  {
    ReplaceOne(c, '\\', "\\\\");
    if c == '\\' {
      ReplaceTwo('\\', '\\', '%', "\\%");
      ReplaceTwo('\\', '\\', '_', "\\_");
    } else {
      ReplaceOne(c, '%', "\\%");
      if c == '%' {
        ReplaceTwo('\\', '%', '_', "\\_");
      } else {
        ReplaceOne(c, '_', "\\_");
      }
    }
  }

  lemma {:induction false} GuardingIsPointwise(s: string, k: nat)
    requires k <= |s|
    ensures Replace(Replace(Replace(s[k..], '\\', "\\\\"), '%', "\\%"), '_', "\\_") == Encode(Guarded, s, k)
    decreases |s| - k
  {
    if k < |s| {
      var c, rest := [s[k]], s[k + 1..];
      assert s[k..] == c + rest;
      ReplaceConcat(c, rest, '\\', "\\\\");
      var c1, r1 := Replace(c, '\\', "\\\\"), Replace(rest, '\\', "\\\\");
      ReplaceConcat(c1, r1, '%', "\\%");
      ReplaceConcat(Replace(c1, '%', "\\%"), Replace(r1, '%', "\\%"), '_', "\\_");
      GuardingOne(s[k]);
      GuardingIsPointwise(s, k + 1);
    }
  }

  lemma SqlStrIsPointwise(value: Option<string>, limit: Option<int>)
    ensures SqlStr(value, limit) == Encode(Quoted, Truncated(value, limit), 0)
  {
    var v := Truncated(value, limit);
    assert v[0..] == v;
    QuotingIsPointwise(v, 0);
  }

  lemma LikeEscapeIsPointwise(s: string)
    ensures LikeEscape(Some(s)) == Encode(Guarded, s, 0)
  {
    assert s[0..] == s;
    GuardingIsPointwise(s, 0);
  }

  // ---------------------------------------------------------------------------
  // One literal, and its value
  // ---------------------------------------------------------------------------

  /** The value of a literal's body: a backslash takes the next character, two quotes stand
      for one. */
  function Decode(body: string, i: nat): string
    requires i <= |body|
    decreases |body| - i
  {
    if i == |body| then ""
    else if body[i] == '\\' && i + 1 < |body| then Unescaped(body[i + 1]) + Decode(body, i + 2)
    else if body[i] == '\'' && i + 1 < |body| && body[i + 1] == '\'' then "'" + Decode(body, i + 2)
    else [body[i]] + Decode(body, i + 1)
  }

  /** What Spark makes of a backslash and a character. */
  function Unescaped(c: char): string
  {
    match c
    case '0' => "\0"
    case 'b' => "\U{8}"
    case 'n' => "\n"
    case 'r' => "\r"
    case 't' => "\t"
    case 'Z' => "\U{1a}"
    case '%' => "\\%"
    case '_' => "\\_"
    case _ => [c]
  }

  /** From `i` on, the text is the encoding of `s` from `k` on, and then `tail`. */
  ghost predicate Encodes(t: string, i: nat, f: char -> string, s: string, k: nat, tail: string)
    requires i <= |t| && k <= |s|
  {
    t[i..] == Encode(f, s, k) + tail
  }

  lemma EncodesHead(t: string, i: nat, f: char -> string, s: string, k: nat, tail: string)
    requires i <= |t| && k < |s| && Encodes(t, i, f, s, k, tail)
    ensures i + |f(s[k])| <= |t| && t[i..i + |f(s[k])|] == f(s[k]) && Encodes(t, i + |f(s[k])|, f, s, k + 1, tail)
  {
    var head, rest := f(s[k]), Encode(f, s, k + 1);
    assert t[i..] == head + (rest + tail);
    assert t[i..][..|head|] == head && t[i..][|head|..] == rest + tail;
  }

  lemma EncodedChars(t: string, i: nat, c: char, d: string)
    requires i + |d| <= |t| && t[i..i + |d|] == d && |d| > 0
    ensures t[i] == d[0] && (|d| == 2 ==> t[i + 1] == d[1])
  {
    assert t[i] == t[i..i + |d|][0];
    if |d| == 2 {
      assert t[i + 1] == t[i..i + |d|][1];
    }
  }

  lemma DecodeOne(t: string, i: nat, c: char)
    requires i + |Quoted(c)| <= |t| && t[i..i + |Quoted(c)|] == Quoted(c)
    ensures Decode(t, i) == [c] + Decode(t, i + |Quoted(c)|)
  {
    EncodedChars(t, i, c, Quoted(c));
  }

  lemma SliceHead(s: string, k: nat)
    requires k < |s|
    ensures s[k..] == [s[k]] + s[k + 1..]
  {
  }

  /** Decoding gives the value back. */
  lemma {:induction false} DecodeEncoded(t: string, i: nat, s: string, k: nat)
    requires i <= |t| && k <= |s| && Encodes(t, i, Quoted, s, k, "")
    ensures Decode(t, i) == s[k..]
    decreases |s| - k
  {
    if k == |s| {
      assert |t[i..]| == 0;
    } else {
      EncodesHead(t, i, Quoted, s, k, "");
      DecodeOne(t, i, s[k]);
      DecodeEncoded(t, i + |Quoted(s[k])|, s, k + 1);
      SliceHead(s, k);
    }
  }

  lemma DecodeSqlStr(value: Option<string>, limit: Option<int>)
    ensures Decode(SqlStr(value, limit), 0) == Truncated(value, limit)
  {
    var v, e := Truncated(value, limit), SqlStr(value, limit);
    SqlStrIsPointwise(value, limit);
    assert e[0..] == Encode(Quoted, v, 0) + "";
    DecodeEncoded(e, 0, v, 0);
    assert v[0..] == v;
  }

  lemma {:induction false} PassesSplit(t: string, i: nat, n: nat, m: nat, quote: Option<char>, mid: Option<char>, after: Option<char>)
    requires i <= n <= m <= |t| && Passes(t, i, n, quote, mid)
    ensures Passes(t, i, m, quote, after) <==> Passes(t, n, m, mid, after)
    decreases n - i
  {
    if i < n {
      PassesSplit(t, Next(t, i, quote).end, n, m, Next(t, i, quote).quote, mid, after);
    }
  }

  /** Inside quotes the scanner passes over an encoded value and is still inside. */
  lemma {:induction false} EncodedStaysInside(t: string, i: nat, s: string, k: nat, tail: string)
    requires i <= |t| && k <= |s| && Encodes(t, i, Quoted, s, k, tail)
    ensures |tail| <= |t| - i && t[|t| - |tail|..] == tail && Passes(t, i, |t| - |tail|, Some('\''), Some('\''))
    decreases |s| - k
  {
    if k == |s| {
      assert t[i..] == tail;
    } else {
      EncodesHead(t, i, Quoted, s, k, tail);
      EncodedChars(t, i, s[k], Quoted(s[k]));
      EncodedStaysInside(t, i + |Quoted(s[k])|, s, k + 1, tail);
    }
  }

  lemma LiteralEnds(t: string, n: nat, rest: string)
    requires n < |t| && t[n..] == "'" + rest
    ensures Passes(t, n, n + 1, Some('\''), None) <==> rest == "" || rest[0] != '\''
  {
    var tail := t[n..];
    assert tail[0] == '\'' == t[n] && |tail| == 1 + |rest|;
    if rest != "" {
      assert tail[1] == rest[0] == t[n + 1];
    }
  }

  lemma LiteralText(e: string, rest: string)
    ensures var t := "'" + e + "'" + rest;
            t[0] == '\'' && t[1..] == e + ("'" + rest) && |t| == |e| + 2 + |rest|
  {
    assert "'" + e + "'" + rest == "'" + (e + ("'" + rest));
  }

  /** A quoted value is scanned as one literal, for every value and limit, if and only if no
      further quote follows it. */
  lemma QuotedIsOneLiteral(value: Option<string>, limit: Option<int>, literal: string, rest: string)
    requires literal == "'" + SqlStr(value, limit) + "'"
    ensures Passes(literal + rest, 0, |literal|, None, None) <==> rest == "" || rest[0] != '\''
  {
    var v, e := Truncated(value, limit), SqlStr(value, limit);
    var t, tail := literal + rest, "'" + rest;
    SqlStrIsPointwise(value, limit);
    LiteralText(e, rest);
    EncodedStaysInside(t, 1, v, 0, tail);
    var n := |t| - |tail|;
    LiteralEnds(t, n, rest);
    PassesSplit(t, 1, n, n + 1, Some('\''), Some('\''), None);
  }

  // ---------------------------------------------------------------------------
  // LIKE
  // ---------------------------------------------------------------------------

  /** LIKE with backslash as its escape character. */
  predicate Like(p: string, i: nat, t: string, j: nat)
    requires i <= |p| && j <= |t|
    decreases |p| - i, |t| - j
  {
    if i == |p| then j == |t|
    else if p[i] == '%' then Like(p, i + 1, t, j) || (j < |t| && Like(p, i, t, j + 1))
    else if j == |t| then false
    else if p[i] == '_' then Like(p, i + 1, t, j + 1)
    else if p[i] == '\\' && i + 1 < |p| then p[i + 1] == t[j] && Like(p, i + 2, t, j + 1)
    else p[i] == t[j] && Like(p, i + 1, t, j + 1)
  }

  /** `s` from `k` on stands in `t` at `j`. */
  predicate StandsAt(s: string, k: nat, t: string, j: nat)
    requires k <= |s| && j <= |t|
    decreases |s| - k
  {
    k == |s| || (j < |t| && s[k] == t[j] && StandsAt(s, k + 1, t, j + 1))
  }

  predicate FoundAt(s: string, t: string, j: int)
  {
    0 <= j <= |t| - |s| && t[j..j + |s|] == s
  }

  /** `s` is a substring of `t`. */
  ghost predicate Occurs(s: string, t: string)
  {
    exists j :: FoundAt(s, t, j)
  }

  ghost predicate StandsFrom(s: string, t: string, j: nat)
  {
    exists m: nat :: j <= m <= |t| && StandsAt(s, 0, t, m)
  }

  lemma {:induction false} AnyTail(p: string, t: string, j: nat)
    requires p != [] && p[|p| - 1] == '%' && j <= |t|
    ensures Like(p, |p| - 1, t, j)
    decreases |t| - j
  {
    if j < |t| {
      AnyTail(p, t, j + 1);
    }
  }

  lemma {:induction false} GuardedMatchesItself(p: string, i: nat, s: string, k: nat, t: string, j: nat)
    requires i <= |p| && k <= |s| && j <= |t| && Encodes(p, i, Guarded, s, k, "%")
    ensures Like(p, i, t, j) <==> StandsAt(s, k, t, j)
    decreases |s| - k
  {
    if k == |s| {
      assert p[i..] == "%";
      assert i == |p| - 1 && p[i] == p[i..][0] == '%';
      AnyTail(p, t, j);
    } else {
      EncodesHead(p, i, Guarded, s, k, "%");
      EncodedChars(p, i, s[k], Guarded(s[k]));
      if j < |t| {
        GuardedMatchesItself(p, i + |Guarded(s[k])|, s, k + 1, t, j + 1);
      }
    }
  }

  lemma {:induction false} StandsIsSlice(s: string, k: nat, t: string, j: nat)
    requires k <= |s| && j <= |t|
    ensures StandsAt(s, k, t, j) <==> j + |s| - k <= |t| && t[j..j + |s| - k] == s[k..]
    decreases |s| - k
  {
    if k < |s| && j < |t| {
      StandsIsSlice(s, k + 1, t, j + 1);
      assert s[k..] == [s[k]] + s[k + 1..];
      if j + |s| - k <= |t| {
        assert t[j..j + |s| - k] == [t[j]] + t[j + 1..j + |s| - k];
      }
    }
  }

  lemma {:induction false} LeadingAny(p: string, s: string, t: string, j: nat)
    requires p == "%" + (Encode(Guarded, s, 0) + "%") && j <= |t|
    ensures Like(p, 0, t, j) <==> StandsFrom(s, t, j)
    decreases |t| - j
  {
    assert p[1..] == Encode(Guarded, s, 0) + "%";
    GuardedMatchesItself(p, 1, s, 0, t, j);
    if j < |t| {
      LeadingAny(p, s, t, j + 1);
    }
  }

  /** The pattern '%' + like_escape(s) + '%' matches exactly the texts that contain s. */
  lemma LikeMatchesSubstring(s: string, t: string)
    ensures Like("%" + LikeEscape(Some(s)) + "%", 0, t, 0) <==> Occurs(s, t)
  {
    var p := "%" + LikeEscape(Some(s)) + "%";
    LikeEscapeIsPointwise(s);
    assert p == "%" + (Encode(Guarded, s, 0) + "%");
    LeadingAny(p, s, t, 0);
    assert s[0..] == s;
    if Occurs(s, t) {
      var m: nat :| FoundAt(s, t, m);
      StandsIsSlice(s, 0, t, m);
      assert StandsFrom(s, t, 0);
    }
    if StandsFrom(s, t, 0) {
      var m: nat :| m <= |t| && StandsAt(s, 0, t, m);
      StandsIsSlice(s, 0, t, m);
      assert FoundAt(s, t, m);
    }
  }

  /** Both layers together: the literal that holds the escaped pattern decodes to it. */
  lemma LayersUnwind(s: string, t: string)
    ensures Like(Decode(SqlStr(Some("%" + LikeEscape(Some(s)) + "%"), None), 0), 0, t, 0) <==> Occurs(s, t)
  {
    DecodeSqlStr(Some("%" + LikeEscape(Some(s)) + "%"), None);
    LikeMatchesSubstring(s, t);
  }
}
