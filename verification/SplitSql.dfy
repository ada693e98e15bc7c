/**
 Splitting a SQL file into statements (testbed/split_sql.py): one scan that knows quotes,
 backslash escapes and comments.
 */
module SplitSql {
  import opened Text
  import opened Wrappers

  /** `text.find("\n", i)`, as the position to go on from. */
  function LineEnd(t: string, i: nat): (j: nat)
    requires i <= |t|
    ensures i <= j <= |t| && (i < |t| ==> i < j)
    decreases |t| - i
  {
    if i == |t| then |t| else if t[i] == '\n' then i + 1 else LineEnd(t, i + 1)
  }

  /** `text.find("*" "/", i)` likewise. */
  function BlockEnd(t: string, i: nat): (j: nat)
    requires i <= |t|
    ensures i <= j <= |t| && (i < |t| ==> i < j)
    decreases |t| - i
  {
    if i + 1 >= |t| then |t| else if t[i] == '*' && t[i + 1] == '/' then i + 2 else BlockEnd(t, i + 1)
  }

  /** One turn of the loop: the position it goes on from, whether it keeps what it passed,
      the quote that is open afterwards, and whether it ends the statement. */
  datatype Token = Token(end: nat, keep: bool, quote: Option<char>, ends: bool)

  predicate Followed(t: string, i: nat, c: char)
  {
    i + 1 < |t| && t[i + 1] == c
  }

  function Next(t: string, i: nat, quote: Option<char>): (k: Token)
    requires i < |t|
    ensures i < k.end <= |t|
  {
    var ch := t[i];
    match quote
    case Some(q) =>
      if ch == '\\' && q != '`' && i + 1 < |t| then Token(i + 2, true, quote, false)
      else if ch == q && q != '`' && Followed(t, i, q) then Token(i + 2, true, quote, false)
      else Token(i + 1, true, if ch == q then None else quote, false)
    case None =>
      if ch == '-' && Followed(t, i, '-') then Token(LineEnd(t, i), false, None, false)
      else if ch == '/' && Followed(t, i, '*') then Token(BlockEnd(t, i), false, None, false)
      else if ch == '\'' || ch == '"' || ch == '`' then Token(i + 1, true, Some(ch), false)
      else Token(i + 1, ch != ';', None, ch == ';')
  }

  /** The scanner's variables: the statements so far, the current one, the open quote. */
  datatype Scanner = Scanner(out: seq<string>, cur: string, quote: Option<char>)

  function Feed(t: string, i: nat, s: Scanner, k: Token): Scanner
    requires i < k.end <= |t|
  {
    if k.ends then Scanner(s.out + [s.cur], "", k.quote) else Scanner(s.out, if k.keep then s.cur + t[i..k.end] else s.cur, k.quote)
  }

  function Scan(t: string, i: nat, s: Scanner): Scanner
    requires i <= |t|
    decreases |t| - i
  {
    if i == |t| then s else var k := Next(t, i, s.quote); Scan(t, k.end, Feed(t, i, s, k))
  }

  const READY := Scanner([], "", None)

  function Pieces(s: Scanner): seq<string>
  {
    if Strip(s.cur) != "" then s.out + [s.cur] else s.out
  }

  function Statements(text: string): seq<string>
  {
    var out := Pieces(Scan(text, 0, READY));
    NonBlank(out, |out|)
  }

  method FindLineEnd(t: string, i: nat) returns (j: nat)
    requires i < |t|
    ensures j == LineEnd(t, i)
  {
    j := i;
    while j < |t| && t[j] != '\n'
      invariant i <= j <= |t| && LineEnd(t, j) == LineEnd(t, i)
    {
      j := j + 1;
    }
    if j < |t| {
      j := j + 1;
    }
  }

  method FindBlockEnd(t: string, i: nat) returns (j: nat)
    requires i < |t|
    ensures j == BlockEnd(t, i)
  {
    j := i;
    while j + 1 < |t| && !(t[j] == '*' && t[j + 1] == '/')
      invariant i <= j < |t| && BlockEnd(t, j) == BlockEnd(t, i)
    {
      j := j + 1;
    }
    j := if j + 1 < |t| then j + 2 else |t|;
  }

  /** The case analysis of the loop body. */
  method ReadToken(t: string, i: nat, quote: Option<char>) returns (k: Token)
    requires i < |t|
    ensures k == Next(t, i, quote)
  {
    var ch, nxt := t[i], if i + 1 < |t| then t[i + 1..i + 2] else "";
    assert forall c :: nxt == [c] <==> Followed(t, i, c);
    if quote.Some? {
      if ch == '\\' && quote.value != '`' && nxt != "" {
        return Token(i + 2, true, quote, false);
      }
      if ch == quote.value {
        if ch != '`' && nxt == [ch] {
          return Token(i + 2, true, quote, false);
        }
        return Token(i + 1, true, None, false);
      }
      return Token(i + 1, true, quote, false);
    }
    if ch == '-' && nxt == "-" {
      var j := FindLineEnd(t, i);
      return Token(j, false, None, false);
    }
    if ch == '/' && nxt == "*" {
      var j := FindBlockEnd(t, i);
      return Token(j, false, None, false);
    }
    if ch in {'\'', '"', '`'} {
      return Token(i + 1, true, Some(ch), false);
    }
    k := Token(i + 1, ch != ';', None, ch == ';');
  }

  method SplitStatements(text: string) returns (statements: seq<string>)
    ensures statements == Statements(text)
  {
    var out: seq<string>, cur, quote, i: nat := [], "", None, 0;
    while i < |text|
      invariant i <= |text|
      invariant Scan(text, i, Scanner(out, cur, quote)) == Scan(text, 0, READY)
    {
      var k := ReadToken(text, i, quote);
      if k.ends {
        out, cur := out + [cur], "";
      } else if k.keep {
        cur := cur + text[i..k.end];
      }
      quote, i := k.quote, k.end;
    }
    if Strip(cur) != "" {
      out := out + [cur];
    }
    statements := DropBlank(out);
  }

  // ---------------------------------------------------------------------------
  // Joining and splitting
  // ---------------------------------------------------------------------------

  predicate QuoteMark(quote: Option<char>)
  {
    quote.None? || quote.value == '\'' || quote.value == '"' || quote.value == '`'
  }

  /** The scan passes exactly over the characters from `i` to `n`, keeping them all and
      ending no statement, and takes the quote from `quote` to `after`. */
  predicate Passes(t: string, i: nat, n: nat, quote: Option<char>, after: Option<char>)
    requires i <= n <= |t|
    decreases n - i
  {
    if i == n then quote == after
    else var k := Next(t, i, quote); k.keep && k.end <= n && Passes(t, k.end, n, k.quote, after)
  }

  /** The position is followed by nothing that could extend a token. */
  predicate Boundary(t: string, n: nat)
    requires n <= |t|
  {
    n == |t| || t[n] == ';' || IsSpace(t[n])
  }

  lemma BoundaryIsNoMark(t: string, n: nat)
    requires n < |t| && Boundary(t, n)
    ensures t[n] != '\'' && t[n] != '"' && t[n] != '`' && t[n] != '-' && t[n] != '*'
  {
  }

  /** The text scanned on its own has no comment and no separator and leaves no quote open. */
  predicate Plain(s: string)
  {
    Passes(s, 0, |s|, None, None)
  }

  lemma SameNext(t: string, i: nat, n: nat, u: string, j: nat, m: nat, quote: Option<char>)
    requires i < n <= |t| && j < m <= |u| && n - i == m - j && t[i] == u[j] && (n - i > 1 ==> t[i + 1] == u[j + 1])
    requires Boundary(t, n) && Boundary(u, m) && QuoteMark(quote) && Passes(t, i, n, quote, None)
    ensures Next(u, j, quote).keep && Next(u, j, quote).quote == Next(t, i, quote).quote
    ensures Next(u, j, quote).end - j == Next(t, i, quote).end - i && QuoteMark(Next(t, i, quote).quote)
  {
    if n < |t| {
      BoundaryIsNoMark(t, n);
    }
    if m < |u| {
      BoundaryIsNoMark(u, m);
    }
  }

  lemma SameLength(t: string, i: nat, n: nat, u: string, j: nat, m: nat)
    requires i <= n <= |t| && j <= m <= |u| && t[i..n] == u[j..m]
    ensures n - i == m - j
  {
    assert |t[i..n]| == |u[j..m]|;
  }

  lemma SameChar(t: string, i: nat, n: nat, u: string, j: nat, m: nat, d: nat)
    requires i <= n <= |t| && j <= m <= |u| && t[i..n] == u[j..m] && d < n - i
    ensures j + d < m && t[i + d] == u[j + d]
  {
    SameLength(t, i, n, u, j, m);
    assert t[i + d] == t[i..n][d] == u[j..m][d] == u[j + d];
  }

  lemma SameTail(t: string, i: nat, n: nat, u: string, j: nat, m: nat, d: nat)
    requires i <= n <= |t| && j <= m <= |u| && t[i..n] == u[j..m] && d <= n - i
    ensures j + d <= m && t[i + d..n] == u[j + d..m]
  {
    SameLength(t, i, n, u, j, m);
    assert t[i + d..n] == t[i..n][d..] && u[j + d..m] == u[j..m][d..];
  }

  /** A stretch up to a boundary is passed the same way wherever it stands. */
  lemma {:induction false} PassesElsewhere(t: string, i: nat, n: nat, u: string, j: nat, m: nat, quote: Option<char>)
    requires i <= n <= |t| && j <= m <= |u| && t[i..n] == u[j..m]
    requires Boundary(t, n) && Boundary(u, m) && QuoteMark(quote) && Passes(t, i, n, quote, None)
    ensures Passes(u, j, m, quote, None)
    decreases n - i
  {
    SameLength(t, i, n, u, j, m);
    if i < n {
      SameChar(t, i, n, u, j, m, 0);
      if n - i > 1 {
        SameChar(t, i, n, u, j, m, 1);
      }
      SameNext(t, i, n, u, j, m, quote);
      var k, h := Next(t, i, quote).end, Next(u, j, quote).end;
      SameTail(t, i, n, u, j, m, k - i);
      PassesElsewhere(t, k, n, u, h, m, Next(t, i, quote).quote);
    }
  }

  /** From `i` on, `t` reads like `u` at a distance of `off`. */
  ghost predicate ReadsLike(t: string, i: nat, u: string, off: int)
  {
    i <= |t| && i + off >= 0 && |u| == |t| + off && forall k | i <= k < |t| :: t[k] == u[k + off]
  }

  lemma {:induction false} LineEndRest(t: string, i: nat, u: string, off: int)
    requires ReadsLike(t, i, u, off)
    ensures LineEnd(u, i + off) == LineEnd(t, i) + off
    decreases |t| - i
  {
    if i < |t| && t[i] != '\n' {
      LineEndRest(t, i + 1, u, off);
    }
  }

  lemma {:induction false} BlockEndRest(t: string, i: nat, u: string, off: int)
    requires ReadsLike(t, i, u, off)
    ensures BlockEnd(u, i + off) == BlockEnd(t, i) + off
    decreases |t| - i
  {
    if i + 1 < |t| {
      assert t[i + 1] == u[i + 1 + off];
      BlockEndRest(t, i + 1, u, off);
    }
  }

  lemma NextRest(t: string, i: nat, u: string, off: int, quote: Option<char>)
    requires ReadsLike(t, i, u, off) && i < |t|
    ensures Next(u, i + off, quote) == Next(t, i, quote).(end := Next(t, i, quote).end + off)
    ensures t[i..Next(t, i, quote).end] == u[i + off..Next(t, i, quote).end + off]
  {
    if i + 1 < |t| {
      assert t[i + 1] == u[i + 1 + off];
    }
    LineEndRest(t, i, u, off);
    BlockEndRest(t, i, u, off);
  }

  /** The scan depends only on the text that is left. */
  lemma {:induction false} ScanRest(t: string, i: nat, u: string, off: int, s: Scanner)
    requires ReadsLike(t, i, u, off)
    ensures Scan(u, i + off, s) == Scan(t, i, s)
    decreases |t| - i
  {
    if i < |t| {
      NextRest(t, i, u, off, s.quote);
      var k := Next(t, i, s.quote);
      ScanRest(t, k.end, u, off, Feed(t, i, s, k));
    }
  }

  lemma SlicesJoin(cur: string, t: string, i: nat, k: nat, n: nat)
    requires i <= k <= n <= |t|
    ensures cur + t[i..k] + t[k..n] == cur + t[i..n]
  {
  }

  lemma {:induction false} ScanPasses(t: string, i: nat, n: nat, s: Scanner, after: Option<char>)
    requires i <= n <= |t| && Passes(t, i, n, s.quote, after)
    ensures Scan(t, i, s) == Scan(t, n, Scanner(s.out, s.cur + t[i..n], after))
    decreases n - i
  {
    if i == n {
      assert s.cur + t[i..n] == s.cur;
    } else {
      var k := Next(t, i, s.quote);
      ScanPasses(t, k.end, n, Feed(t, i, s, k), after);
      SlicesJoin(s.cur, t, i, k.end, n);
    }
  }

  /** A statement that stands on its own. */
  predicate Standalone(s: string)
  {
    s != "" && Trimmed(s) && Plain(s)
  }

  ghost predicate AllStandalone(parts: seq<string>)
  {
    forall i | 0 <= i < |parts| :: Standalone(parts[i])
  }

  /** The scan comes to the end of a plain stretch with the stretch as its statement. */
  lemma ScanPlain(t: string, i: nat, p: string, out: seq<string>, n: nat, end: Scanner)
    requires n == i + |p| <= |t| && t[i..n] == p && Plain(p) && Boundary(t, n) && end == Scan(t, i, Scanner(out, "", None))
    ensures end == Scan(t, n, Scanner(out, p, None))
  {
    assert p[0..|p|] == p;
    PassesElsewhere(p, 0, |p|, t, i, n, None);
    ScanPasses(t, i, n, Scanner(out, "", None), None);
    assert Scanner(out, "" + t[i..n], None) == Scanner(out, p, None);
  }

  lemma ScanSeparator(t: string, n: nat, p: string, out: seq<string>, end: Scanner)
    requires n < |t| && t[n] == ';' && end == Scan(t, n, Scanner(out, p, None))
    ensures end == Scan(t, n + 1, Scanner(out + [p], "", None))
  {
    assert Next(t, n, None) == Token(n + 1, false, None, true);
  }

  /** And over the separator behind it. */
  lemma ScanOne(t: string, i: nat, p: string, out: seq<string>, n: nat, end: Scanner)
    requires n == i + |p| < |t| && t[i..n] == p && t[n] == ';' && Plain(p) && end == Scan(t, i, Scanner(out, "", None))
    ensures end == Scan(t, n + 1, Scanner(out + [p], "", None))
  {
    ScanPlain(t, i, p, out, n, end);
    ScanSeparator(t, n, p, out, end);
  }

  /** Read on its own the text has no comment and no separator; it may leave a quote open. */
  ghost predicate Loose(s: string)
  {
    exists after :: Passes(s, 0, |s|, None, after)
  }

  /** Statements that can be joined: all but the last one stand on their own, and the last
      one may leave a quote open. */
  ghost predicate Joinable(parts: seq<string>)
  {
    && (forall i | 0 <= i < |parts| :: parts[i] != "" && Trimmed(parts[i]))
    && (forall i | 0 <= i < |parts| - 1 :: Plain(parts[i]))
    && (parts != [] ==> Loose(parts[|parts| - 1]))
  }

  lemma {:induction false} PassesRest(t: string, i: nat, u: string, off: int, quote: Option<char>, after: Option<char>)
    requires ReadsLike(t, i, u, off) && Passes(t, i, |t|, quote, after)
    ensures Passes(u, i + off, |u|, quote, after)
    decreases |t| - i
  {
    if i < |t| {
      NextRest(t, i, u, off, quote);
      PassesRest(t, Next(t, i, quote).end, u, off, Next(t, i, quote).quote, after);
    }
  }

  /** The scan comes to the end of a text whose last stretch is loose. */
  lemma ScanLoose(t: string, i: nat, p: string, out: seq<string>)
    requires i + |p| == |t| && t[i..i + |p|] == p && Loose(p)
    ensures Scan(t, i, Scanner(out, "", None)).out == out && Scan(t, i, Scanner(out, "", None)).cur == p
  {
    var after :| Passes(p, 0, |p|, None, after);
    forall k | 0 <= k < |p| ensures p[k] == t[k + i] {
      assert t[i..i + |p|][k] == p[k];
    }
    PassesRest(p, 0, t, i, None, after);
    ScanPasses(t, i, |t|, Scanner(out, "", None), after);
    assert "" + t[i..|t|] == p;
  }

  /** The scan is about to begin statement `k` of joined ones, and will end in `end`. */
  ghost predicate Beginning(t: string, i: nat, parts: seq<string>, k: nat, out: seq<string>, end: Scanner)
  {
    i <= |t| && k < |parts| && Joined(t, i, parts, k, ';') && end == Scan(t, i, Scanner(out, "", None))
  }

  lemma BeginsNext(t: string, i: nat, parts: seq<string>, k: nat, out: seq<string>, end: Scanner, n: nat)
    requires Beginning(t, i, parts, k, out, end) && k + 1 < |parts| && Plain(parts[k]) && n == i + |parts[k]| + 1
    ensures Beginning(t, n, parts, k + 1, out + [parts[k]], end)
  {
    ScanOne(t, i, parts[k], out, i + |parts[k]|, end);
  }

  lemma LastEnds(t: string, i: nat, parts: seq<string>, k: nat, out: seq<string>, end: Scanner)
    requires Beginning(t, i, parts, k, out, end) && k + 1 == |parts| && Loose(parts[k])
    ensures end.out == out && end.cur == parts[k]
  {
    ScanLoose(t, i, parts[k], out);
  }

  /** What joined statements take up, a separator behind each. */
  function Total(parts: seq<string>): nat
  {
    if parts == [] then 0 else Total(parts[..|parts| - 1]) + |parts[|parts| - 1]| + 1
  }

  lemma TotalAppend(parts: seq<string>, p: string)
    ensures Total(parts + [p]) == Total(parts) + |p| + 1
  {
    assert (parts + [p])[..|parts|] == parts;
  }

  lemma SlicesMeet(out: seq<string>, parts: seq<string>, k: nat, m: nat)
    requires k < m <= |parts|
    ensures out + [parts[k]] + parts[k + 1..m] == out + parts[k..m]
  {
  }

  /** The scan of joined statements comes to statement `m` if those before it are plain. */
  lemma {:induction false} ScanReaches(t: string, i: nat, parts: seq<string>, k: nat, m: nat, out: seq<string>, end: Scanner)
      returns (j: nat, before: seq<string>)
    requires Beginning(t, i, parts, k, out, end) && k <= m < |parts| && (forall d | 0 <= d < m :: Plain(parts[d])) && Total(out) == i
    ensures Beginning(t, j, parts, m, before, end) && Total(before) == j && before == out + parts[k..m]
    decreases m - k
  {
    if k == m {
      j, before := i, out;
    } else {
      var n := i + |parts[k]| + 1;
      BeginsNext(t, i, parts, k, out, end, n);
      TotalAppend(out, parts[k]);
      j, before := ScanReaches(t, n, parts, k + 1, m, out + [parts[k]], end);
      SlicesMeet(out, parts, k, m);
    }
  }

  lemma ScanJoined(t: string, parts: seq<string>, end: Scanner)
    requires parts != [] && Joined(t, 0, parts, 0, ';') && Joinable(parts) && end == Scan(t, 0, READY)
    ensures end.out == parts[..|parts| - 1] && end.cur == parts[|parts| - 1]
  {
    var m := |parts| - 1;
    var j, before := ScanReaches(t, 0, parts, 0, m, [], end);
    LastEnds(t, j, parts, m, before, end);
    assert before == parts[..m];
  }

  lemma {:induction false} NonBlankKeeps(parts: seq<string>, n: nat)
    requires n <= |parts| && forall i | 0 <= i < |parts| :: parts[i] != "" && Trimmed(parts[i])
    ensures NonBlank(parts, n) == parts[..n]
  {
    if n > 0 {
      TrimmedIsKept(parts[n - 1]);
      NonBlankKeeps(parts, n - 1);
      assert parts[..n - 1] + [parts[n - 1]] == parts[..n];
    }
  }

  lemma ScanWhole(parts: seq<string>)
    requires parts != [] && Joinable(parts)
    ensures Pieces(Scan(Join(parts, ';'), 0, READY)) == parts
  {
    var t := Join(parts, ';');
    assert t[0..] == t && parts[..0] == [];
    JoinIsJoined(t, 0, parts, 0, ';');
    var last := parts[|parts| - 1];
    ScanJoined(t, parts, Scan(t, 0, READY));
    TrimmedIsKept(last);
    assert parts[..|parts| - 1] + [last] == parts;
  }

  lemma SplitUndoesJoin(parts: seq<string>)
    requires Joinable(parts)
    ensures Statements(Join(parts, ';')) == parts
  {
    if parts != [] {
      ScanWhole(parts);
      NonBlankKeeps(parts, |parts|);
      assert parts[..|parts|] == parts;
    }
  }

  /** Splitting undoes the joining of statements that stand on their own. */
  lemma SplitInvertsJoin(parts: seq<string>)
    requires AllStandalone(parts)
    ensures Statements(Join(parts, ';')) == parts
  {
    assert forall i | 0 <= i < |parts| :: Standalone(parts[i]);
    SplitUndoesJoin(parts);
  }

  // ---------------------------------------------------------------------------
  // Splitting again
  // ---------------------------------------------------------------------------

  /** Two characters that begin a comment. */
  predicate MakesMark(a: char, b: char)
  {
    (a == '-' && b == '-') || (a == '/' && b == '*')
  }

  /** Somewhere from `i` on, two kept characters come together in code and in one piece that
      begin a comment. In the text they are parted by removed comments, or they would begin
      one there. `last` is the last character that was kept, or a semicolon. */
  predicate Glues(t: string, i: nat, quote: Option<char>, last: char)
    requires i <= |t|
    decreases |t| - i
  {
    if i == |t| then false
    else
      var k := Next(t, i, quote);
      if k.ends then Glues(t, k.end, k.quote, ';')
      else if !k.keep then Glues(t, k.end, k.quote, last)
      else (quote == None && MakesMark(last, t[i])) || Glues(t, k.end, k.quote, t[k.end - 1])
  }

  function LastOf(cur: string): char
  {
    if cur == "" then ';' else cur[|cur| - 1]
  }

  /** Read with something harmless behind it, all of the text is passed. */
  predicate Solid(p: string, after: Option<char>)
  {
    Passes(p + " ", 0, |p|, None, after)
  }

  /** A kept token reads the same at the end of another text. */
  lemma TokenCopied(t: string, i: nat, w: string, n: nat, q: Option<char>)
    requires i < |t| && QuoteMark(q) && Next(t, i, q).keep && n + (Next(t, i, q).end - i) + 1 == |w| && w[|w| - 1] == ' '
    requires w[n] == t[i] && (Next(t, i, q).end == i + 2 ==> w[n + 1] == t[i + 1])
    requires q != None && q.value != '`' && t[i] == '\\' ==> i + 1 < |t|
    ensures Next(w, n, q) == Token(|w| - 1, true, Next(t, i, q).quote, false)
  {
  }

  /** With the token at `i` of `t` behind it, the last token of a stretch stays what it was,
      or forms a pair of quotes with it. */
  lemma LastToken(v: string, w: string, j: nat, quote: Option<char>, x: char)
    requires j + 2 == |v| && v[j + 1] == ' ' && |w| >= j + 2 && w[j] == v[j] && w[j + 1] == x && QuoteMark(quote)
    requires Next(v, j, quote).keep && Next(v, j, quote).end == j + 1
    requires Next(v, j, quote).quote == None ==> !MakesMark(v[j], x)
    ensures Next(w, j, quote) == Next(v, j, quote)
            || (Next(v, j, quote).quote == None && quote == Some(x) && x != '`' && Next(w, j, quote) == Token(j + 2, true, quote, false))
  {
  }

  lemma {:induction false} SolidAppendAt(v: string, n: nat, w: string, j: nat, quote: Option<char>, q: Option<char>, t: string, i: nat)
    requires j <= n && n + 1 == |v| && v[n] == ' ' && QuoteMark(quote) && Passes(v, j, n, quote, q)
    requires i < |t| && QuoteMark(q) && Next(t, i, q).keep && n + (Next(t, i, q).end - i) + 1 == |w| && w[|w| - 1] == ' '
    requires (forall k | 0 <= k < n :: w[k] == v[k]) && w[n] == t[i] && (Next(t, i, q).end == i + 2 ==> w[n + 1] == t[i + 1])
    requires q != None && q.value != '`' && t[i] == '\\' ==> i + 1 < |t|
    requires q == None && n > 0 ==> !MakesMark(v[n - 1], t[i])
    ensures Passes(w, j, |w| - 1, quote, Next(t, i, q).quote)
    decreases n - j
  {
    if j == n {
      TokenCopied(t, i, w, n, q);
    } else {
      var k := Next(v, j, quote);
      if k.end < n || k.end == j + 2 {
        assert Next(w, j, quote) == k;
        SolidAppendAt(v, n, w, k.end, k.quote, q, t, i);
      } else {
        LastToken(v, w, j, quote, t[i]);
        if Next(w, j, quote) == k {
          SolidAppendAt(v, n, w, k.end, k.quote, q, t, i);
        } else {
          assert Next(t, i, None) == Token(i + 1, true, quote, false);
        }
      }
    }
  }

  /** The kept token at `i` of `t` is not a backslash that the text ends with. */
  predicate Whole(t: string, i: nat, q: Option<char>)
    requires i < |t|
  {
    q != None && q.value != '`' && t[i] == '\\' ==> i + 1 < |t|
  }

  lemma SolidAppend(cur: string, t: string, i: nat, q: Option<char>)
    requires Solid(cur, q) && QuoteMark(q) && i < |t| && Next(t, i, q).keep && Whole(t, i, q)
    requires q == None ==> !MakesMark(LastOf(cur), t[i])
    ensures Solid(cur + t[i..Next(t, i, q).end], Next(t, i, q).quote)
  {
    var w := cur + t[i..Next(t, i, q).end] + " ";
    SolidAppendAt(cur + " ", |cur|, w, 0, None, q, t, i);
  }

  /** What is solid is passed when it ends the text. */
  lemma {:induction false} SolidPassesAt(v: string, u: string, j: nat, quote: Option<char>, after: Option<char>)
    requires |v| == |u| + 1 && v[|u|] == ' ' && (forall k | 0 <= k < |u| :: v[k] == u[k]) && j <= |u|
    requires QuoteMark(quote) && Passes(v, j, |u|, quote, after)
    ensures Passes(u, j, |u|, quote, after)
    decreases |u| - j
  {
    if j < |u| {
      assert Next(u, j, quote) == Next(v, j, quote);
      SolidPassesAt(v, u, Next(v, j, quote).end, Next(v, j, quote).quote, after);
    }
  }

  lemma SolidPasses(p: string, after: Option<char>)
    requires Solid(p, after)
    ensures Passes(p, 0, |p|, None, after)
  {
    SolidPassesAt(p + " ", p, 0, None, after);
  }

  /** A backslash that ends the text is passed as well. */
  lemma {:induction false} BackslashAt(v: string, u: string, j: nat, quote: Option<char>, after: Option<char>)
    requires |v| == |u| >= 1 && v[|u| - 1] == ' ' && u[|u| - 1] == '\\' && (forall k | 0 <= k < |u| - 1 :: v[k] == u[k]) && j < |u|
    requires QuoteMark(quote) && Passes(v, j, |u| - 1, quote, after) && after.Some? && QuoteMark(after)
    ensures Passes(u, j, |u|, quote, after)
    decreases |u| - j
  {
    if j < |u| - 1 {
      assert Next(u, j, quote) == Next(v, j, quote);
      BackslashAt(v, u, Next(v, j, quote).end, Next(v, j, quote).quote, after);
    } else {
      assert Next(u, j, quote) == Token(|u|, true, quote, false);
    }
  }

  ghost predicate AllPlain(parts: seq<string>)
  {
    forall i | 0 <= i < |parts| :: Plain(parts[i])
  }

  /** The scanner's variables while nothing has been glued. */
  ghost predicate Unglued(s: Scanner)
  {
    AllPlain(s.out) && QuoteMark(s.quote) && Solid(s.cur, s.quote)
  }

  /** One turn of the loop keeps the pieces unglued, unless it glues or ends the text with a
      backslash. */
  lemma UngluedStep(t: string, i: nat, s: Scanner)
    requires Unglued(s) && i < |t| && Whole(t, i, s.quote)
    requires Next(t, i, s.quote).keep && s.quote == None ==> !MakesMark(LastOf(s.cur), t[i])
    ensures Unglued(Feed(t, i, s, Next(t, i, s.quote)))
  {
    var k := Next(t, i, s.quote);
    if k.ends {
      SolidPasses(s.cur, None);
    } else if k.keep {
      SolidAppend(s.cur, t, i, s.quote);
    }
  }

  /** Without glue every piece is plain, but for an open quote in the last one. */
  lemma {:induction false} UngluedScan(t: string, i: nat, s: Scanner)
    requires i <= |t| && Unglued(s) && !Glues(t, i, s.quote, LastOf(s.cur))
    ensures AllPlain(Scan(t, i, s).out) && Passes(Scan(t, i, s).cur, 0, |Scan(t, i, s).cur|, None, Scan(t, i, s).quote)
    decreases |t| - i
  {
    if i == |t| {
      SolidPasses(s.cur, s.quote);
    } else {
      var k := Next(t, i, s.quote);
      if Whole(t, i, s.quote) {
        UngluedStep(t, i, s);
        UngluedScan(t, k.end, Feed(t, i, s, k));
      } else {
        BackslashAt(s.cur + " ", s.cur + "\\", 0, None, s.quote);
        assert t[i..k.end] == "\\" && k == Token(|t|, true, s.quote, false);
      }
    }
  }

  lemma {:induction false} PlainStripLeft(s: string, after: Option<char>)
    requires Passes(s, 0, |s|, None, after)
    ensures Passes(StripLeft(s), 0, |StripLeft(s)|, None, after)
  {
    if s != [] && IsSpace(s[0]) {
      BoundaryIsNoMark(s, 0);
      var rest := s[1..];
      PassesRest(s, 1, rest, -1, None, after);
      PlainStripLeft(rest, after);
    }
  }

  /** Without the space that ends it, a text is passed as well; only inside a quote may the
      space have belonged to a pair. */
  lemma {:induction false} PassesDropSpace(s: string, u: string, i: nat, quote: Option<char>, after: Option<char>)
    requires i <= |u| && |s| == |u| + 1 && IsSpace(s[|u|]) && (forall k | 0 <= k < |u| :: s[k] == u[k])
    requires Passes(s, i, |s|, quote, after) && QuoteMark(quote) && QuoteMark(after)
    ensures Passes(u, i, |u|, quote, after)
    decreases |s| - i
  {
    BoundaryIsNoMark(s, |u|);
    var k := Next(s, i, quote);
    if i < |u| {
      if k.end <= |u| {
        assert Next(u, i, quote) == k;
        PassesDropSpace(s, u, k.end, k.quote, after);
      } else {
        assert Next(u, i, quote) == Token(i + 1, true, quote, false);
      }
    }
  }

  lemma {:induction false} PlainStripRight(s: string, after: Option<char>)
    requires Passes(s, 0, |s|, None, after) && QuoteMark(after)
    ensures Passes(StripRight(s), 0, |StripRight(s)|, None, after)
  {
    if s != [] && IsSpace(s[|s| - 1]) {
      PassesDropSpace(s, s[..|s| - 1], 0, None, after);
      PlainStripRight(s[..|s| - 1], after);
    }
  }

  lemma StripPasses(piece: string, after: Option<char>)
    requires Passes(piece, 0, |piece|, None, after) && QuoteMark(after)
    ensures Passes(Strip(piece), 0, |Strip(piece)|, None, after) && Trimmed(Strip(piece))
  {
    PlainStripLeft(piece, after);
    PlainStripRight(StripLeft(piece), after);
    StripIsTrimmed(piece);
  }

  lemma {:induction false} NonBlankStandalone(out: seq<string>, n: nat)
    requires AllPlain(out) && n <= |out|
    ensures AllStandalone(NonBlank(out, n))
  {
    if n > 0 {
      NonBlankStandalone(out, n - 1);
      StripPasses(out[n - 1], None);
    }
  }

  lemma {:induction false} ScanQuote(t: string, i: nat, s: Scanner)
    requires i <= |t| && QuoteMark(s.quote)
    ensures QuoteMark(Scan(t, i, s).quote)
    decreases |t| - i
  {
    if i < |t| {
      ScanQuote(t, Next(t, i, s.quote).end, Feed(t, i, s, Next(t, i, s.quote)));
    }
  }

  lemma {:induction false} NonBlankPrefix(out: seq<string>, more: seq<string>, n: nat)
    requires n <= |out|
    ensures NonBlank(out + more, n) == NonBlank(out, n)
  {
    if n > 0 {
      NonBlankPrefix(out, more, n - 1);
    }
  }

  lemma StandaloneJoinable(parts: seq<string>)
    requires AllStandalone(parts)
    ensures Joinable(parts)
  {
    assert forall i | 0 <= i < |parts| :: Standalone(parts[i]);
  }

  lemma JoinableAppend(parts: seq<string>, last: string, after: Option<char>)
    requires AllStandalone(parts) && last != "" && Trimmed(last) && Passes(last, 0, |last|, None, after)
    ensures Joinable(parts + [last])
  {
    assert forall i | 0 <= i < |parts| :: Standalone(parts[i]);
  }

  lemma UngluedJoinable(text: string)
    requires !Glues(text, 0, None, ';')
    ensures Joinable(Statements(text))
    ensures Scan(text, 0, READY).quote == None ==> AllStandalone(Statements(text))
  {
    UngluedScan(text, 0, READY);
    ScanQuote(text, 0, READY);
    var end := Scan(text, 0, READY);
    NonBlankStandalone(end.out, |end.out|);
    StripPasses(end.cur, end.quote);
    if Strip(end.cur) != "" {
      NonBlankPrefix(end.out, [end.cur], |end.out|);
      assert Statements(text) == NonBlank(end.out, |end.out|) + [Strip(end.cur)];
      JoinableAppend(NonBlank(end.out, |end.out|), Strip(end.cur), end.quote);
    } else {
      StandaloneJoinable(NonBlank(end.out, |end.out|));
    }
  }

  // A piece that was glued holds a comment.

  /** Read on its own, the text holds the beginning of a comment at `e`. */
  predicate MarkedAt(p: string, e: nat)
  {
    e + 1 < |p| && Passes(p, 0, e, None, None) && MakesMark(p[e], p[e + 1])
  }

  /** What is passed depends on no more than one character behind it. */
  lemma {:induction false} PassesCopy(t: string, i: nat, n: nat, u: string, off: int, quote: Option<char>, after: Option<char>)
    requires i <= n < |t| && 0 <= i + off && n + off < |u| && (forall k | i <= k <= n :: t[k] == u[k + off])
    requires QuoteMark(quote) && Passes(t, i, n, quote, after)
    ensures Passes(u, i + off, n + off, quote, after)
    decreases n - i
  {
    if i < n {
      assert t[i] == u[i + off] && t[i + 1] == u[i + 1 + off];
      var k := Next(t, i, quote);
      assert Next(u, i + off, quote) == k.(end := k.end + off);
      PassesCopy(t, k.end, n, u, off, k.quote, after);
    }
  }

  /** The last token of a solid text that ends in code with a dash or a slash is that one. */
  lemma {:induction false} LastIsToken(v: string, n: nat, j: nat, quote: Option<char>)
    requires j < n && n + 1 == |v| && QuoteMark(quote) && Passes(v, j, n, quote, None) && (v[n - 1] == '-' || v[n - 1] == '/')
    ensures Passes(v, j, n - 1, quote, None)
    decreases n - j
  {
    var k := Next(v, j, quote);
    if k.end < n {
      LastIsToken(v, n, k.end, k.quote);
    }
  }

  /** A token that makes a mark with the piece leaves the piece marked. */
  lemma GlueMarks(cur: string, p: string, b: char)
    requires Solid(cur, None) && MakesMark(LastOf(cur), b) && |p| > |cur| && p[|cur|] == b
    requires forall k | 0 <= k < |cur| :: p[k] == cur[k]
    ensures MarkedAt(p, |cur| - 1)
  {
    var v := cur + " ";
    LastIsToken(v, |cur|, 0, None);
    PassesCopy(v, 0, |cur| - 1, p, 0, None, None);
  }

  function AllPieces(s: Scanner): seq<string>
  {
    s.out + [s.cur]
  }

  /** The scan goes on from the pieces it has. */
  lemma {:induction false} ScanGrows(t: string, i: nat, s: Scanner)
    requires i <= |t|
    ensures s.out <= Scan(t, i, s).out && s.cur <= AllPieces(Scan(t, i, s))[|s.out|]
    decreases |t| - i
  {
    if i < |t| {
      var k := Next(t, i, s.quote);
      var next := Feed(t, i, s, k);
      ScanGrows(t, k.end, next);
      if k.ends {
        assert AllPieces(Scan(t, k.end, next))[|s.out|] == next.out[|s.out|];
      }
    }
  }

  /** The first piece that was glued comes after plain ones. */
  ghost predicate FirstMarked(pieces: seq<string>, m: nat, e: nat)
  {
    m < |pieces| && AllPlain(pieces[..m]) && MarkedAt(pieces[m], e)
  }

  lemma GlueStep(t: string, i: nat, s: Scanner)
    requires i < |t| && Unglued(s) && s.quote == None && Next(t, i, None).keep && MakesMark(LastOf(s.cur), t[i])
    ensures FirstMarked(AllPieces(Scan(t, i, s)), |s.out|, |s.cur| - 1)
  {
    var k := Next(t, i, None);
    var next := Feed(t, i, s, k);
    ScanGrows(t, k.end, next);
    var pieces := AllPieces(Scan(t, i, s));
    assert pieces[..|s.out|] == s.out;
    assert next.cur[|s.cur|] == t[i];
    GlueMarks(s.cur, pieces[|s.out|], t[i]);
  }

  /** Behind a backslash that ends the text nothing is glued. */
  lemma GluesWhole(t: string, i: nat, q: Option<char>, last: char)
    requires i < |t| && Glues(t, i, q, last)
    ensures Whole(t, i, q)
  {
  }

  lemma {:induction false} GluedScan(t: string, i: nat, s: Scanner)
    requires i <= |t| && Unglued(s) && Glues(t, i, s.quote, LastOf(s.cur))
    ensures exists m: nat, e: nat :: FirstMarked(AllPieces(Scan(t, i, s)), m, e)
    decreases |t| - i
  {
    var k := Next(t, i, s.quote);
    if k.keep && s.quote == None && MakesMark(LastOf(s.cur), t[i]) {
      GlueStep(t, i, s);
    } else {
      GluesWhole(t, i, s.quote, LastOf(s.cur));
      UngluedStep(t, i, s);
      GluedScan(t, k.end, Feed(t, i, s, k));
      var m: nat, e: nat :| FirstMarked(AllPieces(Scan(t, k.end, Feed(t, i, s, k))), m, e);
      assert FirstMarked(AllPieces(Scan(t, i, s)), m, e);
    }
  }

  lemma {:induction false} PassesPastSpaces(p: string, d: nat, e: nat)
    requires d <= e <= |p| && Passes(p, 0, e, None, None) && forall k | 0 <= k < d :: IsSpace(p[k])
    ensures Passes(p, d, e, None, None)
    decreases d
  {
    if d > 0 {
      PassesPastSpaces(p, d - 1, e);
      BoundaryIsNoMark(p, d - 1);
    }
  }

  /** Stripping keeps the mark. */
  lemma StripMarked(p: string, e: nat) returns (f: nat)
    requires MarkedAt(p, e)
    ensures MarkedAt(Strip(p), f)
  {
    var d := StripLeftBound(p, e);
    var left := p[d..];
    assert left[e + 1 - d] == p[e + 1];
    var m := StripRightBound(left, e + 1 - d);
    f := e - d;
    PassesPastSpaces(p, d, e);
    forall k | d <= k <= e ensures p[k] == Strip(p)[k - d] {
      assert left[..m][k - d] == left[k - d];
    }
    PassesCopy(p, d, e, Strip(p), -d, None, None);
    assert left[..m][f + 1] == p[e + 1];
  }

  // A comment shortens the text.

  /** Characters and separators that the scanner has kept. */
  function Weight(s: Scanner): nat
  {
    Total(s.out) + |s.cur|
  }

  lemma {:induction false} ScanWeight(t: string, i: nat, s: Scanner)
    requires i <= |t|
    ensures Weight(Scan(t, i, s)) <= Weight(s) + |t| - i
    decreases |t| - i
  {
    if i < |t| {
      var k := Next(t, i, s.quote);
      TotalAppend(s.out, s.cur);
      ScanWeight(t, k.end, Feed(t, i, s, k));
    }
  }

  lemma {:induction false} JoinTotal(parts: seq<string>, k: nat)
    requires k < |parts|
    ensures |JoinFrom(parts, k, ';')| + 1 + Total(parts[..k]) == Total(parts)
    decreases |parts| - k
  {
    assert parts[..k + 1] == parts[..k] + [parts[k]];
    TotalAppend(parts[..k], parts[k]);
    if k + 1 < |parts| {
      JoinTotal(parts, k + 1);
    } else {
      assert parts[..k + 1] == parts;
    }
  }

  lemma {:induction false} StripShorter(s: string)
    ensures |StripLeft(s)| <= |s| && |StripRight(s)| <= |s|
  {
    StripLeftEnd(s);
    StripRightEnd(s);
  }

  lemma {:induction false} NonBlankTotal(out: seq<string>, n: nat)
    requires n <= |out|
    ensures Total(NonBlank(out, n)) <= Total(out[..n])
  {
    if n > 0 {
      assert NonBlank(out, n - 1) + [] == NonBlank(out, n - 1);
      NonBlankTotal(out, n - 1);
      StripShorter(out[n - 1]);
      StripShorter(StripLeft(out[n - 1]));
      assert out[..n] == out[..n - 1] + [out[n - 1]];
      TotalAppend(out[..n - 1], out[n - 1]);
      TotalAppend(NonBlank(out, n - 1), Strip(out[n - 1]));
    }
  }

  /** The statements weigh no more than what the scan has kept. */
  lemma StatementsWeight(text: string)
    ensures Statements(text) != [] ==> |Join(Statements(text), ';')| <= Weight(Scan(text, 0, READY))
  {
    var end := Scan(text, 0, READY);
    var out := Pieces(end);
    NonBlankTotal(out, |out|);
    assert out[..|out|] == out;
    TotalAppend(end.out, end.cur);
    if Statements(text) != [] {
      JoinTotal(Statements(text), 0);
      assert Statements(text)[..0] == [];
    }
  }

  /** A comment is skipped, so the scan ends lighter than the text. */
  lemma CommentShortens(t: string, i: nat, s: Scanner)
    requires i + 1 < |t| && s.quote == None && Weight(s) == i && MakesMark(t[i], t[i + 1])
    ensures Weight(Scan(t, i, s)) < |t|
  {
    var k := Next(t, i, None);
    assert Feed(t, i, s, k) == s;
    ScanWeight(t, k.end, s);
  }

  lemma MarkReached(t: string, j: nat, p: string, s: Scanner, e: nat)
    requires j + |p| <= |t| && t[j..j + |p|] == p && MarkedAt(p, e) && s.quote == None
    ensures Scan(t, j, s) == Scan(t, j + e, Scanner(s.out, s.cur + t[j..j + e], None)) && MakesMark(t[j + e], t[j + e + 1])
  {
    forall k | 0 <= k < |p| ensures p[k] == t[k + j] {
      assert t[j..j + |p|][k] == p[k];
    }
    PassesCopy(p, 0, e, t, j, None, None);
    ScanPasses(t, j, j + e, s, None);
  }

  /** A statement with a mark loses it when it is split again. */
  lemma MarkIsLost(t: string, j: nat, p: string, s: Scanner, e: nat)
    requires j + |p| <= |t| && t[j..j + |p|] == p && MarkedAt(p, e) && s.quote == None && Weight(s) == j
    ensures Weight(Scan(t, j, s)) < |t|
  {
    MarkReached(t, j, p, s, e);
    CommentShortens(t, j + e, Scanner(s.out, s.cur + t[j..j + e], None));
  }

  lemma MarkEnds(t: string, i: nat, parts: seq<string>, k: nat, out: seq<string>, end: Scanner, e: nat)
    requires Beginning(t, i, parts, k, out, end) && Total(out) == i && MarkedAt(parts[k], e)
    ensures Weight(end) < |t|
  {
    MarkIsLost(t, i, parts[k], Scanner(out, "", None), e);
  }

  lemma JoinLosesMark(t: string, parts: seq<string>, m: nat, e: nat, end: Scanner)
    requires m < |parts| && (forall d | 0 <= d < m :: Plain(parts[d])) && MarkedAt(parts[m], e)
    requires Beginning(t, 0, parts, 0, [], end)
    ensures Weight(end) < |t|
  {
    var j, before := ScanReaches(t, 0, parts, 0, m, [], end);
    MarkEnds(t, j, parts, m, before, end, e);
  }

  lemma SplitLosesMark(parts: seq<string>, m: nat, e: nat)
    requires m < |parts| && AllPlain(parts[..m]) && MarkedAt(parts[m], e)
    ensures Statements(Join(parts, ';')) != parts
  {
    forall d | 0 <= d < m ensures Plain(parts[d]) {
      assert parts[..m][d] == parts[d];
    }
    var t := Join(parts, ';');
    assert t[0..] == t;
    JoinIsJoined(t, 0, parts, 0, ';');
    JoinLosesMark(t, parts, m, e, Scan(t, 0, READY));
    StatementsWeight(t);
  }

  lemma {:induction false} NonBlankSplits(out: seq<string>, m: nat, n: nat)
    requires m < n <= |out| && Strip(out[m]) != ""
    ensures NonBlank(out, m) + [Strip(out[m])] <= NonBlank(out, n)
  {
    if n > m + 1 {
      NonBlankSplits(out, m, n - 1);
    }
  }

  lemma GluedIsLost(text: string)
    requires Glues(text, 0, None, ';')
    ensures Statements(Join(Statements(text), ';')) != Statements(text)
  {
    GluedScan(text, 0, READY);
    var end := Scan(text, 0, READY);
    var pieces := AllPieces(end);
    var m: nat, e: nat :| FirstMarked(pieces, m, e);
    var f := StripMarked(pieces[m], e);
    MarkedIsCounted(end, m);
    NonBlankSplits(Pieces(end), m, |Pieces(end)|);
    var before := NonBlank(Pieces(end), m);
    NonBlankFirst(Pieces(end), pieces, m);
    NonBlankStandalone(pieces[..m], m);
    assert AllPlain(before) by {
      assert forall i | 0 <= i < |before| :: Standalone(before[i]);
    }
    assert Statements(text)[..|before|] == before;
    SplitLosesMark(Statements(text), |before|, f);
  }

  lemma MarkedIsCounted(end: Scanner, m: nat)
    requires m < |AllPieces(end)| && Strip(AllPieces(end)[m]) != ""
    ensures m < |Pieces(end)| && Pieces(end)[m] == AllPieces(end)[m] && Pieces(end)[..m] == AllPieces(end)[..m]
  {
  }

  lemma {:induction false} NonBlankFirst(out: seq<string>, pieces: seq<string>, m: nat)
    requires m <= |out| && m <= |pieces| && out[..m] == pieces[..m]
    ensures NonBlank(out, m) == NonBlank(pieces[..m], m)
  {
    NonBlankPrefix(out[..m], out[m..], m);
    assert out[..m] + out[m..] == out;
  }

  /** Joining the statements of a text and splitting them again changes nothing if and only
      if the removal of comments has brought no two dashes, and no slash and star, together. */
  lemma SplitAgainIff(text: string)
    ensures Statements(Join(Statements(text), ';')) == Statements(text) <==> !Glues(text, 0, None, ';')
  {
    if Glues(text, 0, None, ';') {
      GluedIsLost(text);
    } else {
      UngluedJoinable(text);
      SplitUndoesJoin(Statements(text));
    }
  }

  /** The text has no comment and leaves no quote open. */
  predicate CommentFree(t: string, i: nat, quote: Option<char>)
    requires i <= |t|
    decreases |t| - i
  {
    if i == |t| then quote == None
    else var k := Next(t, i, quote); (k.keep || k.ends) && CommentFree(t, k.end, k.quote)
  }

  /** For one, text without quotes and without two dashes, or a slash and a star, together. */
  lemma {:induction false} MarklessIsCommentFree(t: string, i: nat)
    requires i <= |t| && forall k | i <= k < |t| :: t[k] !in {'\'', '"', '`'}
    requires forall k: nat | i <= k < |t| - 1 :: !(t[k] == '-' && t[k + 1] == '-') && !(t[k] == '/' && t[k + 1] == '*')
    ensures CommentFree(t, i, None)
    decreases |t| - i
  {
    if i < |t| {
      MarklessIsCommentFree(t, i + 1);
    }
  }

  lemma {:induction false} CommentFreeGluesNothing(t: string, i: nat, s: Scanner, last: char)
    requires i <= |t| && CommentFree(t, i, s.quote) && QuoteMark(s.quote) && (s.quote == None && i < |t| ==> !MakesMark(last, t[i]))
    ensures !Glues(t, i, s.quote, last) && Scan(t, i, s).quote == None
    decreases |t| - i
  {
    if i < |t| {
      var k := Next(t, i, s.quote);
      CommentFreeGluesNothing(t, k.end, Feed(t, i, s, k), if k.ends then ';' else t[k.end - 1]);
    }
  }

  /** On comment-free text every statement found stands on its own, so joining and
      splitting them again changes nothing. */
  lemma SplitAgain(text: string)
    requires CommentFree(text, 0, None)
    ensures AllStandalone(Statements(text))
    ensures Statements(Join(Statements(text), ';')) == Statements(text)
  {
    CommentFreeGluesNothing(text, 0, READY, ';');
    UngluedJoinable(text);
    SplitAgainIff(text);
  }

  // ---------------------------------------------------------------------------
  // Comments
  // ---------------------------------------------------------------------------

  /** A line comment ends behind its first newline, or with the text. */
  lemma {:induction false} LineEndsFirst(t: string, i: nat, j: nat)
    requires i < j <= |t|
    ensures j == LineEnd(t, i) <==>
            (forall k | i <= k < j - 1 :: t[k] != '\n') && (t[j - 1] == '\n' || j == |t|)
    decreases j - i
  {
    if t[i] == '\n' {
      assert LineEnd(t, i) == i + 1;
    } else if i + 1 < j {
      LineEndsFirst(t, i + 1, j);
    }
  }

  predicate ClosesBlock(t: string, k: nat)
  {
    k + 1 < |t| && t[k] == '*' && t[k + 1] == '/'
  }

  /** A block comment ends behind the first closing mark after its opening slash, or with
      the text. */
  lemma {:induction false} BlockEndsFirst(t: string, i: nat, j: nat)
    requires i + 2 <= j <= |t|
    ensures j == BlockEnd(t, i) <==>
            (forall k | i <= k < j - 2 :: !ClosesBlock(t, k)) && (ClosesBlock(t, j - 2) || (j == |t| && !ClosesBlock(t, j - 2)))
    decreases j - i
  {
    if ClosesBlock(t, i) {
      assert BlockEnd(t, i) == i + 2;
    } else if i + 2 < j {
      BlockEndsFirst(t, i + 1, j);
    } else {
      assert BlockEnd(t, i) == BlockEnd(t, i + 1);
    }
  }

  /** The text is one comment: of a line with its newline, or a block. */
  ghost predicate IsComment(c: string)
  {
    || (|c| >= 3 && c[0] == '-' && c[1] == '-' && LineEnd(c, 0) == |c| && c[|c| - 1] == '\n')
    || (|c| >= 3 && c[0] == '/' && c[1] == '*' && BlockEnd(c, 0) == |c| && ClosesBlock(c, |c| - 2))
  }

  /** The comment `c` stands in `t` at `i`. */
  lemma {:induction false} LineEndsIn(t: string, i: nat, c: string, k: nat)
    requires k < |c| && i + |c| <= |t| && t[i..i + |c|] == c && LineEnd(c, k) == |c| && c[|c| - 1] == '\n'
    ensures LineEnd(t, i + k) == i + |c|
    decreases |c| - k
  {
    assert t[i + k] == t[i..i + |c|][k];
    if t[i + k] != '\n' {
      LineEndsIn(t, i, c, k + 1);
    }
  }

  lemma {:induction false} BlockEndsIn(t: string, i: nat, c: string, k: nat)
    requires k + 1 < |c| && i + |c| <= |t| && t[i..i + |c|] == c && BlockEnd(c, k) == |c| && ClosesBlock(c, |c| - 2)
    ensures BlockEnd(t, i + k) == i + |c|
    decreases |c| - k
  {
    assert t[i + k] == t[i..i + |c|][k] && t[i + k + 1] == t[i..i + |c|][k + 1];
    if !ClosesBlock(c, k) {
      assert k + 2 < |c|;
      BlockEndsIn(t, i, c, k + 1);
    }
  }

  lemma CommentSkipped(t: string, i: nat, c: string, s: Scanner)
    requires IsComment(c) && i + |c| <= |t| && t[i..i + |c|] == c && s.quote == None
    ensures Scan(t, i, s) == Scan(t, i + |c|, s)
  {
    assert t[i] == t[i..i + |c|][0] && t[i + 1] == t[i..i + |c|][1];
    if c[0] == '-' {
      LineEndsIn(t, i, c, 0);
    } else {
      BlockEndsIn(t, i, c, 0);
    }
  }

  lemma ScanToSpace(t: string, p: string, n: nat, s: Scanner)
    requires Plain(p) && n == |p| + 1 <= |t| && t[..n] == p + " " && s == Scanner([], p + " ", None)
    ensures Scan(t, 0, READY) == Scan(t, n, s)
  {
    assert t[..n][..|p|] == p && t[..n][|p|] == ' ';
    assert t[0..|p|] == p && t[|p|] == ' ';
    ScanPlain(t, 0, p, [], |p|, Scan(t, 0, READY));
    assert t[|p|..n] == " ";
  }

  lemma SameScan(t: string, u: string)
    requires Scan(t, 0, READY) == Scan(u, 0, READY)
    ensures Statements(t) == Statements(u)
  {
  }

  lemma ScanBehindComment(t: string, u: string, c: string, n: nat, s: Scanner)
    requires IsComment(c) && n + |c| <= |t| && t[n..n + |c|] == c && ReadsLike(u, n, t, |c|) && s.quote == None
    ensures Scan(t, n, s) == Scan(u, n, s)
  {
    CommentSkipped(t, n, c, s);
    ScanRest(u, n, t, |c|, s);
  }

  /** The text `t` is `u` with the comment `c` put in at `n`. */
  lemma CommentDropped(t: string, u: string, p: string, c: string, n: nat, s: Scanner)
    requires Plain(p) && IsComment(c) && n == |p| + 1 <= |u| && |t| == |u| + |c| && s == Scanner([], p + " ", None)
    requires t[..n] == p + " " == u[..n] && t[n..n + |c|] == c && ReadsLike(u, n, t, |c|)
    ensures Scan(t, 0, READY) == Scan(u, 0, READY)
  {
    ScanToSpace(t, p, n, s);
    ScanToSpace(u, p, n, s);
    ScanBehindComment(t, u, c, n, s);
  }

  /** A comment behind a closed piece and a space is as good as not there. */
  lemma CommentVanishes(p: string, c: string, rest: string)
    requires Plain(p) && IsComment(c)
    ensures Statements(p + " " + c + rest) == Statements(p + " " + rest)
  {
    var t, u, n := p + " " + c + rest, p + " " + rest, |p| + 1;
    assert t[..n] == p + " " == u[..n];
    assert t[n..n + |c|] == c;
    CommentDropped(t, u, p, c, n, Scanner([], p + " ", None));
    SameScan(t, u);
  }

  /** With comments removed it is not so: what they kept apart may come together, and the
      statement found here is itself a comment. */
  lemma CommentsGlue()
    ensures Statements("-/**/-") == ["--"] && Statements("--") == []
  {
    var t := "-/**/-";
    assert BlockEnd(t, 3) == 5 && BlockEnd(t, 2) == 5 && BlockEnd(t, 1) == 5;
    assert Next(t, 0, None) == Token(1, true, None, false) && Next(t, 1, None) == Token(5, false, None, false);
    assert "" + t[0..1] == "-" && "-" + t[5..6] == "--";
    assert Scan(t, 5, Scanner([], "-", None)) == Scanner([], "--", None);
    assert Scan(t, 1, Scanner([], "-", None)) == Scanner([], "--", None);
    TrimmedIsKept("--");
    assert NonBlank(["--"], 0) == [];
    assert Pieces(Scan(t, 0, READY)) == ["--"] && [] + ["--"] == ["--"];
    assert NonBlank(["--"], 1) == ["--"];
    assert LineEnd("--", 1) == 2 && LineEnd("--", 0) == 2;
    assert Scan("--", 0, READY) == READY;
  }

  // ---------------------------------------------------------------------------
  // What quotes hold
  // ---------------------------------------------------------------------------

  lemma {:induction false} QuotePasses(t: string, i: nat, q: char)
    requires q in {'\'', '"', '`'} && i < |t| && t[|t| - 1] == q
    requires forall k | i <= k < |t| - 1 :: t[k] != q && t[k] != '\\'
    ensures Passes(t, i, |t|, Some(q), None)
    decreases |t| - i
  {
    if i < |t| - 1 {
      QuotePasses(t, i + 1, q);
    }
  }

  /** Each of the three quotes holds whatever does not end it, comments, separators and the
      other two quotes alike: the quoted text is one statement, found as it stands. */
  lemma QuotedIsOneStatement(q: char, body: string)
    requires q in {'\'', '"', '`'} && q !in body && '\\' !in body
    ensures Standalone([q] + body + [q]) && Statements([q] + body + [q]) == [[q] + body + [q]]
  {
    var t := [q] + body + [q];
    forall k | 1 <= k < |t| - 1 ensures t[k] != q && t[k] != '\\' {
      assert t[k] == body[k - 1];
    }
    QuotePasses(t, 1, q);
    assert Next(t, 0, None) == Token(1, true, Some(q), false);
    SplitInvertsJoin([t]);
  }
}
