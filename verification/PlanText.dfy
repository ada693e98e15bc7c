/**
 Reading the text of a Spark plan (backend/plan_capture/plan_parser.py): splitting on
 commas outside brackets, finding the alias of an item, and the bracketed groups of a line.
 */
module PlanText {
  import opened Alphabets
  import opened Text
  import opened Wrappers

  // ---------------------------------------------------------------------------
  // Splitting
  // ---------------------------------------------------------------------------

  /** The bracket depth after one more character. Round and square brackets count alike,
      and the depth may become negative. */
  function Deepen(depth: int, ch: char): int
  {
    if ch == '(' || ch == '[' then depth + 1 else if ch == ')' || ch == ']' then depth - 1 else depth
  }

  datatype Splitter = Splitter(out: seq<string>, depth: int, cur: string)

  function SplitFrom(t: string, i: nat, s: Splitter, sep: char): Splitter
    requires i <= |t|
    decreases |t| - i
  {
    if i == |t| then s
    else
      var depth := Deepen(s.depth, t[i]);
      SplitFrom(t, i + 1, if t[i] == sep && depth == 0 then Splitter(s.out + [s.cur], depth, "") else Splitter(s.out, depth, s.cur + [t[i]]), sep)
  }

  const START := Splitter([], 0, "")

  /** The pieces between the separators at depth zero. */
  function Pieces(t: string, sep: char): seq<string>
  {
    var s := SplitFrom(t, 0, START, sep);
    s.out + [s.cur]
  }

  method SplitTop(t: string, sep: char) returns (items: seq<string>)
    ensures items == NonBlank(Pieces(t, sep), |Pieces(t, sep)|)
  {
    var out: seq<string>, depth, cur := [], 0, "";
    for i := 0 to |t|
      invariant SplitFrom(t, i, Splitter(out, depth, cur), sep) == SplitFrom(t, 0, START, sep)
    {
      var ch := t[i];
      if ch == '(' || ch == '[' {
        depth := depth + 1;
      } else if ch == ')' || ch == ']' {
        depth := depth - 1;
      }
      if ch == sep && depth == 0 {
        out, cur := out + [cur], "";
      } else {
        cur := cur + [ch];
      }
    }
    ghost var pieces := out + [cur];
    NonBlankAppend(out, cur);
    if cur != "" {
      out := out + [cur];
    }
    items := DropBlank(out);
  }

  lemma {:induction false} NonBlankPrefix(out: seq<string>, more: string, n: nat)
    requires n <= |out|
    ensures NonBlank(out + [more], n) == NonBlank(out, n)
  {
    if n > 0 {
      NonBlankPrefix(out, more, n - 1);
    }
  }

  lemma NonBlankAppend(out: seq<string>, more: string)
    ensures NonBlank(out + [more], |out + [more]|) == NonBlank(out, |out|) + if Strip(more) != "" then [Strip(more)] else []
  {
    NonBlankPrefix(out, more, |out|);
  }

  /** From `i` to `n` there is no separator at depth zero, and the depth goes from `depth`
      to `after`. */
  predicate Crosses(t: string, i: nat, n: nat, depth: int, after: int, sep: char)
    requires i <= n <= |t|
    decreases n - i
  {
    if i == n then depth == after
    else var d := Deepen(depth, t[i]); !(t[i] == sep && d == 0) && Crosses(t, i + 1, n, d, after, sep)
  }

  lemma {:induction false} SplitCrosses(t: string, i: nat, n: nat, s: Splitter, after: int, sep: char)
    requires i <= n <= |t| && Crosses(t, i, n, s.depth, after, sep)
    ensures SplitFrom(t, i, s, sep) == SplitFrom(t, n, Splitter(s.out, after, s.cur + t[i..n]), sep)
    decreases n - i
  {
    if i == n {
      assert s.cur + t[i..n] == s.cur;
    } else {
      var d := Deepen(s.depth, t[i]);
      SplitCrosses(t, i + 1, n, Splitter(s.out, d, s.cur + [t[i]]), after, sep);
      assert s.cur + [t[i]] + t[i + 1..n] == s.cur + t[i..n];
    }
  }

  lemma {:induction false} CrossesElsewhere(t: string, i: nat, n: nat, u: string, j: nat, m: nat, depth: int, after: int, sep: char)
    requires i <= n <= |t| && j <= m <= |u| && t[i..n] == u[j..m] && Crosses(t, i, n, depth, after, sep)
    ensures Crosses(u, j, m, depth, after, sep)
    decreases n - i
  {
    assert |t[i..n]| == n - i == m - j;
    if i < n {
      assert t[i] == t[i..n][0] == u[j];
      assert t[i + 1..n] == t[i..n][1..] == u[j + 1..m];
      CrossesElsewhere(t, i + 1, n, u, j + 1, m, Deepen(depth, t[i]), after, sep);
    }
  }

  /** The piece has no separator at depth zero and closes as many brackets as it opens. */
  predicate Closed(p: string, sep: char)
  {
    Crosses(p, 0, |p|, 0, 0, sep)
  }

  /** The piece has no separator at depth zero. */
  ghost predicate Unbroken(p: string, sep: char)
  {
    exists after :: Crosses(p, 0, |p|, 0, after, sep)
  }

  /** All pieces but the last are closed, and the last has no separator. */
  ghost predicate Decomposition(parts: seq<string>, sep: char)
  {
    parts != [] && (forall k | 0 <= k < |parts| - 1 :: Closed(parts[k], sep)) && Unbroken(parts[|parts| - 1], sep)
  }

  lemma SplitPiece(t: string, i: nat, parts: seq<string>, k: nat, sep: char, after: int)
    requires i <= |t| && k < |parts| && Joined(t, i, parts, k, sep) && Crosses(parts[k], 0, |parts[k]|, 0, after, sep)
    ensures SplitFrom(t, i, Splitter(parts[..k], 0, ""), sep) == SplitFrom(t, i + |parts[k]|, Splitter(parts[..k], after, parts[k]), sep)
  {
    var p, n := parts[k], i + |parts[k]|;
    assert p[0..|p|] == t[i..n];
    CrossesElsewhere(p, 0, |p|, t, i, n, 0, after, sep);
    SplitCrosses(t, i, n, Splitter(parts[..k], 0, ""), after, sep);
    assert "" + t[i..n] == p;
  }

  lemma {:induction false} SplitJoined(t: string, i: nat, parts: seq<string>, k: nat, sep: char)
    requires i <= |t| && k < |parts| && Joined(t, i, parts, k, sep) && Decomposition(parts, sep) && Deepen(0, sep) == 0
    ensures var s := SplitFrom(t, i, Splitter(parts[..k], 0, ""), sep); s.out == parts[..|parts| - 1] && s.cur == parts[|parts| - 1]
    decreases |parts| - k
  {
    if k + 1 < |parts| {
      SplitPiece(t, i, parts, k, sep, 0);
      assert parts[..k] + [parts[k]] == parts[..k + 1];
      SplitJoined(t, i + |parts[k]| + 1, parts, k + 1, sep);
    } else {
      var after :| Crosses(parts[k], 0, |parts[k]|, 0, after, sep);
      SplitPiece(t, i, parts, k, sep, after);
    }
  }

  /** Joining and splitting: any decomposition is found again. */
  lemma PiecesOfJoin(parts: seq<string>, sep: char)
    requires Decomposition(parts, sep) && Deepen(0, sep) == 0
    ensures Pieces(Join(parts, sep), sep) == parts
  {
    var t := Join(parts, sep);
    assert t[0..] == t;
    JoinIsJoined(t, 0, parts, 0, sep);
    assert parts[..0] == [];
    SplitJoined(t, 0, parts, 0, sep);
  }

  lemma {:induction false} CrossesMore(p: string, ch: char, i: nat, depth: int, after: int, sep: char)
    requires i <= |p| && Crosses(p, i, |p|, depth, after, sep) && !(ch == sep && Deepen(after, ch) == 0)
    ensures Crosses(p + [ch], i, |p| + 1, depth, Deepen(after, ch), sep)
    decreases |p| - i
  {
    if i < |p| {
      CrossesMore(p, ch, i + 1, Deepen(depth, p[i]), after, sep);
    }
  }

  /** Up to position `i`, the pieces so far are closed, the current one is unbroken, and
      together they are the text. */
  ghost predicate Splitting(t: string, i: nat, s: Splitter, sep: char)
  {
    && i <= |t| && Join(s.out + [s.cur], sep) == t[..i]
    && (forall k | 0 <= k < |s.out| :: Closed(s.out[k], sep)) && Crosses(s.cur, 0, |s.cur|, 0, s.depth, sep)
  }

  lemma SplittingCuts(t: string, i: nat, s: Splitter, sep: char)
    requires Splitting(t, i, s, sep) && i < |t| && t[i] == sep && Deepen(s.depth, t[i]) == 0 && Deepen(0, sep) == 0
    ensures Splitting(t, i + 1, Splitter(s.out + [s.cur], 0, ""), sep)
  {
    JoinStartsNext(s.out, s.cur, 0, sep);
    assert t[..i] + [t[i]] == t[..i + 1];
  }

  lemma SplittingAdds(t: string, i: nat, s: Splitter, sep: char)
    requires Splitting(t, i, s, sep) && i < |t| && !(t[i] == sep && Deepen(s.depth, t[i]) == 0)
    ensures Splitting(t, i + 1, Splitter(s.out, Deepen(s.depth, t[i]), s.cur + [t[i]]), sep)
  {
    CrossesMore(s.cur, t[i], 0, 0, s.depth, sep);
    JoinExtendsLast(s.out, s.cur, [t[i]], 0, sep);
    assert t[..i] + [t[i]] == t[..i + 1];
  }

  lemma {:induction false} SplittingEnds(t: string, i: nat, s: Splitter, sep: char)
    requires Splitting(t, i, s, sep) && Deepen(0, sep) == 0
    ensures Splitting(t, |t|, SplitFrom(t, i, s, sep), sep)
    decreases |t| - i
  {
    if i < |t| {
      if t[i] == sep && Deepen(s.depth, t[i]) == 0 {
        SplittingCuts(t, i, s, sep);
        SplittingEnds(t, i + 1, Splitter(s.out + [s.cur], 0, ""), sep);
      } else {
        SplittingAdds(t, i, s, sep);
        SplittingEnds(t, i + 1, Splitter(s.out, Deepen(s.depth, t[i]), s.cur + [t[i]]), sep);
      }
    }
  }

  /** The pieces of a text are its one decomposition at the separators of depth zero. */
  lemma PiecesExactly(t: string, parts: seq<string>, sep: char)
    requires Deepen(0, sep) == 0
    ensures parts == Pieces(t, sep) <==> Decomposition(parts, sep) && Join(parts, sep) == t
  {
    assert [] + [""] == [""] && t[..0] == "";
    SplittingEnds(t, 0, START, sep);
    assert t[..|t|] == t;
    if Decomposition(parts, sep) && Join(parts, sep) == t {
      PiecesOfJoin(parts, sep);
    }
  }

  lemma {:induction false} NonBlankStrips(pieces: seq<string>, items: seq<string>, n: nat)
    requires n <= |pieces| == |items| && forall k | 0 <= k < |items| :: items[k] != "" && Strip(pieces[k]) == items[k]
    ensures NonBlank(pieces, n) == items[..n]
  {
    if n > 0 {
      NonBlankStrips(pieces, items, n - 1);
      assert items[..n - 1] + [items[n - 1]] == items[..n];
    }
  }

  /** Items joined by commas, with or without spaces around them, are found again. */
  lemma SplitFindsItems(pieces: seq<string>, items: seq<string>, t: string, sep: char)
    requires Deepen(0, sep) == 0 && |pieces| == |items| > 0 && t == Join(pieces, sep)
    requires forall k | 0 <= k < |items| :: items[k] != "" && Strip(pieces[k]) == items[k] && Closed(pieces[k], sep)
    ensures NonBlank(Pieces(t, sep), |Pieces(t, sep)|) == items
  {
    assert Unbroken(pieces[|pieces| - 1], sep) by {
      assert Closed(pieces[|pieces| - 1], sep);
    }
    PiecesOfJoin(pieces, sep);
    NonBlankStrips(pieces, items, |pieces|);
    assert items[..|items|] == items;
  }

  // ---------------------------------------------------------------------------
  // The alias of an item
  // ---------------------------------------------------------------------------

  predicate IsDigit(c: char)
  {
    '0' <= c <= '9'
  }

  predicate IsNameStart(c: char)
  {
    'A' <= c <= 'Z' || 'a' <= c <= 'z' || c == '_'
  }

  predicate IsName(s: string)
  {
    s != "" && IsNameStart(s[0]) && forall k | 0 <= k < |s| :: IsNameStart(s[k]) || IsDigit(s[k])
  }

  predicate IsNumber(s: string)
  {
    s != "" && forall k | 0 <= k < |s| :: IsDigit(s[k])
  }

  function DigitValue(c: char): nat
    requires IsDigit(c)
  {
    c as int - '0' as int
  }

  /** `int(digits)` */
  function Number(digits: string): nat
    requires forall k | 0 <= k < |digits| :: IsDigit(digits[k])
  {
    if digits == "" then 0 else Number(digits[..|digits| - 1]) * 10 + DigitValue(digits[|digits| - 1])
  }

  function HashAt(s: string, i: nat): nat
    requires i <= |s|
    ensures i <= HashAt(s, i) <= |s|
    decreases |s| - i
  {
    if i == |s| || s[i] == '#' then i else HashAt(s, i + 1)
  }

  function WithoutSuffix(s: string): string
  {
    if s != "" && s[|s| - 1] == 'L' then s[..|s| - 1] else s
  }

  /** An attribute reference `name#id` or `name#idL`, and nothing else. */
  function Attribute(s: string): Option<(string, nat)>
  {
    var h := HashAt(s, 0);
    if h == |s| then None
    else
      var name, digits := s[..h], WithoutSuffix(s[h + 1..]);
      if IsName(name) && IsNumber(digits) then Some((name, Number(digits))) else None
  }

  datatype Alias = Alias(expr: string, name: string, id: nat)

  predicate AsAt(item: string, i: nat)
  {
    i + 4 <= |item| && item[i] == ' ' && item[i + 1] == 'A' && item[i + 2] == 'S' && item[i + 3] == ' '
  }

  function AliasAt(item: string, i: nat): Option<Alias>
    requires i + 4 <= |item|
  {
    match Attribute(Strip(item[i + 4..]))
    case Some((name, id)) => Some(Alias(Strip(item[..i]), name, id))
    case None => None
  }

  /** The scan for ` AS ` from position `i` on. */
  function FindFrom(item: string, i: nat, depth: int): Option<Alias>
    decreases |item| - i
  {
    if i + 4 > |item| then None
    else if Deepen(depth, item[i]) == depth && depth == 0 && AsAt(item, i) && AliasAt(item, i).Some? then AliasAt(item, i)
    else FindFrom(item, i + 1, Deepen(depth, item[i]))
  }

  lemma SliceIsAs(item: string, i: nat)
    requires i + 4 <= |item|
    ensures item[i..i + 4] == " AS " <==> AsAt(item, i)
  {
    var four := item[i..i + 4];
    assert four[0] == item[i] && four[1] == item[i + 1] && four[2] == item[i + 2] && four[3] == item[i + 3];
  }

  method FindAs(item: string) returns (r: Option<Alias>)
    ensures r == FindFrom(item, 0, 0)
  {
    var depth := 0;
    for i := 0 to if |item| < 3 then 0 else |item| - 3
      invariant FindFrom(item, i, depth) == FindFrom(item, 0, 0)
    {
      var ch := item[i];
      SliceIsAs(item, i);
      if ch == '(' || ch == '[' {
        depth := depth + 1;
      } else if ch == ')' || ch == ']' {
        depth := depth - 1;
      } else if depth == 0 && item[i..i + 4] == " AS " {
        r := AliasAt(item, i);
        if r.Some? {
          return;
        }
      }
    }
    r := None;
  }

  lemma {:induction false} HashFound(s: string, i: nat, h: nat)
    requires i <= h < |s| && s[h] == '#' && forall k | i <= k < h :: s[k] != '#'
    ensures HashAt(s, i) == h
    decreases h - i
  {
    if i < h {
      HashFound(s, i + 1, h);
    }
  }

  /** A reference as Spark prints it is read back. */
  lemma AttributeReads(name: string, digits: string, suffix: string)
    requires IsName(name) && IsNumber(digits) && (suffix == "" || suffix == "L")
    ensures Attribute(name + ['#'] + (digits + suffix)) == Some((name, Number(digits)))
  {
    var s := name + ['#'] + (digits + suffix);
    HashFound(s, 0, |name|);
    assert s[..|name|] == name && s[|name| + 1..] == digits + suffix;
    if suffix == "" {
      assert digits + suffix == digits;
    } else {
      assert (digits + suffix)[..|digits|] == digits;
    }
  }

  const TEN := "0123456789"

  /** A number as it is printed. */
  function Decimal(n: nat): (digits: string)
    ensures IsNumber(digits)
  {
    if n < 10 then [TEN[n]] else Decimal(n / 10) + [TEN[n % 10]]
  }

  lemma DigitReads(d: nat)
    requires d < 10
    ensures DigitValue(TEN[d]) == d
  {
  }

  lemma NumberAppend(digits: string, c: char)
    requires IsDigit(c) && forall k | 0 <= k < |digits| :: IsDigit(digits[k])
    ensures Number(digits + [c]) == Number(digits) * 10 + DigitValue(c)
  {
    assert (digits + [c])[..|digits|] == digits;
  }

  lemma {:induction false} DecimalReads(n: nat)
    ensures Number(Decimal(n)) == n
  {
    if n < 10 {
      DigitReads(n);
      NumberAppend("", TEN[n]);
      assert "" + [TEN[n]] == [TEN[n]];
    } else {
      DecimalReads(n / 10);
      DigitReads(n % 10);
      NumberAppend(Decimal(n / 10), TEN[n % 10]);
    }
  }

  /** So every id is read back from how it is printed. */
  lemma AttributeIdReads(name: string, id: nat, suffix: string)
    requires IsName(name) && (suffix == "" || suffix == "L")
    ensures Attribute(name + ['#'] + (Decimal(id) + suffix)) == Some((name, id))
  {
    AttributeReads(name, Decimal(id), suffix);
    DecimalReads(id);
  }

  /** A letter or underscore, then letters, underscores and digits. */
  ghost predicate IsIdentifier(s: string)
  {
    s != "" && s[0] in LETTERS && forall c | c in s :: c in LETTERS || c in DIGITS
  }

  lemma NamesAreIdentifiers(s: string)
    ensures IsName(s) <==> IsIdentifier(s)
  {
    forall c: char ensures (IsNameStart(c) <==> c in LETTERS) && (IsDigit(c) <==> c in DIGITS) {
      LettersListed(c);
      DigitsListed(c);
    }
    if IsIdentifier(s) {
      assert forall k | 0 <= k < |s| :: s[k] in s;
    }
  }

  /** The text is an identifier, a hash, digits that read as `id`, and perhaps an L. */
  ghost predicate IsReference(s: string, name: string, id: nat)
  {
    IsIdentifier(name) && exists digits, suffix ::
      IsNumber(digits) && Number(digits) == id && (suffix == "" || suffix == "L") && s == name + ['#'] + (digits + suffix)
  }

  lemma ReferenceIsRead(s: string, name: string, id: nat)
    requires IsReference(s, name, id)
    ensures Attribute(s) == Some((name, id))
  {
    NamesAreIdentifiers(name);
    var digits, suffix :| IsNumber(digits) && Number(digits) == id && (suffix == "" || suffix == "L") && s == name + ['#'] + (digits + suffix);
    AttributeReads(name, digits, suffix);
  }

  lemma PrintedIsReference(s: string, name: string, digits: string, suffix: string)
    requires IsName(name) && IsNumber(digits) && (suffix == "" || suffix == "L") && s == name + ['#'] + (digits + suffix)
    ensures IsReference(s, name, Number(digits))
  {
    NamesAreIdentifiers(name);
  }

  lemma SplitAtHash(s: string, h: nat)
    requires h < |s| && s[h] == '#'
    ensures s == s[..h] + ['#'] + s[h + 1..]
  {
  }

  lemma SplitSuffix(rest: string) returns (suffix: string)
    ensures (suffix == "" || suffix == "L") && rest == WithoutSuffix(rest) + suffix
  {
    suffix := if rest != "" && rest[|rest| - 1] == 'L' then "L" else "";
  }

  lemma AttributeIsReference(s: string)
    requires Attribute(s).Some?
    ensures IsReference(s, Attribute(s).value.0, Attribute(s).value.1)
  {
    var h := HashAt(s, 0);
    HashIsThere(s, 0);
    SplitAtHash(s, h);
    var suffix := SplitSuffix(s[h + 1..]);
    PrintedIsReference(s, s[..h], WithoutSuffix(s[h + 1..]), suffix);
  }

  /** Nothing but a reference is taken for an attribute, and every reference is. */
  lemma AttributeExactly(s: string, name: string, id: nat)
    ensures Attribute(s) == Some((name, id)) <==> IsReference(s, name, id)
  {
    if Attribute(s) == Some((name, id)) {
      AttributeIsReference(s);
    }
    if IsReference(s, name, id) {
      ReferenceIsRead(s, name, id);
    }
  }

  /** A reference holds no space. */
  lemma AttributeHasNoSpace(s: string)
    requires Attribute(s).Some?
    ensures s != "" && forall k | 0 <= k < |s| :: !IsSpace(s[k])
  {
    var h := HashAt(s, 0);
    var rest := s[h + 1..];
    HashIsThere(s, 0);
    forall k | 0 <= k < |s| ensures !IsSpace(s[k]) {
      if k < h {
        assert s[k] == s[..h][k];
      } else if h < k {
        assert s[k] == rest[k - h - 1];
        assert k - h - 1 < |WithoutSuffix(rest)| ==> rest[k - h - 1] == WithoutSuffix(rest)[k - h - 1];
      }
    }
  }

  lemma {:induction false} HashIsThere(s: string, i: nat)
    requires i <= |s| && HashAt(s, i) < |s|
    ensures s[HashAt(s, i)] == '#'
    decreases |s| - i
  {
    if s[i] != '#' {
      HashIsThere(s, i + 1);
    }
  }

  /** The depth after reading `e` from position `i` on. */
  function DepthFrom(e: string, i: nat, depth: int): int
    requires i <= |e|
    decreases |e| - i
  {
    if i == |e| then depth else DepthFrom(e, i + 1, Deepen(depth, e[i]))
  }

  /** Opening less closing brackets, of both shapes. */
  function Excess(e: string, i: nat): int
    requires i <= |e|
  {
    var m := multiset(e[i..]);
    var opening: int, closing: int := m['('] + m['['], m[')'] + m[']'];
    opening - closing
  }

  /** The depth behind a text is the excess of opening brackets. */
  lemma {:induction false} DepthIsExcess(e: string, i: nat, depth: int)
    requires i <= |e|
    ensures DepthFrom(e, i, depth) == depth + Excess(e, i)
    decreases |e| - i
  {
    if i < |e| {
      DepthIsExcess(e, i + 1, Deepen(depth, e[i]));
      assert e[i..] == [e[i]] + e[i + 1..];
    }
  }

  /** The item reads `e`, then ` AS `, then `a`. */
  ghost predicate Reads(item: string, e: string, a: string)
  {
    && |item| == |e| + 4 + |a| && item[..|e|] == e && item[|e| + 4..] == a && AsAt(item, |e|)
  }

  lemma ItemReads(e: string, a: string)
    ensures Reads(e + " AS " + a, e, a)
  {
    var item := e + " AS " + a;
    assert item[|e|] == " AS "[0] && item[|e| + 1] == " AS "[1] && item[|e| + 2] == " AS "[2] && item[|e| + 3] == " AS "[3];
  }

  /** An earlier ` AS ` is not the alias: what follows it holds a space. */
  lemma EarlierIsNone(item: string, e: string, a: string, i: nat)
    requires Reads(item, e, a) && Attribute(a).Some? && i < |e| && AsAt(item, i)
    ensures AliasAt(item, i).None?
  {
    AttributeHasNoSpace(a);
    assert item[|e| + 4] == item[|e| + 4..][0] == a[0];
    NoOverlap(item, i, |e|);
    SpaceStays(item, i + 4, |e| + 3);
    if Attribute(Strip(item[i + 4..])).Some? {
      AttributeHasNoSpace(Strip(item[i + 4..]));
    }
  }

  lemma NoOverlap(item: string, i: nat, j: nat)
    requires AsAt(item, i) && AsAt(item, j) && i < j
    ensures i + 3 <= j
  {
  }

  /** A space between two other characters survives the stripping of what follows `i`. */
  lemma SpaceStays(item: string, i: nat, k: nat)
    requires i < k && k + 1 < |item| && item[k] == ' ' && !IsSpace(item[k - 1]) && !IsSpace(item[k + 1])
    ensures ' ' in Strip(item[i..])
  {
    var rest := item[i..];
    assert rest[k - 1 - i] == item[k - 1] && rest[k - i] == ' ' && rest[k + 1 - i] == item[k + 1];
    StripKeepsInner(rest, k - 1 - i, k - i, k + 1 - i);
  }

  lemma LaterIsNone(item: string, e: string, a: string, i: nat)
    requires Reads(item, e, a) && Attribute(a).Some? && |e| < i
    ensures !AsAt(item, i)
  {
    AttributeHasNoSpace(a);
    if |e| + 4 <= i < |item| {
      assert item[i] == a[i - |e| - 4];
    } else if i + 3 < |item| {
      assert item[i + 3] == a[i - |e| - 1];
    }
  }

  lemma {:induction false} NothingLater(item: string, e: string, a: string, i: nat, depth: int)
    requires Reads(item, e, a) && Attribute(a).Some? && |e| < i
    ensures FindFrom(item, i, depth) == None
    decreases |item| - i
  {
    if i + 4 <= |item| {
      LaterIsNone(item, e, a, i);
      NothingLater(item, e, a, i + 1, Deepen(depth, item[i]));
    }
  }

  lemma {:induction false} FindReaches(item: string, e: string, a: string, i: nat, depth: int)
    requires Reads(item, e, a) && Attribute(a).Some? && i <= |e|
    ensures FindFrom(item, i, depth) == FindFrom(item, |e|, DepthFrom(e, i, depth))
    decreases |e| - i
  {
    if i < |e| {
      assert item[i] == item[..|e|][i] == e[i];
      if AsAt(item, i) {
        EarlierIsNone(item, e, a, i);
      }
      FindReaches(item, e, a, i + 1, Deepen(depth, e[i]));
    }
  }

  /** The alias of `e AS name#id` is found, whatever `e` holds, if and only if `e` closes as
      many brackets as it opens. */
  lemma FindAsExactly(e: string, a: string)
    requires Attribute(a).Some?
    ensures FindFrom(e + " AS " + a, 0, 0) ==
            if DepthFrom(e, 0, 0) == 0 then Some(Alias(Strip(e), Attribute(a).value.0, Attribute(a).value.1)) else None
  {
    var item := e + " AS " + a;
    ItemReads(e, a);
    FindReaches(item, e, a, 0, 0);
    AttributeHasNoSpace(a);
    StripsNothing(a);
    NothingLater(item, e, a, |e| + 1, Deepen(DepthFrom(e, 0, 0), item[|e|]));
  }

  // ---------------------------------------------------------------------------
  // Bracketed groups
  // ---------------------------------------------------------------------------

  type Span = (nat, nat)

  /** The depth in square brackets before position `i`; it may be negative. */
  function Square(t: string, i: nat): int
    requires i <= |t|
  {
    if i == 0 then 0 else Square(t, i - 1) + if t[i - 1] == '[' then 1 else if t[i - 1] == ']' then -1 else 0
  }

  /** A top-level group: it opens at depth zero and closes where the depth is first zero
      again. */
  ghost predicate IsGroup(t: string, a: nat, b: nat)
  {
    && a < b < |t| && t[a] == '[' && Square(t, a) == 0 && Square(t, b + 1) == 0
    && forall x | a < x <= b :: Square(t, x) != 0
  }

  /** The loop's variables before position `i`. */
  datatype Groups = Groups(spans: seq<Span>, start: Option<nat>)

  /** The spans are the groups that have closed before position `i`, in order. */
  ghost predicate ListsGroups(t: string, i: nat, spans: seq<Span>)
  {
    && (forall a: nat, b: nat :: (a, b) in spans <==> IsGroup(t, a, b) && b < i)
    && (forall j, k | 0 <= j < k < |spans| :: spans[j].1 < spans[k].0)
  }

  /** The position where the group that is still open at `i` began. */
  ghost predicate OpenedAt(t: string, i: nat, a: nat, spans: seq<Span>)
  {
    && a < i <= |t| && t[a] == '[' && Square(t, a) == 0 && (forall x | a < x <= i :: Square(t, x) > 0)
    && (forall k | 0 <= k < |spans| :: spans[k].1 < a)
  }

  ghost predicate Grouping(t: string, i: nat, g: Groups)
  {
    i <= |t| && ListsGroups(t, i, g.spans) && Pending(t, i, g)
  }

  ghost predicate Pending(t: string, i: nat, g: Groups)
    requires i <= |t|
  {
    match g.start case Some(a) => OpenedAt(t, i, a, g.spans) case None => Square(t, i) <= 0
  }

  function Group(t: string, i: nat, g: Groups): Groups
    requires i < |t|
  {
    if t[i] == '[' && Square(t, i) == 0 then g.(start := Some(i))
    else if t[i] == ']' && Square(t, i) == 1 && g.start.Some? then Groups(g.spans + [(g.start.value, i)], None)
    else g
  }

  lemma {:induction false} GroupIsDeep(t: string, a: nat, b: nat, x: nat)
    requires IsGroup(t, a, b) && a < x <= b
    ensures Square(t, x) > 0
    decreases x
  {
    if x > a + 1 {
      GroupIsDeep(t, a, b, x - 1);
    }
  }

  lemma OpenCloses(t: string, i: nat, a: nat, spans: seq<Span>)
    requires i < |t| && OpenedAt(t, i, a, spans) && t[i] == ']' && Square(t, i) == 1
    ensures IsGroup(t, a, i)
  {
    assert Square(t, i + 1) == 0;
  }

  lemma OnlyOpenCloses(t: string, i: nat, g: Groups, a: nat)
    requires i < |t| && Pending(t, i, g) && IsGroup(t, a, i)
    ensures g.start == Some(a) && t[i] == ']' && Square(t, i) == 1
  {
    GroupIsDeep(t, a, i, i);
    assert Square(t, i + 1) == 0;
    assert g.start.Some?;
    assert a <= g.start.value;
  }

  /** The only group that can close at `i` is the open one. */
  lemma ClosesAt(t: string, i: nat, g: Groups, a: nat)
    requires i < |t| && Pending(t, i, g)
    ensures IsGroup(t, a, i) <==> g.start == Some(a) && t[i] == ']' && Square(t, i) == 1
  {
    if IsGroup(t, a, i) {
      OnlyOpenCloses(t, i, g, a);
    } else if g.start == Some(a) && t[i] == ']' && Square(t, i) == 1 {
      OpenCloses(t, i, a, g.spans);
    }
  }

  lemma GroupingKeeps(t: string, i: nat, g: Groups)
    requires Grouping(t, i, g) && i < |t| && !(t[i] == ']' && Square(t, i) == 1 && g.start.Some?)
    ensures ListsGroups(t, i + 1, g.spans)
  {
    forall a: nat, b: nat ensures (a, b) in g.spans <==> IsGroup(t, a, b) && b < i + 1 {
      if b == i {
        ClosesAt(t, i, g, a);
      }
    }
  }

  lemma GroupingCloses(t: string, i: nat, g: Groups)
    requires Grouping(t, i, g) && i < |t| && t[i] == ']' && Square(t, i) == 1 && g.start.Some?
    ensures ListsGroups(t, i + 1, g.spans + [(g.start.value, i)])
  {
    var spans := g.spans + [(g.start.value, i)];
    forall a: nat, b: nat ensures (a, b) in spans <==> IsGroup(t, a, b) && b < i + 1 {
      if b == i {
        ClosesAt(t, i, g, a);
      }
    }
  }

  lemma GroupingStep(t: string, i: nat, g: Groups)
    requires Grouping(t, i, g) && i < |t|
    ensures Grouping(t, i + 1, Group(t, i, g))
  {
    if t[i] == ']' && Square(t, i) == 1 && g.start.Some? {
      GroupingCloses(t, i, g);
    } else {
      GroupingKeeps(t, i, g);
      if t[i] == '[' && Square(t, i) == 0 {
        forall k | 0 <= k < |g.spans| ensures g.spans[k].1 < i {
          assert (g.spans[k].0, g.spans[k].1) in g.spans;
        }
      }
    }
  }

  /** `groups` are the texts between the brackets of `spans`. */
  ghost predicate ContentsOf(t: string, groups: seq<string>, spans: seq<Span>)
  {
    |groups| == |spans| && forall k | 0 <= k < |spans| :: spans[k].0 < spans[k].1 < |t| && groups[k] == t[spans[k].0 + 1..spans[k].1]
  }

  lemma ContentsGrow(t: string, i: nat, groups: seq<string>, g: Groups)
    requires ContentsOf(t, groups, g.spans) && Grouping(t, i, g) && i < |t| && g.start.Some?
    ensures g.start.value < i && ContentsOf(t, groups + [t[g.start.value + 1..i]], g.spans + [(g.start.value, i)])
  {
  }

  /** The contents of exactly the top-level groups, in order. */
  ghost predicate TopLevelGroups(t: string, groups: seq<string>)
  {
    exists spans :: ListsGroups(t, |t|, spans) && ContentsOf(t, groups, spans)
  }

  method AllBrackets(t: string) returns (groups: seq<string>)
    ensures TopLevelGroups(t, groups)
  {
    ghost var spans: seq<Span> := [];
    groups := [];
    var depth, start: Option<nat> := 0, None;
    for i := 0 to |t|
      invariant depth == Square(t, i) && Grouping(t, i, Groups(spans, start)) && ContentsOf(t, groups, spans)
    {
      ghost var g := Groups(spans, start);
      GroupingStep(t, i, g);
      if t[i] == '[' {
        if depth == 0 {
          start := Some(i);
        }
        depth := depth + 1;
      } else if t[i] == ']' {
        depth := depth - 1;
        if depth == 0 && start.Some? {
          ContentsGrow(t, i, groups, g);
          groups := groups + [t[start.value + 1..i]];
          spans := spans + [(start.value, i)];
          start := None;
        }
      }
      assert Groups(spans, start) == Group(t, i, g);
    }
  }
}
