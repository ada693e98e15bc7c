/**
 Lexing the predicates of data-quality rules (backend/routes/dq.py): a position-by-position
 scan into tokens.
 */
module DqLexer {
  import opened Alphabets
  import opened Text
  import opened Wrappers

  datatype Kind = Space | Number | Str | Quoted | Word | Operator | Punctuation

  datatype Token = Token(kind: Kind, text: string)

  datatype LexError = HasBackslash | UnterminatedString | UnterminatedIdentifier | BadIdentifier | Disallowed(ch: char)

  /** A recognised token: its kind and where it ends. */
  datatype Found = Found(kind: Kind, end: nat)

  const MAX_IDENTIFIER := 255

  // ---------------------------------------------------------------------------
  // One token
  // ---------------------------------------------------------------------------

  predicate IsDigit(c: char)
  {
    '0' <= c <= '9'
  }

  predicate IsWordStart(c: char)
  {
    'A' <= c <= 'Z' || 'a' <= c <= 'z' || c == '_'
  }

  predicate IsWordPart(c: char)
  {
    IsWordStart(c) || IsDigit(c)
  }

  predicate IsTickPart(c: char)
  {
    c != '`'
  }

  /** The end of the run of characters of a class. */
  function RunEnd(isPart: char -> bool, t: string, i: nat): (j: nat)
    requires i <= |t|
    ensures i <= j <= |t|
    decreases |t| - i
  {
    if i == |t| || !isPart(t[i]) then i else RunEnd(isPart, t, i + 1)
  }

  predicate CharAt(t: string, i: nat, isPart: char -> bool)
  {
    i < |t| && isPart(t[i])
  }

  predicate IsExponent(c: char)
  {
    c == 'e' || c == 'E'
  }

  predicate IsSign(c: char)
  {
    c == '+' || c == '-'
  }

  predicate IsDot(c: char)
  {
    c == '.'
  }

  function FractionEnd(t: string, j: nat): (k: nat)
    requires j <= |t|
    ensures j <= k <= |t|
  {
    if CharAt(t, j, IsDot) && CharAt(t, j + 1, IsDigit) then RunEnd(IsDigit, t, j + 1) else j
  }

  function ExponentEnd(t: string, k: nat): (e: nat)
    requires k <= |t|
    ensures k <= e <= |t|
  {
    if !CharAt(t, k, IsExponent) then k
    else
      var m := if CharAt(t, k + 1, IsSign) then k + 2 else k + 1;
      if CharAt(t, m, IsDigit) then RunEnd(IsDigit, t, m) else k
  }

  /** Where a literal whose body starts at `i` ends, if it ends: at a quote that is not
      doubled. Without one, the pattern would first close the literal at its last doubled
      quote and then fail on the very next character with the same error. */
  function StringEnd(t: string, i: nat): (r: Option<nat>)
    requires i <= |t|
    ensures r.Some? ==> i < r.value <= |t|
    decreases |t| - i
  {
    if i == |t| then None
    else if t[i] != '\'' then StringEnd(t, i + 1)
    else if i + 1 < |t| && t[i + 1] == '\'' then StringEnd(t, i + 2)
    else Some(i + 1)
  }

  /** The operator at `i`, by its length; 0 if there is none. */
  function OperatorLength(t: string, i: nat): (n: nat)
    requires i < |t|
    ensures n <= 2 && i + n <= |t|
  {
    var c, next := t[i], if i + 1 < |t| then t[i + 1] else '\0';
    if c == '<' then if next == '=' || next == '>' then 2 else 1
    else if c == '>' then if next == '=' then 2 else 1
    else if c == '!' then if next == '=' then 2 else 0
    else if c == '|' then if next == '|' then 2 else 0
    else if c == '=' || c == '+' || c == '-' || c == '*' || c == '/' || c == '%' then 1
    else 0
  }

  function NumberEnd(t: string, i: nat): (e: nat)
    requires i <= |t|
    ensures i <= e <= |t|
  {
    ExponentEnd(t, FractionEnd(t, RunEnd(IsDigit, t, i)))
  }

  predicate IsPunctuation(c: char)
  {
    c == '(' || c == ')' || c == ',' || c == '.'
  }

  /** The characters a quoted identifier may not hold. */
  predicate CleanIdentifier(t: string, a: nat, b: nat)
    requires a <= b <= |t|
  {
    forall k | a <= k < b :: t[k] != '\'' && t[k] != '\\' && t[k] != ';'
  }

  function MatchQuoted(t: string, i: nat): (r: Result<Found, LexError>)
    requires i < |t|
    ensures r.Ok? ==> i < r.value.end <= |t|
  {
    var j := RunEnd(IsTickPart, t, i + 1);
    if j == |t| || j == i + 1 || j - i - 1 > MAX_IDENTIFIER then Err(UnterminatedIdentifier)
    else if !CleanIdentifier(t, i + 1, j) then Err(BadIdentifier)
    else Ok(Found(Quoted, j + 1))
  }

  /** The pattern tried at position `i`; there is nothing to match at the end. */
  function Match(t: string, i: nat): (r: Result<Found, LexError>)
    ensures r.Ok? ==> i < r.value.end <= |t|
  {
    if i >= |t| then Err(Disallowed('\0')) else MatchChar(t, i, t[i])
  }

  function MatchChar(t: string, i: nat, c: char): (r: Result<Found, LexError>)
    requires i < |t| && c == t[i]
    ensures r.Ok? ==> i < r.value.end <= |t|
  {
    if IsSpace(c) then Ok(Found(Space, RunEnd(IsSpace, t, i + 1)))
    else if IsDigit(c) then Ok(Found(Number, NumberEnd(t, i + 1)))
    else if c == '\'' then
      match StringEnd(t, i + 1)
      case Some(end) => Ok(Found(Str, end))
      case None => Err(UnterminatedString)
    else if c == '`' then MatchQuoted(t, i)
    else if IsWordStart(c) then Ok(Found(Word, RunEnd(IsWordPart, t, i + 1)))
    else if OperatorLength(t, i) > 0 then Ok(Found(Operator, i + OperatorLength(t, i)))
    else if IsPunctuation(c) then Ok(Found(Punctuation, i + 1))
    else Err(Disallowed(c))
  }

  // ---------------------------------------------------------------------------
  // The token stream
  // ---------------------------------------------------------------------------

  function Prepend(tokens: seq<Token>, r: Result<seq<Token>, LexError>): Result<seq<Token>, LexError>
  {
    match r
    case Ok(rest) => Ok(tokens + rest)
    case Err(e) => Err(e)
  }

  type Matcher = (string, nat) -> Result<Found, LexError>

  /** What the matcher finds is not empty and lies within the text. */
  ghost predicate Advances(m: Matcher)
  {
    forall t: string, i: nat :: m(t, i).Ok? ==> i < m(t, i).value.end <= |t|
  }

  function LexWith(m: Matcher, t: string, i: nat): Result<seq<Token>, LexError>
    requires i <= |t| && Advances(m)
    decreases |t| - i
  {
    if i == |t| then Ok([])
    else
      match m(t, i)
      case Err(e) => Err(e)
      case Ok(f) => Prepend([Token(f.kind, t[i..f.end])], LexWith(m, t, f.end))
  }

  function Tokens(t: string): Result<seq<Token>, LexError>
  {
    if '\\' in t then Err(HasBackslash) else LexWith(Match, t, 0)
  }

  method Tokenize(t: string) returns (r: Result<seq<Token>, LexError>)
    ensures r == Tokens(t)
  {
    if '\\' in t {
      return Err(HasBackslash);
    }
    var tokens: seq<Token> := [];
    var pos: nat := 0;
    PrependNothing(LexWith(Match, t, 0));
    while pos < |t|
      invariant pos <= |t| && Prepend(tokens, LexWith(Match, t, pos)) == LexWith(Match, t, 0)
    {
      var m := Match(t, pos);
      if m.Err? {
        return Err(m.error);
      }
      ghost var before := tokens;
      tokens := tokens + [Token(m.value.kind, t[pos..m.value.end])];
      PrependTwice(before, [Token(m.value.kind, t[pos..m.value.end])], LexWith(Match, t, m.value.end));
      pos := m.value.end;
    }
    assert tokens + [] == tokens;
    r := Ok(tokens);
  }

  lemma PrependTwice(a: seq<Token>, b: seq<Token>, r: Result<seq<Token>, LexError>)
    ensures Prepend(a, Prepend(b, r)) == Prepend(a + b, r)
  {
    if r.Ok? {
      assert a + (b + r.value) == a + b + r.value;
    }
  }

  function Texts(tokens: seq<Token>): string
  {
    if tokens == [] then "" else tokens[0].text + Texts(tokens[1..])
  }

  /** Lexing loses nothing: the token texts are the input. */
  lemma {:induction false} LexIsLossless(m: Matcher, t: string, i: nat)
    requires i <= |t| && Advances(m) && LexWith(m, t, i).Ok?
    ensures Texts(LexWith(m, t, i).value) == t[i..]
    decreases |t| - i
  {
    if i < |t| {
      var end := m(t, i).value.end;
      LexIsLossless(m, t, end);
      assert LexWith(m, t, i).value[1..] == LexWith(m, t, end).value;
      assert t[i..] == t[i..end] + t[end..];
    }
  }

  // ---------------------------------------------------------------------------
  // What a token is
  // ---------------------------------------------------------------------------

  /** The character classes, character by character. */
  lemma ClassesListed(c: char)
    ensures IsSpace(c) <==> c in SPACES
    ensures IsDigit(c) <==> c in DIGITS
    ensures IsWordStart(c) <==> c in LETTERS
    ensures IsWordPart(c) <==> c in LETTERS || c in DIGITS
    ensures IsPunctuation(c) <==> c in {'(', ')', ',', '.'}
  {
    SpacesListed(c);
    DigitsListed(c);
    LettersListed(c);
  }

  lemma {:induction false} RunIsClass(isPart: char -> bool, t: string, i: nat, x: nat)
    requires i <= |t| && i <= x < RunEnd(isPart, t, i)
    ensures isPart(t[x])
    decreases |t| - i
  {
    if i < x {
      RunIsClass(isPart, t, i + 1, x);
    }
  }

  lemma {:induction false} RunStops(isPart: char -> bool, t: string, i: nat)
    requires i <= |t|
    ensures RunEnd(isPart, t, i) == |t| || !isPart(t[RunEnd(isPart, t, i)])
    decreases |t| - i
  {
    if i < |t| && isPart(t[i]) {
      RunStops(isPart, t, i + 1);
    }
  }

  /** In a number a sign stands in front of a digit. */
  lemma NumberChars(t: string, i: nat, x: nat)
    requires i <= |t| && i <= x < NumberEnd(t, i)
    ensures IsDigit(t[x]) || IsDot(t[x]) || IsExponent(t[x]) || (IsSign(t[x]) && CharAt(t, x + 1, IsDigit))
  {
    var j := RunEnd(IsDigit, t, i);
    var k := FractionEnd(t, j);
    if x < j {
      RunIsClass(IsDigit, t, i, x);
    } else if j < x < k {
      RunIsClass(IsDigit, t, j + 1, x);
    } else if k + 1 < x {
      var m := if CharAt(t, k + 1, IsSign) then k + 2 else k + 1;
      RunIsClass(IsDigit, t, m, x);
    }
  }

  predicate IsOperator(s: string)
  {
    s in {"<=", ">=", "<>", "!=", "=", "<", ">", "||", "+", "-", "*", "/", "%"}
  }

  /** From `a` to `b` every character is of the class. */
  ghost predicate AllOf(isPart: char -> bool, t: string, a: nat, b: nat)
    requires a <= b <= |t|
  {
    forall k | a <= k < b :: isPart(t[k])
  }

  /** From `a` to `b` quotes come in pairs. */
  predicate QuotesPaired(t: string, a: nat, b: nat)
    requires a <= b <= |t|
    decreases b - a
  {
    a == b || (if t[a] != '\'' then QuotesPaired(t, a + 1, b) else a + 1 < b && t[a + 1] == '\'' && QuotesPaired(t, a + 2, b))
  }

  /** Digits from `a` to `b`, and none behind them. */
  ghost predicate DigitRun(t: string, a: nat, b: nat)
  {
    a < b <= |t| && AllOf(IsDigit, t, a, b) && (b == |t| || !IsDigit(t[b]))
  }

  /** A dot and digits, if these are there. */
  ghost predicate FractionSpan(t: string, j: nat, k: nat)
  {
    if j + 1 < |t| && t[j] == '.' && '0' <= t[j + 1] <= '9' then DigitRun(t, j + 1, k) else k == j
  }

  /** An `e`, a sign or none, and digits, if these are there. */
  ghost predicate ExponentSpan(t: string, k: nat, end: nat)
  {
    var m := if k + 1 < |t| && (t[k + 1] == '+' || t[k + 1] == '-') then k + 2 else k + 1;
    if m < |t| && (t[k] == 'e' || t[k] == 'E') && '0' <= t[m] <= '9' then DigitRun(t, m, end) else end == k
  }

  ghost predicate IsNumber(t: string, i: nat, end: nat)
  {
    exists j, k :: DigitRun(t, i, j) && FractionSpan(t, j, k) && ExponentSpan(t, k, end)
  }

  /** The lexical forms, each as long as it can be. */
  ghost predicate IsToken(t: string, i: nat, kind: Kind, end: nat)
    requires i < end <= |t|
  {
    match kind
    case Space => AllOf(IsSpace, t, i, end) && (end == |t| || !IsSpace(t[end]))
    case Word => IsWordStart(t[i]) && AllOf(IsWordPart, t, i, end) && (end == |t| || !IsWordPart(t[end]))
    case Number => IsNumber(t, i, end)
    case Str => t[i] == '\'' && end >= i + 2 && t[end - 1] == '\'' && QuotesPaired(t, i + 1, end - 1) && (end == |t| || t[end] != '\'')
    case Quoted =>
      && t[i] == '`' && i + 3 <= end <= i + MAX_IDENTIFIER + 2 && t[end - 1] == '`'
      && AllOf(IsTickPart, t, i + 1, end - 1) && CleanIdentifier(t, i + 1, end - 1)
    case Operator => IsOperator(t[i..end]) && (end == i + 2 || end == |t| || !IsOperator([t[i], t[end]]))
    case Punctuation => end == i + 1 && IsPunctuation(t[i])
  }

  lemma {:induction false} StringIsPaired(t: string, i: nat)
    requires i <= |t| && StringEnd(t, i).Some?
    ensures t[StringEnd(t, i).value - 1] == '\'' && QuotesPaired(t, i, StringEnd(t, i).value - 1)
    ensures StringEnd(t, i).value == |t| || t[StringEnd(t, i).value] != '\''
    decreases |t| - i
  {
    if t[i] != '\'' {
      StringIsPaired(t, i + 1);
    } else if i + 1 < |t| && t[i + 1] == '\'' {
      StringIsPaired(t, i + 2);
    }
  }

  lemma RunIsAll(isPart: char -> bool, t: string, i: nat)
    requires i < |t| && isPart(t[i])
    ensures AllOf(isPart, t, i, RunEnd(isPart, t, i + 1))
    ensures RunEnd(isPart, t, i + 1) == |t| || !isPart(t[RunEnd(isPart, t, i + 1)])
  {
    RunStops(isPart, t, i + 1);
    forall k | i <= k < RunEnd(isPart, t, i + 1) ensures isPart(t[k]) {
      if k > i {
        RunIsClass(isPart, t, i + 1, k);
      }
    }
  }

  lemma FractionIsSpan(t: string, j: nat)
    requires j <= |t|
    ensures FractionSpan(t, j, FractionEnd(t, j))
  {
    if CharAt(t, j, IsDot) && CharAt(t, j + 1, IsDigit) {
      RunIsAll(IsDigit, t, j + 1);
    }
  }

  lemma ExponentIsSpan(t: string, k: nat)
    requires k <= |t|
    ensures ExponentSpan(t, k, ExponentEnd(t, k))
  {
    var m := if CharAt(t, k + 1, IsSign) then k + 2 else k + 1;
    if CharAt(t, k, IsExponent) && CharAt(t, m, IsDigit) {
      RunIsAll(IsDigit, t, m);
    }
  }

  lemma NumberIsToken(t: string, i: nat)
    requires i < |t| && IsDigit(t[i])
    ensures IsNumber(t, i, NumberEnd(t, i + 1))
  {
    RunIsAll(IsDigit, t, i);
    var j := RunEnd(IsDigit, t, i + 1);
    FractionIsSpan(t, j);
    ExponentIsSpan(t, FractionEnd(t, j));
  }

  lemma QuotedIsToken(t: string, i: nat)
    requires i < |t| && t[i] == '`' && MatchQuoted(t, i).Ok?
    ensures IsToken(t, i, Quoted, MatchQuoted(t, i).value.end)
  {
    var j := RunEnd(IsTickPart, t, i + 1);
    RunStops(IsTickPart, t, i + 1);
    forall k | i + 1 <= k < j ensures IsTickPart(t[k]) {
      RunIsClass(IsTickPart, t, i + 1, k);
    }
  }

  lemma OperatorIsToken(t: string, i: nat)
    requires i < |t| && OperatorLength(t, i) > 0
    ensures IsToken(t, i, Operator, i + OperatorLength(t, i))
  {
    if i + 1 < |t| {
      assert t[i..i + 2] == [t[i], t[i + 1]];
    }
    assert t[i..i + 1] == [t[i]];
  }

  /** Whatever is matched is a token of its form, and as long as such a token can be. */
  lemma MatchIsToken(t: string, i: nat)
    requires i < |t| && Match(t, i).Ok?
    ensures IsToken(t, i, Match(t, i).value.kind, Match(t, i).value.end)
  {
    var c := t[i];
    if IsSpace(c) {
      RunIsAll(IsSpace, t, i);
    } else if IsDigit(c) {
      NumberIsToken(t, i);
    } else if c == '\'' {
      StringIsPaired(t, i + 1);
    } else if c == '`' {
      QuotedIsToken(t, i);
    } else if IsWordStart(c) {
      RunIsAll(IsWordPart, t, i);
    } else if OperatorLength(t, i) > 0 {
      OperatorIsToken(t, i);
    }
  }

  lemma {:induction false} RunFound(isPart: char -> bool, t: string, i: nat, n: nat)
    requires i <= n <= |t| && AllOf(isPart, t, i, n) && (n == |t| || !isPart(t[n]))
    ensures RunEnd(isPart, t, i) == n
    decreases n - i
  {
    if i < n {
      RunFound(isPart, t, i + 1, n);
    }
  }

  lemma {:induction false} StringFound(t: string, i: nat, n: nat)
    requires i <= n < |t| && QuotesPaired(t, i, n) && t[n] == '\'' && (n + 1 == |t| || t[n + 1] != '\'')
    ensures StringEnd(t, i) == Some(n + 1)
    decreases n - i
  {
    if i < n {
      StringFound(t, if t[i] == '\'' then i + 2 else i + 1, n);
    }
  }

  lemma FractionFound(t: string, j: nat, k: nat)
    requires j <= |t| && FractionSpan(t, j, k)
    ensures FractionEnd(t, j) == k
  {
    if j + 1 < |t| && t[j] == '.' && IsDigit(t[j + 1]) {
      RunFound(IsDigit, t, j + 1, k);
    }
  }

  lemma ExponentFound(t: string, k: nat, end: nat)
    requires k <= |t| && ExponentSpan(t, k, end)
    ensures ExponentEnd(t, k) == end
  {
    var m := if k + 1 < |t| && (t[k + 1] == '+' || t[k + 1] == '-') then k + 2 else k + 1;
    if m < |t| && (t[k] == 'e' || t[k] == 'E') && IsDigit(t[m]) {
      RunFound(IsDigit, t, m, end);
    }
  }

  lemma FractionInside(t: string, j: nat, k: nat)
    requires j <= |t| && FractionSpan(t, j, k)
    ensures k <= |t|
  {
  }

  lemma NumberFound(t: string, i: nat, end: nat)
    requires IsNumber(t, i, end)
    ensures i < |t| && IsDigit(t[i]) && NumberEnd(t, i + 1) == end
  {
    var j, k :| DigitRun(t, i, j) && FractionSpan(t, j, k) && ExponentSpan(t, k, end);
    RunFound(IsDigit, t, i + 1, j);
    FractionInside(t, j, k);
    FractionFound(t, j, k);
    ExponentFound(t, k, end);
  }

  lemma QuotedFound(t: string, i: nat, end: nat)
    requires i < end <= |t| && IsToken(t, i, Quoted, end)
    ensures MatchQuoted(t, i) == Ok(Found(Quoted, end))
  {
    RunFound(IsTickPart, t, i + 1, end - 1);
  }

  lemma OperatorFound(t: string, i: nat, end: nat)
    requires i < end <= |t| && IsToken(t, i, Operator, end)
    ensures OperatorLength(t, i) == end - i && OperatorStart(t[i])
  {
    var op := t[i..end];
    assert |op| <= 2 && op[0] == t[i];
    if |op| == 2 {
      assert op == [t[i], t[i + 1]];
    } else {
      assert op == [t[i]];
      if end < |t| {
        assert [t[i], t[end]][0] == t[i] && [t[i], t[end]][1] == t[end];
      }
    }
  }

  predicate OperatorStart(c: char)
  {
    c in {'<', '>', '!', '=', '|', '+', '-', '*', '/', '%'}
  }

  /** Whatever has a token's form is matched. */
  lemma TokenIsMatched(t: string, i: nat, kind: Kind, end: nat)
    requires i < end <= |t| && IsToken(t, i, kind, end)
    ensures Match(t, i) == Ok(Found(kind, end))
  {
    match kind
    case Space => RunFound(IsSpace, t, i + 1, end);
    case Word => RunFound(IsWordPart, t, i + 1, end);
    case Number => NumberFound(t, i, end);
    case Str => StringFound(t, i + 1, end - 1);
    case Quoted => QuotedFound(t, i, end);
    case Operator => OperatorFound(t, i, end);
    case Punctuation =>
  }

  /** What is matched at a position is exactly what has a token's form there. */
  lemma MatchExactly(t: string, i: nat, kind: Kind, end: nat)
    requires i < end <= |t|
    ensures Match(t, i) == Ok(Found(kind, end)) <==> IsToken(t, i, kind, end)
  {
    if Match(t, i) == Ok(Found(kind, end)) {
      MatchIsToken(t, i);
    }
    if IsToken(t, i, kind, end) {
      TokenIsMatched(t, i, kind, end);
    }
  }

  // ---------------------------------------------------------------------------
  // Lexing in context
  // ---------------------------------------------------------------------------

  /** A character that no token to its left can take in. */
  predicate Stops(c: char)
  {
    c == '(' || c == ')'
  }

  /** `u` stands in `t` at `off`. */
  ghost predicate StandsIn(u: string, t: string, off: nat)
  {
    off + |u| <= |t| && forall k | 0 <= k < |u| :: u[k] == t[off + k]
  }

  ghost predicate Fits(u: string, t: string, off: nat)
  {
    StandsIn(u, t, off) && (off + |u| == |t| || Stops(t[off + |u|]))
  }

  lemma {:induction false} RunElsewhere(isPart: char -> bool, u: string, i: nat, t: string, off: nat)
    requires i <= |u| && Fits(u, t, off) && !isPart('(') && !isPart(')')
    ensures RunEnd(isPart, t, off + i) == off + RunEnd(isPart, u, i)
    decreases |u| - i
  {
    if i < |u| && isPart(u[i]) {
      RunElsewhere(isPart, u, i + 1, t, off);
    }
  }

  lemma CharElsewhere(isPart: char -> bool, u: string, i: nat, t: string, off: nat)
    requires i <= |u| && Fits(u, t, off) && !isPart('(') && !isPart(')')
    ensures CharAt(t, off + i, isPart) == CharAt(u, i, isPart)
  {
  }

  lemma {:induction false} StringElsewhere(u: string, i: nat, t: string, off: nat)
    requires i <= |u| && Fits(u, t, off) && StringEnd(u, i).Some?
    ensures StringEnd(t, off + i) == Some(off + StringEnd(u, i).value)
    decreases |u| - i
  {
    if u[i] != '\'' {
      StringElsewhere(u, i + 1, t, off);
    } else if i + 1 < |u| && u[i + 1] == '\'' {
      StringElsewhere(u, i + 2, t, off);
    }
  }

  lemma FractionElsewhere(u: string, j: nat, t: string, off: nat)
    requires j <= |u| && Fits(u, t, off)
    ensures FractionEnd(t, off + j) == off + FractionEnd(u, j)
  {
    CharElsewhere(IsDot, u, j, t, off);
    if j < |u| {
      CharElsewhere(IsDigit, u, j + 1, t, off);
      RunElsewhere(IsDigit, u, j + 1, t, off);
    }
  }

  lemma ExponentElsewhere(u: string, k: nat, t: string, off: nat)
    requires k <= |u| && Fits(u, t, off)
    ensures ExponentEnd(t, off + k) == off + ExponentEnd(u, k)
  {
    CharElsewhere(IsExponent, u, k, t, off);
    if k < |u| {
      CharElsewhere(IsSign, u, k + 1, t, off);
      var m := if CharAt(u, k + 1, IsSign) then k + 2 else k + 1;
      CharElsewhere(IsDigit, u, m, t, off);
      RunElsewhere(IsDigit, u, m, t, off);
    }
  }

  lemma {:induction false} TickElsewhere(u: string, i: nat, t: string, off: nat)
    requires i <= |u| && StandsIn(u, t, off) && RunEnd(IsTickPart, u, i) < |u|
    ensures RunEnd(IsTickPart, t, off + i) == off + RunEnd(IsTickPart, u, i)
    decreases |u| - i
  {
    if IsTickPart(u[i]) {
      TickElsewhere(u, i + 1, t, off);
    }
  }

  lemma QuotedElsewhere(u: string, i: nat, t: string, off: nat)
    requires i < |u| && Fits(u, t, off) && MatchQuoted(u, i).Ok?
    ensures MatchQuoted(t, off + i) == Ok(Found(Quoted, off + MatchQuoted(u, i).value.end))
  {
    TickElsewhere(u, i + 1, t, off);
    var j := RunEnd(IsTickPart, u, i + 1);
    forall k | off + i + 1 <= k < off + j ensures t[k] != '\'' && t[k] != '\\' && t[k] != ';' {
      assert u[k - off] == t[k];
    }
  }

  lemma OperatorElsewhere(u: string, i: nat, t: string, off: nat)
    requires i < |u| && Fits(u, t, off)
    ensures OperatorLength(t, off + i) == OperatorLength(u, i)
  {
    assert u[i] == t[off + i];
    if i + 1 < |u| {
      assert u[i + 1] == t[off + i + 1];
    }
  }

  lemma NumberElsewhere(u: string, i: nat, t: string, off: nat)
    requires i <= |u| && Fits(u, t, off)
    ensures NumberEnd(t, off + i) == off + NumberEnd(u, i)
  {
    RunElsewhere(IsDigit, u, i, t, off);
    FractionElsewhere(u, RunEnd(IsDigit, u, i), t, off);
    ExponentElsewhere(u, FractionEnd(u, RunEnd(IsDigit, u, i)), t, off);
  }

  /** In front of a parenthesis every token is found as it is on its own. */
  lemma MatchElsewhere(u: string, i: nat, t: string, off: nat)
    requires i < |u| && Fits(u, t, off) && Match(u, i).Ok?
    ensures Match(t, off + i) == Ok(Found(Match(u, i).value.kind, off + Match(u, i).value.end))
  {
    var c := u[i];
    assert c == t[off + i];
    if IsSpace(c) {
      RunElsewhere(IsSpace, u, i + 1, t, off);
    } else if IsDigit(c) {
      NumberElsewhere(u, i + 1, t, off);
    } else if c == '\'' {
      StringElsewhere(u, i + 1, t, off);
    } else if c == '`' {
      QuotedElsewhere(u, i, t, off);
    } else if IsWordStart(c) {
      RunElsewhere(IsWordPart, u, i + 1, t, off);
    } else {
      OperatorElsewhere(u, i, t, off);
    }
  }

  /** What is matched in `u` is matched in `t`, further on by `off`. */
  ghost predicate Transfers(m: Matcher, u: string, t: string, off: nat)
  {
    forall i: nat | i < |u| && m(u, i).Ok? :: m(t, off + i) == Ok(Found(m(u, i).value.kind, off + m(u, i).value.end))
  }

  /** From `i` to `n` the text is lexed into exactly these tokens. */
  ghost predicate Lexed(m: Matcher, t: string, i: nat, n: nat, tokens: seq<Token>)
    requires i <= n <= |t|
    decreases |tokens|
  {
    if tokens == [] then i == n
    else m(t, i).Ok? && i < m(t, i).value.end <= n && tokens[0] == Token(m(t, i).value.kind, t[i..m(t, i).value.end])
         && Lexed(m, t, m(t, i).value.end, n, tokens[1..])
  }

  lemma {:induction false} LexedIsLex(m: Matcher, t: string, i: nat, tokens: seq<Token>)
    requires i <= |t| && Advances(m)
    ensures Lexed(m, t, i, |t|, tokens) <==> LexWith(m, t, i) == Ok(tokens)
    decreases |t| - i
  {
    if i < |t| && m(t, i).Ok? {
      var end := m(t, i).value.end;
      if tokens != [] {
        LexedIsLex(m, t, end, tokens[1..]);
        assert tokens == [tokens[0]] + tokens[1..];
      }
      if LexWith(m, t, end).Ok? {
        assert LexWith(m, t, i).value[1..] == LexWith(m, t, end).value;
      }
    }
  }

  lemma PrependNothing(r: Result<seq<Token>, LexError>)
    ensures Prepend([], r) == r
  {
    if r.Ok? {
      assert [] + r.value == r.value;
    }
  }

  lemma SliceElsewhere(u: string, a: nat, b: nat, t: string, off: nat)
    requires a <= b <= |u| && StandsIn(u, t, off)
    ensures t[off + a..off + b] == u[a..b]
  {
  }

  const OPEN := Token(Punctuation, "(")
  const CLOSE := Token(Punctuation, ")")

  lemma MatchTransfers(u: string, t: string, off: nat)
    requires Fits(u, t, off)
    ensures Transfers(Match, u, t, off)
  {
    forall i: nat | i < |u| && Match(u, i).Ok?
      ensures Match(t, off + i) == Ok(Found(Match(u, i).value.kind, off + Match(u, i).value.end))
    {
      MatchElsewhere(u, i, t, off);
    }
  }

  function Lex(t: string): Result<seq<Token>, LexError>
  {
    LexWith(Match, t, 0)
  }

  /** A part of the text is lexed as it is on its own, in front of what has been lexed. */
  lemma {:induction false} LexThrough(m: Matcher, u: string, i: nat, t: string, off: nat, n: nat, tokens: seq<Token>, rest: seq<Token>)
    requires i <= |u| && Advances(m) && StandsIn(u, t, off) && Transfers(m, u, t, off) && n == off + |u|
    requires LexWith(m, u, i) == Ok(tokens) && LexWith(m, t, n) == Ok(rest)
    ensures LexWith(m, t, off + i) == Ok(tokens + rest)
    decreases |u| - i
  {
    if i == |u| {
      assert tokens + rest == rest;
    } else {
      var end := m(u, i).value.end;
      var first, later := [Token(m(u, i).value.kind, u[i..end])], LexWith(m, u, end).value;
      LexThrough(m, u, end, t, off, n, later, rest);
      SliceElsewhere(u, i, end, t, off);
      assert first + (later + rest) == first + later + rest;
    }
  }

  lemma PartInFront(u: string, t: string, off: nat, n: nat, tokens: seq<Token>, rest: seq<Token>)
    requires Fits(u, t, off) && n == off + |u| && Lex(u) == Ok(tokens) && LexWith(Match, t, n) == Ok(rest)
    ensures LexWith(Match, t, off) == Ok(tokens + rest)
  {
    MatchTransfers(u, t, off);
    LexThrough(Match, u, 0, t, off, n, tokens, rest);
  }

  lemma ParenthesisInFront(t: string, i: nat, token: Token, rest: seq<Token>)
    requires i < |t| && (token == OPEN || token == CLOSE) && token.text == [t[i]] && LexWith(Match, t, i + 1) == Ok(rest)
    ensures LexWith(Match, t, i) == Ok([token] + rest)
  {
    assert t[i..i + 1] == [t[i]];
  }

  /** `t` is `a`, an opening parenthesis, `e`, a closing one, and `b`. */
  ghost predicate Wraps(t: string, a: string, n: nat, e: string, k: nat, b: string)
  {
    && n == |a| && k == n + 1 + |e| && k + 1 + |b| == |t|
    && Fits(a, t, 0) && t[n] == '(' && Fits(e, t, n + 1) && t[k] == ')' && Fits(b, t, k + 1)
  }

  lemma ConcatenationWraps(t: string, a: string, e: string, b: string)
    requires t == a + "(" + e + ")" + b
    ensures Wraps(t, a, |a|, e, |a| + 1 + |e|, b)
  {
  }

  lemma TailLexes(t: string, e: string, n: nat, b: string, k: nat, le: seq<Token>, lb: seq<Token>)
    requires Fits(e, t, n) && k == n + |e| < |t| && t[k] == ')' && Fits(b, t, k + 1) && k + 1 + |b| == |t|
    requires Lex(e) == Ok(le) && Lex(b) == Ok(lb)
    ensures LexWith(Match, t, n) == Ok(le + ([CLOSE] + lb))
  {
    PartInFront(b, t, k + 1, |t|, lb, []);
    assert lb + [] == lb;
    ParenthesisInFront(t, k, CLOSE, lb);
    PartInFront(e, t, n, k, le, [CLOSE] + lb);
  }

  lemma HeadLexes(t: string, a: string, n: nat, la: seq<Token>, rest: seq<Token>)
    requires Fits(a, t, 0) && n == |a| < |t| && t[n] == '(' && Lex(a) == Ok(la) && LexWith(Match, t, n + 1) == Ok(rest)
    ensures Lex(t) == Ok(la + ([OPEN] + rest))
  {
    ParenthesisInFront(t, n, OPEN, rest);
    PartInFront(a, t, 0, n, la, [OPEN] + rest);
  }

  lemma TokensReassociate(a: seq<Token>, b: seq<Token>, c: seq<Token>, d: seq<Token>, e: seq<Token>)
    ensures a + (b + (c + (d + e))) == a + b + c + d + e
  {
  }

  lemma WrappedLexes(t: string, a: string, n: nat, e: string, k: nat, b: string, la: seq<Token>, le: seq<Token>, lb: seq<Token>)
    requires Wraps(t, a, n, e, k, b) && Lex(a) == Ok(la) && Lex(e) == Ok(le) && Lex(b) == Ok(lb)
    ensures Lex(t) == Ok(la + [OPEN] + le + [CLOSE] + lb)
  {
    TailLexes(t, e, n + 1, b, k, le, lb);
    HeadLexes(t, a, n, la, le + ([CLOSE] + lb));
    TokensReassociate(la, [OPEN], le, [CLOSE], lb);
  }

  /** Lexing is compositional: a text in parentheses lexes to what is before, the opening
      parenthesis, its own tokens, the closing one, and what is after. */
  lemma WrapperLexes(t: string, a: string, e: string, b: string, la: seq<Token>, le: seq<Token>, lb: seq<Token>)
    requires t == a + "(" + e + ")" + b && Lex(a) == Ok(la) && Lex(e) == Ok(le) && Lex(b) == Ok(lb)
    ensures Lex(t) == Ok(la + [OPEN] + le + [CLOSE] + lb)
  {
    ConcatenationWraps(t, a, e, b);
    WrappedLexes(t, a, |a|, e, |a| + 1 + |e|, b, la, le, lb);
  }
}
