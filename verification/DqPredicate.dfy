/**
 The allow-list check of a custom data-quality predicate (backend/routes/dq.py,
 `_validate_predicate`), and what an accepted predicate is once it stands in SQL code.
 */
module DqPredicate {
  import opened DqLexer
  import Sql = SplitSql
  import opened Text
  import opened Wrappers

  const FORBIDDEN_TOKENS := [";", "--", "/*", "*/"]

  const FORBIDDEN_WORDS := {
    "SELECT", "FROM", "JOIN", "WITH", "UNION", "INTERSECT", "EXCEPT", "EXISTS",
    "WHERE", "GROUP", "HAVING", "ORDER", "LIMIT", "OFFSET", "INTO", "VALUES",
    "TABLE", "LATERAL", "OVER", "WINDOW", "PARTITION",
    "INSERT", "UPDATE", "DELETE", "MERGE", "DROP", "ALTER", "CREATE", "REPLACE",
    "TRUNCATE", "GRANT", "REVOKE", "EXEC", "EXECUTE", "CALL", "SET", "USE"
  }

  const OPERATOR_WORDS := {
    "AND", "OR", "NOT", "IS", "NULL", "IN", "BETWEEN", "LIKE", "ILIKE", "RLIKE",
    "REGEXP", "TRUE", "FALSE", "CASE", "WHEN", "THEN", "ELSE", "END", "AS", "DIV"
  }

  const ALLOWED_FUNCTIONS := {
    "abs", "cast", "try_cast", "ceil", "ceiling", "char_length", "character_length",
    "coalesce", "concat", "date", "day", "floor", "length", "lower", "ltrim", "mod",
    "month", "nullif", "nvl", "regexp_like", "round", "rtrim", "sign", "substr",
    "substring", "to_date", "trim", "upper", "year"
  }

  const ALLOWED_TYPE_NAMES := {
    "decimal", "numeric", "dec", "varchar", "char", "string", "int", "integer",
    "bigint", "smallint", "tinyint", "double", "float", "real", "boolean",
    "date", "timestamp", "binary"
  }

  function UpperChar(c: char): char
  {
    if 'a' <= c <= 'z' then (c as int - 'a' as int + 'A' as int) as char else c
  }

  function LowerChar(c: char): char
  {
    if 'A' <= c <= 'Z' then (c as int - 'A' as int + 'a' as int) as char else c
  }

  function Upper(s: string): string
  {
    seq(|s|, k requires 0 <= k < |s| => UpperChar(s[k]))
  }

  function Lower(s: string): string
  {
    seq(|s|, k requires 0 <= k < |s| => LowerChar(s[k]))
  }

  // ---------------------------------------------------------------------------
  // The views of a token stream
  // ---------------------------------------------------------------------------

  predicate Masked(token: Token)
  {
    token.kind == Str || token.kind == Quoted
  }

  /** `_code_only`: literals and quoted identifiers read as one space. */
  function CodeOnly(tokens: seq<Token>): string
  {
    if tokens == [] then "" else (if Masked(tokens[0]) then " " else tokens[0].text) + CodeOnly(tokens[1..])
  }

  /** `_significant` */
  function Significant(tokens: seq<Token>): seq<Token>
  {
    if tokens == [] then [] else (if tokens[0].kind == Space then [] else [tokens[0]]) + Significant(tokens[1..])
  }

  /** `word in s`, looking from position `i` on. */
  predicate Contains(s: string, word: string, i: nat)
    decreases |s| - i
  {
    i + |word| <= |s| && (s[i..i + |word|] == word || Contains(s, word, i + 1))
  }

  function Delta(token: Token): int
  {
    if token.kind == Punctuation && token.text == "(" then 1 else if token.kind == Punctuation && token.text == ")" then -1 else 0
  }

  /** The parentheses from position `k` on never close more than is open and close all. */
  predicate Balanced(tokens: seq<Token>, k: nat, depth: int)
    requires k <= |tokens|
    decreases |tokens| - k
  {
    if k == |tokens| then depth == 0 else depth + Delta(tokens[k]) >= 0 && Balanced(tokens, k + 1, depth + Delta(tokens[k]))
  }

  predicate IsName(token: Token)
  {
    token.kind == Word || token.kind == Quoted
  }

  /** A name in front of an opening parenthesis. */
  predicate IsCall(tokens: seq<Token>, i: nat)
  {
    i + 1 < |tokens| && IsName(tokens[i]) && tokens[i + 1] == OPEN
  }

  predicate IsQualified(tokens: seq<Token>, i: nat)
    requires i < |tokens|
  {
    i > 0 && tokens[i - 1] == Token(Punctuation, ".")
  }

  function NameOf(token: Token): string
  {
    if token.kind == Quoted && |token.text| >= 2 then token.text[1..|token.text| - 1] else token.text
  }

  predicate NameAllowed(name: string)
  {
    Lower(name) in ALLOWED_FUNCTIONS || Lower(name) in ALLOWED_TYPE_NAMES || Upper(name) in OPERATOR_WORDS
  }

  // ---------------------------------------------------------------------------
  // The check
  // ---------------------------------------------------------------------------

  datatype Rejection =
    | Unlexable(error: LexError)
    | ForbiddenToken(token: string)
    | Unbalanced
    | ForbiddenWord(word: string)
    | QualifiedCall(name: string)
    | UnknownFunction(name: string)

  predicate NoForbiddenToken(code: string)
  {
    !Contains(code, ";", 0) && !Contains(code, "--", 0) && !Contains(code, "/*", 0) && !Contains(code, "*/", 0)
  }

  ghost predicate NoForbiddenWord(tokens: seq<Token>)
  {
    forall i | 0 <= i < |tokens| && tokens[i].kind == Word :: Upper(tokens[i].text) !in FORBIDDEN_WORDS
  }

  ghost predicate CallsAllowed(tokens: seq<Token>)
  {
    forall i: nat | IsCall(tokens, i) :: !IsQualified(tokens, i) && NameAllowed(NameOf(tokens[i]))
  }

  /** What an accepted predicate looks like. */
  ghost predicate Acceptable(t: string)
  {
    && Tokens(t).Ok?
    && NoForbiddenToken(CodeOnly(Tokens(t).value))
    && Balanced(Significant(Tokens(t).value), 0, 0)
    && NoForbiddenWord(Significant(Tokens(t).value))
    && CallsAllowed(Significant(Tokens(t).value))
  }

  method FindForbiddenToken(code: string) returns (r: Option<string>)
    ensures r == None <==> NoForbiddenToken(code)
    ensures r.Some? ==> r.value in FORBIDDEN_TOKENS && Contains(code, r.value, 0)
  {
    var i := 0;
    while i < |FORBIDDEN_TOKENS| && !Contains(code, FORBIDDEN_TOKENS[i], 0)
      invariant 0 <= i <= |FORBIDDEN_TOKENS|
      invariant forall j | 0 <= j < i :: !Contains(code, FORBIDDEN_TOKENS[j], 0)
    {
      i := i + 1;
    }
    if i < |FORBIDDEN_TOKENS| {
      r := Some(FORBIDDEN_TOKENS[i]);
    } else {
      r := None;
      assert FORBIDDEN_TOKENS[0] == ";" && FORBIDDEN_TOKENS[1] == "--" && FORBIDDEN_TOKENS[2] == "/*" && FORBIDDEN_TOKENS[3] == "*/";
    }
  }

  method CheckBalance(tokens: seq<Token>) returns (ok: bool)
    ensures ok <==> Balanced(tokens, 0, 0)
  {
    var depth, i := 0, 0;
    while i < |tokens|
      invariant 0 <= i <= |tokens| && depth >= 0
      invariant Balanced(tokens, i, depth) <==> Balanced(tokens, 0, 0)
    {
      var token := tokens[i];
      if token.kind == Punctuation {
        if token.text == "(" {
          depth := depth + 1;
        } else if token.text == ")" {
          depth := depth - 1;
          if depth < 0 {
            return false;
          }
        }
      }
      i := i + 1;
    }
    ok := depth == 0;
  }

  method FindForbiddenWord(tokens: seq<Token>) returns (r: Option<string>)
    ensures r == None <==> NoForbiddenWord(tokens)
    ensures r.Some? ==> Token(Word, r.value) in tokens && Upper(r.value) in FORBIDDEN_WORDS
  {
    r := None;
    for i := 0 to |tokens|
      invariant forall j | 0 <= j < i && tokens[j].kind == Word :: Upper(tokens[j].text) !in FORBIDDEN_WORDS
    {
      if tokens[i].kind == Word && Upper(tokens[i].text) in FORBIDDEN_WORDS {
        return Some(tokens[i].text);
      }
    }
  }

  /** Some call is qualified, or unqualified and not allowed. */
  ghost predicate IsBadCall(tokens: seq<Token>, why: Rejection)
  {
    exists i: nat :: IsCall(tokens, i) && (if IsQualified(tokens, i) then why == QualifiedCall(NameOf(tokens[i]))
                                           else !NameAllowed(NameOf(tokens[i])) && why == UnknownFunction(NameOf(tokens[i])))
  }

  method FindBadCall(tokens: seq<Token>) returns (r: Option<Rejection>)
    ensures r == None <==> CallsAllowed(tokens)
    ensures r.Some? ==> IsBadCall(tokens, r.value)
  {
    r := None;
    for i := 0 to |tokens|
      invariant forall j: nat | j < i && IsCall(tokens, j) :: !IsQualified(tokens, j) && NameAllowed(NameOf(tokens[j]))
    {
      if IsCall(tokens, i) {
        if IsQualified(tokens, i) {
          return Some(QualifiedCall(NameOf(tokens[i])));
        }
        if !NameAllowed(NameOf(tokens[i])) {
          return Some(UnknownFunction(NameOf(tokens[i])));
        }
      }
    }
  }

  /** What the tests in front of the one that refused have found. */
  ghost predicate Explains(tokens: seq<Token>, why: Rejection)
  {
    match why
    case Unlexable(_) => false
    case ForbiddenToken(token) => token in FORBIDDEN_TOKENS && Contains(CodeOnly(tokens), token, 0)
    case Unbalanced => NoForbiddenToken(CodeOnly(tokens)) && !Balanced(Significant(tokens), 0, 0)
    case ForbiddenWord(word) =>
      && NoForbiddenToken(CodeOnly(tokens)) && Balanced(Significant(tokens), 0, 0)
      && Token(Word, word) in Significant(tokens) && Upper(word) in FORBIDDEN_WORDS
    case _ =>
      && NoForbiddenToken(CodeOnly(tokens)) && Balanced(Significant(tokens), 0, 0) && NoForbiddenWord(Significant(tokens))
      && IsBadCall(Significant(tokens), why)
  }

  /** The check accepts exactly the acceptable predicates, and refuses the others for the
      first reason that applies. */
  method ValidatePredicate(t: string) returns (r: Option<Rejection>)
    ensures r == None <==> Acceptable(t)
    ensures forall e :: r == Some(Unlexable(e)) <==> Tokens(t) == Err(e)
    ensures r.Some? && Tokens(t).Ok? ==> Explains(Tokens(t).value, r.value)
  {
    var tokens := Tokenize(t);
    if tokens.Err? {
      return Some(Unlexable(tokens.error));
    }
    var forbidden := FindForbiddenToken(CodeOnly(tokens.value));
    if forbidden.Some? {
      return Some(ForbiddenToken(forbidden.value));
    }
    var sig := Significant(tokens.value);
    var balanced := CheckBalance(sig);
    if !balanced {
      return Some(Unbalanced);
    }
    var word := FindForbiddenWord(sig);
    if word.Some? {
      return Some(ForbiddenWord(word.value));
    }
    r := FindBadCall(sig);
  }

  // ---------------------------------------------------------------------------
  // The wrapper's parentheses
  // ---------------------------------------------------------------------------

  /** Dropping whitespace changes nothing about the parentheses. */
  lemma {:induction false} SignificantBalance(tokens: seq<Token>, depth: int)
    requires depth >= 0
    ensures Balanced(Significant(tokens), 0, depth) <==> Balanced(tokens, 0, depth)
    decreases |tokens|
  {
    if tokens != [] {
      var d := depth + Delta(tokens[0]);
      BalanceOfTail(tokens, d);
      if tokens[0].kind == Space {
        assert [] + Significant(tokens[1..]) == Significant(tokens[1..]) == Significant(tokens);
        SignificantBalance(tokens[1..], d);
      } else {
        var rest := Significant(tokens[1..]);
        assert Significant(tokens) == [tokens[0]] + rest && Significant(tokens)[1..] == rest;
        BalanceOfTail(Significant(tokens), d);
        if d >= 0 {
          SignificantBalance(tokens[1..], d);
        }
      }
    }
  }

  lemma BalanceOfTail(tokens: seq<Token>, depth: int)
    requires tokens != []
    ensures Balanced(tokens, 1, depth) <==> Balanced(tokens[1..], 0, depth)
  {
    BalanceShifts(tokens, tokens[1..], 0, depth);
  }

  lemma {:induction false} BalanceShifts(tokens: seq<Token>, rest: seq<Token>, k: nat, depth: int)
    requires tokens != [] && rest == tokens[1..] && k <= |rest|
    ensures Balanced(tokens, k + 1, depth) <==> Balanced(rest, k, depth)
    decreases |rest| - k
  {
    if k < |rest| {
      BalanceShifts(tokens, rest, k + 1, depth + Delta(rest[k]));
    }
  }

  /** The position of the parenthesis that closes the innermost one of `depth` open at `k`. */
  function CloseOf(tokens: seq<Token>, k: nat, depth: int): Option<nat>
    requires k <= |tokens|
    decreases |tokens| - k
  {
    if k == |tokens| then None
    else if depth + Delta(tokens[k]) == 0 then Some(k)
    else CloseOf(tokens, k + 1, depth + Delta(tokens[k]))
  }

  lemma {:induction false} InnerClose(tokens: seq<Token>, off: nat, e: seq<Token>, k: nat, depth: int)
    requires k <= |e| && off + |e| < |tokens| && depth >= 0 && tokens[off + |e|] == CLOSE
    requires forall j | 0 <= j < |e| :: e[j] == tokens[off + j]
    ensures CloseOf(tokens, off + k, depth + 1) == Some(off + |e|) <==> Balanced(e, k, depth)
    decreases |e| - k
  {
    if k < |e| {
      if depth + Delta(e[k]) >= 0 {
        InnerClose(tokens, off, e, k + 1, depth + Delta(e[k]));
      }
    } else if depth > 0 {
      CloseIsLater(tokens, off + k + 1, depth);
    }
  }

  lemma {:induction false} CloseIsLater(tokens: seq<Token>, k: nat, depth: int)
    requires k <= |tokens|
    ensures CloseOf(tokens, k, depth).Some? ==> k <= CloseOf(tokens, k, depth).value
    decreases |tokens| - k
  {
    if k < |tokens| {
      CloseIsLater(tokens, k + 1, depth + Delta(tokens[k]));
    }
  }

  /** In the tokens of the wrapped predicate, the wrapper's opening parenthesis is closed by
      its own closing one if and only if the predicate's parentheses balance. */
  lemma WrapperCloses(a: seq<Token>, e: seq<Token>, b: seq<Token>)
    ensures CloseOf(a + [OPEN] + e + [CLOSE] + b, |a| + 1, 1) == Some(|a| + 1 + |e|) <==> Balanced(e, 0, 0)
  {
    var tokens := a + [OPEN] + e + [CLOSE] + b;
    assert forall j | 0 <= j < |e| :: e[j] == tokens[|a| + 1 + j];
    assert tokens[|a| + 1 + |e|] == CLOSE;
    InnerClose(tokens, |a| + 1, e, 0, 0);
  }

  lemma AcceptedBalances(t: string, lt: seq<Token>)
    requires Acceptable(t) && Lex(t) == Ok(lt)
    ensures Balanced(lt, 0, 0)
  {
    SignificantBalance(lt, 0);
  }

  /** `wrapped` is lexed to the three parts with parentheses around the middle one, and
      these close each other. */
  ghost predicate KeepsWrapper(wrapped: string, la: seq<Token>, lt: seq<Token>, lb: seq<Token>)
  {
    Lex(wrapped) == Ok(la + [OPEN] + lt + [CLOSE] + lb)
    && CloseOf(la + [OPEN] + lt + [CLOSE] + lb, |la| + 1, 1) == Some(|la| + 1 + |lt|)
  }

  /** So around an accepted predicate the wrapper's parentheses match each other. */
  lemma AcceptedKeepsWrapper(wrapped: string, a: string, t: string, b: string, la: seq<Token>, lt: seq<Token>, lb: seq<Token>)
    requires wrapped == a + "(" + t + ")" + b && Acceptable(t) && Lex(a) == Ok(la) && Lex(t) == Ok(lt) && Lex(b) == Ok(lb)
    ensures KeepsWrapper(wrapped, la, lt, lb)
  {
    AcceptedBalances(t, lt);
    WrapperCloses(la, lt, lb);
    WrapperLexes(wrapped, a, t, b, la, lt, lb);
  }

  // ---------------------------------------------------------------------------
  // The text of the check
  // ---------------------------------------------------------------------------

  /** Characters that always begin a token of their own or of a run. */
  predicate CodeChar(c: char)
  {
    c == ' ' || IsWordPart(c) || IsPunctuation(c) || c == '*' || c == '-'
  }

  predicate CodeChars(s: string, i: nat)
    requires i <= |s|
    decreases |s| - i
  {
    i == |s| || (CodeChar(s[i]) && CodeChars(s, i + 1))
  }

  lemma {:induction false} CodeCharAt(s: string, i: nat, k: nat)
    requires i <= k < |s| && CodeChars(s, i)
    ensures CodeChar(s[k])
    decreases k - i
  {
    if i < k {
      CodeCharAt(s, i + 1, k);
    }
  }

  lemma {:induction false} CodeCharsConcat(a: string, b: string, i: nat)
    requires i <= |a| && CodeChars(a, i) && CodeChars(b, 0)
    ensures CodeChars(a + b, i)
    decreases |a| - i
  {
    if i < |a| {
      CodeCharsConcat(a, b, i + 1);
    } else {
      CodeCharsBehind(a, b, 0);
    }
  }

  lemma {:induction false} CodeCharsBehind(a: string, b: string, i: nat)
    requires i <= |b| && CodeChars(b, i)
    ensures CodeChars(a + b, |a| + i)
    decreases |b| - i
  {
    if i < |b| {
      CodeCharsBehind(a, b, i + 1);
    }
  }

  lemma {:induction false} CodeLexes(s: string, i: nat)
    requires i <= |s| && CodeChars(s, 0)
    ensures LexWith(Match, s, i).Ok?
    decreases |s| - i
  {
    if i < |s| {
      CodeCharAt(s, 0, i);
      CodeLexes(s, Match(s, i).value.end);
    }
  }

  const SELECT := "SELECT "
  const COUNT := "COUNT(*) AS "
  const TOTAL := "total_rows, "
  const SUM := "SUM(CASE "
  const WHEN := "WHEN "
  const THEN := " THEN 1 "
  const ELSE := "ELSE 0 END) "
  const PASSING := "AS passing_"
  const FROM := "rows FROM ("
  const SAMPLE := "* FROM "
  const LIMIT := " LIMIT "

  /** The query up to the predicate's opening parenthesis. */
  const PREFIX := SELECT + (COUNT + (TOTAL + (SUM + WHEN)))

  /** The query after the predicate's closing parenthesis. */
  function Suffix(table: string, size: string): string
  {
    THEN + (ELSE + (PASSING + (FROM + (SELECT + (SAMPLE + (table + (LIMIT + (size + ")"))))))))
  }

  /** The query of a custom rule. */
  function CheckSql(condition: string, table: string, size: string): string
  {
    PREFIX + "(" + condition + ")" + Suffix(table, size)
  }

  lemma {:induction false} AllCodeChars(s: string, i: nat)
    requires i <= |s| && forall c | c in s :: CodeChar(c)
    ensures CodeChars(s, i)
    decreases |s| - i
  {
    if i < |s| {
      assert s[i] in s;
      AllCodeChars(s, i + 1);
    }
  }

  lemma WordIsCode(word: string)
    requires forall c | c in word :: CodeChar(c)
    ensures CodeChars(word, 0)
  {
    AllCodeChars(word, 0);
  }

  lemma HeadWordsAreCode()
    ensures CodeChars(SELECT, 0) && CodeChars(COUNT, 0) && CodeChars(TOTAL, 0) && CodeChars(SUM, 0) && CodeChars(WHEN, 0)
  {
    WordIsCode(SELECT);
    WordIsCode(COUNT);
    WordIsCode(TOTAL);
    WordIsCode(SUM);
    WordIsCode(WHEN);
  }

  lemma TailWordsAreCode()
    ensures CodeChars(THEN, 0) && CodeChars(ELSE, 0) && CodeChars(PASSING, 0) && CodeChars(FROM, 0) && CodeChars(SAMPLE, 0)
    ensures CodeChars(LIMIT, 0) && CodeChars(")", 0)
  {
    WordIsCode(THEN);
    WordIsCode(ELSE);
    WordIsCode(PASSING);
    WordIsCode(FROM);
    WordIsCode(SAMPLE);
    WordIsCode(LIMIT);
    WordIsCode(")");
  }

  lemma PrefixIsCode()
    ensures CodeChars(PREFIX, 0)
  {
    HeadWordsAreCode();
    CodeCharsConcat(SUM, WHEN, 0);
    CodeCharsConcat(TOTAL, SUM + WHEN, 0);
    CodeCharsConcat(COUNT, TOTAL + (SUM + WHEN), 0);
    CodeCharsConcat(SELECT, COUNT + (TOTAL + (SUM + WHEN)), 0);
  }

  lemma SuffixIsCode(table: string, size: string)
    requires CodeChars(table, 0) && CodeChars(size, 0)
    ensures CodeChars(Suffix(table, size), 0)
  {
    HeadWordsAreCode();
    TailWordsAreCode();
    CodeCharsConcat(size, ")", 0);
    CodeCharsConcat(LIMIT, size + ")", 0);
    var sample := table + (LIMIT + (size + ")"));
    CodeCharsConcat(table, LIMIT + (size + ")"), 0);
    CodeCharsConcat(SAMPLE, sample, 0);
    CodeCharsConcat(SELECT, SAMPLE + sample, 0);
    CodeCharsConcat(FROM, SELECT + (SAMPLE + sample), 0);
    CodeCharsConcat(PASSING, FROM + (SELECT + (SAMPLE + sample)), 0);
    CodeCharsConcat(ELSE, PASSING + (FROM + (SELECT + (SAMPLE + sample))), 0);
    CodeCharsConcat(THEN, ELSE + (PASSING + (FROM + (SELECT + (SAMPLE + sample)))), 0);
  }

  /** Whatever the table and the size of the sample, the template around the predicate
      lexes. */
  lemma TemplateLexes(table: string, size: string)
    requires CodeChars(table, 0) && CodeChars(size, 0)
    ensures Lex(PREFIX).Ok? && Lex(Suffix(table, size)).Ok?
  {
    PrefixIsCode();
    SuffixIsCode(table, size);
    CodeLexes(PREFIX, 0);
    CodeLexes(Suffix(table, size), 0);
  }

  /** The query of a custom rule with an accepted predicate lexes to the template's tokens
      around the predicate's, and the parentheses the template puts around the predicate
      close each other. */
  lemma CheckSqlKeepsWrapper(t: string, table: string, size: string)
    requires Acceptable(t) && CodeChars(table, 0) && CodeChars(size, 0)
    ensures Lex(t).Ok? && Lex(PREFIX).Ok? && Lex(Suffix(table, size)).Ok?
    ensures KeepsWrapper(CheckSql(t, table, size), Lex(PREFIX).value, Lex(t).value, Lex(Suffix(table, size)).value)
  {
    TemplateLexes(table, size);
    AcceptedKeepsWrapper(CheckSql(t, table, size), PREFIX, t, Suffix(table, size),
                         Lex(PREFIX).value, Lex(t).value, Lex(Suffix(table, size)).value);
  }

  // ---------------------------------------------------------------------------
  // An accepted predicate is one plain piece of SQL
  // ---------------------------------------------------------------------------

  /** Inside an open quote the scanner passes to the end of the literal, and out of it. */
  lemma {:induction false} StringPasses(t: string, i: nat)
    requires i <= |t| && StringEnd(t, i).Some? && '\\' !in t
    ensures Sql.Passes(t, i, StringEnd(t, i).value, Some('\''), None)
    decreases |t| - i
  {
    assert t[i] != '\\';
    if t[i] != '\'' {
      StringPasses(t, i + 1);
    } else if i + 1 < |t| && t[i + 1] == '\'' {
      StringPasses(t, i + 2);
    }
  }

  lemma {:induction false} TickPasses(t: string, i: nat)
    requires i <= |t| && RunEnd(IsTickPart, t, i) < |t|
    ensures Sql.Passes(t, i, RunEnd(IsTickPart, t, i) + 1, Some('`'), None)
    decreases |t| - i
  {
    if IsTickPart(t[i]) {
      TickPasses(t, i + 1);
    }
  }

  /** The scanner takes the character for itself, outside quotes. */
  predicate Calm(t: string, x: nat)
    requires x < |t|
  {
    && t[x] != '\'' && t[x] != '"' && t[x] != '`' && t[x] != ';'
    && !(t[x] == '-' && Sql.Followed(t, x, '-')) && !(t[x] == '/' && Sql.Followed(t, x, '*'))
  }

  lemma {:induction false} CalmPasses(t: string, i: nat, n: nat)
    requires i <= n <= |t| && forall x | i <= x < n :: Calm(t, x)
    ensures Sql.Passes(t, i, n, None, None)
    decreases n - i
  {
    if i < n {
      assert Calm(t, i);
      CalmPasses(t, i + 1, n);
    }
  }

  lemma {:induction false} PassesJoin(t: string, i: nat, k: nat, n: nat, quote: Option<char>, mid: Option<char>, after: Option<char>)
    requires i <= k <= n <= |t| && Sql.Passes(t, i, k, quote, mid) && Sql.Passes(t, k, n, mid, after)
    ensures Sql.Passes(t, i, n, quote, after)
    decreases k - i
  {
    if i < k {
      PassesJoin(t, Sql.Next(t, i, quote).end, k, n, Sql.Next(t, i, quote).quote, mid, after);
    }
  }

  /** Outside literals and quoted identifiers, only an operator of one character can start a
      comment, together with the character after it. */
  lemma TokenIsCalm(t: string, i: nat, x: nat)
    requires i < |t| && Match(t, i).Ok? && !(Match(t, i).value.kind == Str || Match(t, i).value.kind == Quoted)
    requires i <= x < Match(t, i).value.end
    ensures Calm(t, x) || (x == i && Match(t, i).value.end == i + 1 && (t[i] == '-' || t[i] == '/'))
  {
    var c := t[i];
    if IsSpace(c) {
      if i < x {
        RunIsClass(IsSpace, t, i + 1, x);
      }
    } else if IsDigit(c) {
      if i < x {
        NumberChars(t, i + 1, x);
      }
    } else if IsWordStart(c) {
      if i < x {
        RunIsClass(IsWordPart, t, i + 1, x);
      }
    }
  }

  lemma MaskedPasses(t: string, i: nat)
    requires i < |t| && '\\' !in t && Match(t, i).Ok? && (Match(t, i).value.kind == Str || Match(t, i).value.kind == Quoted)
    ensures Sql.Passes(t, i, Match(t, i).value.end, None, None)
  {
    if t[i] == '\'' {
      StringPasses(t, i + 1);
    } else {
      TickPasses(t, i + 1);
    }
  }

  lemma {:induction false} ContainsLater(s: string, word: string, i: nat, j: nat)
    requires i <= j && j + |word| <= |s| && s[j..j + |word|] == word
    ensures Contains(s, word, i)
    decreases j - i
  {
    if i < j {
      ContainsLater(s, word, i + 1, j);
    }
  }

  lemma {:induction false} ContainsBehind(head: string, s: string, word: string, i: nat)
    requires Contains(s, word, i)
    ensures Contains(head + s, word, |head| + i)
    decreases |s| - i
  {
    if s[i..i + |word|] == word {
      assert (head + s)[|head| + i..|head| + i + |word|] == s[i..i + |word|];
    } else {
      ContainsBehind(head, s, word, i + 1);
    }
  }

  lemma {:induction false} ContainsFromStart(s: string, word: string, i: nat)
    requires Contains(s, word, i)
    ensures Contains(s, word, 0)
    decreases |s| - i
  {
    if s[i..i + |word|] == word {
      ContainsLater(s, word, 0, i);
    } else {
      ContainsFromStart(s, word, i + 1);
    }
  }

  lemma TailIsFree(head: string, s: string, word: string)
    requires !Contains(head + s, word, 0)
    ensures !Contains(s, word, 0)
  {
    if Contains(s, word, 0) {
      ContainsBehind(head, s, word, 0);
      ContainsFromStart(head + s, word, |head|);
    }
  }

  ghost predicate NoComment(tokens: seq<Token>)
  {
    !Contains(CodeOnly(tokens), "--", 0) && !Contains(CodeOnly(tokens), "/*", 0)
  }

  lemma NoCommentBehind(tokens: seq<Token>)
    requires tokens != [] && NoComment(tokens)
    ensures NoComment(tokens[1..])
  {
    var head := if Masked(tokens[0]) then " " else tokens[0].text;
    TailIsFree(head, CodeOnly(tokens[1..]), "--");
    TailIsFree(head, CodeOnly(tokens[1..]), "/*");
  }

  lemma PairStartsCode(a: Token, b: Token, rest: seq<Token>, x: char, y: char)
    requires !Masked(a) && !Masked(b) && a.text == [x] && b.text == [y]
    ensures Contains(CodeOnly([a, b] + rest), [x, y], 0)
  {
    var tokens := [a, b] + rest;
    assert tokens[1..] == [b] + rest && tokens[1..][1..] == rest;
    assert CodeOnly(tokens) == [x] + ([y] + CodeOnly(rest));
    assert CodeOnly(tokens)[..2] == [x, y];
  }

  lemma SliceOfOne(t: string, i: nat)
    requires i < |t|
    ensures t[i..i + 1] == [t[i]]
  {
  }

  /** Where a token of one character starts a comment, the code shows it. */
  lemma CommentShows(t: string, i: nat, tokens: seq<Token>)
    requires i < |t| && Lexed(Match, t, i, |t|, tokens) && Match(t, i).value.end == i + 1
    requires (t[i] == '-' && Sql.Followed(t, i, '-')) || (t[i] == '/' && Sql.Followed(t, i, '*'))
    ensures !NoComment(tokens)
  {
    var y := t[i + 1];
    SliceOfOne(t, i);
    SliceOfOne(t, i + 1);
    assert Match(t, i).value.kind == Operator && tokens[0].text == t[i..i + 1] == [t[i]];
    assert Match(t, i + 1) == Ok(Found(Operator, i + 2)) && tokens[1..] != [];
    assert tokens[1] == tokens[1..][0] && tokens[1].text == t[i + 1..i + 2] == [y];
    PairStartsCode(tokens[0], tokens[1], tokens[2..], t[i], y);
    assert tokens == [tokens[0], tokens[1]] + tokens[2..];
    assert [t[i], y] == "--" || [t[i], y] == "/*";
  }

  lemma {:induction false} LexedPasses(t: string, i: nat, tokens: seq<Token>)
    requires i <= |t| && '\\' !in t && Lexed(Match, t, i, |t|, tokens) && NoComment(tokens)
    ensures Sql.Passes(t, i, |t|, None, None)
    decreases |tokens|
  {
    if tokens != [] {
      var end := Match(t, i).value.end;
      NoCommentBehind(tokens);
      LexedPasses(t, end, tokens[1..]);
      if Masked(tokens[0]) {
        MaskedPasses(t, i);
      } else {
        UnmaskedPasses(t, i, tokens);
      }
      PassesJoin(t, i, end, |t|, None, None, None);
    }
  }

  lemma UnmaskedPasses(t: string, i: nat, tokens: seq<Token>)
    requires i < |t| && Lexed(Match, t, i, |t|, tokens) && NoComment(tokens) && !Masked(tokens[0])
    ensures Sql.Passes(t, i, Match(t, i).value.end, None, None)
  {
    var end := Match(t, i).value.end;
    forall x | i <= x < end ensures Calm(t, x) {
      TokenIsCalm(t, i, x);
      if x == i && end == i + 1 && ((t[i] == '-' && Sql.Followed(t, i, '-')) || (t[i] == '/' && Sql.Followed(t, i, '*'))) {
        CommentShows(t, i, tokens);
      }
    }
    CalmPasses(t, i, end);
  }

  /** To the statement scanner an accepted predicate is one closed piece of code: it starts
      no comment, ends no statement and leaves no quote open. */
  lemma AcceptedIsPlain(t: string)
    requires Acceptable(t)
    ensures Sql.Plain(t)
  {
    LexedIsLex(Match, t, 0, Tokens(t).value);
    LexedPasses(t, 0, Tokens(t).value);
  }
}
