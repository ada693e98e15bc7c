/**
 What the verdict on a custom data-quality predicate (backend/routes/dq.py,
 `_validate_predicate`) depends on: not on the case of letters, and not on what literals and
 quoted names hold.
 */
module DqVerdict {
  import opened DqLexer
  import opened DqPredicate
  import opened Text
  import opened Wrappers

  // ---------------------------------------------------------------------------
  // Texts that differ in the case of letters only
  // ---------------------------------------------------------------------------

  /** One character, or the two cases of one ASCII letter. */
  predicate SameLetter(a: char, b: char)
  {
    a == b || ('a' <= b <= 'z' && a as int + 32 == b as int) || ('a' <= a <= 'z' && b as int + 32 == a as int)
  }

  predicate SameIgnoringCase(s: string, t: string)
  {
    |s| == |t| && forall k | 0 <= k < |s| :: SameLetter(s[k], t[k])
  }

  predicate IsLower(c: char)
  {
    'a' <= c <= 'z'
  }

  predicate IsUpper(c: char)
  {
    'A' <= c <= 'Z'
  }

  predicate NoLower(s: string)
  {
    forall k | 0 <= k < |s| :: !IsLower(s[k])
  }

  predicate NoUpper(s: string)
  {
    forall k | 0 <= k < |s| :: !IsUpper(s[k])
  }

  /** Upper-casing leads to exactly one text without lower-case letters. */
  lemma UpperFinds(s: string, w: string)
    requires NoLower(w)
    ensures Upper(s) == w <==> SameIgnoringCase(s, w)
  {
    if Upper(s) == w {
      forall k | 0 <= k < |s| ensures SameLetter(s[k], w[k]) {
        assert Upper(s)[k] == UpperChar(s[k]);
      }
    }
    if SameIgnoringCase(s, w) {
      forall k | 0 <= k < |s| ensures Upper(s)[k] == w[k] {
        assert SameLetter(s[k], w[k]) && !IsLower(w[k]);
      }
    }
  }

  lemma LowerFinds(s: string, w: string)
    requires NoUpper(w)
    ensures Lower(s) == w <==> SameIgnoringCase(s, w)
  {
    if Lower(s) == w {
      forall k | 0 <= k < |s| ensures SameLetter(s[k], w[k]) {
        assert Lower(s)[k] == LowerChar(s[k]);
      }
    }
    if SameIgnoringCase(s, w) {
      forall k | 0 <= k < |s| ensures Lower(s)[k] == w[k] {
        assert SameLetter(s[k], w[k]) && !IsUpper(w[k]);
      }
    }
  }

  lemma UpperHasNoLower(s: string)
    ensures NoLower(Upper(s)) && NoUpper(Lower(s))
  {
  }

  lemma SameCases(s: string, t: string)
    requires SameIgnoringCase(s, t)
    ensures Upper(s) == Upper(t) && Lower(s) == Lower(t)
  {
    forall k | 0 <= k < |s| ensures UpperChar(s[k]) == UpperChar(t[k]) && LowerChar(s[k]) == LowerChar(t[k]) {
      assert SameLetter(s[k], t[k]);
    }
  }

  lemma WordsAreUpper()
    ensures forall w | w in FORBIDDEN_WORDS :: NoLower(w)
  {
  }

  lemma OperatorsAreUpper()
    ensures forall w | w in OPERATOR_WORDS :: NoLower(w)
  {
  }

  lemma FunctionsAreLower()
    ensures forall w | w in ALLOWED_FUNCTIONS :: NoUpper(w)
  {
  }

  lemma TypesAreLower()
    ensures forall w | w in ALLOWED_TYPE_NAMES :: NoUpper(w)
  {
  }

  // ---------------------------------------------------------------------------
  // Words and names
  // ---------------------------------------------------------------------------

  /** The token is a forbidden word, in any mixture of cases. */
  ghost predicate IsForbidden(token: Token)
  {
    token.kind == Word && exists w | w in FORBIDDEN_WORDS :: SameIgnoringCase(token.text, w)
  }

  lemma ForbiddenInAnyCase(token: Token)
    ensures IsForbidden(token) <==> token.kind == Word && Upper(token.text) in FORBIDDEN_WORDS
  {
    WordsAreUpper();
    forall w | w in FORBIDDEN_WORDS ensures Upper(token.text) == w <==> SameIgnoringCase(token.text, w) {
      UpperFinds(token.text, w);
    }
  }

  lemma {:induction false} SignificantKeeps(tokens: seq<Token>, token: Token)
    ensures token in Significant(tokens) <==> token in tokens && token.kind != Space
    decreases |tokens|
  {
    if tokens != [] {
      SignificantKeeps(tokens[1..], token);
      assert tokens == [tokens[0]] + tokens[1..];
    }
  }

  /** An accepted predicate holds no forbidden word, however it is spelt. */
  lemma AcceptedHasNoForbiddenWord(t: string, token: Token)
    requires Acceptable(t) && token in Tokens(t).value
    ensures !IsForbidden(token)
  {
    ForbiddenInAnyCase(token);
    SignificantKeeps(Tokens(t).value, token);
  }

  /** Where a forbidden word stands, the predicate is refused. */
  lemma ForbiddenWordIsRefused(t: string, token: Token)
    requires Tokens(t).Ok? && token in Tokens(t).value && IsForbidden(token)
    ensures !Acceptable(t)
  {
    if Acceptable(t) {
      AcceptedHasNoForbiddenWord(t, token);
    }
  }

  ghost predicate IsAllowedName(name: string)
  {
    || (exists f | f in ALLOWED_FUNCTIONS :: SameIgnoringCase(name, f))
    || (exists ty | ty in ALLOWED_TYPE_NAMES :: SameIgnoringCase(name, ty))
    || (exists w | w in OPERATOR_WORDS :: SameIgnoringCase(name, w))
  }

  lemma FunctionInAnyCase(name: string)
    ensures Lower(name) in ALLOWED_FUNCTIONS <==> exists f | f in ALLOWED_FUNCTIONS :: SameIgnoringCase(name, f)
  {
    FunctionsAreLower();
    forall f | f in ALLOWED_FUNCTIONS ensures Lower(name) == f <==> SameIgnoringCase(name, f) {
      LowerFinds(name, f);
    }
  }

  lemma TypeInAnyCase(name: string)
    ensures Lower(name) in ALLOWED_TYPE_NAMES <==> exists ty | ty in ALLOWED_TYPE_NAMES :: SameIgnoringCase(name, ty)
  {
    TypesAreLower();
    forall ty | ty in ALLOWED_TYPE_NAMES ensures Lower(name) == ty <==> SameIgnoringCase(name, ty) {
      LowerFinds(name, ty);
    }
  }

  lemma OperatorInAnyCase(name: string)
    ensures Upper(name) in OPERATOR_WORDS <==> exists w | w in OPERATOR_WORDS :: SameIgnoringCase(name, w)
  {
    OperatorsAreUpper();
    forall w | w in OPERATOR_WORDS ensures Upper(name) == w <==> SameIgnoringCase(name, w) {
      UpperFinds(name, w);
    }
  }

  /** A name may be called if and only if it is one of the lists' names in some case. */
  lemma AllowedInAnyCase(name: string)
    ensures NameAllowed(name) <==> IsAllowedName(name)
  {
    FunctionInAnyCase(name);
    TypeInAnyCase(name);
    OperatorInAnyCase(name);
  }

  // ---------------------------------------------------------------------------
  // The verdict, read off the tokens
  // ---------------------------------------------------------------------------

  ghost predicate Holds(s: string, word: string)
  {
    exists i: nat :: HoldsAt(s, word, i)
  }

  predicate HoldsAt(s: string, word: string, i: nat)
  {
    i + |word| <= |s| && s[i..i + |word|] == word
  }

  lemma {:induction false} ContainsFrom(s: string, word: string, i: nat)
    ensures Contains(s, word, i) <==> exists j: nat :: i <= j && HoldsAt(s, word, j)
    decreases |s| - i
  {
    if i + |word| <= |s| {
      ContainsFrom(s, word, i + 1);
      if s[i..i + |word|] == word {
        assert HoldsAt(s, word, i);
      }
      if j: nat :| i <= j && HoldsAt(s, word, j) {
        assert j == i || i + 1 <= j;
      }
    }
  }

  /** Nothing in the code ends a statement or begins or ends a comment. */
  ghost predicate IsQuiet(code: string)
  {
    !Holds(code, ";") && !Holds(code, "--") && !Holds(code, "/*") && !Holds(code, "*/")
  }

  lemma ContainsExactly(s: string, word: string)
    ensures Contains(s, word, 0) <==> Holds(s, word)
  {
    ContainsFrom(s, word, 0);
  }

  lemma QuietExactly(code: string)
    ensures NoForbiddenToken(code) <==> IsQuiet(code)
  {
    ContainsExactly(code, ";");
    ContainsExactly(code, "--");
    ContainsExactly(code, "/*");
    ContainsExactly(code, "*/");
  }

  /** Opening less closing parentheses among the first `k` tokens. */
  function Open(tokens: seq<Token>, k: nat): int
    requires k <= |tokens|
  {
    var m := multiset(tokens[..k]);
    var opening: int, closing: int := m[OPEN], m[CLOSE];
    opening - closing
  }

  /** No beginning closes more than it opens, and the whole closes all. */
  ghost predicate IsBalanced(tokens: seq<Token>)
  {
    Open(tokens, |tokens|) == 0 && forall k | 0 <= k <= |tokens| :: Open(tokens, k) >= 0
  }

  lemma OpenNext(tokens: seq<Token>, k: nat)
    requires k < |tokens|
    ensures Open(tokens, k + 1) == Open(tokens, k) + Delta(tokens[k])
  {
    assert tokens[..k + 1] == tokens[..k] + [tokens[k]];
  }

  lemma {:induction false} BalancedFrom(tokens: seq<Token>, k: nat)
    requires k <= |tokens| && Open(tokens, k) >= 0
    ensures Balanced(tokens, k, Open(tokens, k)) <==>
              Open(tokens, |tokens|) == 0 && forall j | k <= j <= |tokens| :: Open(tokens, j) >= 0
    decreases |tokens| - k
  {
    if k < |tokens| {
      OpenNext(tokens, k);
      if Open(tokens, k + 1) >= 0 {
        BalancedFrom(tokens, k + 1);
      }
    }
  }

  lemma BalancedExactly(tokens: seq<Token>)
    ensures Balanced(tokens, 0, 0) <==> IsBalanced(tokens)
  {
    assert Open(tokens, 0) == 0;
    BalancedFrom(tokens, 0);
  }

  /** `name` stands in front of an opening parenthesis, behind `before`. */
  ghost predicate Calls(tokens: seq<Token>, before: seq<Token>, name: Token, rest: seq<Token>)
  {
    (name.kind == Word || name.kind == Quoted) && tokens == before + [name, Token(Punctuation, "(")] + rest
  }

  /** The token is the name, bare or in back quotes. */
  predicate Spells(token: Token, name: string)
  {
    if token.kind == Quoted then token.text == "`" + name + "`" else token.text == name
  }

  ghost predicate IsFineCall(before: seq<Token>, name: Token)
  {
    && (before != [] ==> before[|before| - 1] != Token(Punctuation, "."))
    && exists s :: Spells(name, s) && IsAllowedName(s)
  }

  ghost predicate OnlyFineCalls(tokens: seq<Token>)
  {
    forall before, name, rest | Calls(tokens, before, name, rest) :: IsFineCall(before, name)
  }

  /** A quoted token has its quotes around it. */
  ghost predicate WellQuoted(tokens: seq<Token>)
  {
    forall token | token in tokens && token.kind == Quoted ::
      |token.text| >= 2 && token.text[0] == '`' && token.text[|token.text| - 1] == '`'
  }

  lemma SpelledName(token: Token, name: string)
    requires IsName(token) && WellQuoted([token])
    ensures Spells(token, name) <==> name == NameOf(token)
  {
    assert token in [token];
    if token.kind == Quoted {
      assert token.text == "`" + token.text[1..|token.text| - 1] + "`";
      if Spells(token, name) {
        assert token.text[1..|token.text| - 1] == name;
      }
    }
  }

  lemma FineCallExactly(tokens: seq<Token>, before: seq<Token>, name: Token, rest: seq<Token>)
    requires WellQuoted(tokens) && Calls(tokens, before, name, rest)
    ensures IsCall(tokens, |before|) && tokens[|before|] == name
    ensures IsFineCall(before, name) <==> !IsQualified(tokens, |before|) && NameAllowed(NameOf(name))
  {
    var i := |before|;
    assert tokens[i] == name && tokens[i + 1] == OPEN && name in tokens;
    assert i > 0 ==> tokens[i - 1] == before[i - 1];
    SpelledName(name, NameOf(name));
    AllowedInAnyCase(NameOf(name));
    if IsFineCall(before, name) {
      var s :| Spells(name, s) && IsAllowedName(s);
      SpelledName(name, s);
    }
  }

  lemma CallSplits(tokens: seq<Token>, i: nat)
    requires IsCall(tokens, i)
    ensures Calls(tokens, tokens[..i], tokens[i], tokens[i + 2..])
  {
    assert tokens == tokens[..i] + [tokens[i], tokens[i + 1]] + tokens[i + 2..];
  }

  /** The calls are allowed exactly when each name in front of an opening parenthesis has no
      dot before it and is an allowed name, bare or quoted, in any case. */
  lemma CallsExactly(tokens: seq<Token>)
    requires WellQuoted(tokens)
    ensures CallsAllowed(tokens) <==> OnlyFineCalls(tokens)
  {
    if CallsAllowed(tokens) {
      forall before, name, rest | Calls(tokens, before, name, rest) ensures IsFineCall(before, name) {
        FineCallExactly(tokens, before, name, rest);
      }
    }
    if OnlyFineCalls(tokens) {
      forall i: nat | IsCall(tokens, i) ensures !IsQualified(tokens, i) && NameAllowed(NameOf(tokens[i])) {
        CallSplits(tokens, i);
        FineCallExactly(tokens, tokens[..i], tokens[i], tokens[i + 2..]);
      }
    }
  }

  lemma QuotedIsQuoted(t: string, i: nat)
    requires i < |t| && Match(t, i).Ok? && Match(t, i).value.kind == Quoted
    ensures WellQuoted([Token(Quoted, t[i..Match(t, i).value.end])])
  {
    MatchIsToken(t, i);
    var end := Match(t, i).value.end;
    var text := t[i..end];
    assert text[0] == t[i] && text[|text| - 1] == t[end - 1];
  }

  lemma {:induction false} LexedIsWellQuoted(t: string, i: nat)
    requires i <= |t| && LexWith(Match, t, i).Ok?
    ensures WellQuoted(LexWith(Match, t, i).value)
    decreases |t| - i
  {
    if i < |t| {
      var f := Match(t, i).value;
      var first, rest := Token(f.kind, t[i..f.end]), LexWith(Match, t, f.end).value;
      LexedIsWellQuoted(t, f.end);
      if f.kind == Quoted {
        QuotedIsQuoted(t, i);
        assert first in [first];
      }
      assert LexWith(Match, t, i).value == [first] + rest;
    }
  }

  ghost predicate NothingForbidden(tokens: seq<Token>)
  {
    forall token | token in tokens :: !IsForbidden(token)
  }

  lemma WordsExactly(tokens: seq<Token>)
    ensures NoForbiddenWord(Significant(tokens)) <==> NothingForbidden(tokens)
  {
    var sig := Significant(tokens);
    forall token: Token
      ensures IsForbidden(token) <==> token.kind == Word && Upper(token.text) in FORBIDDEN_WORDS
      ensures token in sig <==> token in tokens && token.kind != Space
    {
      ForbiddenInAnyCase(token);
      SignificantKeeps(tokens, token);
    }
    if NoForbiddenWord(sig) {
      forall token | token in tokens && token.kind == Word ensures !IsForbidden(token) {
        assert token in sig;
        var k :| 0 <= k < |sig| && sig[k] == token;
      }
    }
    if NothingForbidden(tokens) {
      forall k | 0 <= k < |sig| && sig[k].kind == Word ensures Upper(sig[k].text) !in FORBIDDEN_WORDS {
        assert sig[k] in sig;
      }
    }
  }

  lemma SignificantIsWellQuoted(tokens: seq<Token>)
    requires WellQuoted(tokens)
    ensures WellQuoted(Significant(tokens))
  {
    forall token | token in Significant(tokens) && token.kind == Quoted ensures token in tokens {
      SignificantKeeps(tokens, token);
    }
  }

  /** The whole verdict in terms of the tokens alone. */
  lemma AcceptedExactly(t: string)
    requires Tokens(t).Ok?
    ensures var tokens := Tokens(t).value;
            Acceptable(t) <==> IsQuiet(CodeOnly(tokens)) && IsBalanced(tokens) && NothingForbidden(tokens) && OnlyFineCalls(Significant(tokens))
  {
    var tokens := Tokens(t).value;
    QuietExactly(CodeOnly(tokens));
    SignificantBalance(tokens, 0);
    BalancedExactly(tokens);
    WordsExactly(tokens);
    LexedIsWellQuoted(t, 0);
    SignificantIsWellQuoted(tokens);
    CallsExactly(Significant(tokens));
  }

  // ---------------------------------------------------------------------------
  // What the views of a token stream do not see
  // ---------------------------------------------------------------------------

  /** Tokens of the same kinds, whose texts outside literals and quoted names differ in the
      case of letters only. */
  ghost predicate SameCode(a: seq<Token>, b: seq<Token>)
  {
    && |a| == |b|
    && (forall k | 0 <= k < |a| :: a[k].kind == b[k].kind)
    && (forall k | 0 <= k < |a| && !Masked(a[k]) :: SameIgnoringCase(a[k].text, b[k].text))
  }

  /** Moreover, the quoted names differ in the case of letters only. */
  ghost predicate SameTokens(a: seq<Token>, b: seq<Token>)
  {
    SameCode(a, b) && forall k | 0 <= k < |a| && a[k].kind != Str :: SameIgnoringCase(a[k].text, b[k].text)
  }

  lemma {:induction false} CodeInAnyCase(a: seq<Token>, b: seq<Token>)
    requires SameCode(a, b)
    ensures SameIgnoringCase(CodeOnly(a), CodeOnly(b))
    decreases |a|
  {
    if a != [] {
      CodeInAnyCase(a[1..], b[1..]);
    }
  }

  predicate NoLetter(s: string)
  {
    NoLower(s) && NoUpper(s)
  }

  lemma SliceInAnyCase(s: string, t: string, word: string, i: nat)
    requires SameIgnoringCase(s, t) && NoLetter(word) && i + |word| <= |s|
    ensures s[i..i + |word|] == word <==> t[i..i + |word|] == word
  {
    var a, b := s[i..i + |word|], t[i..i + |word|];
    forall k | 0 <= k < |word| ensures a[k] == word[k] <==> b[k] == word[k] {
      assert SameLetter(s[i + k], t[i + k]);
    }
  }

  lemma {:induction false} ContainsInAnyCase(s: string, t: string, word: string, i: nat)
    requires SameIgnoringCase(s, t) && NoLetter(word)
    ensures Contains(s, word, i) <==> Contains(t, word, i)
    decreases |s| - i
  {
    if i + |word| <= |s| {
      SliceInAnyCase(s, t, word, i);
      ContainsInAnyCase(s, t, word, i + 1);
    }
  }

  /** What stands in literals and quoted names, and the case of all other letters, is
      nothing to the search for statement ends and comments. */
  lemma MaskedIsNotSearched(a: seq<Token>, b: seq<Token>)
    requires SameCode(a, b)
    ensures NoForbiddenToken(CodeOnly(a)) <==> NoForbiddenToken(CodeOnly(b))
  {
    CodeInAnyCase(a, b);
    ContainsInAnyCase(CodeOnly(a), CodeOnly(b), ";", 0);
    ContainsInAnyCase(CodeOnly(a), CodeOnly(b), "--", 0);
    ContainsInAnyCase(CodeOnly(a), CodeOnly(b), "/*", 0);
    ContainsInAnyCase(CodeOnly(a), CodeOnly(b), "*/", 0);
  }

  lemma {:induction false} SignificantInAnyCase(a: seq<Token>, b: seq<Token>)
    requires SameTokens(a, b)
    ensures SameTokens(Significant(a), Significant(b))
    decreases |a|
  {
    if a != [] {
      SignificantInAnyCase(a[1..], b[1..]);
    }
  }

  lemma SamePunctuation(a: Token, b: Token, c: char)
    requires a.kind == b.kind && (a.kind != Str ==> SameIgnoringCase(a.text, b.text)) && !IsLower(c) && !IsUpper(c)
    ensures a == Token(Punctuation, [c]) <==> b == Token(Punctuation, [c])
  {
    if a.kind == Punctuation && |a.text| == 1 {
      assert SameLetter(a.text[0], b.text[0]);
    }
  }

  lemma {:induction false} BalanceInAnyCase(a: seq<Token>, b: seq<Token>, k: nat, depth: int)
    requires SameTokens(a, b) && k <= |a|
    ensures Balanced(a, k, depth) <==> Balanced(b, k, depth)
    decreases |a| - k
  {
    if k < |a| {
      SamePunctuation(a[k], b[k], '(');
      SamePunctuation(a[k], b[k], ')');
      BalanceInAnyCase(a, b, k + 1, depth + Delta(a[k]));
    }
  }

  lemma WordsInAnyCase(a: seq<Token>, b: seq<Token>)
    requires SameTokens(a, b)
    ensures NoForbiddenWord(a) <==> NoForbiddenWord(b)
  {
    forall i | 0 <= i < |a| && a[i].kind == Word ensures Upper(a[i].text) == Upper(b[i].text) {
      SameCases(a[i].text, b[i].text);
    }
  }

  lemma NameInAnyCase(a: Token, b: Token)
    requires IsName(a) && a.kind == b.kind && SameIgnoringCase(a.text, b.text)
    ensures NameAllowed(NameOf(a)) <==> NameAllowed(NameOf(b))
  {
    assert SameIgnoringCase(NameOf(a), NameOf(b));
    SameCases(NameOf(a), NameOf(b));
  }

  lemma CallInAnyCase(a: seq<Token>, b: seq<Token>, i: nat)
    requires SameTokens(a, b)
    ensures IsCall(a, i) <==> IsCall(b, i)
    ensures IsCall(a, i) ==> (IsQualified(a, i) <==> IsQualified(b, i)) && (NameAllowed(NameOf(a[i])) <==> NameAllowed(NameOf(b[i])))
  {
    if i + 1 < |a| {
      SamePunctuation(a[i + 1], b[i + 1], '(');
      if i > 0 {
        SamePunctuation(a[i - 1], b[i - 1], '.');
      }
      if IsCall(a, i) {
        NameInAnyCase(a[i], b[i]);
      }
    }
  }

  lemma CallsInAnyCase(a: seq<Token>, b: seq<Token>)
    requires SameTokens(a, b)
    ensures CallsAllowed(a) <==> CallsAllowed(b)
  {
    forall i: nat
      ensures IsCall(a, i) <==> IsCall(b, i)
      ensures IsCall(a, i) ==> (IsQualified(a, i) <==> IsQualified(b, i)) && (NameAllowed(NameOf(a[i])) <==> NameAllowed(NameOf(b[i])))
    {
      CallInAnyCase(a, b, i);
    }
  }

  /** The verdict depends neither on what literals hold nor on the case of letters. */
  lemma LiteralsAreNotRead(t: string, u: string)
    requires Tokens(t).Ok? && Tokens(u).Ok? && SameTokens(Tokens(t).value, Tokens(u).value)
    ensures Acceptable(t) <==> Acceptable(u)
  {
    var a, b := Tokens(t).value, Tokens(u).value;
    MaskedIsNotSearched(a, b);
    SignificantInAnyCase(a, b);
    BalanceInAnyCase(Significant(a), Significant(b), 0, 0);
    WordsInAnyCase(Significant(a), Significant(b));
    CallsInAnyCase(Significant(a), Significant(b));
  }

  // ---------------------------------------------------------------------------
  // Lexing does not see the case of letters
  // ---------------------------------------------------------------------------

  ghost predicate CaseBlind(isPart: char -> bool)
  {
    forall a, b | SameLetter(a, b) :: isPart(a) == isPart(b)
  }

  lemma ClassesAreCaseBlind()
    ensures CaseBlind(IsSpace) && CaseBlind(IsDigit) && CaseBlind(IsWordPart) && CaseBlind(IsTickPart)
    ensures CaseBlind(IsDot) && CaseBlind(IsExponent) && CaseBlind(IsSign) && CaseBlind(IsWordStart) && CaseBlind(IsPunctuation)
  {
  }

  lemma {:induction false} RunInAnyCase(isPart: char -> bool, t: string, u: string, i: nat)
    requires SameIgnoringCase(t, u) && CaseBlind(isPart) && i <= |t|
    ensures RunEnd(isPart, t, i) == RunEnd(isPart, u, i)
    decreases |t| - i
  {
    if i < |t| {
      assert SameLetter(t[i], u[i]);
      RunInAnyCase(isPart, t, u, i + 1);
    }
  }

  lemma CharInAnyCase(isPart: char -> bool, t: string, u: string, i: nat)
    requires SameIgnoringCase(t, u) && CaseBlind(isPart)
    ensures CharAt(t, i, isPart) == CharAt(u, i, isPart)
  {
    if i < |t| {
      assert SameLetter(t[i], u[i]);
    }
  }

  lemma {:induction false} StringInAnyCase(t: string, u: string, i: nat)
    requires SameIgnoringCase(t, u) && i <= |t|
    ensures StringEnd(t, i) == StringEnd(u, i)
    decreases |t| - i
  {
    if i < |t| {
      assert SameLetter(t[i], u[i]);
      StringInAnyCase(t, u, i + 1);
      if i + 1 < |t| {
        assert SameLetter(t[i + 1], u[i + 1]);
        StringInAnyCase(t, u, i + 2);
      }
    }
  }

  lemma FractionInAnyCase(t: string, u: string, j: nat)
    requires SameIgnoringCase(t, u) && j <= |t|
    ensures FractionEnd(t, j) == FractionEnd(u, j)
  {
    ClassesAreCaseBlind();
    CharInAnyCase(IsDot, t, u, j);
    CharInAnyCase(IsDigit, t, u, j + 1);
    if j + 1 < |t| {
      RunInAnyCase(IsDigit, t, u, j + 1);
    }
  }

  lemma ExponentInAnyCase(t: string, u: string, k: nat)
    requires SameIgnoringCase(t, u) && k <= |t|
    ensures ExponentEnd(t, k) == ExponentEnd(u, k)
  {
    ClassesAreCaseBlind();
    CharInAnyCase(IsExponent, t, u, k);
    CharInAnyCase(IsSign, t, u, k + 1);
    var m := if CharAt(t, k + 1, IsSign) then k + 2 else k + 1;
    CharInAnyCase(IsDigit, t, u, m);
    if m < |t| {
      RunInAnyCase(IsDigit, t, u, m);
    }
  }

  lemma NumberInAnyCase(t: string, u: string, i: nat)
    requires SameIgnoringCase(t, u) && i <= |t|
    ensures NumberEnd(t, i) == NumberEnd(u, i)
  {
    ClassesAreCaseBlind();
    RunInAnyCase(IsDigit, t, u, i);
    var j := RunEnd(IsDigit, t, i);
    FractionInAnyCase(t, u, j);
    ExponentInAnyCase(t, u, FractionEnd(t, j));
  }

  lemma CleanInAnyCase(t: string, u: string, a: nat, b: nat)
    requires SameIgnoringCase(t, u) && a <= b <= |t|
    ensures CleanIdentifier(t, a, b) <==> CleanIdentifier(u, a, b)
  {
    forall k | a <= k < b
      ensures (t[k] != '\'' && t[k] != '\\' && t[k] != ';') <==> (u[k] != '\'' && u[k] != '\\' && u[k] != ';')
    {
      assert SameLetter(t[k], u[k]);
    }
  }

  lemma QuotedInAnyCase(t: string, u: string, i: nat)
    requires SameIgnoringCase(t, u) && i < |t|
    ensures MatchQuoted(t, i) == MatchQuoted(u, i)
  {
    ClassesAreCaseBlind();
    RunInAnyCase(IsTickPart, t, u, i + 1);
    CleanInAnyCase(t, u, i + 1, RunEnd(IsTickPart, t, i + 1));
  }

  lemma OperatorLengthInAnyCase(t: string, u: string, i: nat)
    requires SameIgnoringCase(t, u) && i < |t|
    ensures OperatorLength(t, i) == OperatorLength(u, i)
  {
    assert SameLetter(t[i], u[i]);
    if i + 1 < |t| {
      assert SameLetter(t[i + 1], u[i + 1]);
    }
  }

  lemma MatchInAnyCase(t: string, u: string, i: nat)
    requires SameIgnoringCase(t, u)
    ensures Match(t, i) == Match(u, i)
  {
    if i < |t| {
      var c, d := t[i], u[i];
      assert SameLetter(c, d);
      ClassesAreCaseBlind();
      if IsSpace(c) {
        RunInAnyCase(IsSpace, t, u, i + 1);
      } else if IsDigit(c) {
        NumberInAnyCase(t, u, i + 1);
      } else if c == '\'' {
        StringInAnyCase(t, u, i + 1);
      } else if c == '`' {
        QuotedInAnyCase(t, u, i);
      } else if IsWordStart(c) {
        RunInAnyCase(IsWordPart, t, u, i + 1);
      } else {
        OperatorLengthInAnyCase(t, u, i);
      }
    }
  }

  ghost predicate SameLexing(a: Result<seq<Token>, LexError>, b: Result<seq<Token>, LexError>)
  {
    if a.Ok? then b.Ok? && SameTokens(a.value, b.value) else a == b
  }

  lemma TokensPrepended(a: Token, b: Token, r: Result<seq<Token>, LexError>, s: Result<seq<Token>, LexError>)
    requires a.kind == b.kind && SameIgnoringCase(a.text, b.text) && SameLexing(r, s)
    ensures SameLexing(Prepend([a], r), Prepend([b], s))
  {
  }

  lemma {:induction false} LexInAnyCase(t: string, u: string, i: nat)
    requires SameIgnoringCase(t, u) && i <= |t|
    ensures SameLexing(LexWith(Match, t, i), LexWith(Match, u, i))
    decreases |t| - i
  {
    if i < |t| {
      MatchInAnyCase(t, u, i);
      if Match(t, i).Ok? {
        var f := Match(t, i).value;
        LexInAnyCase(t, u, f.end);
        TokensPrepended(Token(f.kind, t[i..f.end]), Token(f.kind, u[i..f.end]), LexWith(Match, t, f.end), LexWith(Match, u, f.end));
      }
    }
  }

  lemma BackslashInAnyCase(t: string, u: string)
    requires SameIgnoringCase(t, u)
    ensures '\\' in t <==> '\\' in u
  {
    assert forall k | 0 <= k < |t| :: SameLetter(t[k], u[k]);
  }

  /** Whatever letters change their case, the verdict stays. */
  lemma CaseIsNotRead(t: string, u: string)
    requires SameIgnoringCase(t, u)
    ensures Acceptable(t) <==> Acceptable(u)
  {
    BackslashInAnyCase(t, u);
    LexInAnyCase(t, u, 0);
    if Tokens(t).Ok? {
      LiteralsAreNotRead(t, u);
    }
  }
}
