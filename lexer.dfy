/** The lexer of lib/lexer/mod.rs. `Lexer::lex_tokens` walks a peekable character iterator,
    skipping ASCII whitespace and calling `lex_token` for everything else; `lex_token`
    consumes one token's characters. The iterator is modelled by an index into the input:
    the characters before the index have been consumed.

    `char::is_alphabetic` (Unicode's Alphabetic property) is a parameter `isAlpha`; the facts
    that depend on it assume only that it agrees with the ASCII letters below U+0080, which is
    what the Unicode property says there. */
module Lexer {
  import opened Basics
  import opened Tokens

  /** `char::is_ascii_whitespace`: space, tab, line feed, form feed, carriage return. */
  predicate IsAsciiWhitespace(c: char): (r: bool)
    ensures r ==> c < '\U{0080}' && !IsAsciiDigit(c) && !IsAsciiLetter(c) && c != '_'
  {
    c == ' ' || c == '\t' || c == '\n' || c == '\U{000C}' || c == '\r'
  }

  /** `char::is_ascii_digit` */
  predicate IsAsciiDigit(c: char)
  {
    '0' <= c <= '9'
  }

  predicate IsAsciiLetter(c: char)
  {
    'a' <= c <= 'z' || 'A' <= c <= 'Z'
  }

  /** What the model assumes of `is_alphabetic` where a fact needs it: on ASCII it holds of
      exactly the letters. */
  ghost predicate AsciiAlphabetic(isAlpha: char -> bool)
  {
    forall c: char :: c < '\U{0080}' ==> (isAlpha(c) <==> IsAsciiLetter(c))
  }

  /** The characters that may continue a word (lib/lexer/mod.rs:82). */
  predicate IsWordChar(c: char, isAlpha: char -> bool)
  {
    isAlpha(c) || IsAsciiDigit(c) || c == '_'
  }

  /** Where the run of word characters starting at `i` ends: the loop at lexer/mod.rs:81-87. */
  function WordEnd(s: string, i: nat, isAlpha: char -> bool): (j: nat)
    requires i <= |s|
    ensures i <= j <= |s|
    ensures forall k :: i <= k < j ==> IsWordChar(s[k], isAlpha)
    ensures j == |s| || !IsWordChar(s[j], isAlpha)
    decreases |s| - i
  {
    if i < |s| && IsWordChar(s[i], isAlpha) then WordEnd(s, i + 1, isAlpha) else i
  }

  /** Where the run of ASCII digits starting at `i` ends: the loop at lexer/mod.rs:102-108. */
  function DigitsEnd(s: string, i: nat): (j: nat)
    requires i <= |s|
    ensures i <= j <= |s|
    ensures forall k :: i <= k < j ==> IsAsciiDigit(s[k])
    ensures j == |s| || !IsAsciiDigit(s[j])
    decreases |s| - i
  {
    if i < |s| && IsAsciiDigit(s[i]) then DigitsEnd(s, i + 1) else i
  }

  /** The value of one ASCII digit: its position in the digit alphabet. */
  function DigitValue(c: char): (d: nat)
    ensures d < 10
    ensures IsAsciiDigit(c) ==> "0123456789"[d] == c
  {
    if IsAsciiDigit(c) then (c as int) - ('0' as int) else 0
  }

  function Pow10(n: nat): (p: nat)
    ensures p >= 1
  {
    if n == 0 then 1 else 10 * Pow10(n - 1)
  }

  /** The base-ten value of a string of ASCII digits, most significant first; a string of
      `n` digits is worth less than `10^n`. */
  function DecimalValue(ds: string): (v: nat)
    ensures v < Pow10(|ds|)
    decreases |ds|
  {
    if ds == [] then 0 else 10 * DecimalValue(ds[..|ds| - 1]) + DigitValue(ds[|ds| - 1])
  }

  /** A non-empty string of ASCII digits, which is what the lexer hands to `parse::<i64>`. */
  predicate IsDigitString(ds: string)
  {
    |ds| > 0 && forall k :: 0 <= k < |ds| ==> IsAsciiDigit(ds[k])
  }

  /** The digit loop of `str::parse::<i64>` (`from_str_radix` in the core library) from index
      `k` with accumulator `acc`: each digit multiplies by ten and adds, with overflow checks;
      a character that is no digit, or a step that leaves the i64 range, is an error. */
  function Accumulate(ds: string, k: nat, acc: nat): (r: Option<i64>)
    requires k <= |ds| && acc <= I64_MAX
    ensures r.Some? ==> forall m :: k <= m < |ds| ==> IsAsciiDigit(ds[m])
    decreases |ds| - k
  {
    if k == |ds| then Some(acc)
    else if !IsAsciiDigit(ds[k]) then None
    else if acc * 10 > I64_MAX then None
    else if acc * 10 + DigitValue(ds[k]) > I64_MAX then None
    else Accumulate(ds, k + 1, acc * 10 + DigitValue(ds[k]))
  }

  /** `str::parse::<i64>` on an unsigned string: the empty string is an error, otherwise the
      checked digit loop from zero. Only a non-empty digit string parses. */
  function ParseI64(ds: string): (r: Option<i64>)
    ensures r.Some? ==> IsDigitString(ds)
  {
    if ds == [] then None else Accumulate(ds, 0, 0)
  }

  /** A prefix of a digit string is worth no more than the whole string. */
  lemma {:induction false} DecimalPrefix(ds: string, k: nat)
    requires k <= |ds|
    ensures DecimalValue(ds[..k]) <= DecimalValue(ds)
    decreases |ds|
  {
    if k < |ds| {
      var init := ds[..|ds| - 1];
      assert init[..k] == ds[..k];
      DecimalPrefix(init, k);
    } else {
      assert ds[..k] == ds;
    }
  }

  /** The checked loop, started after the first `k` digits with their value, ends with the value
      of the whole string exactly when that fits in an i64: a step that overflows implies that
      the whole value does. */
  lemma {:induction false} AccumulateDecimal(ds: string, k: nat)
    requires k <= |ds| && DecimalValue(ds[..k]) <= I64_MAX
    requires forall m :: 0 <= m < |ds| ==> IsAsciiDigit(ds[m])
    ensures Accumulate(ds, k, DecimalValue(ds[..k]))
         == if DecimalValue(ds) <= I64_MAX then Some(DecimalValue(ds)) else None
    decreases |ds| - k
  {
    if k == |ds| {
      assert ds[..k] == ds;
    } else {
      DecimalStep(ds, k);
      DecimalPrefix(ds, k + 1);
      if DecimalValue(ds[..k + 1]) <= I64_MAX {
        AccumulateDecimal(ds, k + 1);
      }
    }
  }

  /** One more digit: the value of the first `k + 1` digits is ten times that of the first `k`,
      plus the new digit. */
  lemma DecimalStep(ds: string, k: nat)
    requires k < |ds|
    ensures DecimalValue(ds[..k + 1]) == DecimalValue(ds[..k]) * 10 + DigitValue(ds[k])
  {
    var next := ds[..k + 1];
    assert next[..k] == ds[..k] && next[k] == ds[k];
  }

  /** `parse::<i64>` on a string of digits succeeds exactly when its decimal value is at most
      i64::MAX, and then yields that value. */
  lemma ParseI64Decimal(ds: string)
    requires IsDigitString(ds)
    ensures ParseI64(ds) == if DecimalValue(ds) <= I64_MAX then Some(DecimalValue(ds)) else None
  {
    assert ds[..0] == [];
    AccumulateDecimal(ds, 0);
  }

  /** The reserved words and their tokens. */
  const KEYWORDS: map<string, Token> :=
    map["fn" := Function, "let" := Let, "return" := Return, "if" := If, "else" := Else,
        "true" := BooleanLiteral(true), "false" := BooleanLiteral(false)]

  /** The `match s.as_str()` at lexer/mod.rs:88-97. */
  function Keyword(w: string): (r: Token)
    ensures r.Ident? <==> w !in KEYWORDS
    ensures r.Ident? ==> r.name == w
    ensures !r.EOF? && !r.Illegal?
  {
    if w == "fn" then Function
    else if w == "let" then Let
    else if w == "return" then Return
    else if w == "if" then If
    else if w == "else" then Else
    else if w == "true" then BooleanLiteral(true)
    else if w == "false" then BooleanLiteral(false)
    else Token.Ident(w)
  }

  /** A reserved word lexes to its token in `KEYWORDS`, any other word to an identifier. */
  lemma KeywordTable(w: string)
    ensures Keyword(w) == if w in KEYWORDS then KEYWORDS[w] else Token.Ident(w)
  {
  }

  /** The characters that are a token by themselves or together with a following `=`. */
  predicate IsOperatorChar(c: char): (r: bool)
    ensures r ==> c < '\U{0080}' && !IsAsciiWhitespace(c) && !IsAsciiDigit(c) && !IsAsciiLetter(c) && c != '_'
  {
    c == ';' || c == ',' || c == '(' || c == ')' || c == '{' || c == '}' || c == '+' || c == '-'
    || c == '/' || c == '*' || c == '=' || c == '!' || c == '<' || c == '>'
  }

  /** The operator token a character of `IsOperatorChar` starts, given whether an `=` follows,
      with the number of characters it takes (lexer/mod.rs:32-77). */
  function OperatorToken(c: char, eqNext: bool): (r: (Token, nat))
    requires IsOperatorChar(c)
    ensures r.0 != EOF && r.0 != Illegal
    ensures r.1 == if eqNext && (c == '=' || c == '!' || c == '<' || c == '>') then 2 else 1
  {
    if c == ';' then (SemiColon, 1)
    else if c == ',' then (Comma, 1)
    else if c == '(' then (LParen, 1)
    else if c == ')' then (RParen, 1)
    else if c == '{' then (LBrace, 1)
    else if c == '}' then (RBrace, 1)
    else if c == '+' then (Plus, 1)
    else if c == '-' then (Minus, 1)
    else if c == '/' then (Divide, 1)
    else if c == '*' then (Multiply, 1)
    else if c == '=' then (if eqNext then (Equal, 2) else (Assign, 1))
    else if c == '!' then (if eqNext then (NotEqual, 2) else (Not, 1))
    else if c == '<' then (if eqNext then (LessEqual, 2) else (Less, 1))
    else (if eqNext then (GreaterEqual, 2) else (Greater, 1))
  }

  /** The word token at `i`: the maximal run of word characters, as a keyword or an identifier
      (lexer/mod.rs:78-98). */
  function WordAt(s: string, i: nat, isAlpha: char -> bool): (r: (Token, nat))
    requires i < |s|
    ensures r.1 == WordEnd(s, i + 1, isAlpha) && r.0 != EOF
  {
    var j := WordEnd(s, i + 1, isAlpha);
    (Keyword(s[i..j]), j)
  }

  /** The integer token at `i`: the maximal run of digits, `Illegal` when its value does not fit
      in an i64 (lexer/mod.rs:99-113). */
  function NumberAt(s: string, i: nat): (r: (Token, nat))
    requires i < |s|
    ensures r.1 == DigitsEnd(s, i + 1) && r.0 != EOF
  {
    var j := DigitsEnd(s, i + 1);
    match ParseI64(s[i..j])
    case Some(v) => (IntLiteral(v), j)
    case None => (Illegal, j)
  }

  /** The token `lex_token` produces when the iterator stands at `i`, with the index it leaves
      the iterator at: the arms of its `match` in their order. */
  function TokenAt(s: string, i: nat, isAlpha: char -> bool): (r: (Token, nat))
    requires i <= |s|
    ensures i == |s| ==> r == (EOF, i)
    ensures i < |s| ==> i < r.1 <= |s| && r.0 != EOF
  {
    if i == |s| then (EOF, i)
    else if IsOperatorChar(s[i]) then
      var (t, n) := OperatorToken(s[i], i + 1 < |s| && s[i + 1] == '=');
      (t, i + n)
    else if isAlpha(s[i]) then WordAt(s, i, isAlpha)
    else if IsAsciiDigit(s[i]) then NumberAt(s, i)
    else (Illegal, i + 1)
  }

  /** The tokens `lex_tokens` produces from index `i` on. */
  function TokensFrom(s: string, i: nat, isAlpha: char -> bool): (r: seq<Token>)
    requires i <= |s|
    ensures |r| > 0 && r[|r| - 1] == EOF
    decreases |s| - i
  {
    if i == |s| then [TokenAt(s, i, isAlpha).0]
    else if IsAsciiWhitespace(s[i]) then TokensFrom(s, i + 1, isAlpha)
    else
      var (t, j) := TokenAt(s, i, isAlpha);
      [t] + TokensFrom(s, j, isAlpha)
  }

  /** `lex_tokens` skips a whitespace character. */
  lemma TokensFromSkip(s: string, i: nat, isAlpha: char -> bool)
    requires i < |s| && IsAsciiWhitespace(s[i])
    ensures TokensFrom(s, i, isAlpha) == TokensFrom(s, i + 1, isAlpha)
  {
  }

  /** `lex_tokens` pushes one token at a character that is not whitespace. */
  lemma TokensFromStep(s: string, i: nat, t: Token, j: nat, isAlpha: char -> bool)
    requires i < |s| && !IsAsciiWhitespace(s[i]) && TokenAt(s, i, isAlpha) == (t, j)
    ensures TokensFrom(s, i, isAlpha) == [t] + TokensFrom(s, j, isAlpha)
  {
  }

  /** EOF is the last token of the vector and appears nowhere before it. */
  lemma {:induction false} EofOnlyAtEnd(s: string, i: nat, isAlpha: char -> bool)
    requires i <= |s|
    ensures var r := TokensFrom(s, i, isAlpha); forall k :: 0 <= k < |r| - 1 ==> r[k] != EOF
    decreases |s| - i
  {
    if i < |s| {
      if IsAsciiWhitespace(s[i]) {
        TokensFromSkip(s, i, isAlpha);
        EofOnlyAtEnd(s, i + 1, isAlpha);
      } else {
        var (t, j) := TokenAt(s, i, isAlpha);
        TokensFromStep(s, i, t, j, isAlpha);
        EofOnlyAtEnd(s, j, isAlpha);
      }
    }
  }

  /** The word arm of `lex_token`: the `while let` loop that collects the rest of the word,
      then the keyword match. */
  method LexWord(input: string, i: nat, isAlpha: char -> bool) returns (t: Token, j: nat)
    requires i < |input| && isAlpha(input[i])
    ensures (t, j) == WordAt(input, i, isAlpha)
  {
    var s := [input[i]];
    j := i + 1;
    while j < |input| && IsWordChar(input[j], isAlpha)
      invariant i + 1 <= j <= |input|
      invariant s == input[i..j]
      invariant WordEnd(input, j, isAlpha) == WordEnd(input, i + 1, isAlpha)
      decreases |input| - j
    {
      assert input[i..j + 1] == input[i..j] + [input[j]];
      s := s + [input[j]];
      j := j + 1;
    }
    t := Keyword(s);
  }

  /** The number arm of `lex_token`: the loop that collects the digits, then `parse::<i64>`. */
  method LexNumber(input: string, i: nat) returns (t: Token, j: nat)
    requires i < |input| && IsAsciiDigit(input[i])
    ensures (t, j) == NumberAt(input, i)
  {
    var s := [input[i]];
    j := i + 1;
    while j < |input| && IsAsciiDigit(input[j])
      invariant i + 1 <= j <= |input|
      invariant s == input[i..j]
      invariant DigitsEnd(input, j) == DigitsEnd(input, i + 1)
      decreases |input| - j
    {
      assert input[i..j + 1] == input[i..j] + [input[j]];
      s := s + [input[j]];
      j := j + 1;
    }
    match ParseI64(s)
    case Some(v) => t := IntLiteral(v);
    case None => t := Illegal;
  }

  /** `Lexer::lex_token`: consume one token starting at index `i`. */
  method LexToken(input: string, i: nat, isAlpha: char -> bool) returns (t: Token, j: nat)
    requires i <= |input|
    ensures (t, j) == TokenAt(input, i, isAlpha)
  {
    if i == |input| {
      return EOF, i;
    }
    var c := input[i];
    j := i + 1;
    var eqNext := j < |input| && input[j] == '=';
    if c == ';' {
      t := SemiColon;
    } else if c == ',' {
      t := Comma;
    } else if c == '(' {
      t := LParen;
    } else if c == ')' {
      t := RParen;
    } else if c == '{' {
      t := LBrace;
    } else if c == '}' {
      t := RBrace;
    } else if c == '+' {
      t := Plus;
    } else if c == '-' {
      t := Minus;
    } else if c == '/' {
      t := Divide;
    } else if c == '*' {
      t := Multiply;
    } else if c == '=' {
      if eqNext { j := j + 1; t := Equal; } else { t := Assign; }
    } else if c == '!' {
      if eqNext { j := j + 1; t := NotEqual; } else { t := Not; }
    } else if c == '<' {
      if eqNext { j := j + 1; t := LessEqual; } else { t := Less; }
    } else if c == '>' {
      if eqNext { j := j + 1; t := GreaterEqual; } else { t := Greater; }
    } else if isAlpha(c) {
      t, j := LexWord(input, i, isAlpha);
    } else if IsAsciiDigit(c) {
      t, j := LexNumber(input, i);
    } else {
      t := Illegal;
    }
  }

  /** `Lexer::lex_tokens`: the whole token vector of `input`, which ends in exactly one EOF. */
  method LexTokens(input: string, isAlpha: char -> bool) returns (tokens: seq<Token>)
    ensures tokens == TokensFrom(input, 0, isAlpha)
    ensures |tokens| > 0 && tokens[|tokens| - 1] == EOF
    ensures forall k :: 0 <= k < |tokens| - 1 ==> tokens[k] != EOF
  {
    var i := 0;
    tokens := [];
    while true
      invariant i <= |input|
      invariant tokens + TokensFrom(input, i, isAlpha) == TokensFrom(input, 0, isAlpha)
      decreases |input| - i
    {
      if i == |input| {
        var t, _ := LexToken(input, i, isAlpha);
        tokens := tokens + [t];
        EofOnlyAtEnd(input, 0, isAlpha);
        break;
      } else if IsAsciiWhitespace(input[i]) {
        i := i + 1;
      } else {
        var t, j := LexToken(input, i, isAlpha);
        tokens := tokens + [t];
        i := j;
      }
    }
  }
}
