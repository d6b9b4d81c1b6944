/** Properties of the lexer model: whitespace, maximal munch, keywords, integer literals, and
    how the tokens of a text split at delimiters. */
module LexerFacts {
  import opened Basics
  import opened Tokens
  import opened Lexer

  /** A run of ASCII whitespace produces no tokens. */
  lemma {:induction false} WhitespaceRunSkipped(s: string, i: nat, j: nat, isAlpha: char -> bool)
    requires i <= j <= |s|
    requires forall k :: i <= k < j ==> IsAsciiWhitespace(s[k])
    ensures TokensFrom(s, i, isAlpha) == TokensFrom(s, j, isAlpha)
    decreases j - i
  {
    if i < j {
      WhitespaceRunSkipped(s, i + 1, j, isAlpha);
    }
  }

  /** An input of nothing but whitespace lexes to the single EOF token. */
  lemma BlankInputIsEof(s: string, isAlpha: char -> bool)
    requires forall k :: 0 <= k < |s| ==> IsAsciiWhitespace(s[k])
    ensures TokensFrom(s, 0, isAlpha) == [EOF]
  {
    WhitespaceRunSkipped(s, 0, |s|, isAlpha);
  }

  /** The one-character operators that may be followed by `=`, with their short and long tokens. */
  const PAIRED: map<char, (Token, Token)> :=
    map['=' := (Assign, Equal), '!' := (Not, NotEqual), '<' := (Less, LessEqual), '>' := (Greater, GreaterEqual)]

  /** `=`, `!`, `<`, `>` take a following `=` with them, and are one character long otherwise. */
  lemma OperatorMunch(s: string, i: nat, isAlpha: char -> bool)
    requires i < |s| && s[i] in PAIRED
    ensures TokenAt(s, i, isAlpha) ==
      if i + 1 < |s| && s[i + 1] == '=' then (PAIRED[s[i]].1, i + 2) else (PAIRED[s[i]].0, i + 1)
  {
  }

  /** A letter starts a word that runs to the maximal end `WordEnd`; a reserved word becomes its
      token and any other word an identifier. */
  lemma WordToken(s: string, i: nat, isAlpha: char -> bool)
    requires AsciiAlphabetic(isAlpha)
    requires i < |s| && isAlpha(s[i])
    ensures var j := WordEnd(s, i + 1, isAlpha);
      TokenAt(s, i, isAlpha) == (if s[i..j] in KEYWORDS then KEYWORDS[s[i..j]] else Token.Ident(s[i..j]), j)
  {
    KeywordTable(s[i..WordEnd(s, i + 1, isAlpha)]);
  }

  /** A digit starts a maximal run of digits, read as its decimal value when that fits in an
      i64 and as `Illegal` otherwise. */
  lemma NumberToken(s: string, i: nat, isAlpha: char -> bool)
    requires AsciiAlphabetic(isAlpha)
    requires i < |s| && IsAsciiDigit(s[i])
    ensures var j := DigitsEnd(s, i + 1);
      TokenAt(s, i, isAlpha) ==
        (if DecimalValue(s[i..j]) <= I64_MAX then IntLiteral(DecimalValue(s[i..j])) else Illegal, j)
  {
    assert !isAlpha(s[i]);
    var j := DigitsEnd(s, i + 1);
    assert forall k :: 0 <= k < |s[i..j]| ==> s[i..j][k] == s[i + k];
    ParseI64Decimal(s[i..j]);
  }

  /** Any other character is `Illegal`, and only that one character is consumed. */
  lemma OtherCharIsIllegal(s: string, i: nat, isAlpha: char -> bool)
    requires i < |s| && !IsOperatorChar(s[i])
    requires !isAlpha(s[i]) && !IsAsciiDigit(s[i])
    ensures TokenAt(s, i, isAlpha) == (Illegal, i + 1)
  {
  }

  /** The lexer knows no `while` keyword: the word lexes as an identifier. */
  lemma WhileIsAnIdentifier(isAlpha: char -> bool)
    requires AsciiAlphabetic(isAlpha)
    ensures TokensFrom("while", 0, isAlpha) == [Token.Ident("while"), EOF]
  {
    WhileWord(isAlpha);
    TokensFromStep("while", 0, Token.Ident("while"), 5, isAlpha);
  }

  lemma WhileWord(isAlpha: char -> bool)
    requires AsciiAlphabetic(isAlpha)
    ensures TokenAt("while", 0, isAlpha) == (Token.Ident("while"), 5)
  {
    var s := "while";
    assert WordEnd(s, 5, isAlpha) == 5;
    assert WordEnd(s, 4, isAlpha) == 5;
    assert WordEnd(s, 3, isAlpha) == 5;
    assert WordEnd(s, 2, isAlpha) == 5;
    assert WordEnd(s, 1, isAlpha) == 5;
    assert s[0..5] == "while";
  }

  /** A character that ends any token before it and is itself whitespace or a token that does
      not look ahead. */
  predicate IsDelimiter(c: char)
  {
    c == ' ' || c == ';' || c == ',' || c == '(' || c == ')' || c == '{' || c == '}'
    || c == '+' || c == '-' || c == '/' || c == '*'
  }

  /** A piece of input that ends in a delimiter: no token of it reaches past its end. */
  predicate EndsInDelimiter(a: string)
  {
    |a| > 0 && IsDelimiter(a[|a| - 1])
  }

  /** The token vector without its final EOF. */
  function Body(ts: seq<Token>): seq<Token>
    requires |ts| > 0
  {
    ts[..|ts| - 1]
  }

  lemma SliceShift(p: string, q: string, i: nat, j: nat)
    requires i <= j <= |q|
    ensures (p + q)[|p| + i..|p| + j] == q[i..j]
  {
  }

  lemma SlicePrefix(a: string, b: string, i: nat, j: nat)
    requires i <= j <= |a|
    ensures (a + b)[i..j] == a[i..j]
  {
  }

  lemma {:induction false} WordEndShift(p: string, q: string, k: nat, isAlpha: char -> bool)
    requires k <= |q|
    ensures WordEnd(p + q, |p| + k, isAlpha) == |p| + WordEnd(q, k, isAlpha)
    decreases |q| - k
  {
    if k < |q| {
      assert (p + q)[|p| + k] == q[k];
      if IsWordChar(q[k], isAlpha) {
        WordEndShift(p, q, k + 1, isAlpha);
      }
    }
  }

  lemma {:induction false} DigitsEndShift(p: string, q: string, k: nat)
    requires k <= |q|
    ensures DigitsEnd(p + q, |p| + k) == |p| + DigitsEnd(q, k)
    decreases |q| - k
  {
    if k < |q| {
      assert (p + q)[|p| + k] == q[k];
      if IsAsciiDigit(q[k]) {
        DigitsEndShift(p, q, k + 1);
      }
    }
  }

  /** The lexer only looks ahead: a token of `q` is the same token after any prefix `p`. */
  lemma TokenAtShift(p: string, q: string, i: nat, isAlpha: char -> bool)
    requires i <= |q|
    ensures TokenAt(p + q, |p| + i, isAlpha) == (TokenAt(q, i, isAlpha).0, |p| + TokenAt(q, i, isAlpha).1)
  {
    if i < |q| {
      assert (p + q)[|p| + i] == q[i];
      if IsOperatorChar(q[i]) {
        if i + 1 < |q| {
          assert (p + q)[|p| + i + 1] == q[i + 1];
        }
      } else if isAlpha(q[i]) {
        WordShiftCase(p, q, i, isAlpha);
      } else if IsAsciiDigit(q[i]) {
        DigitsShiftCase(p, q, i);
      }
    }
  }

  lemma WordShiftCase(p: string, q: string, i: nat, isAlpha: char -> bool)
    requires i < |q|
    ensures WordAt(p + q, |p| + i, isAlpha) == (WordAt(q, i, isAlpha).0, |p| + WordAt(q, i, isAlpha).1)
  {
    WordEndShift(p, q, i + 1, isAlpha);
    var w := WordEnd(q, i + 1, isAlpha);
    SliceShift(p, q, i, w);
  }

  lemma DigitsShiftCase(p: string, q: string, i: nat)
    requires i < |q|
    ensures NumberAt(p + q, |p| + i) == (NumberAt(q, i).0, |p| + NumberAt(q, i).1)
  {
    DigitsEndShift(p, q, i + 1);
    var d := DigitsEnd(q, i + 1);
    SliceShift(p, q, i, d);
  }

  /** Lexing `q` after a prefix `p` from inside `q` gives what lexing `q` alone gives. */
  lemma {:induction false} TokensFromShift(p: string, q: string, i: nat, isAlpha: char -> bool)
    requires i <= |q|
    ensures TokensFrom(p + q, |p| + i, isAlpha) == TokensFrom(q, i, isAlpha)
    decreases |q| - i
  {
    if i == |q| {
    } else if IsAsciiWhitespace(q[i]) {
      TokensFromShift(p, q, i + 1, isAlpha);
      ShiftSkipCase(p, q, i, isAlpha);
    } else {
      TokensFromShift(p, q, TokenAt(q, i, isAlpha).1, isAlpha);
      ShiftStepCase(p, q, i, isAlpha);
    }
  }

  lemma ShiftSkipCase(p: string, q: string, i: nat, isAlpha: char -> bool)
    requires i < |q| && IsAsciiWhitespace(q[i])
    requires TokensFrom(p + q, |p| + i + 1, isAlpha) == TokensFrom(q, i + 1, isAlpha)
    ensures TokensFrom(p + q, |p| + i, isAlpha) == TokensFrom(q, i, isAlpha)
  {
    assert (p + q)[|p| + i] == q[i];
    TokensFromSkip(p + q, |p| + i, isAlpha);
    TokensFromSkip(q, i, isAlpha);
  }

  lemma ShiftStepCase(p: string, q: string, i: nat, isAlpha: char -> bool)
    requires i < |q| && !IsAsciiWhitespace(q[i])
    requires var j := TokenAt(q, i, isAlpha).1; TokensFrom(p + q, |p| + j, isAlpha) == TokensFrom(q, j, isAlpha)
    ensures TokensFrom(p + q, |p| + i, isAlpha) == TokensFrom(q, i, isAlpha)
  {
    var (t, j) := TokenAt(q, i, isAlpha);
    assert (p + q)[|p| + i] == q[i];
    TokenAtShift(p, q, i, isAlpha);
    TokensFromStep(p + q, |p| + i, t, |p| + j, isAlpha);
    TokensFromStep(q, i, t, j, isAlpha);
  }

  lemma {:induction false} WordEndPrefix(a: string, b: string, k: nat, isAlpha: char -> bool)
    requires AsciiAlphabetic(isAlpha) && EndsInDelimiter(a)
    requires k < |a|
    ensures WordEnd(a + b, k, isAlpha) == WordEnd(a, k, isAlpha)
    decreases |a| - k
  {
    assert (a + b)[k] == a[k];
    if IsWordChar(a[k], isAlpha) {
      assert k + 1 < |a|;
      WordEndPrefix(a, b, k + 1, isAlpha);
    }
  }

  lemma {:induction false} DigitsEndPrefix(a: string, b: string, k: nat)
    requires EndsInDelimiter(a)
    requires k < |a|
    ensures DigitsEnd(a + b, k) == DigitsEnd(a, k)
    decreases |a| - k
  {
    assert (a + b)[k] == a[k];
    if IsAsciiDigit(a[k]) {
      assert k + 1 < |a|;
      DigitsEndPrefix(a, b, k + 1);
    }
  }

  /** Inside a piece that ends in a delimiter, what follows the piece does not change a token. */
  lemma TokenAtPrefix(a: string, b: string, i: nat, isAlpha: char -> bool)
    requires AsciiAlphabetic(isAlpha) && EndsInDelimiter(a)
    requires i < |a|
    ensures TokenAt(a + b, i, isAlpha) == TokenAt(a, i, isAlpha)
  {
    assert (a + b)[i] == a[i];
    if IsOperatorChar(a[i]) {
      if i + 1 < |a| {
        assert (a + b)[i + 1] == a[i + 1];
      }
    } else if isAlpha(a[i]) {
      WordPrefixCase(a, b, i, isAlpha);
    } else if IsAsciiDigit(a[i]) {
      DigitsPrefixCase(a, b, i);
    }
  }

  lemma WordPrefixCase(a: string, b: string, i: nat, isAlpha: char -> bool)
    requires AsciiAlphabetic(isAlpha) && EndsInDelimiter(a)
    requires i < |a| && isAlpha(a[i])
    ensures WordAt(a + b, i, isAlpha) == WordAt(a, i, isAlpha)
  {
    assert i + 1 < |a|;
    WordEndPrefix(a, b, i + 1, isAlpha);
    var w := WordEnd(a, i + 1, isAlpha);
    SlicePrefix(a, b, i, w);
  }

  lemma DigitsPrefixCase(a: string, b: string, i: nat)
    requires EndsInDelimiter(a)
    requires i < |a| && IsAsciiDigit(a[i])
    ensures NumberAt(a + b, i) == NumberAt(a, i)
  {
    assert i + 1 < |a|;
    DigitsEndPrefix(a, b, i + 1);
    var d := DigitsEnd(a, i + 1);
    SlicePrefix(a, b, i, d);
  }

  /** The same step in `a + b` while still inside `a`. */
  lemma PrefixStep(a: string, b: string, i: nat, isAlpha: char -> bool)
    requires AsciiAlphabetic(isAlpha) && EndsInDelimiter(a)
    requires i < |a| && !IsAsciiWhitespace(a[i])
    ensures TokensFrom(a + b, i, isAlpha) == [TokenAt(a, i, isAlpha).0] + TokensFrom(a + b, TokenAt(a, i, isAlpha).1, isAlpha)
  {
    assert (a + b)[i] == a[i];
    TokenAtPrefix(a, b, i, isAlpha);
  }

  /** Lexing `a + b` gives the tokens of `a` without its EOF, then what lexing goes on with
      after `a`. */
  lemma {:induction false} TokensFromPrefix(a: string, b: string, i: nat, isAlpha: char -> bool)
    requires AsciiAlphabetic(isAlpha) && EndsInDelimiter(a)
    requires i <= |a|
    ensures TokensFrom(a + b, i, isAlpha) == Body(TokensFrom(a, i, isAlpha)) + TokensFrom(a + b, |a|, isAlpha)
    decreases |a| - i
  {
    if i == |a| {
      assert Body(TokensFrom(a, i, isAlpha)) == [];
    } else if IsAsciiWhitespace(a[i]) {
      TokensFromPrefix(a, b, i + 1, isAlpha);
      PrefixSkipCase(a, b, i, isAlpha);
    } else {
      TokensFromPrefix(a, b, TokenAt(a, i, isAlpha).1, isAlpha);
      PrefixStepCase(a, b, i, isAlpha);
    }
  }

  lemma PrefixSkipCase(a: string, b: string, i: nat, isAlpha: char -> bool)
    requires i < |a| && IsAsciiWhitespace(a[i])
    requires TokensFrom(a + b, i + 1, isAlpha) == Body(TokensFrom(a, i + 1, isAlpha)) + TokensFrom(a + b, |a|, isAlpha)
    ensures TokensFrom(a + b, i, isAlpha) == Body(TokensFrom(a, i, isAlpha)) + TokensFrom(a + b, |a|, isAlpha)
  {
    assert (a + b)[i] == a[i];
    TokensFromSkip(a + b, i, isAlpha);
    TokensFromSkip(a, i, isAlpha);
  }

  lemma PrefixStepCase(a: string, b: string, i: nat, isAlpha: char -> bool)
    requires AsciiAlphabetic(isAlpha) && EndsInDelimiter(a)
    requires i < |a| && !IsAsciiWhitespace(a[i])
    requires var j := TokenAt(a, i, isAlpha).1;
      TokensFrom(a + b, j, isAlpha) == Body(TokensFrom(a, j, isAlpha)) + TokensFrom(a + b, |a|, isAlpha)
    ensures TokensFrom(a + b, i, isAlpha) == Body(TokensFrom(a, i, isAlpha)) + TokensFrom(a + b, |a|, isAlpha)
  {
    var (t, j) := TokenAt(a, i, isAlpha);
    PrefixStep(a, b, i, isAlpha);
    TokensFromStep(a, i, t, j, isAlpha);
    BodyCons(t, TokensFrom(a, j, isAlpha), TokensFrom(a + b, |a|, isAlpha));
  }

  lemma BodyCons(t: Token, rest: seq<Token>, after: seq<Token>)
    requires |rest| > 0
    ensures Body([t] + rest) + after == [t] + (Body(rest) + after)
  {
    assert Body([t] + rest) == [t] + Body(rest);
  }

  /** Text that ends in a delimiter, followed by more text, lexes as the two pieces one after the
      other. */
  lemma LexJoin(a: string, b: string, isAlpha: char -> bool)
    requires AsciiAlphabetic(isAlpha) && EndsInDelimiter(a)
    ensures TokensFrom(a + b, 0, isAlpha) == Body(TokensFrom(a, 0, isAlpha)) + TokensFrom(b, 0, isAlpha)
  {
    TokensFromPrefix(a, b, 0, isAlpha);
    TokensFromShift(a, b, 0, isAlpha);
  }

  /** Concatenation of pieces of program text. */
  function Concat(ps: seq<string>): string
  {
    if ps == [] then [] else ps[0] + Concat(ps[1..])
  }

  /** Pieces that each end in a delimiter concatenate to text that does. */
  lemma {:induction false} ConcatEndsInDelimiter(ps: seq<string>)
    requires ps != [] && forall k :: 0 <= k < |ps| ==> EndsInDelimiter(ps[k])
    ensures EndsInDelimiter(Concat(ps))
  {
    if |ps| > 1 {
      ConcatEndsInDelimiter(ps[1..]);
      var rest := Concat(ps[1..]);
      assert (ps[0] + rest)[|ps[0] + rest| - 1] == rest[|rest| - 1];
    } else {
      assert Concat(ps) == ps[0] + [];
      assert ps[0] + [] == ps[0];
    }
  }

  /** The concatenation of a sequence of token vectors. */
  function Flatten(tss: seq<seq<Token>>): seq<Token>
  {
    if tss == [] then [] else tss[0] + Flatten(tss[1..])
  }

  /** A text made of pieces that each end in a delimiter lexes piece by piece: when piece `k`
      alone lexes to `tss[k]` and EOF, the whole text lexes to all of `tss` and one EOF. */
  lemma {:induction false} LexByPieces(ps: seq<string>, tss: seq<seq<Token>>, isAlpha: char -> bool)
    requires AsciiAlphabetic(isAlpha)
    requires |ps| == |tss|
    requires forall k :: 0 <= k < |ps| ==> EndsInDelimiter(ps[k])
    requires forall k :: 0 <= k < |ps| ==> TokensFrom(ps[k], 0, isAlpha) == tss[k] + [EOF]
    ensures TokensFrom(Concat(ps), 0, isAlpha) == Flatten(tss) + [EOF]
  {
    if ps != [] {
      var a, rest := ps[0], Concat(ps[1..]);
      assert Concat(ps) == a + rest;
      LexJoin(a, rest, isAlpha);
      LexByPieces(ps[1..], tss[1..], isAlpha);
      assert Body(tss[0] + [EOF]) == tss[0];
      var later := Flatten(tss[1..]);
      assert Flatten(tss) == tss[0] + later;
      assert (tss[0] + later) + [EOF] == tss[0] + (later + [EOF]);
    }
  }
}
