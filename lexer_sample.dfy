/** The lexer test test_lexer_1 of lib/lexer/mod.rs:127-199, stated as a lemma. The sample program
    is cut into segments and each segment into pieces that end in a delimiter; each piece is lexed
    on its own, and the pieces are joined by `LexByPieces`. */
module LexerSample {
  import opened Tokens
  import opened Lexer
  import opened LexerFacts

  /** The program of test_lexer_1 (lib/lexer/mod.rs:128-137) is made of the segments below, each
      cut into pieces, with the tokens each piece lexes to. */
  const SEGMENT0: seq<string> := ["if ", "(a ", "== ", "10) ", "{"]
  const SEGMENT0_TOKENS: seq<seq<Token>> := [[If], [LParen, Token.Ident("a")], [Equal], [IntLiteral(10), RParen], [LBrace]]
  const SEGMENT1: seq<string> := ["return ", "a;"]
  const SEGMENT1_TOKENS: seq<seq<Token>> := [[Return], [Token.Ident("a"), SemiColon]]
  const SEGMENT2: seq<string> := ["} ", "else "]
  const SEGMENT2_TOKENS: seq<seq<Token>> := [[RBrace], [Else]]
  const SEGMENT3: seq<string> := ["if ", "(a ", "!= ", "20) ", "{"]
  const SEGMENT3_TOKENS: seq<seq<Token>> := [[If], [LParen, Token.Ident("a")], [NotEqual], [IntLiteral(20), RParen], [LBrace]]
  const SEGMENT4: seq<string> := ["return ", "!a;"]
  const SEGMENT4_TOKENS: seq<seq<Token>> := [[Return], [Not, Token.Ident("a"), SemiColon]]
  const SEGMENT5: seq<string> := ["if ", "(a ", "> ", "20) ", "{"]
  const SEGMENT5_TOKENS: seq<seq<Token>> := [[If], [LParen, Token.Ident("a")], [Greater], [IntLiteral(20), RParen], [LBrace]]
  const SEGMENT6: seq<string> := ["return ", "-30 ", "/ ", "40 ", "* ", "50;"]
  const SEGMENT6_TOKENS: seq<seq<Token>> := [[Return], [Minus, IntLiteral(30)], [Divide], [IntLiteral(40)], [Multiply], [IntLiteral(50), SemiColon]]
  const SEGMENT7: seq<string> := ["if ", "(a ", "< ", "30) ", "{"]
  const SEGMENT7_TOKENS: seq<seq<Token>> := [[If], [LParen, Token.Ident("a")], [Less], [IntLiteral(30), RParen], [LBrace]]
  const SEGMENT8: seq<string> := ["return ", "true;"]
  const SEGMENT8_TOKENS: seq<seq<Token>> := [[Return], [BooleanLiteral(true), SemiColon]]
  const SEGMENT9: seq<string> := ["}"]
  const SEGMENT9_TOKENS: seq<seq<Token>> := [[RBrace]]
  const SEGMENT10: seq<string> := ["return ", "false;"]
  const SEGMENT10_TOKENS: seq<seq<Token>> := [[Return], [BooleanLiteral(false), SemiColon]]

  /** The segments in three groups, and the tokens of each segment. */
  const GROUP0: seq<string> := [Concat(SEGMENT0), Concat(SEGMENT1), Concat(SEGMENT2), Concat(SEGMENT3)]
  const GROUP0_TOKENS: seq<seq<Token>> := [
    Flatten(SEGMENT0_TOKENS), Flatten(SEGMENT1_TOKENS), Flatten(SEGMENT2_TOKENS), Flatten(SEGMENT3_TOKENS)
  ]
  const GROUP1: seq<string> := [Concat(SEGMENT4), Concat(SEGMENT2), Concat(SEGMENT5), Concat(SEGMENT6)]
  const GROUP1_TOKENS: seq<seq<Token>> := [
    Flatten(SEGMENT4_TOKENS), Flatten(SEGMENT2_TOKENS), Flatten(SEGMENT5_TOKENS), Flatten(SEGMENT6_TOKENS)
  ]
  const GROUP2: seq<string> := [Concat(SEGMENT2), Concat(SEGMENT7), Concat(SEGMENT8), Concat(SEGMENT9), Concat(SEGMENT10)]
  const GROUP2_TOKENS: seq<seq<Token>> := [
    Flatten(SEGMENT2_TOKENS), Flatten(SEGMENT7_TOKENS), Flatten(SEGMENT8_TOKENS), Flatten(SEGMENT9_TOKENS), Flatten(SEGMENT10_TOKENS)
  ]

  /** The sample program: its three groups one after the other. */
  const SAMPLE: string := Concat(GROUP0) + Concat(GROUP1) + Concat(GROUP2)

  /** The expected token vector of test_lexer_1 (lib/lexer/mod.rs:140-198), segment by segment
      (the `} else` segment comes three times), grouped as the program is, and followed by EOF. */
  const SEGMENT0_EXPECTED: seq<Token> := [If, LParen, Token.Ident("a"), Equal, IntLiteral(10), RParen, LBrace]
  const SEGMENT1_EXPECTED: seq<Token> := [Return, Token.Ident("a"), SemiColon]
  const SEGMENT2_EXPECTED: seq<Token> := [RBrace, Else]
  const SEGMENT3_EXPECTED: seq<Token> := [If, LParen, Token.Ident("a"), NotEqual, IntLiteral(20), RParen, LBrace]
  const SEGMENT4_EXPECTED: seq<Token> := [Return, Not, Token.Ident("a"), SemiColon]
  const SEGMENT5_EXPECTED: seq<Token> := [If, LParen, Token.Ident("a"), Greater, IntLiteral(20), RParen, LBrace]
  const SEGMENT6_EXPECTED: seq<Token> := [Return, Minus, IntLiteral(30), Divide, IntLiteral(40), Multiply, IntLiteral(50), SemiColon]
  const SEGMENT7_EXPECTED: seq<Token> := [If, LParen, Token.Ident("a"), Less, IntLiteral(30), RParen, LBrace]
  const SEGMENT8_EXPECTED: seq<Token> := [Return, BooleanLiteral(true), SemiColon]
  const SEGMENT9_EXPECTED: seq<Token> := [RBrace]
  const SEGMENT10_EXPECTED: seq<Token> := [Return, BooleanLiteral(false), SemiColon]
  const EXPECTED0: seq<Token> := SEGMENT0_EXPECTED + SEGMENT1_EXPECTED + SEGMENT2_EXPECTED + SEGMENT3_EXPECTED
  const EXPECTED1: seq<Token> := SEGMENT4_EXPECTED + SEGMENT2_EXPECTED + SEGMENT5_EXPECTED + SEGMENT6_EXPECTED
  const EXPECTED2: seq<Token> := SEGMENT2_EXPECTED + SEGMENT7_EXPECTED + SEGMENT8_EXPECTED + SEGMENT9_EXPECTED + SEGMENT10_EXPECTED
  const SAMPLE_TOKENS: seq<Token> := EXPECTED0 + EXPECTED1 + EXPECTED2 + [EOF]

  lemma Piece0At(isAlpha: char -> bool)
    requires AsciiAlphabetic(isAlpha)
    ensures TokenAt("if ", 0, isAlpha) == (If, 2)
  {
    var s := "if ";
    assert WordEnd(s, 2, isAlpha) == 2;
    assert WordEnd(s, 1, isAlpha) == 2;
    assert s[0..2] == "if";
  }

  lemma Piece0(isAlpha: char -> bool)
    requires AsciiAlphabetic(isAlpha)
    ensures TokensFrom("if ", 0, isAlpha) == [If, EOF]
  {
    Piece0At(isAlpha);
    var s := "if ";
    TokensFromSkip(s, 2, isAlpha);
    TokensFromStep(s, 0, If, 2, isAlpha);
  }

  lemma Piece1At(isAlpha: char -> bool)
    requires AsciiAlphabetic(isAlpha)
    ensures TokenAt("(a ", 0, isAlpha) == (LParen, 1)
    ensures TokenAt("(a ", 1, isAlpha) == (Token.Ident("a"), 2)
  {
    var s := "(a ";
    assert WordEnd(s, 2, isAlpha) == 2;
    assert s[1..2] == "a";
  }

  lemma Piece1(isAlpha: char -> bool)
    requires AsciiAlphabetic(isAlpha)
    ensures TokensFrom("(a ", 0, isAlpha) == [LParen, Token.Ident("a"), EOF]
  {
    Piece1At(isAlpha);
    var s := "(a ";
    TokensFromSkip(s, 2, isAlpha);
    TokensFromStep(s, 1, Token.Ident("a"), 2, isAlpha);
    TokensFromStep(s, 0, LParen, 1, isAlpha);
  }

  lemma Piece2At(isAlpha: char -> bool)
    requires AsciiAlphabetic(isAlpha)
    ensures TokenAt("== ", 0, isAlpha) == (Equal, 2)
  {
    var s := "== ";
  }

  lemma Piece2(isAlpha: char -> bool)
    requires AsciiAlphabetic(isAlpha)
    ensures TokensFrom("== ", 0, isAlpha) == [Equal, EOF]
  {
    Piece2At(isAlpha);
    var s := "== ";
    TokensFromSkip(s, 2, isAlpha);
    TokensFromStep(s, 0, Equal, 2, isAlpha);
  }

  lemma Piece3At(isAlpha: char -> bool)
    requires AsciiAlphabetic(isAlpha)
    ensures TokenAt("10) ", 0, isAlpha) == (IntLiteral(10), 2)
    ensures TokenAt("10) ", 2, isAlpha) == (RParen, 3)
  {
    var s := "10) ";
    assert DigitsEnd(s, 2) == 2;
    assert DigitsEnd(s, 1) == 2;
    assert s[0..2] == "10";
    assert "1"[..0] == "";
    assert DecimalValue("1") == 1;
    assert "10"[..1] == "1";
    assert DecimalValue("10") == 10;
  }

  lemma Piece3(isAlpha: char -> bool)
    requires AsciiAlphabetic(isAlpha)
    ensures TokensFrom("10) ", 0, isAlpha) == [IntLiteral(10), RParen, EOF]
  {
    Piece3At(isAlpha);
    var s := "10) ";
    TokensFromSkip(s, 3, isAlpha);
    TokensFromStep(s, 2, RParen, 3, isAlpha);
    TokensFromStep(s, 0, IntLiteral(10), 2, isAlpha);
  }

  lemma Piece4At(isAlpha: char -> bool)
    requires AsciiAlphabetic(isAlpha)
    ensures TokenAt("{", 0, isAlpha) == (LBrace, 1)
  {
    var s := "{";
  }

  lemma Piece4(isAlpha: char -> bool)
    requires AsciiAlphabetic(isAlpha)
    ensures TokensFrom("{", 0, isAlpha) == [LBrace, EOF]
  {
    Piece4At(isAlpha);
    var s := "{";
    TokensFromStep(s, 0, LBrace, 1, isAlpha);
  }

  lemma Piece5At(isAlpha: char -> bool)
    requires AsciiAlphabetic(isAlpha)
    ensures TokenAt("return ", 0, isAlpha) == (Return, 6)
  {
    var s := "return ";
    assert WordEnd(s, 6, isAlpha) == 6;
    assert WordEnd(s, 5, isAlpha) == 6;
    assert WordEnd(s, 4, isAlpha) == 6;
    assert WordEnd(s, 3, isAlpha) == 6;
    assert WordEnd(s, 2, isAlpha) == 6;
    assert WordEnd(s, 1, isAlpha) == 6;
    assert s[0..6] == "return";
  }

  lemma Piece5(isAlpha: char -> bool)
    requires AsciiAlphabetic(isAlpha)
    ensures TokensFrom("return ", 0, isAlpha) == [Return, EOF]
  {
    Piece5At(isAlpha);
    var s := "return ";
    TokensFromSkip(s, 6, isAlpha);
    TokensFromStep(s, 0, Return, 6, isAlpha);
  }

  lemma Piece6At(isAlpha: char -> bool)
    requires AsciiAlphabetic(isAlpha)
    ensures TokenAt("a;", 0, isAlpha) == (Token.Ident("a"), 1)
    ensures TokenAt("a;", 1, isAlpha) == (SemiColon, 2)
  {
    var s := "a;";
    assert WordEnd(s, 1, isAlpha) == 1;
    assert s[0..1] == "a";
  }

  lemma Piece6(isAlpha: char -> bool)
    requires AsciiAlphabetic(isAlpha)
    ensures TokensFrom("a;", 0, isAlpha) == [Token.Ident("a"), SemiColon, EOF]
  {
    Piece6At(isAlpha);
    var s := "a;";
    TokensFromStep(s, 1, SemiColon, 2, isAlpha);
    TokensFromStep(s, 0, Token.Ident("a"), 1, isAlpha);
  }

  lemma Piece7At(isAlpha: char -> bool)
    requires AsciiAlphabetic(isAlpha)
    ensures TokenAt("} ", 0, isAlpha) == (RBrace, 1)
  {
    var s := "} ";
  }

  lemma Piece7(isAlpha: char -> bool)
    requires AsciiAlphabetic(isAlpha)
    ensures TokensFrom("} ", 0, isAlpha) == [RBrace, EOF]
  {
    Piece7At(isAlpha);
    var s := "} ";
    TokensFromSkip(s, 1, isAlpha);
    TokensFromStep(s, 0, RBrace, 1, isAlpha);
  }

  lemma Piece8At(isAlpha: char -> bool)
    requires AsciiAlphabetic(isAlpha)
    ensures TokenAt("else ", 0, isAlpha) == (Else, 4)
  {
    var s := "else ";
    assert WordEnd(s, 4, isAlpha) == 4;
    assert WordEnd(s, 3, isAlpha) == 4;
    assert WordEnd(s, 2, isAlpha) == 4;
    assert WordEnd(s, 1, isAlpha) == 4;
    assert s[0..4] == "else";
  }

  lemma Piece8(isAlpha: char -> bool)
    requires AsciiAlphabetic(isAlpha)
    ensures TokensFrom("else ", 0, isAlpha) == [Else, EOF]
  {
    Piece8At(isAlpha);
    var s := "else ";
    TokensFromSkip(s, 4, isAlpha);
    TokensFromStep(s, 0, Else, 4, isAlpha);
  }

  lemma Piece9At(isAlpha: char -> bool)
    requires AsciiAlphabetic(isAlpha)
    ensures TokenAt("!= ", 0, isAlpha) == (NotEqual, 2)
  {
    var s := "!= ";
  }

  lemma Piece9(isAlpha: char -> bool)
    requires AsciiAlphabetic(isAlpha)
    ensures TokensFrom("!= ", 0, isAlpha) == [NotEqual, EOF]
  {
    Piece9At(isAlpha);
    var s := "!= ";
    TokensFromSkip(s, 2, isAlpha);
    TokensFromStep(s, 0, NotEqual, 2, isAlpha);
  }

  lemma Piece10At(isAlpha: char -> bool)
    requires AsciiAlphabetic(isAlpha)
    ensures TokenAt("20) ", 0, isAlpha) == (IntLiteral(20), 2)
    ensures TokenAt("20) ", 2, isAlpha) == (RParen, 3)
  {
    var s := "20) ";
    assert DigitsEnd(s, 2) == 2;
    assert DigitsEnd(s, 1) == 2;
    assert s[0..2] == "20";
    assert "2"[..0] == "";
    assert DecimalValue("2") == 2;
    assert "20"[..1] == "2";
    assert DecimalValue("20") == 20;
  }

  lemma Piece10(isAlpha: char -> bool)
    requires AsciiAlphabetic(isAlpha)
    ensures TokensFrom("20) ", 0, isAlpha) == [IntLiteral(20), RParen, EOF]
  {
    Piece10At(isAlpha);
    var s := "20) ";
    TokensFromSkip(s, 3, isAlpha);
    TokensFromStep(s, 2, RParen, 3, isAlpha);
    TokensFromStep(s, 0, IntLiteral(20), 2, isAlpha);
  }

  lemma Piece11At(isAlpha: char -> bool)
    requires AsciiAlphabetic(isAlpha)
    ensures TokenAt("!a;", 0, isAlpha) == (Not, 1)
    ensures TokenAt("!a;", 1, isAlpha) == (Token.Ident("a"), 2)
    ensures TokenAt("!a;", 2, isAlpha) == (SemiColon, 3)
  {
    var s := "!a;";
    assert WordEnd(s, 2, isAlpha) == 2;
    assert s[1..2] == "a";
  }

  lemma Piece11(isAlpha: char -> bool)
    requires AsciiAlphabetic(isAlpha)
    ensures TokensFrom("!a;", 0, isAlpha) == [Not, Token.Ident("a"), SemiColon, EOF]
  {
    Piece11At(isAlpha);
    var s := "!a;";
    TokensFromStep(s, 2, SemiColon, 3, isAlpha);
    TokensFromStep(s, 1, Token.Ident("a"), 2, isAlpha);
    TokensFromStep(s, 0, Not, 1, isAlpha);
  }

  lemma Piece12At(isAlpha: char -> bool)
    requires AsciiAlphabetic(isAlpha)
    ensures TokenAt("> ", 0, isAlpha) == (Greater, 1)
  {
    var s := "> ";
  }

  lemma Piece12(isAlpha: char -> bool)
    requires AsciiAlphabetic(isAlpha)
    ensures TokensFrom("> ", 0, isAlpha) == [Greater, EOF]
  {
    Piece12At(isAlpha);
    var s := "> ";
    TokensFromSkip(s, 1, isAlpha);
    TokensFromStep(s, 0, Greater, 1, isAlpha);
  }

  lemma Piece13At(isAlpha: char -> bool)
    requires AsciiAlphabetic(isAlpha)
    ensures TokenAt("-30 ", 0, isAlpha) == (Minus, 1)
    ensures TokenAt("-30 ", 1, isAlpha) == (IntLiteral(30), 3)
  {
    var s := "-30 ";
    assert DigitsEnd(s, 3) == 3;
    assert DigitsEnd(s, 2) == 3;
    assert s[1..3] == "30";
    assert "3"[..0] == "";
    assert DecimalValue("3") == 3;
    assert "30"[..1] == "3";
    assert DecimalValue("30") == 30;
  }

  lemma Piece13(isAlpha: char -> bool)
    requires AsciiAlphabetic(isAlpha)
    ensures TokensFrom("-30 ", 0, isAlpha) == [Minus, IntLiteral(30), EOF]
  {
    Piece13At(isAlpha);
    var s := "-30 ";
    TokensFromSkip(s, 3, isAlpha);
    TokensFromStep(s, 1, IntLiteral(30), 3, isAlpha);
    TokensFromStep(s, 0, Minus, 1, isAlpha);
  }

  lemma Piece14At(isAlpha: char -> bool)
    requires AsciiAlphabetic(isAlpha)
    ensures TokenAt("/ ", 0, isAlpha) == (Divide, 1)
  {
    var s := "/ ";
  }

  lemma Piece14(isAlpha: char -> bool)
    requires AsciiAlphabetic(isAlpha)
    ensures TokensFrom("/ ", 0, isAlpha) == [Divide, EOF]
  {
    Piece14At(isAlpha);
    var s := "/ ";
    TokensFromSkip(s, 1, isAlpha);
    TokensFromStep(s, 0, Divide, 1, isAlpha);
  }

  lemma Piece15At(isAlpha: char -> bool)
    requires AsciiAlphabetic(isAlpha)
    ensures TokenAt("40 ", 0, isAlpha) == (IntLiteral(40), 2)
  {
    var s := "40 ";
    assert DigitsEnd(s, 2) == 2;
    assert DigitsEnd(s, 1) == 2;
    assert s[0..2] == "40";
    assert "4"[..0] == "";
    assert DecimalValue("4") == 4;
    assert "40"[..1] == "4";
    assert DecimalValue("40") == 40;
  }

  lemma Piece15(isAlpha: char -> bool)
    requires AsciiAlphabetic(isAlpha)
    ensures TokensFrom("40 ", 0, isAlpha) == [IntLiteral(40), EOF]
  {
    Piece15At(isAlpha);
    var s := "40 ";
    TokensFromSkip(s, 2, isAlpha);
    TokensFromStep(s, 0, IntLiteral(40), 2, isAlpha);
  }

  lemma Piece16At(isAlpha: char -> bool)
    requires AsciiAlphabetic(isAlpha)
    ensures TokenAt("* ", 0, isAlpha) == (Multiply, 1)
  {
    var s := "* ";
  }

  lemma Piece16(isAlpha: char -> bool)
    requires AsciiAlphabetic(isAlpha)
    ensures TokensFrom("* ", 0, isAlpha) == [Multiply, EOF]
  {
    Piece16At(isAlpha);
    var s := "* ";
    TokensFromSkip(s, 1, isAlpha);
    TokensFromStep(s, 0, Multiply, 1, isAlpha);
  }

  lemma Piece17At(isAlpha: char -> bool)
    requires AsciiAlphabetic(isAlpha)
    ensures TokenAt("50;", 0, isAlpha) == (IntLiteral(50), 2)
    ensures TokenAt("50;", 2, isAlpha) == (SemiColon, 3)
  {
    var s := "50;";
    assert DigitsEnd(s, 2) == 2;
    assert DigitsEnd(s, 1) == 2;
    assert s[0..2] == "50";
    assert "5"[..0] == "";
    assert DecimalValue("5") == 5;
    assert "50"[..1] == "5";
    assert DecimalValue("50") == 50;
  }

  lemma Piece17(isAlpha: char -> bool)
    requires AsciiAlphabetic(isAlpha)
    ensures TokensFrom("50;", 0, isAlpha) == [IntLiteral(50), SemiColon, EOF]
  {
    Piece17At(isAlpha);
    var s := "50;";
    TokensFromStep(s, 2, SemiColon, 3, isAlpha);
    TokensFromStep(s, 0, IntLiteral(50), 2, isAlpha);
  }

  lemma Piece18At(isAlpha: char -> bool)
    requires AsciiAlphabetic(isAlpha)
    ensures TokenAt("< ", 0, isAlpha) == (Less, 1)
  {
    var s := "< ";
  }

  lemma Piece18(isAlpha: char -> bool)
    requires AsciiAlphabetic(isAlpha)
    ensures TokensFrom("< ", 0, isAlpha) == [Less, EOF]
  {
    Piece18At(isAlpha);
    var s := "< ";
    TokensFromSkip(s, 1, isAlpha);
    TokensFromStep(s, 0, Less, 1, isAlpha);
  }

  lemma Piece19At(isAlpha: char -> bool)
    requires AsciiAlphabetic(isAlpha)
    ensures TokenAt("30) ", 0, isAlpha) == (IntLiteral(30), 2)
    ensures TokenAt("30) ", 2, isAlpha) == (RParen, 3)
  {
    var s := "30) ";
    assert DigitsEnd(s, 2) == 2;
    assert DigitsEnd(s, 1) == 2;
    assert s[0..2] == "30";
    assert "3"[..0] == "";
    assert DecimalValue("3") == 3;
    assert "30"[..1] == "3";
    assert DecimalValue("30") == 30;
  }

  lemma Piece19(isAlpha: char -> bool)
    requires AsciiAlphabetic(isAlpha)
    ensures TokensFrom("30) ", 0, isAlpha) == [IntLiteral(30), RParen, EOF]
  {
    Piece19At(isAlpha);
    var s := "30) ";
    TokensFromSkip(s, 3, isAlpha);
    TokensFromStep(s, 2, RParen, 3, isAlpha);
    TokensFromStep(s, 0, IntLiteral(30), 2, isAlpha);
  }

  lemma Piece20At(isAlpha: char -> bool)
    requires AsciiAlphabetic(isAlpha)
    ensures TokenAt("true;", 0, isAlpha) == (BooleanLiteral(true), 4)
    ensures TokenAt("true;", 4, isAlpha) == (SemiColon, 5)
  {
    var s := "true;";
    assert WordEnd(s, 4, isAlpha) == 4;
    assert WordEnd(s, 3, isAlpha) == 4;
    assert WordEnd(s, 2, isAlpha) == 4;
    assert WordEnd(s, 1, isAlpha) == 4;
    assert s[0..4] == "true";
  }

  lemma Piece20(isAlpha: char -> bool)
    requires AsciiAlphabetic(isAlpha)
    ensures TokensFrom("true;", 0, isAlpha) == [BooleanLiteral(true), SemiColon, EOF]
  {
    Piece20At(isAlpha);
    var s := "true;";
    TokensFromStep(s, 4, SemiColon, 5, isAlpha);
    TokensFromStep(s, 0, BooleanLiteral(true), 4, isAlpha);
  }

  lemma Piece21At(isAlpha: char -> bool)
    requires AsciiAlphabetic(isAlpha)
    ensures TokenAt("}", 0, isAlpha) == (RBrace, 1)
  {
    var s := "}";
  }

  lemma Piece21(isAlpha: char -> bool)
    requires AsciiAlphabetic(isAlpha)
    ensures TokensFrom("}", 0, isAlpha) == [RBrace, EOF]
  {
    Piece21At(isAlpha);
    var s := "}";
    TokensFromStep(s, 0, RBrace, 1, isAlpha);
  }

  lemma Piece22At(isAlpha: char -> bool)
    requires AsciiAlphabetic(isAlpha)
    ensures TokenAt("false;", 0, isAlpha) == (BooleanLiteral(false), 5)
    ensures TokenAt("false;", 5, isAlpha) == (SemiColon, 6)
  {
    var s := "false;";
    assert WordEnd(s, 5, isAlpha) == 5;
    assert WordEnd(s, 4, isAlpha) == 5;
    assert WordEnd(s, 3, isAlpha) == 5;
    assert WordEnd(s, 2, isAlpha) == 5;
    assert WordEnd(s, 1, isAlpha) == 5;
    assert s[0..5] == "false";
  }

  lemma Piece22(isAlpha: char -> bool)
    requires AsciiAlphabetic(isAlpha)
    ensures TokensFrom("false;", 0, isAlpha) == [BooleanLiteral(false), SemiColon, EOF]
  {
    Piece22At(isAlpha);
    var s := "false;";
    TokensFromStep(s, 5, SemiColon, 6, isAlpha);
    TokensFromStep(s, 0, BooleanLiteral(false), 5, isAlpha);
  }

  /** Segment `if (a == 10) {` of the sample program. */
  lemma Segment0(isAlpha: char -> bool)
    requires AsciiAlphabetic(isAlpha)
    ensures EndsInDelimiter(Concat(SEGMENT0))
    ensures TokensFrom(Concat(SEGMENT0), 0, isAlpha) == Flatten(SEGMENT0_TOKENS) + [EOF]
  {
    var ps, tss := SEGMENT0, SEGMENT0_TOKENS;
    forall k | 0 <= k < |ps|
      ensures EndsInDelimiter(ps[k])
      ensures TokensFrom(ps[k], 0, isAlpha) == tss[k] + [EOF]
    {
      if k == 0 {
        Piece0(isAlpha);
      } else if k == 1 {
        Piece1(isAlpha);
      } else if k == 2 {
        Piece2(isAlpha);
      } else if k == 3 {
        Piece3(isAlpha);
      } else {
        Piece4(isAlpha);
      }
    }
    ConcatEndsInDelimiter(ps);
    LexByPieces(ps, tss, isAlpha);
  }

  /** Segment `return a;` of the sample program. */
  lemma Segment1(isAlpha: char -> bool)
    requires AsciiAlphabetic(isAlpha)
    ensures EndsInDelimiter(Concat(SEGMENT1))
    ensures TokensFrom(Concat(SEGMENT1), 0, isAlpha) == Flatten(SEGMENT1_TOKENS) + [EOF]
  {
    var ps, tss := SEGMENT1, SEGMENT1_TOKENS;
    forall k | 0 <= k < |ps|
      ensures EndsInDelimiter(ps[k])
      ensures TokensFrom(ps[k], 0, isAlpha) == tss[k] + [EOF]
    {
      if k == 0 {
        Piece5(isAlpha);
      } else {
        Piece6(isAlpha);
      }
    }
    ConcatEndsInDelimiter(ps);
    LexByPieces(ps, tss, isAlpha);
  }

  /** Segment `} else ` of the sample program. */
  lemma Segment2(isAlpha: char -> bool)
    requires AsciiAlphabetic(isAlpha)
    ensures EndsInDelimiter(Concat(SEGMENT2))
    ensures TokensFrom(Concat(SEGMENT2), 0, isAlpha) == Flatten(SEGMENT2_TOKENS) + [EOF]
  {
    var ps, tss := SEGMENT2, SEGMENT2_TOKENS;
    forall k | 0 <= k < |ps|
      ensures EndsInDelimiter(ps[k])
      ensures TokensFrom(ps[k], 0, isAlpha) == tss[k] + [EOF]
    {
      if k == 0 {
        Piece7(isAlpha);
      } else {
        Piece8(isAlpha);
      }
    }
    ConcatEndsInDelimiter(ps);
    LexByPieces(ps, tss, isAlpha);
  }

  /** Segment `if (a != 20) {` of the sample program. */
  lemma Segment3(isAlpha: char -> bool)
    requires AsciiAlphabetic(isAlpha)
    ensures EndsInDelimiter(Concat(SEGMENT3))
    ensures TokensFrom(Concat(SEGMENT3), 0, isAlpha) == Flatten(SEGMENT3_TOKENS) + [EOF]
  {
    var ps, tss := SEGMENT3, SEGMENT3_TOKENS;
    forall k | 0 <= k < |ps|
      ensures EndsInDelimiter(ps[k])
      ensures TokensFrom(ps[k], 0, isAlpha) == tss[k] + [EOF]
    {
      if k == 0 {
        Piece0(isAlpha);
      } else if k == 1 {
        Piece1(isAlpha);
      } else if k == 2 {
        Piece9(isAlpha);
      } else if k == 3 {
        Piece10(isAlpha);
      } else {
        Piece4(isAlpha);
      }
    }
    ConcatEndsInDelimiter(ps);
    LexByPieces(ps, tss, isAlpha);
  }

  /** Segment `return !a;` of the sample program. */
  lemma Segment4(isAlpha: char -> bool)
    requires AsciiAlphabetic(isAlpha)
    ensures EndsInDelimiter(Concat(SEGMENT4))
    ensures TokensFrom(Concat(SEGMENT4), 0, isAlpha) == Flatten(SEGMENT4_TOKENS) + [EOF]
  {
    var ps, tss := SEGMENT4, SEGMENT4_TOKENS;
    forall k | 0 <= k < |ps|
      ensures EndsInDelimiter(ps[k])
      ensures TokensFrom(ps[k], 0, isAlpha) == tss[k] + [EOF]
    {
      if k == 0 {
        Piece5(isAlpha);
      } else {
        Piece11(isAlpha);
      }
    }
    ConcatEndsInDelimiter(ps);
    LexByPieces(ps, tss, isAlpha);
  }

  /** Segment `if (a > 20) {` of the sample program. */
  lemma Segment5(isAlpha: char -> bool)
    requires AsciiAlphabetic(isAlpha)
    ensures EndsInDelimiter(Concat(SEGMENT5))
    ensures TokensFrom(Concat(SEGMENT5), 0, isAlpha) == Flatten(SEGMENT5_TOKENS) + [EOF]
  {
    var ps, tss := SEGMENT5, SEGMENT5_TOKENS;
    forall k | 0 <= k < |ps|
      ensures EndsInDelimiter(ps[k])
      ensures TokensFrom(ps[k], 0, isAlpha) == tss[k] + [EOF]
    {
      if k == 0 {
        Piece0(isAlpha);
      } else if k == 1 {
        Piece1(isAlpha);
      } else if k == 2 {
        Piece12(isAlpha);
      } else if k == 3 {
        Piece10(isAlpha);
      } else {
        Piece4(isAlpha);
      }
    }
    ConcatEndsInDelimiter(ps);
    LexByPieces(ps, tss, isAlpha);
  }

  /** Segment `return -30 / 40 * 50;` of the sample program. */
  lemma Segment6(isAlpha: char -> bool)
    requires AsciiAlphabetic(isAlpha)
    ensures EndsInDelimiter(Concat(SEGMENT6))
    ensures TokensFrom(Concat(SEGMENT6), 0, isAlpha) == Flatten(SEGMENT6_TOKENS) + [EOF]
  {
    var ps, tss := SEGMENT6, SEGMENT6_TOKENS;
    forall k | 0 <= k < |ps|
      ensures EndsInDelimiter(ps[k])
      ensures TokensFrom(ps[k], 0, isAlpha) == tss[k] + [EOF]
    {
      if k == 0 {
        Piece5(isAlpha);
      } else if k == 1 {
        Piece13(isAlpha);
      } else if k == 2 {
        Piece14(isAlpha);
      } else if k == 3 {
        Piece15(isAlpha);
      } else if k == 4 {
        Piece16(isAlpha);
      } else {
        Piece17(isAlpha);
      }
    }
    ConcatEndsInDelimiter(ps);
    LexByPieces(ps, tss, isAlpha);
  }

  /** Segment `if (a < 30) {` of the sample program. */
  lemma Segment7(isAlpha: char -> bool)
    requires AsciiAlphabetic(isAlpha)
    ensures EndsInDelimiter(Concat(SEGMENT7))
    ensures TokensFrom(Concat(SEGMENT7), 0, isAlpha) == Flatten(SEGMENT7_TOKENS) + [EOF]
  {
    var ps, tss := SEGMENT7, SEGMENT7_TOKENS;
    forall k | 0 <= k < |ps|
      ensures EndsInDelimiter(ps[k])
      ensures TokensFrom(ps[k], 0, isAlpha) == tss[k] + [EOF]
    {
      if k == 0 {
        Piece0(isAlpha);
      } else if k == 1 {
        Piece1(isAlpha);
      } else if k == 2 {
        Piece18(isAlpha);
      } else if k == 3 {
        Piece19(isAlpha);
      } else {
        Piece4(isAlpha);
      }
    }
    ConcatEndsInDelimiter(ps);
    LexByPieces(ps, tss, isAlpha);
  }

  /** Segment `return true;` of the sample program. */
  lemma Segment8(isAlpha: char -> bool)
    requires AsciiAlphabetic(isAlpha)
    ensures EndsInDelimiter(Concat(SEGMENT8))
    ensures TokensFrom(Concat(SEGMENT8), 0, isAlpha) == Flatten(SEGMENT8_TOKENS) + [EOF]
  {
    var ps, tss := SEGMENT8, SEGMENT8_TOKENS;
    forall k | 0 <= k < |ps|
      ensures EndsInDelimiter(ps[k])
      ensures TokensFrom(ps[k], 0, isAlpha) == tss[k] + [EOF]
    {
      if k == 0 {
        Piece5(isAlpha);
      } else {
        Piece20(isAlpha);
      }
    }
    ConcatEndsInDelimiter(ps);
    LexByPieces(ps, tss, isAlpha);
  }

  /** Segment `}` of the sample program. */
  lemma Segment9(isAlpha: char -> bool)
    requires AsciiAlphabetic(isAlpha)
    ensures EndsInDelimiter(Concat(SEGMENT9))
    ensures TokensFrom(Concat(SEGMENT9), 0, isAlpha) == Flatten(SEGMENT9_TOKENS) + [EOF]
  {
    var ps, tss := SEGMENT9, SEGMENT9_TOKENS;
    forall k | 0 <= k < |ps|
      ensures EndsInDelimiter(ps[k])
      ensures TokensFrom(ps[k], 0, isAlpha) == tss[k] + [EOF]
    {
      Piece21(isAlpha);
    }
    ConcatEndsInDelimiter(ps);
    LexByPieces(ps, tss, isAlpha);
  }

  /** Segment `return false;` of the sample program. */
  lemma Segment10(isAlpha: char -> bool)
    requires AsciiAlphabetic(isAlpha)
    ensures EndsInDelimiter(Concat(SEGMENT10))
    ensures TokensFrom(Concat(SEGMENT10), 0, isAlpha) == Flatten(SEGMENT10_TOKENS) + [EOF]
  {
    var ps, tss := SEGMENT10, SEGMENT10_TOKENS;
    forall k | 0 <= k < |ps|
      ensures EndsInDelimiter(ps[k])
      ensures TokensFrom(ps[k], 0, isAlpha) == tss[k] + [EOF]
    {
      if k == 0 {
        Piece5(isAlpha);
      } else {
        Piece22(isAlpha);
      }
    }
    ConcatEndsInDelimiter(ps);
    LexByPieces(ps, tss, isAlpha);
  }

  /** Group 0 of the sample program. */
  lemma Group0(isAlpha: char -> bool)
    requires AsciiAlphabetic(isAlpha)
    ensures EndsInDelimiter(Concat(GROUP0))
    ensures TokensFrom(Concat(GROUP0), 0, isAlpha) == Flatten(GROUP0_TOKENS) + [EOF]
  {
    var ps, tss := GROUP0, GROUP0_TOKENS;
    forall k | 0 <= k < |ps|
      ensures EndsInDelimiter(ps[k])
      ensures TokensFrom(ps[k], 0, isAlpha) == tss[k] + [EOF]
    {
      if k == 0 {
        Segment0(isAlpha);
      } else if k == 1 {
        Segment1(isAlpha);
      } else if k == 2 {
        Segment2(isAlpha);
      } else {
        Segment3(isAlpha);
      }
    }
    ConcatEndsInDelimiter(ps);
    LexByPieces(ps, tss, isAlpha);
  }

  /** Group 1 of the sample program. */
  lemma Group1(isAlpha: char -> bool)
    requires AsciiAlphabetic(isAlpha)
    ensures EndsInDelimiter(Concat(GROUP1))
    ensures TokensFrom(Concat(GROUP1), 0, isAlpha) == Flatten(GROUP1_TOKENS) + [EOF]
  {
    var ps, tss := GROUP1, GROUP1_TOKENS;
    forall k | 0 <= k < |ps|
      ensures EndsInDelimiter(ps[k])
      ensures TokensFrom(ps[k], 0, isAlpha) == tss[k] + [EOF]
    {
      if k == 0 {
        Segment4(isAlpha);
      } else if k == 1 {
        Segment2(isAlpha);
      } else if k == 2 {
        Segment5(isAlpha);
      } else {
        Segment6(isAlpha);
      }
    }
    ConcatEndsInDelimiter(ps);
    LexByPieces(ps, tss, isAlpha);
  }

  /** Group 2 of the sample program. */
  lemma Group2(isAlpha: char -> bool)
    requires AsciiAlphabetic(isAlpha)
    ensures EndsInDelimiter(Concat(GROUP2))
    ensures TokensFrom(Concat(GROUP2), 0, isAlpha) == Flatten(GROUP2_TOKENS) + [EOF]
  {
    var ps, tss := GROUP2, GROUP2_TOKENS;
    forall k | 0 <= k < |ps|
      ensures EndsInDelimiter(ps[k])
      ensures TokensFrom(ps[k], 0, isAlpha) == tss[k] + [EOF]
    {
      if k == 0 {
        Segment2(isAlpha);
      } else if k == 1 {
        Segment7(isAlpha);
      } else if k == 2 {
        Segment8(isAlpha);
      } else if k == 3 {
        Segment9(isAlpha);
      } else {
        Segment10(isAlpha);
      }
    }
    ConcatEndsInDelimiter(ps);
    LexByPieces(ps, tss, isAlpha);
  }

  /** Three texts, the first two ending in a delimiter, lex as the three one after the other. */
  lemma LexThree(a: string, b: string, c: string, ta: seq<Token>, tb: seq<Token>, tc: seq<Token>, isAlpha: char -> bool)
    requires AsciiAlphabetic(isAlpha) && EndsInDelimiter(a) && EndsInDelimiter(b)
    requires TokensFrom(a, 0, isAlpha) == ta + [EOF]
    requires TokensFrom(b, 0, isAlpha) == tb + [EOF]
    requires TokensFrom(c, 0, isAlpha) == tc + [EOF]
    ensures TokensFrom(a + b + c, 0, isAlpha) == ta + tb + tc + [EOF]
  {
    LexJoin(a, b, isAlpha);
    assert Body(ta + [EOF]) == ta;
    assert (a + b)[|a + b| - 1] == b[|b| - 1];
    LexJoin(a + b, c, isAlpha);
    assert Body(ta + (tb + [EOF])) == ta + tb;
  }

  lemma FlattenFour(ts: seq<seq<Token>>)
    requires |ts| == 4
    ensures Flatten(ts) == ts[0] + ts[1] + ts[2] + ts[3]
  {
    assert Flatten(ts[2..]) == ts[2] + Flatten(ts[3..]);
    assert Flatten(ts[3..]) == ts[3] + Flatten(ts[4..]);
    assert ts[4..] == [];
  }

  lemma FlattenFive(ts: seq<seq<Token>>)
    requires |ts| == 5
    ensures Flatten(ts) == ts[0] + ts[1] + ts[2] + ts[3] + ts[4]
  {
    FlattenFour(ts[1..]);
    assert ts[1..][0] == ts[1] && ts[1..][1] == ts[2] && ts[1..][2] == ts[3] && ts[1..][3] == ts[4];
  }

  lemma Segment0Tokens()
    ensures Flatten(SEGMENT0_TOKENS) == SEGMENT0_EXPECTED
  {
  }

  lemma Segment1Tokens()
    ensures Flatten(SEGMENT1_TOKENS) == SEGMENT1_EXPECTED
  {
  }

  lemma Segment2Tokens()
    ensures Flatten(SEGMENT2_TOKENS) == SEGMENT2_EXPECTED
  {
  }

  lemma Segment3Tokens()
    ensures Flatten(SEGMENT3_TOKENS) == SEGMENT3_EXPECTED
  {
  }

  lemma Segment4Tokens()
    ensures Flatten(SEGMENT4_TOKENS) == SEGMENT4_EXPECTED
  {
  }

  lemma Segment5Tokens()
    ensures Flatten(SEGMENT5_TOKENS) == SEGMENT5_EXPECTED
  {
  }

  lemma Segment6Tokens()
    ensures Flatten(SEGMENT6_TOKENS) == SEGMENT6_EXPECTED
  {
  }

  lemma Segment7Tokens()
    ensures Flatten(SEGMENT7_TOKENS) == SEGMENT7_EXPECTED
  {
  }

  lemma Segment8Tokens()
    ensures Flatten(SEGMENT8_TOKENS) == SEGMENT8_EXPECTED
  {
  }

  lemma Segment9Tokens()
    ensures Flatten(SEGMENT9_TOKENS) == SEGMENT9_EXPECTED
  {
  }

  lemma Segment10Tokens()
    ensures Flatten(SEGMENT10_TOKENS) == SEGMENT10_EXPECTED
  {
  }

  lemma Group0Tokens()
    ensures Flatten(GROUP0_TOKENS) == EXPECTED0
  {
    FlattenFour(GROUP0_TOKENS);
    Segment0Tokens();
    Segment1Tokens();
    Segment2Tokens();
    Segment3Tokens();
  }

  lemma Group1Tokens()
    ensures Flatten(GROUP1_TOKENS) == EXPECTED1
  {
    FlattenFour(GROUP1_TOKENS);
    Segment2Tokens();
    Segment4Tokens();
    Segment5Tokens();
    Segment6Tokens();
  }

  lemma Group2Tokens()
    ensures Flatten(GROUP2_TOKENS) == EXPECTED2
  {
    FlattenFive(GROUP2_TOKENS);
    Segment2Tokens();
    Segment7Tokens();
    Segment8Tokens();
    Segment9Tokens();
    Segment10Tokens();
  }

  /** Lexing the sample program gives exactly the expected token vector of the test. */
  lemma SampleTokens(isAlpha: char -> bool)
    requires AsciiAlphabetic(isAlpha)
    ensures TokensFrom(SAMPLE, 0, isAlpha) == SAMPLE_TOKENS
  {
    Group0(isAlpha);
    Group1(isAlpha);
    Group2(isAlpha);
    Group0Tokens();
    Group1Tokens();
    Group2Tokens();
    LexThree(Concat(GROUP0), Concat(GROUP1), Concat(GROUP2), EXPECTED0, EXPECTED1, EXPECTED2, isAlpha);
  }
}
