# Drop front end: lexer, parser and bytecode compiler

This project models the front end of the Drop language, from source text to bytecode:

- `Cursor` is the character cursor of `lib/lexer/cursor.rs`.
- `Lexer` is the maximal-munch tokenizer of `lib/lexer/mod.rs`.
- `Parser` is the recursive-descent parser of `lib/parser/mod.rs`, with panic-mode error recovery.
- `Compiler` is the tree-walking compiler of `lib/compiler/mod.rs`. It appends `Opcode`s to a `codes` vector and backpatches forward jumps in place.

The datatypes are in these modules:

- `Basics`: `Option` and the i64 range.
- `Tokens`: `Token`.
- `Ast`: `Expr`, `Stmt` and the rest of the syntax tree.
- `Opcodes`: `Opcode` and `Value`.

Each datatype has the variants the lexer, parser and compiler actually build or consume. That is more than some declaration files list:

- `Stmt` has `FnStmt`, `BlockStmt`, `IfStmt` and `WhileStmt`, and its `LetStmt` takes an optional initialiser.
- `Token` has `While` and `StringLiteral`.
- `Opcode` has `StoreFunction`.

Each imperative component is a class or method proved against a functional specification:

- `Cursor.Cursor` holds the remaining characters.
- `Lexer.LexTokens` loops over an index into the input and is proved equal to `TokensFrom`. `Lexer.LexToken` dispatches on one character and is proved equal to `TokenAt`. The loops of `lex_token` are in `Lexer.LexWord` and `Lexer.LexNumber`, which are proved equal to `WordAt` and `NumberAt`.
- `Parser.Parser` holds these fields:
  - a `TokenCursor` (a position in the token vector);
  - `previous`;
  - `errors`.

  Each of its methods is proved equal to the function of the same name in `ParserSpec`, except `Parse`, whose result is that of `ParserSpec.ParseLoop` from the parser's state. That function takes the state (position, previous token, errors) and returns the result with the new state.
- `Compiler.Compiler` holds `codes`. Each method starts from the codes it was given, `before`. If it succeeds, it leaves `before + C`. `C` is the code that `CompilerSpec` assigns to the statement or expression at `base = |before|`. Jump targets are absolute, which is why `base` is needed there.

The lemma modules state the properties of these specifications:

- `LexerFacts` and `LexerSample`.
- `ParserFacts`, and `ParserSample`, which states `test_parser_1` as a lemma.
- `CompilerFacts`.

The model follows the code as written, including these behaviours:

- `compile_if` checks that the then-branch is a block but never emits its code. Its `JumpIfFalse` targets the instruction right after itself.
- A block and a function body are compiled by a fresh compiler that starts at index 0. The jump targets inside them are spliced in without relocation.
- `let x = e` emits the code of `e` before `Register(x)`.
- `Call` carries no argument count, so different call trees can compile to the same code.
- An `else if` reaches `unreachable!()` in the compiler.
- In `parse_if`, a plain `else {` calls `parse_block` without consuming the `{`. So `if c {} else {}` reports "Expect '}' after block", and `if c {} else {}}` parses as an else-block that holds an empty block.
- The lexer has no `while` keyword, so `while` lexes as an identifier.

The compiler's `unreachable!()` and `panic!` arms become the `Fatal(error)` outcome. It is raised at the first such arm the compiler reaches, in the order the code reaches them. The parser's `Err(())` is `Err`, propagated by `?` together with the state reached at that point.

## Model

| member | source | states |
|---|---|---|
| Cursor.Step | lib/lexer/cursor.rs:24-26 | one step of a `Chars` iterator: `None` exactly on an empty sequence, which is then left as it was; otherwise the character returned followed by the rest is the sequence it was given |
| Cursor.Cursor.constructor | lib/lexer/cursor.rs:8-12 | a new cursor's remaining sequence is the whole input |
| Cursor.Cursor.PeekFirst | lib/lexer/cursor.rs:14-16 | the first remaining character, or `None` when nothing remains; reads the cursor without changing it |
| Cursor.Cursor.PeakSecond | lib/lexer/cursor.rs:18-22 | the second remaining character, or `None` when fewer than two remain; the cursor is unchanged |
| Cursor.Cursor.Next | lib/lexer/cursor.rs:24-26 | returns what `PeekFirst` showed; removes exactly that character, and on an empty cursor returns `None` and leaves it empty |
| Lexer.WordEnd | lib/lexer/mod.rs:81-87 | the end of the maximal run of letters, ASCII digits and `_` starting at `i` |
| Lexer.DigitsEnd | lib/lexer/mod.rs:102-108 | the end of the maximal run of ASCII digits starting at `i` |
| Lexer.IsAsciiWhitespace | lib/lexer/mod.rs:19 | whitespace is ASCII and is never a digit, a letter or `_`, so it never starts a word or number |
| Lexer.DigitValue | lib/lexer/mod.rs:109 | a digit's value is below 10 and is the digit's position in `"0123456789"` |
| Lexer.DecimalValue | lib/lexer/mod.rs:109 | the base-ten value of a digit string; a string of `n` digits is worth less than `10^n` |
| Lexer.Accumulate | lib/lexer/mod.rs:109 | the checked digit loop of `parse::<i64>` succeeds only when every remaining character is a digit |
| Lexer.AccumulateDecimal | lib/lexer/mod.rs:109 | the checked loop ends with the decimal value of the whole string exactly when that value fits in an i64, and fails otherwise: an overflowing step implies that the whole value overflows |
| Lexer.ParseI64Decimal | lib/lexer/mod.rs:109-112 | `s.parse::<i64>()` on a digit string succeeds exactly when its decimal value is at most i64 max, and then yields that value |
| Lexer.ParseI64 | lib/lexer/mod.rs:109-112 | `s.parse::<i64>()` without a sign succeeds only on a non-empty string of ASCII digits |
| Lexer.Keyword | lib/lexer/mod.rs:88-97 | a word gives `Ident` of itself exactly when it is not one of the seven reserved words; never `EOF` or `Illegal` |
| Lexer.KeywordTable | lib/lexer/mod.rs:88-97 | `fn`, `let`, `return`, `if`, `else`, `true`, `false` map to their tokens; every other word is `Ident(word)` |
| Lexer.IsOperatorChar | lib/lexer/mod.rs:32-77 | the characters of the single- and double-character tokens are ASCII and are neither whitespace, digits, letters nor `_`, so the arms of `lex_token` do not overlap |
| Lexer.OperatorToken | lib/lexer/mod.rs:32-77 | single-character tokens consume one character; `=`, `!`, `<`, `>` consume two exactly when `=` follows; never `EOF` or `Illegal` |
| Lexer.WordAt | lib/lexer/mod.rs:78-98 | a word token ends where the maximal word run ends and is never `EOF` |
| Lexer.NumberAt | lib/lexer/mod.rs:99-113 | a number token ends where the maximal digit run ends and is never `EOF` |
| Lexer.TokenAt | lib/lexer/mod.rs:30-118 | `EOF` without consuming at the end of input; otherwise a non-`EOF` token that consumes at least one character |
| Lexer.TokensFrom | lib/lexer/mod.rs:10-28 | the token vector always ends in `EOF` |
| Lexer.TokensFromSkip | lib/lexer/mod.rs:19-21 | an ASCII whitespace character adds no token |
| Lexer.TokensFromStep | lib/lexer/mod.rs:22-24 | any other character starts one token, and lexing continues where that token ends |
| Lexer.EofOnlyAtEnd | lib/lexer/mod.rs:15-18 | `EOF` occurs nowhere before the last token |
| Lexer.LexWord | lib/lexer/mod.rs:78-98 | the word loop and keyword match compute `WordAt` |
| Lexer.LexNumber | lib/lexer/mod.rs:99-113 | the digit loop and `parse::<i64>` compute `NumberAt` |
| Lexer.LexToken | lib/lexer/mod.rs:30-118 | the dispatch of `lex_token` on its first character computes `TokenAt` |
| Lexer.LexTokens | lib/lexer/mod.rs:10-28 | the driver loop computes `TokensFrom`, which ends in exactly one `EOF` |
| LexerFacts.WhitespaceRunSkipped | lib/lexer/mod.rs:19-21 | a run of ASCII whitespace produces no tokens |
| LexerFacts.BlankInputIsEof | lib/lexer/mod.rs:14-21 | an input of only whitespace lexes to `[EOF]` |
| LexerFacts.OperatorMunch | lib/lexer/mod.rs:42-77 | `=`, `!`, `<`, `>` followed by `=` become `Equal`/`NotEqual`/`LessEqual`/`GreaterEqual` and consume two characters; otherwise `Assign`/`Not`/`Less`/`Greater` and consume one |
| LexerFacts.WordToken | lib/lexer/mod.rs:78-98 | with ASCII-agreeing `is_alphabetic`, a letter starts the maximal word, which is its keyword token or `Ident(word)` |
| LexerFacts.NumberToken | lib/lexer/mod.rs:99-113 | a digit starts the maximal digit run, which is `IntLiteral(v)` when its value fits in i64 and `Illegal` otherwise |
| LexerFacts.OtherCharIsIllegal | lib/lexer/mod.rs:116 | any other character is `Illegal` and consumes exactly one character |
| LexerFacts.WhileIsAnIdentifier | lib/lexer/mod.rs:88-97 | `while` lexes as `[Ident("while"), EOF]` |
| LexerFacts.TokensFromShift | lib/lexer/mod.rs:10-28 | lexing `p + q` from the length of `p` plus `i` gives the tokens of `q` from `i` |
| LexerFacts.TokensFromPrefix | lib/lexer/mod.rs:10-28 | lexing `a + b` gives the tokens of `a` (without `EOF`) followed by the tokens from the end of `a` on, when `a` ends in a delimiter |
| LexerFacts.LexJoin | lib/lexer/mod.rs:10-28 | inputs that end in a delimiter lex independently: tokens(a + b) = tokens(a) without `EOF` + tokens(b) |
| LexerFacts.LexByPieces | lib/lexer/mod.rs:10-28 | a concatenation of such pieces lexes to the concatenation of their tokens, then one `EOF` |
| LexerSample.SampleTokens | lib/lexer/mod.rs:127-199 | the sample program of `test_lexer_1` lexes to exactly the expected token vector |
| ParserSpec.Peek | lib/parser/mod.rs:49-54 | `EOF` on an exhausted cursor; any other token is at the cursor position |
| ParserSpec.Advance | lib/parser/mod.rs:42-47 | consumes one token into `previous`, or sets `previous` to `EOF` at the end without moving; errors unchanged |
| ParserSpec.Error | lib/parser/mod.rs:55-62 | appends exactly one `ParseError` carrying the current `previous` token; position and `previous` unchanged |
| ParserSpec.LevelOp | lib/parser/mod.rs:293-378 | the operator tokens of each binary level (equality, comparison, term, factor) |
| ParserSpec.PrefixOp | lib/parser/mod.rs:379-395 | `-`, `+`, `!` are the prefix operators |
| ParserSpec.ParseExpr | lib/parser/mod.rs:274-276 | the state only moves forward, a failure always records an error, and a token is consumed whenever one is left |
| ParserSpec.ParseAssignment | lib/parser/mod.rs:277-292 | the same soundness and progress for `parse_assignment` |
| ParserSpec.ParseOperand | lib/parser/mod.rs:293-378 | the same for the operand parser of each level |
| ParserSpec.ParseBinary | lib/parser/mod.rs:293-378 | the same for `parse_equality`, `parse_comparison`, `parse_term`, `parse_factor` |
| ParserSpec.BinaryLoop | lib/parser/mod.rs:295-309 | the operator loop of a level moves forward and records an error whenever it fails |
| ParserSpec.ParseUnary | lib/parser/mod.rs:379-400 | soundness and progress for `parse_unary` |
| ParserSpec.ParseCall | lib/parser/mod.rs:401-429 | soundness and progress for `parse_call` |
| ParserSpec.CallLoop | lib/parser/mod.rs:403-427 | the argument-list loop moves forward and records an error whenever it fails |
| ParserSpec.ParseExprList | lib/parser/mod.rs:407-421 | sound, and a successful list never has more than 255 entries |
| ParserSpec.ListRest | lib/parser/mod.rs:409-416 | the comma loop extends the items it was given and keeps at most 255 |
| ParserSpec.ParsePrimary | lib/parser/mod.rs:430-467 | consumes a token on every branch, including the "Unexpected Token" error branch, and is sound |
| ParserSpec.ParseStmt | lib/parser/mod.rs:92-122 | `parse_stmt` on a remaining token always makes progress, and is sound |
| ParserSpec.KeywordStmt | lib/parser/mod.rs:93-117 | the keyword arms are sound |
| ParserSpec.ParseReturn | lib/parser/mod.rs:123-137 | `parse_return` is sound |
| ParserSpec.ParseFn | lib/parser/mod.rs:138-173 | `parse_fn` is sound |
| ParserSpec.FnBody | lib/parser/mod.rs:162-168 | the end of `parse_fn` is sound; a missing `{` is reported but parsing goes on |
| ParserSpec.ParseWhile | lib/parser/mod.rs:174-183 | `parse_while` is sound |
| ParserSpec.ParseIf | lib/parser/mod.rs:184-205 | `parse_if` is sound |
| ParserSpec.ElsePart | lib/parser/mod.rs:192-204 | the else part is sound |
| ParserSpec.ParseBlock | lib/parser/mod.rs:206-228 | `parse_block` is sound |
| ParserSpec.BlockLoop | lib/parser/mod.rs:208-220 | the block loop keeps the statements it has, never fails, and stops in front of `}` or at `EOF` |
| ParserSpec.ParseLet | lib/parser/mod.rs:229-260 | `parse_let` is sound |
| ParserSpec.ParseExprStmt | lib/parser/mod.rs:261-273 | `parse_expr_stmt` is sound and makes progress |
| ParserSpec.Synchronize | lib/parser/mod.rs:63-76 | stops before `let`/`if`/`return`/`fn`/`EOF` without consuming it, or right after consuming a `;`; errors unchanged |
| ParserSpec.ParseLoop | lib/parser/mod.rs:80-89 | the loop ends at `EOF`, keeps the statements already parsed and adds at most one statement per consumed token |
| ParserSpec.Parse | lib/parser/mod.rs:78-91 | `parse` terminates at `EOF` with no more statements than tokens |
| Parser.TokenCursor.constructor | lib/parser/mod.rs:16-20 | a cursor at the start of the token vector |
| Parser.TokenCursor.PeekFirst | lib/parser/mod.rs:21-23 | the token at the position, or `None` at the end |
| Parser.TokenCursor.Next | lib/parser/mod.rs:24-26 | returns what `PeekFirst` showed and moves one past it, staying put at the end |
| Parser.Parser.constructor | lib/parser/mod.rs:35-41 | nothing consumed, `previous` is `EOF`, no errors |
| Parser.Parser.Advance | lib/parser/mod.rs:42-47 | the state becomes `ParserSpec.Advance` of the old state |
| Parser.Parser.Peek | lib/parser/mod.rs:49-54 | equals `ParserSpec.Peek` of the current state |
| Parser.Parser.Error | lib/parser/mod.rs:55-62 | one more error carrying the old `previous`; the state becomes `ParserSpec.Error` of the old state |
| Parser.Parser.Synchronize | lib/parser/mod.rs:63-76 | the loop computes `ParserSpec.Synchronize` |
| Parser.Parser.Parse | lib/parser/mod.rs:78-91 | the loop computes `ParserSpec.ParseLoop` from the old state |
| Parser.Parser.ParseStmt | lib/parser/mod.rs:92-122 | result and new state are `ParserSpec.ParseStmt` of the old state |
| Parser.Parser.KeywordStmt | lib/parser/mod.rs:93-117 | result and new state are `ParserSpec.KeywordStmt` of the old state |
| Parser.Parser.ParseReturn | lib/parser/mod.rs:123-137 | result and new state are `ParserSpec.ParseReturn` of the old state |
| Parser.Parser.ParseFn | lib/parser/mod.rs:138-173 | result and new state are `ParserSpec.ParseFn` of the old state |
| Parser.Parser.FnBody | lib/parser/mod.rs:162-168 | result and new state are `ParserSpec.FnBody` of the old state |
| Parser.Parser.ParseWhile | lib/parser/mod.rs:174-183 | result and new state are `ParserSpec.ParseWhile` of the old state |
| Parser.Parser.ParseIf | lib/parser/mod.rs:184-205 | result and new state are `ParserSpec.ParseIf` of the old state |
| Parser.Parser.ElsePart | lib/parser/mod.rs:192-204 | result and new state are `ParserSpec.ElsePart` of the old state |
| Parser.Parser.ParseBlock | lib/parser/mod.rs:206-228 | result and new state are `ParserSpec.ParseBlock` of the old state |
| Parser.Parser.ParseLet | lib/parser/mod.rs:229-260 | result and new state are `ParserSpec.ParseLet` of the old state |
| Parser.Parser.ParseExprStmt | lib/parser/mod.rs:261-273 | result and new state are `ParserSpec.ParseExprStmt` of the old state |
| Parser.Parser.ParseExpr | lib/parser/mod.rs:274-276 | result and new state are `ParserSpec.ParseExpr` of the old state |
| Parser.Parser.ParseAssignment | lib/parser/mod.rs:277-292 | result and new state are `ParserSpec.ParseAssignment` of the old state |
| Parser.Parser.ParseOperand | lib/parser/mod.rs:293-378 | result and new state are `ParserSpec.ParseOperand` of the old state |
| Parser.Parser.ParseBinary | lib/parser/mod.rs:293-378 | the four level loops compute `ParserSpec.ParseBinary` |
| Parser.Parser.ParseUnary | lib/parser/mod.rs:379-400 | result and new state are `ParserSpec.ParseUnary` of the old state |
| Parser.Parser.ParseCall | lib/parser/mod.rs:401-429 | the call loop computes `ParserSpec.ParseCall` |
| Parser.Parser.ParseExprList | lib/parser/mod.rs:407-421 | the list loop computes `ParserSpec.ParseExprList` |
| Parser.Parser.ParsePrimary | lib/parser/mod.rs:430-467 | result and new state are `ParserSpec.ParsePrimary` of the old state |
| Parser.ParseTokens | lib/parser/mod.rs:78-91 | `Parser::new(tokens).parse()` returns the program and errors of `ParserSpec.Parse` |
| ParserFacts.PrimaryAtom | lib/parser/mod.rs:430-447 | an identifier or literal token is consumed and becomes its expression |
| ParserFacts.CallLoopEnds | lib/parser/mod.rs:403-427 | without `(` next, the call loop returns the expression unchanged |
| ParserFacts.BinaryLoopEnds | lib/parser/mod.rs:295-309 | without an operator of the level next, the loop returns the expression unchanged |
| ParserFacts.BinaryStep | lib/parser/mod.rs:295-309 | one operator and atom extend the accumulated expression on the left |
| ParserFacts.BinaryChain | lib/parser/mod.rs:293-378 | a chain `op atom op atom ...` folds to the left |
| ParserFacts.ParseBinaryChain | lib/parser/mod.rs:293-378 | a level parser on `atom op atom ...` returns the left fold and stops at the end of the chain |
| ParserFacts.Loosen | lib/parser/mod.rs:293-378 | an expression of a tighter level with no operator of this level after it is also this level's result |
| ParserFacts.WholeExpression | lib/parser/mod.rs:274-292 | an equality-level expression not followed by `=` is the whole expression |
| ParserFacts.UnaryAtLevel | lib/parser/mod.rs:293-378 | a unary expression followed by a token that closes a level (no operator of that level or a tighter one, and no `(`) is that level's result, with the same end state |
| ParserFacts.UnaryExpression | lib/parser/mod.rs:274-378 | a unary expression followed by a token that ends an expression (no binary operator, no `=` and no `(`) is the whole expression |
| ParserFacts.LevelExpression | lib/parser/mod.rs:274-378 | the result of any binary level followed by a token that ends an expression is the whole expression |
| ParserFacts.LevelFrom | lib/parser/mod.rs:293-378 | a first operand followed by a chain of the level's operators and atoms gives the left fold of the chain, ending after the chain |
| ParserFacts.PrefixUnary | lib/parser/mod.rs:379-395 | `-`, `+` and `!` are consumed and wrap the unary expression after them in `UnaryMinus`, `UnaryPlus` or `Not` |
| ParserFacts.GroupPrimary | lib/parser/mod.rs:448-455 | `( e )` consumes both parentheses and yields `e` itself, with no node for the grouping |
| ParserFacts.GroupUnclosed | lib/parser/mod.rs:456-459 | `( e` not followed by `)` records "Expected ')' after expression" and fails |
| ParserFacts.GroupUnary | lib/parser/mod.rs:401-460 | a parenthesised expression not followed by `(` is a whole unary expression |
| ParserFacts.CallLoopStep | lib/parser/mod.rs:403-423 | an argument list closed by `)` wraps the expression so far in a call with those arguments, and the loop continues after the `)` |
| ParserFacts.CallOfAtoms | lib/parser/mod.rs:401-429 | `f(a1, ..., an)` with atoms, at most 255 of them, and no further `(` is one call of `f` with the arguments in source order, ending after the `)` |
| ParserFacts.KeywordStep | lib/parser/mod.rs:93-117 | `let`, `{`, `if`, `while`, `fn` and `return` are consumed and select their statement parser |
| ParserFacts.ReturnValue | lib/parser/mod.rs:127-135 | `return e;` gives `ReturnStmt(Some(e))` and ends after the `;` |
| ParserFacts.ReturnUnterminated | lib/parser/mod.rs:128-131 | `return e` without `;` records "Expected ';' after statement" and fails |
| ParserFacts.BlockOfOne | lib/parser/mod.rs:206-228 | a block with one statement before its `}` is a block of exactly that statement, ending after the `}` |
| ParserFacts.IfThen | lib/parser/mod.rs:184-191 | after the condition, the `{` and the then-block, the `if` statement is decided by what follows the block |
| ParserFacts.NoElse | lib/parser/mod.rs:202-203 | without `else` the `if` has no else-branch and ends after the then-block |
| ParserFacts.ElseIf | lib/parser/mod.rs:192-197 | `else if` consumes both tokens and makes the nested `if` statement the else-branch |
| ParserFacts.LetWithValue | lib/parser/mod.rs:229-245 | `let x = e;` gives `LetStmt(x, Some(e))` and ends after the `;` |
| ParserFacts.StmtIsExprStmt | lib/parser/mod.rs:118-120 | a statement that does not start with a statement keyword or `{` is an expression statement |
| ParserFacts.ExprStmtEnds | lib/parser/mod.rs:261-267 | an expression followed by `;` is an expression statement ending after the `;` |
| ParserFacts.ExprStmtUnterminated | lib/parser/mod.rs:268-271 | an expression not followed by `;` records "Expected ';' after expression" and fails |
| ParserFacts.ExprStmtFails | lib/parser/mod.rs:262 | a failing expression fails the statement with the same state |
| ParserFacts.LoopEnds | lib/parser/mod.rs:80 | at `EOF` the parse loop stops |
| ParserFacts.LoopKeeps | lib/parser/mod.rs:81-84 | a parsed statement is appended and the loop continues |
| ParserFacts.LoopRecovers | lib/parser/mod.rs:85-87 | a failed statement is dropped and the loop continues after `synchronize` |
| ParserFacts.LoopLast | lib/parser/mod.rs:80-90 | a statement followed by `EOF` ends the program |
| ParserFacts.OneExprStmt | lib/parser/mod.rs:78-91 | a single expression statement parses to exactly that statement |
| ParserFacts.MinusIsLeftAssociative | lib/parser/mod.rs:341-359 | `a - b - c;` parses as `(a - b) - c` without errors |
| ParserFacts.ProductIsOperand | lib/parser/mod.rs:360-378 | in `i + j * k`, the operand after `+` is the whole product `j * k` |
| ParserFacts.SumOfProductTerm | lib/parser/mod.rs:341-378 | the term level parses `i + j * k` as `i + (j * k)` |
| ParserFacts.ProductBindsTighter | lib/parser/mod.rs:274-400 | `i + j * k;` parses as `Plus(i, Multiply(j, k))` without errors |
| ParserFacts.AssignmentRule | lib/parser/mod.rs:277-292 | after `left =`, the right side is parsed at equality level; an identifier left side gives an assignment, any other records "Illegal assignment" and fails |
| ParserFacts.AssignToIdentifier | lib/parser/mod.rs:277-292 | `x = v;` parses to one assignment statement without errors |
| ParserFacts.AssignToLiteralIsIllegal | lib/parser/mod.rs:283-288 | `1 = v;` gives no statement and exactly one "Illegal assignment" error carrying the right-hand token |
| ParserFacts.IllegalAssignmentRecovers | lib/parser/mod.rs:85-87 | after an illegal assignment the parse loop resumes right after the `;` |
| ParserFacts.LetWithoutValue | lib/parser/mod.rs:247-250 | `let x;` is `LetStmt(x, None)` ending after the `;` |
| ParserFacts.RecoveryAfterError | lib/parser/mod.rs:63-91 | in `1 = v; let x;` the `let` after the failed statement is parsed and kept, and the one error is the illegal assignment |
| ParserFacts.AssignmentsDoNotChain | lib/parser/mod.rs:277-292 | `a = b = c;` gives no statement and one "Expected ';' after expression" error, since the right side is only an equality |
| ParserFacts.ChainedAssignmentSync | lib/parser/mod.rs:63-76 | `synchronize` skips the rest of `a = b = c;` up to and including `;` |
| ParserFacts.SyncAtSemiColon | lib/parser/mod.rs:69-72 | at `;`, `synchronize` consumes it and stops |
| ParserFacts.SyncSkips | lib/parser/mod.rs:73 | any other non-stop token is skipped |
| ParserFacts.SynchronizeSkips | lib/parser/mod.rs:63-76 | `synchronize` skips only tokens that are neither stop tokens nor `;`, and then stops in front of a stop token or just after one `;` |
| ParserFacts.ListRestStep | lib/parser/mod.rs:409-416 | each comma adds one expression; the one that makes more than 255 records "Cannot have more than 255 ..." and fails |
| ParserFacts.ListLimit | lib/parser/mod.rs:147-161 | a list of atoms up to `)` parses to all of them when there are at most 255, and otherwise fails with one limit error at the 256th entry |
| ParserFacts.BlockEnds | lib/parser/mod.rs:209-212 | the block loop stops at `}` or `EOF` |
| ParserFacts.BlockKeeps | lib/parser/mod.rs:213-218 | a parsed statement is kept in the block |
| ParserFacts.EmptyBlock | lib/parser/mod.rs:221-223 | `}` right away gives an empty block and consumes the `}` |
| ParserFacts.IfElseStmt | lib/parser/mod.rs:184-205 | after `if b {} else`, the statement is whatever `parse_block` makes of the tokens from the `{` |
| ParserFacts.ElseBlockNeedsExtraBrace | lib/parser/mod.rs:198-200 | `if b {} else {}` gives no statement and one "Expect '}' after block" error |
| ParserFacts.ElseBlockIsNested | lib/parser/mod.rs:198-200 | `if b {} else {}}` parses without errors, with an else-block that holds an empty block |
| ParserSample.TestParser1 | lib/parser/mod.rs:475-548 | the token vector of `test_parser_1` parses to the four statements the test expects (the `if` / `else if` chain, `let`, the call and `return`) with no errors |
| ParserSample.TestProgramNotCompiled | lib/compiler/mod.rs:85-88 | the compiler rejects that program with `NotABlock`, since its `else if` is not a block |
| CompilerSpec.LiteralValue | lib/compiler/mod.rs:202-214 | a literal's value is never a function |
| CompilerSpec.UnaryCode | lib/compiler/mod.rs:175-182 | a unary operator adds at most one instruction, and none exactly for unary plus |
| CompilerSpec.ExprCode | lib/compiler/mod.rs:135-152 | the only way an expression fails to compile is a callee that is not callable |
| CompilerSpec.CallCode | lib/compiler/mod.rs:154-170 | a call fails only on a callee that is not callable, and its code ends in `Call` |
| CompilerSpec.ArgsCode | lib/compiler/mod.rs:155-157 | argument code fails only on a callee that is not callable; no arguments give no code |
| CompilerSpec.LetCode | lib/compiler/mod.rs:124-133 | `let` fails only when it has an initialiser whose callee is not callable |
| CompilerSpec.ReturnCode | lib/compiler/mod.rs:64-69 | `return` fails only when it has a value whose callee is not callable, and its code ends in `Return` |
| CompilerSpec.FnCode | lib/compiler/mod.rs:105-122 | a body that is not a block is fatal; a compiled function is exactly one `StoreFunction` carrying the function's name |
| CompilerSpec.IfCode | lib/compiler/mod.rs:71-95 | a then-branch or an else-branch that is not a block is fatal |
| CompilerSpec.WhileCode | lib/compiler/mod.rs:49-62 | a loop body that is not a block is fatal |
| CompilerSpec.BlockCode | lib/compiler/mod.rs:97-103 | a compiled block starts with `BeginScope` and ends with `EndScope` |
| CompilerSpec.BinOpcode | lib/compiler/mod.rs:186-197 | the instruction of each binary operator; `OpcodeBinOp` recovers the operator, so the map is one-to-one |
| CompilerSpec.ParamNames | lib/compiler/mod.rs:106-114 | succeeds exactly when every parameter is an identifier, and then gives their names in declaration order; otherwise `ParamNotIdent` |
| Compiler.Compiler.constructor | lib/compiler/mod.rs:11-15 | a new compiler has no codes |
| Compiler.Compiler.Emit | lib/compiler/mod.rs:215-217 | appends exactly one instruction |
| Compiler.Compiler.Compile | lib/compiler/mod.rs:16-20 | on success the old codes are an unchanged prefix, followed by `SeqCode` of the program at the old length; on failure, the first failing statement's error |
| Compiler.Compiler.CompileStmt | lib/compiler/mod.rs:22-47 | old codes followed by `StmtCode` of the statement at the old length |
| Compiler.Compiler.CompileWhile | lib/compiler/mod.rs:49-62 | old codes followed by `WhileCode`, with the placeholder `JumpIfFalse` backpatched to the final length |
| Compiler.Compiler.CompileRet | lib/compiler/mod.rs:64-69 | old codes followed by `ReturnCode` |
| Compiler.Compiler.CompileIf | lib/compiler/mod.rs:71-95 | old codes followed by `IfCode`, with both placeholders backpatched |
| Compiler.Compiler.CompileBlock | lib/compiler/mod.rs:97-103 | old codes followed by `BlockCode`, the fresh compiler's output between scope markers |
| Compiler.Compiler.CompileFn | lib/compiler/mod.rs:105-122 | old codes followed by `FnCode` |
| Compiler.Compiler.CompileLet | lib/compiler/mod.rs:124-133 | old codes followed by `LetCode` |
| Compiler.Compiler.CompileExpr | lib/compiler/mod.rs:135-152 | old codes followed by `ExprCode` |
| Compiler.Compiler.CompileCall | lib/compiler/mod.rs:154-170 | old codes followed by `CallCode`: arguments, callee, `Call` |
| Compiler.Compiler.CompileAssignment | lib/compiler/mod.rs:171-174 | old codes followed by the value's code and `Store(x)` |
| Compiler.Compiler.CompileUnary | lib/compiler/mod.rs:175-182 | old codes followed by the operand's code and `Not`, `Negate` or nothing |
| Compiler.Compiler.CompileBinary | lib/compiler/mod.rs:183-198 | old codes followed by left, right and the operator's instruction |
| Compiler.Compiler.CompileIdent | lib/compiler/mod.rs:199-201 | appends `Load(x)` |
| Compiler.Compiler.CompileLiteral | lib/compiler/mod.rs:202-214 | appends `Push` of the literal's value |
| CompilerFacts.ExprCodeFacts | lib/compiler/mod.rs:135-198 | expression code contains no jumps, and its only failure is a callee that is not callable |
| CompilerFacts.CallCodeFacts | lib/compiler/mod.rs:154-170 | the same for call code |
| CompilerFacts.ArgsCodeFacts | lib/compiler/mod.rs:155-157 | the same for argument code |
| CompilerFacts.ValueLiteral | lib/compiler/mod.rs:202-214 | a pushed value has a literal exactly when it is not a function, and `LiteralValue` maps that literal back to the value |
| CompilerFacts.RebuildExpr | lib/compiler/mod.rs:135-198 | running the stack decompiler over an expression's code pushes exactly that expression (no calls, no unary plus) |
| CompilerFacts.OpcodeBinOpInverse | lib/compiler/mod.rs:186-197 | `OpcodeBinOp` recognises exactly the instructions some binary operator compiles to, and recovers that operator |
| CompilerFacts.DecompileExprCode | lib/compiler/mod.rs:135-198 | expression code decompiles back to the expression: the compilation is reversible on call-free trees without unary plus |
| CompilerFacts.ExprCodeInjective | lib/compiler/mod.rs:135-198 | distinct such expressions compile to distinct code |
| CompilerFacts.UnaryPlusErased | lib/compiler/mod.rs:180 | `+e` compiles exactly like `e` and decompiles to `e` |
| CompilerFacts.OneCallPerCall | lib/compiler/mod.rs:135-170 | an expression's code has one `Call` per call node |
| CompilerFacts.OneCallPerCallExpr | lib/compiler/mod.rs:154-170 | a call's code has its own `Call` plus those of callee and arguments |
| CompilerFacts.OneCallPerArgs | lib/compiler/mod.rs:155-157 | argument code has the `Call`s of the arguments |
| CompilerFacts.CalleeChecks | lib/compiler/mod.rs:154-168 | arguments are compiled first and their failure wins; then a callee that is neither an identifier nor a call fails |
| CompilerFacts.CallsCollide | lib/compiler/mod.rs:169 | `f(a)(b)` and `f(b, a)()` are different trees that compile to the same code, since `Call` has no argument count |
| CompilerFacts.WhileShape | lib/compiler/mod.rs:49-62 | a loop is `cond + [JumpIfFalse(end)] + [BeginScope] + body + [EndScope] + [Jump(start)]` with `start` the length before and `end` the length after; a non-block body fails |
| CompilerFacts.IfIgnoresThenBranch | lib/compiler/mod.rs:75-80 | the then-block's contents do not affect the code |
| CompilerFacts.IfShape | lib/compiler/mod.rs:71-80 | without else: `cond + [JumpIfFalse(p)]` with `p` the index right after that jump |
| CompilerFacts.IfElseShape | lib/compiler/mod.rs:81-94 | with a block else: `cond + [JumpIfFalse(p), Jump(end)] + [BeginScope] + else + [EndScope]` with `end` the final length; a non-block else fails |
| CompilerFacts.ElseIfIsFatal | lib/compiler/mod.rs:85-88 | an `else if` fails with `NotABlock` |
| CompilerFacts.BlockShape | lib/compiler/mod.rs:97-103 | a block is `[BeginScope] + C + [EndScope]` with `C` compiled from index 0, whatever length it starts at |
| CompilerFacts.SmallLoopCode | lib/compiler/mod.rs:49-62 | `while b {}` at 0 compiles to `[Push(b), JumpIfFalse(5), BeginScope, EndScope, Jump(0)]` |
| CompilerFacts.NestedLoopJumpsAway | lib/compiler/mod.rs:97-103 | a loop inside a block that starts at index 2 keeps the targets it had at index 0, so its `Jump` misses its own condition |
| CompilerFacts.FnShape | lib/compiler/mod.rs:105-122 | a function is one `StoreFunction` with its name, its parameter names in order and the body's statements compiled from 0 without scope markers; non-identifier parameters or a non-block body fail |
| CompilerFacts.LetShape | lib/compiler/mod.rs:124-133 | `let x = e` is `code(e) + [Register(x), Store(x), Pop]`; `let x;` is `[Register(x)]` |
| CompilerFacts.ExprAndReturnShape | lib/compiler/mod.rs:24-27 | an expression statement is `code(e) + [Pop]`; `return` is the optional `code(e)` then `[Return]` |
| CompilerFacts.StmtJumps | lib/compiler/mod.rs:22-62 | the property of `CompilerSpec.StmtCode`: every jump target in a statement's code is at most the length after it |
| CompilerFacts.BlockJumps | lib/compiler/mod.rs:97-103 | a block's targets are at most the block's own length, not counting where it is placed |
| CompilerFacts.SeqJumps | lib/compiler/mod.rs:16-20 | the same bound for a run of statements |
| CompilerFacts.WhileJumps | lib/compiler/mod.rs:49-62 | the same bound for a loop |
| CompilerFacts.IfJumps | lib/compiler/mod.rs:71-95 | the same bound for an `if` |
| CompilerFacts.SeqCodeAppend | lib/compiler/mod.rs:16-20 | the property of `CompilerSpec.SeqCode`: compiling `p + q` is compiling `p`, then `q` at the length reached; a failure in `p` stops before `q` |
| CompilerFacts.LoopInBlockCode | lib/compiler/mod.rs:97-103 | `{ while b {} }` at index 2 is the loop's code compiled from index 0 between scope markers |
| CompilerFacts.IdentStmtCode | lib/compiler/mod.rs:24-27 | `x;` compiles to `Load(x)` then `Pop` |

## Left out

- The virtual machine (`lib/vm/mod.rs`) is not part of this model. No executed semantics of the bytecode is modelled, so no lemma says what a program computes.
- The end-to-end tests in `lib/test/mod.rs` run the absent VM and are not part of this model.
- `src/main.rs` and `repl/main.rs` are left out: argument handling, file and stdin I/O, and printing.
- `lib/compiler/symbol.rs` is left out. It holds unused type stubs.
- `char::is_alphabetic` is the parameter `isAlpha`. Lemmas about words assume only that it agrees with the ASCII letters below 128, which the lexer's keywords and the sample need. Unicode letters beyond that are not characterised.
- `Debug` formatting of errors, tokens and statements is left out.
- Lexer.ParseI64: `parse::<i64>` also accepts a leading `+` or `-`. That path is not modelled, because the lexer hands it only digit strings.
- Compiler.Compiler.Compile: after a `Fatal` outcome the contract says nothing about `codes`. In the source the process panics, with a partly written vector that nothing reads.
- Compiler.Compiler.CompileStmt, CompileWhile, CompileIf, CompileBlock, CompileFn, CompileLet, CompileRet, CompileExpr, CompileCall, CompileAssignment, CompileUnary, CompileBinary: the same holds for each of them.
- The source's integer types are modelled this way:
  - Tokens carry `i64` values as a bounded subset of `int`.
  - `usize` jump targets and lengths are `nat`, since no vector reaches `usize` bounds.
