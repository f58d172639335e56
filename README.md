# rustcc front end in Dafny

This project models the front end of rustcc, a compiler for a small subset
of C. The lexer turns source text into tokens. The recursive-descent
parser turns the tokens of `int NAME(void) { return EXPR; }` into an
abstract syntax tree. It parses expressions by precedence climbing over
five binary operators (`+ - * / %`) and two unary ones (`-`, `~`).

The model has seven files:

- `outcomes.dfy` (module `Outcomes`): `Option` and `Result`. `Result` can
  be used with `:-` in place of Rust's `?`; `Option` is matched on.
- `ast.dfy` (module `Ast`): the tree datatypes of `src/ast.rs` and the
  precedence table.
- `lexer.dfy` (module `Lexing`): the token vocabulary and the lexer.
  - The functions `RunEnd`, `ScanToken` and `Lex` say what lexing means:
    the maximal run of a character class, the token at an index, and the
    whole token sequence or the first error.
  - The class `Lexer` keeps the source's mutable cursor `pos`. Every method
    is proved against those functions.
  - `CollectNumber` and `CollectIdentifierStr` keep the source's
    convention: the cursor stops on the last character collected.
  - `Tokenize` ends with `r == Lex(input, old(pos))`.
- `parser.dfy` (module `Parsing`): one function per grammar rule.
  - `ExpectAt`, `IdentAt`, `FactorAt`, `ExprAt`/`ExprLoop`,
    `ReturnStatementAt` and `FunctionDefinitionAt` each map a token
    sequence and a cursor to the outcome and the cursor after it, on
    failure too.
  - The class `Parser` keeps the mutable cursor. Each method's `ensures`
    ties its result and new cursor to the rule it implements.
- `lexer_facts.dfy` (module `LexerFacts`) proves:
  - lexing is local: the tokens from an index depend only on the text from
    there on;
  - whitespace yields no token;
  - every one- and two-character operator, numeral and word lexes to the
    token the source's `match` gives it;
  - numerals round-trip;
  - the result never holds `EOF` and never has more tokens than
    characters;
  - lexing fails only where `tokenize` panics;
  - the arms of the `tokenize` switch and the character classes it tests
    do not overlap.
- `parser_facts.dfy` (module `ParserFacts`) proves:
  - printing any expression fully parenthesised and parsing it back gives
    the same tree (`RoundTrip`);
  - for any three operands and two operators, the first operator takes the
    middle operand exactly when it binds at least as tightly as the second.
    So `*`, `/` and `%` bind tighter than `+` and `-`, and operators of one
    level associate to the left;
  - a parenthesised group is one operand, and a missing `)` is an error at
    the token in its place;
  - the function-definition driver accepts exactly its fixed frame and
    ignores any tokens after the closing brace: the frame parses
    (`FunctionDefinitionOfPrinted`), and every successful parse has that
    frame (`DefinitionShape`).
- `frontend.dfy` (module `FrontEnd`) proves what both stages give for the
  program `int main(void){return 2;}`: it lexes to the ten tokens of its definition,
  which parse to `main` returning 2 (`CompileMain`).

Some points where the code does something a reader of C might not expect.
The model follows the code in each:

- The operand of a unary operator is a whole `parse_expr(0)`
  (src/parser.rs:84). So `-1+2` is the negation of the sum, not the sum of
  a negation (`NegatedSum`).
- The parser knows no relational, equality or logical operators, and no
  `!` unary operator. The lexer produces tokens for them that the parser
  never accepts.
- Two `unwrap`s can panic, and both are modelled as error outcomes, not
  as aborts:
  - the `unwrap` of `str::parse` inside `collect_number`
    (src/lexer.rs:94) panics on a digit run over the `i32` range.
    `CollectNumber` returns `NumberOutOfRange` there, and `NextToken`,
    `Tokenize` and `Lex` pass it on;
  - the `unwrap` of `collect_identifier_str` in `tokenize`
    (src/lexer.rs:180) panics on a character that starts no token.
    `NextToken`, `Tokenize` and `Lex` give `NotAlphanumeric` there.
- The `unwrap` of `collect_number` in `tokenize` (src/lexer.rs:178) never
  panics: `tokenize` calls `collect_number` only at a digit, the one case
  where it returns `Ok`.
- `tokenize` never produces the `EOF` token.

## Model

| member | source | states |
|---|---|---|
| Ast.BinaryOperator.Precedence | src/ast.rs:19-27 | every operator has a precedence of at least 0; it is 10 exactly for the multiplicative operators and 9 exactly for the additive ones |
| Ast.MultiplicativeAboveAdditive | src/ast.rs:19-27 | every multiplicative operator binds strictly tighter than every additive one |
| Ast.PrecedenceByGroup | src/ast.rs:19-27 | two operators share a precedence exactly when they are in the same group |
| Lexing.RunEnd | src/lexer.rs:81-118 | the index it returns ends the maximal run of the class from `i`: every character before it is in the class, and the one at it is not (or the input ends) |
| Lexing.RunEndAt | src/lexer.rs:81-91 | any run that is all in the class and stops at a character outside it is the one `RunEnd` finds |
| Lexing.DecimalRoundTrip | src/lexer.rs:94 | the decimal value of the shortest numeral of `n` is `n` |
| Lexing.DecimalValueBound | src/lexer.rs:94 | the decimal value of a run of `n` digits is below ten to the `n` |
| Lexing.NineDigitsFit | src/lexer.rs:94 | `str::parse::<i32>` of a non-empty run of at most nine digits always succeeds, so only a longer run can reach the panic |
| Lexing.ParseI32 | src/lexer.rs:94 | succeeds exactly when the digit run's decimal value fits an `i32`, then with that value; otherwise fails with `NumberOutOfRange` |
| Lexing.KeywordOrIdentifier | src/lexer.rs:142-149 | `int`, `return` and `void` (and only they) map to their keyword tokens; every other word becomes an identifier carrying the same text |
| Lexing.Lookahead | src/lexer.rs:131-139 | the two-character token and a step of two exactly when the next character exists and is `x`; otherwise the one-character token and a step of one |
| Lexing.ScanToken | src/lexer.rs:158-183 | a token that is scanned consumes at least one character and stays within the input |
| Lexing.ScanLiteral | src/lexer.rs:176-182 | a number or word that is scanned consumes at least one character and stays within the input |
| Lexing.LexAtBlank | src/lexer.rs:153-157 | at whitespace, lexing continues after the whole whitespace run and emits nothing for it |
| Lexing.LexAtToken | src/lexer.rs:158-186 | at any other character, lexing emits the scanned token and continues after it, or stops with the scan's error |
| Lexing.Lexer.constructor | src/lexer.rs:44 | the cursor starts at 0 over the given text |
| Lexing.Lexer.CharAt | src/lexer.rs:55-57 | the character at `n` exactly when `n` is inside the input |
| Lexing.Lexer.CurChar | src/lexer.rs:59-64 | the character under the cursor, or `OutOfBounds` past the end |
| Lexing.Lexer.PeekChar | src/lexer.rs:66-71 | the character after the cursor, or `OutOfBounds` when there is none |
| Lexing.Lexer.CollectNumber | src/lexer.rs:74-95 | `OutOfBounds` at the end and `NotNumeric` on a non-digit, both leaving the cursor; otherwise the `i32` parse of the maximal digit run, with the cursor on its last digit |
| Lexing.Lexer.CollectIdentifierStr | src/lexer.rs:98-119 | `OutOfBounds` at the end and `NotAlphanumeric` outside `[A-Za-z0-9_]`, both leaving the cursor; otherwise the maximal run of that class, with the cursor on its last character |
| Lexing.Lexer.SkipWhitespace | src/lexer.rs:121-129 | the cursor moves to the end of the whitespace run under it: the first other character or the end of input |
| Lexing.Lexer.IfNextTok | src/lexer.rs:131-139 | returns `ifTrue` and advances the cursor by exactly one when the next character exists and is `x`; otherwise returns `ifFalse` and leaves the cursor |
| Lexing.Lexer.NextToken | src/lexer.rs:158-183 | the token is the one `ScanToken` finds at the cursor, with the cursor left on its last character; a failure is `ScanToken`'s failure |
| Lexing.Lexer.LiteralToken | src/lexer.rs:176-182 | the token and the cursor on its last character are those `ScanLiteral` gives at the old cursor: a number at a digit, otherwise a keyword or an identifier; a failure is `ScanLiteral`'s failure |
| Lexing.Lexer.Tokenize | src/lexer.rs:141-189 | the result is `Lex` of the input from the starting cursor, and on success the cursor ends at the end of the input |
| LexerFacts.LexShift | src/lexer.rs:153-188 | lexing from an index gives the same outcome whatever text precedes it |
| LexerFacts.LexAfter | src/lexer.rs:153-188 | the tokens after a prefix that ends where lexing resumes are the tokens of the rest alone |
| LexerFacts.LexWhitespacePrefix | src/lexer.rs:153-157 | whitespace in front of a text adds no token and changes no outcome |
| LexerFacts.LexPunctuation | src/lexer.rs:158-168 | each single-character token of the switch lexes to that token whatever follows |
| LexerFacts.LexOperator | src/lexer.rs:169-175 | `!`, `&`, the vertical bar, `-`, `=`, `<` and `>` followed by their second character lex to the two-character token; followed by anything else or nothing, to the one-character token |
| LexerFacts.LexTwoCharOperator | src/lexer.rs:169-175 | the two characters of each two-character operator lex to one token |
| LexerFacts.LexDoubledOperators | src/lexer.rs:172-173 | `--` is the single token `Decrement` and `==` the single token `EqualEqual` |
| LexerFacts.LexDigits | src/lexer.rs:176-178 | a digit run that fits an `i32` lexes to one integer token of its decimal value |
| LexerFacts.LexNumeral | src/lexer.rs:74-95 | the decimal numeral of every non-negative `i32` lexes back to that value |
| LexerFacts.LexOverflow | src/lexer.rs:94 | a digit run above the `i32` range stops lexing with `NumberOutOfRange` |
| LexerFacts.LexWord | src/lexer.rs:179-181 | a word lexes to its keyword, or to an identifier carrying its text |
| LexerFacts.LexUnexpectedChar | src/lexer.rs:176-182 | a character that is neither whitespace nor the start of any token stops lexing with `NotAlphanumeric` |
| LexerFacts.LexNeverEmitsEof | src/lexer.rs:153-188 | no token sequence that lexing produces contains `EOF` |
| LexerFacts.LexLength | src/lexer.rs:183-187 | lexing produces at most one token per character |
| LexerFacts.LexFailsOnlyAtPanics | src/lexer.rs:176-182 | `Lex` (the whole of `tokenize`) fails only with `NumberOutOfRange` or `NotAlphanumeric`, the two panics; never with `OutOfBounds` or `NotNumeric` |
| LexerFacts.CharClasses | src/lexer.rs:76-123 | `IsDigit` holds exactly for the ten decimal digits and `IsWhitespace` for the six ASCII blanks; `IsWordChar` holds for every digit and `_`, and only for ASCII characters that are not blanks |
| LexerFacts.SwitchArms | src/lexer.rs:158-182 | `PunctuationToken` takes exactly `; ( ) { } ~ + * / %` and `OperatorStart` exactly `! & \| - = < >`; no character is in both, none of them is a blank or a word character, and each operator's two-character token differs from its one-character token |
| Parsing.BinaryOperatorTokens | src/parser.rs:122-133 | Plus, Hyphen, Asterisk, Percent and Backslash are exactly the tokens for Add, Subtract, Multiply, Mod and Divide, and every other token is no operator |
| Ast.FactorToExpr | src/parser.rs:55-59 | a parenthesised factor becomes its inner expression, leaving no node for the parentheses; a literal or a unary factor becomes the expression node of the same shape and contents |
| Parsing.WrapUnary | src/parser.rs:81-85 | a unary factor succeeds exactly when its operand does, holding the operator applied to it, fails with the operand's error otherwise, and ends where the operand ends |
| Parsing.ExpectAt | src/parser.rs:4-13 | succeeds exactly on the wanted token and then steps over it; otherwise fails with `NoToken` at the end or `Expected(want, found)`, leaving the cursor |
| Parsing.IdentAt | src/parser.rs:43-52 | succeeds exactly on an identifier, with its name, and then steps over it; otherwise fails and leaves the cursor |
| Parsing.FactorAt | src/parser.rs:74-97 | the cursor never moves backwards or past the end, and a factor that parses consumes at least one token |
| Parsing.ExprAt | src/parser.rs:54-72 | the cursor never moves backwards or past the end, and an expression that parses consumes at least one token |
| Parsing.ExprLoop | src/parser.rs:61-69 | the operator loop never moves the cursor backwards or past the end |
| Parsing.ExprLoopStep | src/parser.rs:61-65 | at an admitted operator, the loop parses the right operand at one above the operator's precedence and continues with the combined node, or stops with that operand's error |
| Parsing.ExprLoopStop | src/parser.rs:61-68 | at the end of the tokens, at a token that is no operator, or at an operator below the minimum, the loop returns its left operand where it stands |
| Parsing.ReturnStatementAt | src/parser.rs:99-102 | a return statement that parses starts with `return` and consumes at least two tokens |
| Parsing.FunctionDefinitionAt | src/parser.rs:104-119 | the driver never moves the cursor backwards or past the end |
| Parsing.Parser.constructor | src/parser.rs:22-24 | the cursor starts at 0 over the given tokens |
| Parsing.Parser.NthTok | src/parser.rs:26-28 | the token at `n` exactly when `n` is inside the sequence, otherwise `NoToken` |
| Parsing.Parser.CurrTok | src/parser.rs:30-32 | the token under the cursor exactly when there is one |
| Parsing.Parser.PeekTok | src/parser.rs:34-36 | the token after the cursor exactly when there is one |
| Parsing.Parser.Advance | src/parser.rs:38-41 | advances by exactly one when the cursor is before the end; otherwise fails with `UnexpectedEnd` and leaves it; the cursor stays within the tokens |
| Parsing.Parser.Expect | src/parser.rs:4-13 | result and new cursor are those of `ExpectAt` |
| Parsing.Parser.ConsumeIdent | src/parser.rs:43-52 | result and new cursor are those of `IdentAt` |
| Parsing.Parser.ParseExpr | src/parser.rs:54-72 | result and new cursor are those of `ExprAt` at the old cursor and the given minimum precedence |
| Parsing.Parser.ParseFactor | src/parser.rs:74-97 | result and new cursor are those of `FactorAt` |
| Parsing.Parser.ParseReturnStatement | src/parser.rs:99-102 | result and new cursor are those of `ReturnStatementAt` |
| Parsing.Parser.ParseFunctionDefinition | src/parser.rs:104-119 | result and new cursor are those of `FunctionDefinitionAt` |
| ParserFacts.OperatorToken | src/parser.rs:122-133 | the token chosen for each operator is one that `is_binary_operator` maps back to it |
| ParserFacts.FactorAtParen | src/parser.rs:87-91 | `(`, an expression, then `)` is one factor holding the expression, ending after the `)` |
| ParserFacts.FactorAtUnary | src/parser.rs:81-85 | `-` or `~` followed by an expression is one unary factor over the whole expression |
| ParserFacts.ExprAfterFactor | src/parser.rs:55-59 | after a factor, `parse_expr` is the operator loop with the factor's expression as left operand |
| ParserFacts.LoopStops | src/parser.rs:61-68 | at a token that cannot continue a chain, the loop returns its left operand |
| ParserFacts.LoopDeclines | src/parser.rs:61-68 | an operator below the minimum precedence ends the loop |
| ParserFacts.LoopTakes | src/parser.rs:62-65 | an admitted operator combines the left operand with the right operand parsed at one above its precedence |
| ParserFacts.LoopTakesLast | src/parser.rs:61-69 | an admitted operator whose right operand ends the chain gives exactly one application |
| ParserFacts.FactorOfPrinted | src/parser.rs:74-97 | a fully parenthesised printing of any expression is one factor standing for that expression and consuming exactly its tokens |
| ParserFacts.BinaryOfPrinted | src/parser.rs:87-91 | a printed binary application is a parenthesised factor holding it |
| ParserFacts.UnaryOfPrinted | src/parser.rs:81-91 | a printed unary application is a parenthesised factor holding it |
| ParserFacts.ExprHead | src/parser.rs:54-69 | at every minimum precedence, a printed expression is the left operand of the loop that follows it |
| ParserFacts.ExprOfPrinted | src/parser.rs:54-72 | a printed expression followed by a token that cannot continue a chain parses back to exactly that expression, at every minimum precedence |
| ParserFacts.ChainOfTwo | src/parser.rs:61-69 | `l op r` over printed operands, where the chain ends, is the one application of `op` for every admitting minimum |
| ParserFacts.TakeNone | src/parser.rs:61-68 | an operator below the minimum leaves the left operand as the result |
| ParserFacts.TakeNext | src/parser.rs:62-65 | an admitted operator and its right operand extend the running left operand |
| ParserFacts.TakeLast | src/parser.rs:61-69 | an admitted operator and a right operand ending the chain give the final tree |
| ParserFacts.OneApplication | src/parser.rs:61-69 | two operands around an admitted operator, where the chain ends, form one application |
| ParserFacts.LeftTakesMiddle | src/parser.rs:61-69 | when the first operator binds at least as tightly as the second, it takes the middle operand: `(a op1 b) op2 c` |
| ParserFacts.RightTakesMiddle | src/parser.rs:61-69 | when the second operator binds strictly tighter, it takes the middle operand: `a op1 (b op2 c)` |
| ParserFacts.ChainOfThree | src/parser.rs:61-69 | for all three operands and two operators, the tree is left-nested exactly when the first operator's precedence is at least the second's |
| ParserFacts.RoundTrip | src/parser.rs:54-97 | parsing the fully parenthesised printing of any expression gives back that expression and consumes every token |
| ParserFacts.NumbersChain | src/parser.rs:61-69 | `x op1 y op2 z` over integer literals parses to the tree that precedence and left associativity call for |
| ParserFacts.PrecedenceExamples | src/parser.rs:61-69 | `1+2*3` is `1+(2*3)`, `2*3+1` is `(2*3)+1` and `1-2-3` is `(1-2)-3` |
| ParserFacts.ParenthesisedGroup | src/parser.rs:87-91 | `(a+b)*c` makes the group the left operand of the product |
| ParserFacts.UnaryTakesExpr | src/parser.rs:81-85 | a unary operator applies to the whole expression after it, binary chain included |
| ParserFacts.NegatedSum | src/parser.rs:84 | `-1+2` parses to the negation of `1+2` |
| ParserFacts.FactorRejects | src/parser.rs:93-95 | a token that starts no operand makes the factor, and so the expression, fail with `ExpectedExpression` where it stands |
| ParserFacts.MissingCloseParen | src/parser.rs:87-91 | for any tokens: `(` and an expression that parses, followed by a token other than `)`, fail with `Expected(CloseParen, that token)` where it stands; followed by nothing, fail with `NoToken` at the end |
| ParserFacts.ReturnOf | src/parser.rs:99-102 | `return` followed by an expression is the return statement of that expression |
| ParserFacts.FrameOf | src/parser.rs:104-119 | after the header, the body's failure is the driver's failure; a body followed by `;` and `}` gives the definition of that name and body, ending after the `}` |
| ParserFacts.DefinitionAt | src/parser.rs:104-119 | a header, an expression, `;` and `}` define the name returning that expression |
| ParserFacts.FunctionDefinitionOfPrinted | src/parser.rs:104-119 | `int NAME(void) { return E; }` defines NAME returning E, stops after the `}` and ignores all tokens that follow |
| ParserFacts.MainReturnsTwo | src/parser.rs:104-119 | the tokens of `int main(void) { return 2; }` define `main` returning the integer 2 |
| ParserFacts.DefinitionShape | src/parser.rs:104-119 | every definition that parses has the fixed frame: the header of its name, its returned expression parsed from position 7, then `;` and `}` as the last two tokens consumed |
| ParserFacts.DefinitionHeader | src/parser.rs:104-114 | a definition that parses starts with `int NAME ( void ) { return` for its own name |
| ParserFacts.DefinitionBody | src/parser.rs:114-119 | a definition that parses holds the return statement parsed from position 6, followed by `;` and `}`, and ends after the `}` |
| ParserFacts.MissingOpenBrace | src/parser.rs:111 | a token other than `{` after the parameter list is an `Expected(OpenBrace, …)` failure at that token |
| ParserFacts.ReturnWithoutValue | src/parser.rs:114 | `return;` fails in the factor with `ExpectedExpression(Semicolon)` at the semicolon |
| FrontEnd.WordThen | src/lexer.rs:179-181 | a word in front of a text that lexes to `ts` lexes to the word's token followed by `ts` |
| FrontEnd.PunctuationThen | src/lexer.rs:158-168 | a switch character in front of a text that lexes to `ts` lexes to its token followed by `ts` |
| FrontEnd.LexNumberTail | src/lexer.rs:158-178 | `2;}` lexes to `Integer(2)`, `;` and `}` |
| FrontEnd.LexReturnTail | src/lexer.rs:153-181 | `return 2;}` lexes to `return` and the numeral tail's tokens |
| FrontEnd.LexBodyTail | src/lexer.rs:158-168 | `){return 2;}` lexes to `)`, `{` and the tokens of `return 2;}` |
| FrontEnd.LexParamsTail | src/lexer.rs:158-181 | `(void){return 2;}` lexes to `(`, `void` and the tokens after them |
| FrontEnd.LexNameTail | src/lexer.rs:179-181 | `main(void){return 2;}` lexes to the identifier `main` and the tokens after it |
| FrontEnd.LexMain | src/lexer.rs:141-189 | the whole program lexes to `int`, the identifier `main`, `( void ) {`, `return`, `Integer(2)`, `;` and `}` |
| FrontEnd.LexProgram | src/lexer.rs:141-189 | `int main(void){return 2;}` written out as one text lexes to those ten tokens |
| FrontEnd.CompileMain | src/parser.rs:104-119 | lexing `int main(void){return 2;}` and parsing the tokens gives the definition of `main` returning 2, consuming all ten tokens |

## Left out

- `Lexer::new` (src/lexer.rs:43-48) reads a file. The model's constructor takes the text itself.
- src/main.rs is not part of this model. It is glue with a fixed file name and debug printing.
- Error message text (`Lexer::error`, `format!`, `{:?}`, `stringify!`) is not modelled. Errors are the abstract values `LexError` and `ParseError`.
- The lexer's `line` field is left out. It is never incremented and only feeds messages.
- Character classes are ASCII. Rust's `is_numeric` and `is_whitespace` also accept other Unicode digits and spaces.
- The panics at src/lexer.rs:94 and 180 become error outcomes, as described above. The model does not abort.
- `ProgramNode` (src/ast.rs:62-64) is left out. It is never built.
- `FunctionDefinition::new` (src/ast.rs:56-59) is the datatype constructor `Ast.FunctionDefinition`, which stores exactly the given identifier and body.
- `advance()?` after a successful `curr_tok()` cannot fail. The methods discard that result, and the contracts show the cursor still advances by one.
- Tokens the parser never accepts are left out of the parser: `!`, `&`, `|`, the relational and equality operators, `--` and `EOF`. Only their lexing is modelled.
- Rust's `Box` ownership and the borrowed `&Token` values are left out. The model uses plain values.
