/** The two stages together on the smallest complete program,
    `int main(void){return 2;}`: it lexes to the ten tokens of its
    definition, and those parse to `main` returning 2. The text is spelled
    as its suffixes, each one piece in front of the next, and each lemma
    lexes one suffix from the one after it. */
module FrontEnd {
  import opened Outcomes
  import opened Lexing
  import opened Parsing
  import LexerFacts
  import ParserFacts
  import A = Ast

  /** `2;}` */
  const NumberTail: string := "2" + (";" + "}")
  /** `return 2;}` */
  const ReturnTail: string := "return" + (" " + NumberTail)
  /** `){return 2;}` */
  const BodyTail: string := ")" + ("{" + ReturnTail)
  /** `(void){return 2;}` */
  const ParamsTail: string := "(" + ("void" + BodyTail)
  /** `main(void){return 2;}` */
  const NameTail: string := "main" + ParamsTail
  /** `int main(void){return 2;}` */
  const Source: string := "int" + (" " + NameTail)

  /** The tokens of each suffix, built the same way. */
  const NumberTokens: seq<Token> := [Integer(2)] + ([Semicolon] + [CloseBrace])
  const ReturnTokens: seq<Token> := [Return] + NumberTokens
  const BodyTokens: seq<Token> := [CloseParen] + ([OpenBrace] + ReturnTokens)
  const ParamsTokens: seq<Token> := [OpenParen] + ([Void] + BodyTokens)
  const NameTokens: seq<Token> := [Identifier("main")] + ParamsTokens
  const SourceTokens: seq<Token> := [Int] + NameTokens

  /** The suffixes spell the program's text. */
  lemma SourceText()
    ensures Source == "int main(void){return 2;}"
  {
    assert NumberTail == "2;}";
    assert ReturnTail == "return 2;}";
    assert BodyTail == "){return 2;}";
    assert NameTail == "main(void){return 2;}";
  }

  /** A word followed by a text that lexes to `ts` lexes to its token and then `ts`. */
  lemma WordThen(w: seq<char>, s: seq<char>, t: Token, ts: seq<Token>)
    requires w != [] && !IsDigit(w[0])
    requires forall m | 0 <= m < |w| :: IsWordChar(w[m])
    requires s == [] || !IsWordChar(s[0])
    requires KeywordOrIdentifier(w) == t && Lex(s, 0) == Ok(ts)
    ensures Lex(w + s, 0) == Ok([t] + ts)
  {
    LexerFacts.LexWord(w, s);
  }

  /** A punctuation character followed by a text that lexes to `ts` lexes to
      its token and then `ts`. */
  lemma PunctuationThen(c: char, s: seq<char>, t: Token, ts: seq<Token>)
    requires PunctuationToken(c) == Some(t) && Lex(s, 0) == Ok(ts)
    ensures Lex([c] + s, 0) == Ok([t] + ts)
  {
    LexerFacts.LexPunctuation(c, s);
  }

  /** `2;}`: a numeral, then two punctuation tokens. */
  lemma LexNumberTail()
    ensures Lex(NumberTail, 0) == Ok(NumberTokens)
  {
    var none: seq<char> := [];
    var empty: seq<Token> := [];
    assert Lex(none, 0) == Ok(empty);
    PunctuationThen('}', none, CloseBrace, empty);
    assert ['}'] + none == "}" && [CloseBrace] + empty == [CloseBrace];
    PunctuationThen(';', "}", Semicolon, [CloseBrace]);
    assert [';'] + "}" == ";" + "}";
    assert DecimalValue("2") == 2;
    LexerFacts.LexDigits("2", ";" + "}");
  }

  /** `return 2;}`: a keyword, a blank, then the numeral tail. */
  lemma LexReturnTail()
    ensures Lex(ReturnTail, 0) == Ok(ReturnTokens)
  {
    LexNumberTail();
    LexerFacts.LexWhitespacePrefix(" ", NumberTail);
    WordThen("return", " " + NumberTail, Return, NumberTokens);
  }

  /** `){return 2;}`: the end of the parameter list and the opening brace. */
  lemma LexBodyTail()
    ensures Lex(BodyTail, 0) == Ok(BodyTokens)
  {
    LexReturnTail();
    PunctuationThen('{', ReturnTail, OpenBrace, ReturnTokens);
    PunctuationThen(')', "{" + ReturnTail, CloseParen, [OpenBrace] + ReturnTokens);
  }

  /** `(void){return 2;}`: the parameter list. */
  lemma LexParamsTail()
    ensures Lex(ParamsTail, 0) == Ok(ParamsTokens)
  {
    LexBodyTail();
    WordThen("void", BodyTail, Void, BodyTokens);
    PunctuationThen('(', "void" + BodyTail, OpenParen, [Void] + BodyTokens);
  }

  /** `main(void){return 2;}`: the name, then the parameter list. */
  lemma LexNameTail()
    ensures Lex(NameTail, 0) == Ok(NameTokens)
  {
    LexParamsTail();
    WordThen("main", ParamsTail, Identifier("main"), ParamsTokens);
  }

  /** The whole program lexes to the ten tokens of its definition. */
  lemma LexMain()
    ensures Lex(Source, 0) == Ok(SourceTokens)
  {
    LexNameTail();
    LexerFacts.LexWhitespacePrefix(" ", NameTail);
    WordThen("int", " " + NameTail, Int, NameTokens);
  }

  /** The same, for the program written out as one text and its tokens
      written out as one list. */
  lemma LexProgram()
    ensures Lex("int main(void){return 2;}", 0)
            == Ok([Int, Identifier("main"), OpenParen, Void, CloseParen, OpenBrace,
                   Return, Integer(2), Semicolon, CloseBrace])
  {
    SourceText();
    LexMain();
    assert SourceTokens
        == [Int, Identifier("main"), OpenParen, Void, CloseParen, OpenBrace,
            Return, Integer(2), Semicolon, CloseBrace];
  }

  /** Lexing and then parsing the program gives the definition of `main`
      returning 2, and the parse consumes every token. */
  lemma CompileMain()
    ensures Lex("int main(void){return 2;}", 0).Ok?
    ensures FunctionDefinitionAt(Lex("int main(void){return 2;}", 0).value, 0)
            == Parsed(Ok(A.FunctionDefinition("main", A.Return(A.ExprNode.Integer(2)))), 10)
  {
    LexProgram();
    ParserFacts.MainReturnsTwo();
    assert ParserFacts.Header("main") + [Integer(2), Semicolon, CloseBrace]
        == [Int, Identifier("main"), OpenParen, Void, CloseParen, OpenBrace,
            Return, Integer(2), Semicolon, CloseBrace];
  }
}
