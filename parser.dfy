/** The recursive-descent parser of src/parser.rs.

    The pure half states what parsing means: each grammar rule is a function
    from the token sequence and a cursor to a `Parsed` value, the outcome
    together with the cursor the rule leaves behind (on failure too, since
    the source's cursor stays wherever the failing step left it). The class
    `Parser` is the source's cursor-based parser; each of its methods is
    proved against the rule it implements. */
module Parsing {
  import opened Outcomes
  import opened Lexing
  import A = Ast

  /** Why parsing stopped. */
  datatype ParseError =
    | NoToken                             // a token was read past the end of the sequence
    | UnexpectedEnd                       // the cursor was advanced past the end
    | Expected(want: Token, found: Token) // `expect!` met a different token
    | ExpectedIdentifier(found: Token)    // the function name is not an identifier
    | ExpectedExpression(found: Token)    // the token cannot start an operand

  /** An outcome and the cursor after it. */
  datatype Parsed<+T> = Parsed(result: Result<T, ParseError>, pos: nat)

  /** The binary operator a token stands for, if any. */
  function IsBinaryOperator(t: Token): Option<A.BinaryOperator> {
    match t
    case Plus => Some(A.Add)
    case Hyphen => Some(A.Subtract)
    case Asterisk => Some(A.Multiply)
    case Percent => Some(A.Mod)
    case Backslash => Some(A.Divide)
    case _ => None
  }

  /** Exactly five tokens are binary operators, each standing for one
      operator (a backslash stands for division). */
  lemma BinaryOperatorTokens(t: Token)
    ensures IsBinaryOperator(t) == Some(A.Add) <==> t == Plus
    ensures IsBinaryOperator(t) == Some(A.Subtract) <==> t == Hyphen
    ensures IsBinaryOperator(t) == Some(A.Multiply) <==> t == Asterisk
    ensures IsBinaryOperator(t) == Some(A.Mod) <==> t == Percent
    ensures IsBinaryOperator(t) == Some(A.Divide) <==> t == Backslash
    ensures IsBinaryOperator(t).None? <==> !(t.Plus? || t.Hyphen? || t.Asterisk? || t.Percent? || t.Backslash?)
  {
  }

  // ---------------------------------------------------------------------
  // The grammar, one function per rule

  /** `expect!`: steps over the token `want`, or fails where it stands. */
  function ExpectAt(toks: seq<Token>, i: nat, want: Token): (r: Parsed<()>)
    requires i <= |toks|
    ensures r.result.Ok? <==> i < |toks| && toks[i] == want
    ensures r.pos == if r.result.Ok? then i + 1 else i
    ensures i == |toks| ==> r.result == Err(NoToken)
    ensures i < |toks| && toks[i] != want ==> r.result == Err(Expected(want, toks[i]))
  {
    if i == |toks| then Parsed(Err(NoToken), i)
    else if toks[i] == want then Parsed(Ok(()), i + 1)
    else Parsed(Err(Expected(want, toks[i])), i)
  }

  /** `consume_ident`: the name carried by an identifier token. */
  function IdentAt(toks: seq<Token>, i: nat): (r: Parsed<seq<char>>)
    requires i <= |toks|
    ensures r.result.Ok? <==> i < |toks| && toks[i].Identifier?
    ensures r.result.Ok? ==> r.result.value == toks[i].name && r.pos == i + 1
    ensures r.result.Err? ==> r.pos == i
  {
    if i == |toks| then Parsed(Err(NoToken), i)
    else match toks[i]
      case Identifier(name) => Parsed(Ok(name), i + 1)
      case t => Parsed(Err(ExpectedIdentifier(t)), i)
  }

  /** A unary factor succeeds exactly when its operand does, and ends where
      the operand ends. */
  function WrapUnary(op: A.UnaryOperator, operand: Parsed<A.ExprNode>): (r: Parsed<A.FactorNode>)
    ensures r.pos == operand.pos
    ensures r.result.Ok? <==> operand.result.Ok?
    ensures r.result.Ok? ==> r.result.value == A.FactorNode.Unary(op, operand.result.value)
    ensures r.result.Err? ==> r.result.error == operand.result.error
  {
    match operand.result
    case Ok(e) => Parsed(Ok(A.FactorNode.Unary(op, e)), operand.pos)
    case Err(err) => Parsed(Err(err), operand.pos)
  }

  /** `parse_factor`: a literal, a unary operator applied to a whole
      `parse_expr(0)`, or a parenthesised expression. */
  function FactorAt(toks: seq<Token>, i: nat): (r: Parsed<A.FactorNode>)
    requires i <= |toks|
    ensures i <= r.pos <= |toks|
    ensures r.result.Ok? ==> i < r.pos
    decreases |toks| - i, 1
  {
    if i == |toks| then Parsed(Err(NoToken), i)
    else match toks[i]
      case Integer(n) => Parsed(Ok(A.FactorNode.Integer(n)), i + 1)
      case Hyphen => WrapUnary(A.Negate, ExprAt(toks, i + 1, 0))
      case Tilde => WrapUnary(A.Complement, ExprAt(toks, i + 1, 0))
      case OpenParen =>
        var inner := ExprAt(toks, i + 1, 0);
        if inner.result.Err? then Parsed(Err(inner.result.error), inner.pos)
        else
          var close := ExpectAt(toks, inner.pos, CloseParen);
          if close.result.Err? then Parsed(Err(close.result.error), close.pos)
          else Parsed(Ok(A.FactorNode.Expr(inner.result.value)), close.pos)
      case t => Parsed(Err(ExpectedExpression(t)), i)
  }

  /** `parse_expr(minPrec)`: a factor followed by the loop over binary
      operators of precedence at least `minPrec`. */
  function ExprAt(toks: seq<Token>, i: nat, minPrec: int): (r: Parsed<A.ExprNode>)
    requires i <= |toks|
    ensures i <= r.pos <= |toks|
    ensures r.result.Ok? ==> i < r.pos
    decreases |toks| - i, 2
  {
    var f := FactorAt(toks, i);
    if f.result.Err? then Parsed(Err(f.result.error), f.pos)
    else ExprLoop(toks, f.pos, A.FactorToExpr(f.result.value), minPrec)
  }

  /** The loop of `parse_expr` from cursor `i` with the operand `left`
      built so far: each admitted operator takes a right operand parsed at
      one level above its own precedence. */
  function ExprLoop(toks: seq<Token>, i: nat, left: A.ExprNode, minPrec: int): (r: Parsed<A.ExprNode>)
    requires i <= |toks|
    ensures i <= r.pos <= |toks|
    decreases |toks| - i, 0
  {
    if i == |toks| then Parsed(Ok(left), i)
    else match IsBinaryOperator(toks[i])
      case None => Parsed(Ok(left), i)
      case Some(op) =>
        if op.Precedence() < minPrec then Parsed(Ok(left), i)
        else
          var right := ExprAt(toks, i + 1, op.Precedence() + 1);
          if right.result.Err? then Parsed(Err(right.result.error), right.pos)
          else ExprLoop(toks, right.pos, A.Binary(left, right.result.value, op), minPrec)
  }

  /** `ExprLoop` unfolded once at an admitted operator. */
  lemma ExprLoopStep(toks: seq<Token>, i: nat, left: A.ExprNode, minPrec: int)
    requires i < |toks| && IsBinaryOperator(toks[i]).Some?
    requires IsBinaryOperator(toks[i]).value.Precedence() >= minPrec
    ensures var op := IsBinaryOperator(toks[i]).value;
            var right := ExprAt(toks, i + 1, op.Precedence() + 1);
            ExprLoop(toks, i, left, minPrec) ==
              if right.result.Err? then Parsed(Err(right.result.error), right.pos)
              else ExprLoop(toks, right.pos, A.Binary(left, right.result.value, op), minPrec)
  {
  }

  /** `ExprLoop` stops, returning `left`, at the end of the tokens, at a
      token that is no binary operator, or at one binding too loosely. */
  lemma ExprLoopStop(toks: seq<Token>, i: nat, left: A.ExprNode, minPrec: int)
    requires i <= |toks|
    requires i == |toks| || IsBinaryOperator(toks[i]).None? || IsBinaryOperator(toks[i]).value.Precedence() < minPrec
    ensures ExprLoop(toks, i, left, minPrec) == Parsed(Ok(left), i)
  {
  }

  /** `parse_return_statement`: `return` followed by an expression. */
  function ReturnStatementAt(toks: seq<Token>, i: nat): (r: Parsed<A.StatementNode>)
    requires i <= |toks|
    ensures i <= r.pos <= |toks|
    ensures r.result.Ok? ==> i + 1 < r.pos && toks[i] == Return
  {
    var kw := ExpectAt(toks, i, Return);
    if kw.result.Err? then Parsed(Err(kw.result.error), kw.pos)
    else
      var e := ExprAt(toks, kw.pos, 0);
      if e.result.Err? then Parsed(Err(e.result.error), e.pos)
      else Parsed(Ok(A.Return(e.result.value)), e.pos)
  }

  /** `parse_function_definition`:
      `int IDENT ( void ) { return expr ; }`. */
  function FunctionDefinitionAt(toks: seq<Token>, i: nat): (r: Parsed<A.FunctionDefinition>)
    requires i <= |toks|
    ensures i <= r.pos <= |toks|
  {
    var kwInt := ExpectAt(toks, i, Int);
    if kwInt.result.Err? then Parsed(Err(kwInt.result.error), kwInt.pos) else
    var name := IdentAt(toks, kwInt.pos);
    if name.result.Err? then Parsed(Err(name.result.error), name.pos) else
    var open := ExpectAt(toks, name.pos, OpenParen);
    if open.result.Err? then Parsed(Err(open.result.error), open.pos) else
    var kwVoid := ExpectAt(toks, open.pos, Void);
    if kwVoid.result.Err? then Parsed(Err(kwVoid.result.error), kwVoid.pos) else
    var close := ExpectAt(toks, kwVoid.pos, CloseParen);
    if close.result.Err? then Parsed(Err(close.result.error), close.pos) else
    var brace := ExpectAt(toks, close.pos, OpenBrace);
    if brace.result.Err? then Parsed(Err(brace.result.error), brace.pos) else
    var body := ReturnStatementAt(toks, brace.pos);
    if body.result.Err? then Parsed(Err(body.result.error), body.pos) else
    var semi := ExpectAt(toks, body.pos, Semicolon);
    if semi.result.Err? then Parsed(Err(semi.result.error), semi.pos) else
    var end := ExpectAt(toks, semi.pos, CloseBrace);
    if end.result.Err? then Parsed(Err(end.result.error), end.pos) else
    Parsed(Ok(A.FunctionDefinition(name.result.value, body.result.value)), end.pos)
  }

  // ---------------------------------------------------------------------
  // The parser

  class Parser {
    const tokens: seq<Token>
    var pos: nat

    /** The cursor never passes the end of the token sequence. */
    ghost predicate Valid()
      reads this
    {
      pos <= |tokens|
    }

    constructor (tokens: seq<Token>)
      ensures this.tokens == tokens && pos == 0 && Valid()
    {
      this.tokens := tokens;
      pos := 0;
    }

    function NthTok(n: nat): (r: Result<Token, ParseError>)
      ensures r.Ok? <==> n < |tokens|
      ensures r.Ok? ==> r.value == tokens[n]
      ensures r.Err? ==> r.error == NoToken
    {
      if n < |tokens| then Ok(tokens[n]) else Err(NoToken)
    }

    function CurrTok(): (r: Result<Token, ParseError>)
      reads this
      ensures r.Ok? <==> pos < |tokens|
      ensures r.Ok? ==> r.value == tokens[pos]
    {
      NthTok(pos)
    }

    function PeekTok(): (r: Result<Token, ParseError>)
      reads this
      ensures r.Ok? <==> pos + 1 < |tokens|
      ensures r.Ok? ==> r.value == tokens[pos + 1]
    {
      NthTok(pos + 1)
    }

    method Advance() returns (r: Result<(), ParseError>)
      requires Valid()
      modifies this
      ensures Valid()
      ensures r.Ok? <==> old(pos) < |tokens|
      ensures r.Ok? ==> pos == old(pos) + 1
      ensures r.Err? ==> r.error == UnexpectedEnd && pos == old(pos)
    {
      if pos < |tokens| {
        pos := pos + 1;
        return Ok(());
      } else {
        return Err(UnexpectedEnd);
      }
    }

    /** The `expect!` macro, for a token without payload. */
    method Expect(want: Token) returns (r: Result<(), ParseError>)
      requires Valid()
      modifies this
      ensures Valid()
      ensures Parsed(r, pos) == ExpectAt(tokens, old(pos), want)
    {
      var t :- CurrTok();
      if t == want {
        var _ := Advance();  // cannot fail: the current token exists
        return Ok(());
      } else {
        return Err(Expected(want, t));
      }
    }

    method ConsumeIdent() returns (r: Result<seq<char>, ParseError>)
      requires Valid()
      modifies this
      ensures Valid()
      ensures Parsed(r, pos) == IdentAt(tokens, old(pos))
    {
      var t :- CurrTok();
      if t.Identifier? {
        var name := t.name;
        var _ := Advance();  // cannot fail: the current token exists
        return Ok(name);
      } else {
        return Err(ExpectedIdentifier(t));
      }
    }

    method ParseExpr(minPrec: int) returns (r: Result<A.ExprNode, ParseError>)
      requires Valid()
      modifies this
      ensures Valid()
      ensures Parsed(r, pos) == ExprAt(tokens, old(pos), minPrec)
      decreases |tokens| - pos, 2
    {
      var factor :- ParseFactor();
      var left := A.FactorToExpr(factor);
      while true
        invariant Valid() && old(pos) < pos
        invariant ExprLoop(tokens, pos, left, minPrec) == ExprAt(tokens, old(pos), minPrec)
        decreases |tokens| - pos
      {
        var tok := CurrTok();
        if tok.Err? {
          ExprLoopStop(tokens, pos, left, minPrec);
          break;
        }
        var op := IsBinaryOperator(tok.value);
        if op.None? || op.value.Precedence() < minPrec {
          ExprLoopStop(tokens, pos, left, minPrec);
          break;
        }
        ghost var here := pos;
        var _ := Advance();  // cannot fail: the current token exists
        ExprLoopStep(tokens, here, left, minPrec);
        var right :- ParseExpr(op.value.Precedence() + 1);
        left := A.Binary(left, right, op.value);
      }
      return Ok(left);
    }

    method ParseFactor() returns (r: Result<A.FactorNode, ParseError>)
      requires Valid()
      modifies this
      ensures Valid()
      ensures Parsed(r, pos) == FactorAt(tokens, old(pos))
      decreases |tokens| - pos, 1
    {
      var t :- CurrTok();
      match t {
        case Integer(i) =>
          var _ := Advance();  // cannot fail: the current token exists
          return Ok(A.FactorNode.Integer(i));
        case Hyphen =>
          var _ := Advance();  // cannot fail: the current token exists
          var expr :- ParseExpr(0);
          return Ok(A.FactorNode.Unary(A.Negate, expr));
        case Tilde =>
          var _ := Advance();  // cannot fail: the current token exists
          var expr :- ParseExpr(0);
          return Ok(A.FactorNode.Unary(A.Complement, expr));
        case OpenParen =>
          var _ := Advance();  // cannot fail: the current token exists
          var expr :- ParseExpr(0);
          var _ :- Expect(CloseParen);
          return Ok(A.FactorNode.Expr(expr));
        case _ =>
          return Err(ExpectedExpression(t));
      }
    }

    method ParseReturnStatement() returns (r: Result<A.StatementNode, ParseError>)
      requires Valid()
      modifies this
      ensures Valid()
      ensures Parsed(r, pos) == ReturnStatementAt(tokens, old(pos))
    {
      var _ :- Expect(Return);
      var expr :- ParseExpr(0);
      return Ok(A.Return(expr));
    }

    method ParseFunctionDefinition() returns (r: Result<A.FunctionDefinition, ParseError>)
      requires Valid()
      modifies this
      ensures Valid()
      ensures Parsed(r, pos) == FunctionDefinitionAt(tokens, old(pos))
    {
      var _ :- Expect(Int);
      var name :- ConsumeIdent();
      var _ :- Expect(OpenParen);
      var _ :- Expect(Void);
      var _ :- Expect(CloseParen);
      var _ :- Expect(OpenBrace);
      var returnStatement :- ParseReturnStatement();
      var _ :- Expect(Semicolon);
      var _ :- Expect(CloseBrace);
      return Ok(A.FunctionDefinition(name, returnStatement));
    }
  }
}
