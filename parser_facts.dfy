/** What the grammar functions of `Parsing` compute on concrete token
    shapes: a fully parenthesised printing of any expression parses back to
    that expression, multiplicative operators bind tighter than additive
    ones, operators of one level associate to the left, a parenthesised
    group is one operand, a unary operator takes the whole chain after it,
    and the function-definition driver accepts exactly its fixed frame and
    ignores what follows the closing brace. */
module ParserFacts {
  import opened Outcomes
  import opened Lexing
  import opened Parsing
  import A = Ast

  // ---------------------------------------------------------------------
  // Printing expressions back to tokens

  /** The token `is_binary_operator` maps to `op`. */
  function OperatorToken(op: A.BinaryOperator): (t: Token)
    ensures IsBinaryOperator(t) == Some(op)
  {
    match op
    case Add => Plus
    case Subtract => Hyphen
    case Multiply => Asterisk
    case Divide => Backslash
    case Mod => Percent
  }

  /** The token `parse_factor` reads as the unary operator `u`. */
  function UnaryToken(u: A.UnaryOperator): Token {
    match u
    case Negate => Hyphen
    case Complement => Tilde
  }

  /** The tokens of `e` with every operator application in parentheses, so
      that each printed expression is a single factor. */
  function Print(e: A.ExprNode): seq<Token> {
    match e
    case Integer(n) => [Integer(n)]
    case Unary(u, x) => Parenthesised([UnaryToken(u)] + Print(x))
    case Binary(l, r, op) => Parenthesised(Print(l) + [OperatorToken(op)] + Print(r))
  }

  function Parenthesised(ts: seq<Token>): seq<Token> {
    [OpenParen] + ts + [CloseParen]
  }

  /** `ts` occurs in `toks` from index `i` on. */
  predicate IsAt(toks: seq<Token>, i: nat, ts: seq<Token>) {
    i + |ts| <= |toks| && Matches(toks, i, ts)
  }

  /** Token by token, `ts` agrees with `toks` from index `i` on. */
  predicate Matches(toks: seq<Token>, i: nat, ts: seq<Token>)
    decreases |ts|
  {
    ts == [] || (i < |toks| && toks[i] == ts[0] && Matches(toks, i + 1, ts[1..]))
  }

  lemma {:induction false} MatchesSplit(toks: seq<Token>, i: nat, a: seq<Token>, b: seq<Token>)
    requires Matches(toks, i, a + b)
    ensures Matches(toks, i, a) && Matches(toks, i + |a|, b)
    decreases |a|
  {
    if a != [] {
      assert (a + b)[0] == a[0];
      assert (a + b)[1..] == a[1..] + b;
      MatchesSplit(toks, i + 1, a[1..], b);
    } else {
      assert a + b == b;
    }
  }

  lemma {:induction false} MatchesAll(toks: seq<Token>, i: nat, ts: seq<Token>)
    requires i + |ts| <= |toks|
    requires forall k :: 0 <= k < |ts| ==> toks[i + k] == ts[k]
    ensures Matches(toks, i, ts)
    decreases |ts|
  {
    if ts != [] {
      MatchesAll(toks, i + 1, ts[1..]);
    }
  }

  lemma IsAtSplit(toks: seq<Token>, i: nat, a: seq<Token>, b: seq<Token>)
    requires IsAt(toks, i, a + b)
    ensures IsAt(toks, i, a) && IsAt(toks, i + |a|, b)
  {
    MatchesSplit(toks, i, a, b);
  }

  lemma TokenAt(toks: seq<Token>, i: nat, t: Token)
    requires IsAt(toks, i, [t])
    ensures i < |toks| && toks[i] == t
  {
  }

  lemma {:induction false} MatchesSuffix(toks: seq<Token>, i: nat)
    requires i <= |toks|
    ensures Matches(toks, i, toks[i..])
    decreases |toks| - i
  {
    if i < |toks| {
      assert toks[i..][1..] == toks[i + 1..];
      MatchesSuffix(toks, i + 1);
    }
  }

  lemma IsAtWhole(toks: seq<Token>)
    ensures IsAt(toks, 0, toks)
  {
    MatchesSuffix(toks, 0);
    assert toks[0..] == toks;
  }

  /** The tokens that stand for a binary operator. */
  predicate OperatorSign(t: Token) {
    t.Plus? || t.Hyphen? || t.Asterisk? || t.Percent? || t.Backslash?
  }

  /** The token right after position `j` cannot continue a binary chain. */
  predicate EndsChain(toks: seq<Token>, j: nat) {
    j <= |toks| && (j == |toks| || !OperatorSign(toks[j]))
  }

  /** The tokens from `i` up to `k` form the operand `x`: at every minimum
      precedence, `parse_expr` from `i` continues as the loop at `k` with `x`
      as its left operand. */
  ghost predicate Operand(toks: seq<Token>, i: nat, k: nat, x: A.ExprNode) {
    i <= k <= |toks| && forall minPrec: int :: ExprAt(toks, i, minPrec) == ExprLoop(toks, k, x, minPrec)
  }

  /** The tokens from `i` up to `k` are the printed form of `e`. */
  predicate PrintedAt(toks: seq<Token>, i: nat, k: nat, e: A.ExprNode) {
    IsAt(toks, i, Print(e)) && k == i + |Print(e)|
  }

  // ---------------------------------------------------------------------
  // One step of each grammar rule

  /** Equality is transitive; stated on its own so that a proof can chain
      two parser outcomes without unfolding the rules that produced them. */
  lemma Chain<T>(x: T, y: T, z: T)
    requires x == y && y == z
    ensures x == z
  {
  }

  lemma FactorAtParen(toks: seq<Token>, i: nat, e: A.ExprNode, j: nat)
    requires i < |toks| && toks[i] == OpenParen
    requires ExprAt(toks, i + 1, 0) == Parsed(Ok(e), j)
    requires j < |toks| && toks[j] == CloseParen
    ensures FactorAt(toks, i) == Parsed(Ok(A.FactorNode.Expr(e)), j + 1)
  {
  }

  lemma FactorAtUnary(toks: seq<Token>, i: nat, u: A.UnaryOperator, e: A.ExprNode, j: nat)
    requires i < |toks| && toks[i] == UnaryToken(u)
    requires ExprAt(toks, i + 1, 0) == Parsed(Ok(e), j)
    ensures FactorAt(toks, i) == Parsed(Ok(A.FactorNode.Unary(u, e)), j)
  {
  }

  /** `parse_expr` after a factor that stands for `e` and ends at `j`. */
  lemma ExprAfterFactor(toks: seq<Token>, i: nat, minPrec: int, e: A.ExprNode, j: nat)
    requires i <= |toks|
    requires FactorAt(toks, i).result.Ok? && A.FactorToExpr(FactorAt(toks, i).result.value) == e
    requires FactorAt(toks, i).pos == j
    ensures j <= |toks|
    ensures ExprAt(toks, i, minPrec) == ExprLoop(toks, j, e, minPrec)
  {
  }

  lemma LoopStops(toks: seq<Token>, j: nat, left: A.ExprNode, minPrec: int)
    requires EndsChain(toks, j)
    ensures ExprLoop(toks, j, left, minPrec) == Parsed(Ok(left), j)
  {
    if j < |toks| {
      BinaryOperatorTokens(toks[j]);
    }
  }

  lemma LoopDeclines(toks: seq<Token>, j: nat, left: A.ExprNode, op: A.BinaryOperator, minPrec: int)
    requires j < |toks| && toks[j] == OperatorToken(op) && op.Precedence() < minPrec
    ensures ExprLoop(toks, j, left, minPrec) == Parsed(Ok(left), j)
  {
  }

  lemma LoopTakes(toks: seq<Token>, j: nat, left: A.ExprNode, op: A.BinaryOperator, minPrec: int,
                  r: A.ExprNode, k: nat)
    requires j < |toks| && toks[j] == OperatorToken(op) && op.Precedence() >= minPrec
    requires ExprAt(toks, j + 1, op.Precedence() + 1) == Parsed(Ok(r), k)
    ensures k <= |toks|
    ensures ExprLoop(toks, j, left, minPrec) == ExprLoop(toks, k, A.Binary(left, r, op), minPrec)
  {
    ExprLoopStep(toks, j, left, minPrec);
  }

  /** The loop takes one operator and its operand and then meets the end of
      the chain. */
  lemma LoopTakesLast(toks: seq<Token>, j: nat, left: A.ExprNode, op: A.BinaryOperator, minPrec: int,
                      r: A.ExprNode, k: nat)
    requires j < |toks| && toks[j] == OperatorToken(op) && op.Precedence() >= minPrec
    requires ExprAt(toks, j + 1, op.Precedence() + 1) == Parsed(Ok(r), k)
    requires EndsChain(toks, k)
    ensures ExprLoop(toks, j, left, minPrec) == Parsed(Ok(A.Binary(left, r, op)), k)
  {
    LoopTakes(toks, j, left, op, minPrec, r, k);
    LoopStops(toks, k, A.Binary(left, r, op), minPrec);
  }

  lemma ParenthesisedAt(toks: seq<Token>, i: nat, inner: seq<Token>)
    requires IsAt(toks, i, Parenthesised(inner))
    ensures toks[i] == OpenParen && IsAt(toks, i + 1, inner) && toks[i + 1 + |inner|] == CloseParen
    ensures |Parenthesised(inner)| == |inner| + 2
  {
    IsAtSplit(toks, i, [OpenParen] + inner, [CloseParen]);
    IsAtSplit(toks, i, [OpenParen], inner);
    TokenAt(toks, i, OpenParen);
    TokenAt(toks, i + 1 + |inner|, CloseParen);
  }

  lemma HeadAt(toks: seq<Token>, i: nat, t: Token, rest: seq<Token>)
    requires IsAt(toks, i, [t] + rest)
    ensures toks[i] == t && IsAt(toks, i + 1, rest)
  {
    IsAtSplit(toks, i, [t], rest);
    TokenAt(toks, i, t);
  }

  lemma InfixAt(toks: seq<Token>, i: nat, a: seq<Token>, t: Token, b: seq<Token>)
    requires IsAt(toks, i, a + [t] + b)
    ensures IsAt(toks, i, a) && i + |a| < |toks| && toks[i + |a|] == t && IsAt(toks, i + |a| + 1, b)
  {
    IsAtSplit(toks, i, a + [t], b);
    IsAtSplit(toks, i, a, [t]);
    TokenAt(toks, i + |a|, t);
  }

  /** Where the pieces of a printed unary application lie. */
  lemma UnaryAt(toks: seq<Token>, i: nat, u: A.UnaryOperator, x: A.ExprNode)
    requires IsAt(toks, i, Print(A.ExprNode.Unary(u, x)))
    ensures toks[i] == OpenParen && toks[i + 1] == UnaryToken(u)
    ensures IsAt(toks, i + 2, Print(x))
    ensures toks[i + 2 + |Print(x)|] == CloseParen
    ensures |Print(A.ExprNode.Unary(u, x))| == |Print(x)| + 3
  {
    ParenthesisedAt(toks, i, [UnaryToken(u)] + Print(x));
    HeadAt(toks, i + 1, UnaryToken(u), Print(x));
  }

  /** Where the pieces of a printed binary application lie. */
  lemma BinaryAt(toks: seq<Token>, i: nat, l: A.ExprNode, op: A.BinaryOperator, r: A.ExprNode)
    requires IsAt(toks, i, Print(A.Binary(l, r, op)))
    ensures toks[i] == OpenParen
    ensures PrintedAt(toks, i + 1, i + 1 + |Print(l)|, l)
    ensures i + 1 + |Print(l)| < |toks| && toks[i + 1 + |Print(l)|] == OperatorToken(op)
    ensures PrintedAt(toks, i + 1 + |Print(l)| + 1, i + 1 + |Print(l)| + 1 + |Print(r)|, r)
    ensures toks[i + 1 + |Print(l)| + 1 + |Print(r)|] == CloseParen
    ensures |Print(A.Binary(l, r, op))| == |Print(l)| + |Print(r)| + 3
  {
    ParenthesisedAt(toks, i, Print(l) + [OperatorToken(op)] + Print(r));
    InfixAt(toks, i + 1, Print(l), OperatorToken(op), Print(r));
  }

  // ---------------------------------------------------------------------
  // Round trip

  /** A printed expression is one factor, and that factor stands for the
      expression. */
  lemma {:induction false} FactorOfPrinted(e: A.ExprNode, toks: seq<Token>, i: nat)
    requires IsAt(toks, i, Print(e))
    ensures var r := FactorAt(toks, i);
            && r.result.Ok?
            && A.FactorToExpr(r.result.value) == e
            && r.pos == i + |Print(e)|
    decreases e, 2
  {
    match e
    case Integer(n) =>
      TokenAt(toks, i, Integer(n));
    case Unary(u, x) =>
      UnaryOfPrinted(u, x, toks, i);
    case Binary(l, r, op) =>
      BinaryOfPrinted(l, op, r, toks, i);
  }

  /** The binary case of `FactorOfPrinted`: `( l op r )` is a parenthesised
      factor holding the binary node. */
  lemma {:induction false} BinaryOfPrinted(l: A.ExprNode, op: A.BinaryOperator, r: A.ExprNode, toks: seq<Token>, i: nat)
    requires IsAt(toks, i, Print(A.ExprNode.Binary(l, r, op)))
    ensures FactorAt(toks, i)
            == Parsed(Ok(A.FactorNode.Expr(A.ExprNode.Binary(l, r, op))), i + |Print(A.ExprNode.Binary(l, r, op))|)
    decreases A.ExprNode.Binary(l, r, op), 1
  {
    var e := A.ExprNode.Binary(l, r, op);
    BinaryAt(toks, i, l, op, r);
    ChainOfTwo(l, op, r, toks, i + 1, i + 1 + |Print(l)|, i + 1 + |Print(l)| + 1 + |Print(r)|, 0);
    FactorAtParen(toks, i, e, i + 1 + |Print(l)| + 1 + |Print(r)|);
  }

  /** The unary case of `FactorOfPrinted`: `( u x )` is a parenthesised
      factor holding the unary application. */
  lemma {:induction false} UnaryOfPrinted(u: A.UnaryOperator, x: A.ExprNode, toks: seq<Token>, i: nat)
    requires IsAt(toks, i, Print(A.ExprNode.Unary(u, x)))
    ensures FactorAt(toks, i)
            == Parsed(Ok(A.FactorNode.Expr(A.ExprNode.Unary(u, x))), i + |Print(A.ExprNode.Unary(u, x))|)
    decreases A.ExprNode.Unary(u, x), 0
  {
    var e := A.ExprNode.Unary(u, x);
    UnaryAt(toks, i, u, x);
    var j: nat := i + 2 + |Print(x)|;
    ExprOfPrinted(x, toks, i + 2, 0);
    FactorAtUnary(toks, i + 1, u, x, j);
    ExprAfterFactor(toks, i + 1, 0, e, j);
    LoopStops(toks, j, e, 0);
    Chain(ExprAt(toks, i + 1, 0), ExprLoop(toks, j, e, 0), Parsed(Ok(e), j));
    FactorAtParen(toks, i, e, j);
  }

  /** `parse_expr` over a printed expression: the expression is the left
      operand of the loop that follows it, at every minimum precedence. */
  lemma {:induction false} ExprHead(e: A.ExprNode, toks: seq<Token>, i: nat, k: nat)
    requires PrintedAt(toks, i, k, e)
    ensures Operand(toks, i, k, e)
    decreases e, 3
  {
    FactorOfPrinted(e, toks, i);
    forall minPrec: int
      ensures ExprAt(toks, i, minPrec) == ExprLoop(toks, k, e, minPrec)
    {
      ExprAfterFactor(toks, i, minPrec, e, k);
    }
  }

  /** A printed expression followed by anything that does not continue a
      binary chain parses back to exactly that expression, at every minimum
      precedence. */
  lemma {:induction false} ExprOfPrinted(e: A.ExprNode, toks: seq<Token>, i: nat, minPrec: int)
    requires IsAt(toks, i, Print(e))
    requires EndsChain(toks, i + |Print(e)|)
    ensures ExprAt(toks, i, minPrec) == Parsed(Ok(e), i + |Print(e)|)
    decreases e, 4
  {
    ExprHead(e, toks, i, i + |Print(e)|);
    LoopStops(toks, i + |Print(e)|, e, minPrec);
  }

  /** `l op r` over printed operands, followed by anything that does not
      continue the chain, is the one application of `op`, for every
      minimum precedence that admits `op`. */
  lemma {:induction false} ChainOfTwo(l: A.ExprNode, op: A.BinaryOperator, r: A.ExprNode,
                                      toks: seq<Token>, i: nat, j: nat, k: nat, minPrec: int)
    requires PrintedAt(toks, i, j, l) && j < |toks| && toks[j] == OperatorToken(op)
    requires PrintedAt(toks, j + 1, k, r) && EndsChain(toks, k)
    requires minPrec <= op.Precedence()
    ensures ExprAt(toks, i, minPrec) == Parsed(Ok(A.Binary(l, r, op)), k)
    decreases A.Binary(l, r, op), 0
  {
    ExprHead(l, toks, i, j);
    ExprHead(r, toks, j + 1, k);
    OneApplication(toks, i, j, k, l, op, r, minPrec);
  }

  /** The loop declines an operator below its minimum precedence. */
  lemma TakeNone(toks: seq<Token>, i: nat, j: nat, l: A.ExprNode, op: A.BinaryOperator, minPrec: int)
    requires i <= |toks|
    requires j < |toks| && toks[j] == OperatorToken(op) && op.Precedence() < minPrec
    requires ExprAt(toks, i, minPrec) == ExprLoop(toks, j, l, minPrec)
    ensures ExprAt(toks, i, minPrec) == Parsed(Ok(l), j)
  {
    LoopDeclines(toks, j, l, op, minPrec);
    Chain(ExprAt(toks, i, minPrec), ExprLoop(toks, j, l, minPrec), Parsed(Ok(l), j));
  }

  /** The loop takes `op` and the right operand ending at `k`, and goes on
      from there. */
  lemma TakeNext(toks: seq<Token>, i: nat, j: nat, k: nat, l: A.ExprNode, op: A.BinaryOperator,
                 r: A.ExprNode, minPrec: int)
    requires i <= |toks|
    requires j < |toks| && toks[j] == OperatorToken(op) && minPrec <= op.Precedence()
    requires ExprAt(toks, i, minPrec) == ExprLoop(toks, j, l, minPrec)
    requires ExprAt(toks, j + 1, op.Precedence() + 1) == Parsed(Ok(r), k)
    ensures k <= |toks|
    ensures ExprAt(toks, i, minPrec) == ExprLoop(toks, k, A.Binary(l, r, op), minPrec)
  {
    LoopTakes(toks, j, l, op, minPrec, r, k);
    Chain(ExprAt(toks, i, minPrec), ExprLoop(toks, j, l, minPrec), ExprLoop(toks, k, A.Binary(l, r, op), minPrec));
  }

  /** A left operand ending at `j`, then `op` and a right operand ending at
      `k` where the chain ends, make one application of `op`. */
  lemma TakeLast(toks: seq<Token>, i: nat, j: nat, k: nat, l: A.ExprNode, op: A.BinaryOperator,
                 r: A.ExprNode, minPrec: int)
    requires i <= |toks|
    requires j < |toks| && toks[j] == OperatorToken(op) && minPrec <= op.Precedence()
    requires ExprAt(toks, i, minPrec) == ExprLoop(toks, j, l, minPrec)
    requires ExprAt(toks, j + 1, op.Precedence() + 1) == Parsed(Ok(r), k)
    requires EndsChain(toks, k)
    ensures ExprAt(toks, i, minPrec) == Parsed(Ok(A.Binary(l, r, op)), k)
  {
    LoopTakesLast(toks, j, l, op, minPrec, r, k);
    Chain(ExprAt(toks, i, minPrec), ExprLoop(toks, j, l, minPrec), Parsed(Ok(A.Binary(l, r, op)), k));
  }

  /** Operands `l` and `r` around `op`, where the chain ends: one
      application of `op`. */
  lemma OneApplication(toks: seq<Token>, i: nat, j: nat, k: nat, l: A.ExprNode, op: A.BinaryOperator,
                       r: A.ExprNode, minPrec: int)
    requires Operand(toks, i, j, l)
    requires j < |toks| && toks[j] == OperatorToken(op) && minPrec <= op.Precedence()
    requires Operand(toks, j + 1, k, r) && EndsChain(toks, k)
    ensures ExprAt(toks, i, minPrec) == Parsed(Ok(A.Binary(l, r, op)), k)
  {
    var p := op.Precedence() + 1;
    LoopStops(toks, k, r, p);
    Chain(ExprAt(toks, j + 1, p), ExprLoop(toks, k, r, p), Parsed(Ok(r), k));
    TakeLast(toks, i, j, k, l, op, r, minPrec);
  }

  /** Operands `a`, `b`, `c` lie from `i` to `k`, separated by `op1` at
      `j1` and `op2` at `j2`. */
  ghost predicate Triple(toks: seq<Token>, i: nat, j1: nat, j2: nat, k: nat,
                         a: A.ExprNode, op1: A.BinaryOperator, b: A.ExprNode, op2: A.BinaryOperator,
                         c: A.ExprNode) {
    && Operand(toks, i, j1, a) && j1 < |toks| && toks[j1] == OperatorToken(op1)
    && Operand(toks, j1 + 1, j2, b) && j2 < |toks| && toks[j2] == OperatorToken(op2)
    && Operand(toks, j2 + 1, k, c)
  }

  /** Operands `a`, `b`, `c` separated by `op1` and `op2`, where op1 binds
      at least as tightly as op2: op1 takes the middle operand. */
  lemma LeftTakesMiddle(toks: seq<Token>, i: nat, j1: nat, j2: nat, k: nat,
                        a: A.ExprNode, op1: A.BinaryOperator, b: A.ExprNode, op2: A.BinaryOperator,
                        c: A.ExprNode, minPrec: int)
    requires Triple(toks, i, j1, j2, k, a, op1, b, op2, c) && EndsChain(toks, k)
    requires minPrec <= op2.Precedence() <= op1.Precedence()
    ensures ExprAt(toks, i, minPrec) == Parsed(Ok(A.Binary(A.Binary(a, b, op1), c, op2)), k)
  {
    TakeNone(toks, j1 + 1, j2, b, op2, op1.Precedence() + 1);
    TakeNext(toks, i, j1, j2, a, op1, b, minPrec);
    var p := op2.Precedence() + 1;
    LoopStops(toks, k, c, p);
    Chain(ExprAt(toks, j2 + 1, p), ExprLoop(toks, k, c, p), Parsed(Ok(c), k));
    TakeLast(toks, i, j2, k, A.Binary(a, b, op1), op2, c, minPrec);
  }

  /** Operands `a`, `b`, `c` separated by `op1` and `op2`, where op2 binds
      strictly tighter: op2 takes the middle operand. */
  lemma RightTakesMiddle(toks: seq<Token>, i: nat, j1: nat, j2: nat, k: nat,
                         a: A.ExprNode, op1: A.BinaryOperator, b: A.ExprNode, op2: A.BinaryOperator,
                         c: A.ExprNode, minPrec: int)
    requires Triple(toks, i, j1, j2, k, a, op1, b, op2, c) && EndsChain(toks, k)
    requires minPrec <= op1.Precedence() < op2.Precedence()
    ensures ExprAt(toks, i, minPrec) == Parsed(Ok(A.Binary(a, A.Binary(b, c, op2), op1)), k)
  {
    OneApplication(toks, j1 + 1, j2, k, b, op2, c, op1.Precedence() + 1);
    TakeLast(toks, i, j1, k, a, op1, A.Binary(b, c, op2), minPrec);
  }

  /** Parsing inverts printing. */
  lemma RoundTrip(e: A.ExprNode)
    ensures ExprAt(Print(e), 0, 0) == Parsed(Ok(e), |Print(e)|)
  {
    IsAtWhole(Print(e));
    ExprOfPrinted(e, Print(e), 0, 0);
  }

  // ---------------------------------------------------------------------
  // Precedence and associativity

  function Num(n: A.I32): A.ExprNode {
    A.ExprNode.Integer(n)
  }

  /** A parenthesised sum times a factor: the group is the left operand of
      the product, although `*` binds tighter than `+`. */
  lemma ParenthesisedGroup(a: A.I32, b: A.I32, c: A.I32)
    ensures ExprAt([OpenParen, Integer(a), Plus, Integer(b), CloseParen, Asterisk, Integer(c)], 0, 0)
            == Parsed(Ok(A.Binary(A.Binary(Num(a), Num(b), A.Add), Num(c), A.Multiply)), 7)
  {
    var l := A.Binary(Num(a), Num(b), A.Add);
    var toks := [OpenParen, Integer(a), Plus, Integer(b), CloseParen, Asterisk, Integer(c)];
    assert Print(l) + [OperatorToken(A.Multiply)] + Print(Num(c)) == toks;
    IsAtWhole(toks);
    InfixAt(toks, 0, Print(l), OperatorToken(A.Multiply), Print(Num(c)));
    ChainOfTwo(l, A.Multiply, Num(c), toks, 0, 5, 7, 0);
  }

  /** Printed operands separated by two operators are a `Triple`. */
  lemma ThreeOperands(toks: seq<Token>, j1: nat, j2: nat, k: nat,
                      a: A.ExprNode, op1: A.BinaryOperator, b: A.ExprNode, op2: A.BinaryOperator,
                      c: A.ExprNode)
    requires PrintedAt(toks, 0, j1, a) && j1 < |toks| && toks[j1] == OperatorToken(op1)
    requires PrintedAt(toks, j1 + 1, j2, b) && j2 < |toks| && toks[j2] == OperatorToken(op2)
    requires PrintedAt(toks, j2 + 1, k, c)
    ensures Triple(toks, 0, j1, j2, k, a, op1, b, op2, c)
  {
    ExprHead(a, toks, 0, j1);
    ExprHead(b, toks, j1 + 1, j2);
    ExprHead(c, toks, j2 + 1, k);
  }

  /** Three operands and two operators: the first operator takes the middle
      operand when it binds at least as tightly as the second (so operators
      of one level associate to the left), and the second takes it when it
      binds strictly tighter. */
  lemma ChainOfThree(toks: seq<Token>, i: nat, j1: nat, j2: nat, k: nat,
                     a: A.ExprNode, op1: A.BinaryOperator, b: A.ExprNode, op2: A.BinaryOperator,
                     c: A.ExprNode, minPrec: int)
    requires Triple(toks, i, j1, j2, k, a, op1, b, op2, c) && EndsChain(toks, k)
    requires minPrec <= op1.Precedence() && minPrec <= op2.Precedence()
    ensures var tree := if op1.Precedence() >= op2.Precedence() then A.Binary(A.Binary(a, b, op1), c, op2)
                        else A.Binary(a, A.Binary(b, c, op2), op1);
            ExprAt(toks, i, minPrec) == Parsed(Ok(tree), k)
  {
    if op1.Precedence() >= op2.Precedence() {
      LeftTakesMiddle(toks, i, j1, j2, k, a, op1, b, op2, c, minPrec);
    } else {
      RightTakesMiddle(toks, i, j1, j2, k, a, op1, b, op2, c, minPrec);
    }
  }

  lemma NumberAt(toks: seq<Token>, i: nat, n: A.I32)
    requires i < |toks| && toks[i] == Integer(n)
    ensures PrintedAt(toks, i, i + 1, Num(n))
  {
    assert Print(Num(n)) == [Integer(n)];
    assert Matches(toks, i + 1, []);
  }

  /** `x op1 y op2 z` over integer literals. */
  lemma NumbersChain(x: A.I32, op1: A.BinaryOperator, y: A.I32, op2: A.BinaryOperator, z: A.I32)
    ensures var toks := [Integer(x), OperatorToken(op1), Integer(y), OperatorToken(op2), Integer(z)];
            var tree := if op1.Precedence() >= op2.Precedence() then A.Binary(A.Binary(Num(x), Num(y), op1), Num(z), op2)
                        else A.Binary(Num(x), A.Binary(Num(y), Num(z), op2), op1);
            ExprAt(toks, 0, 0) == Parsed(Ok(tree), 5)
  {
    var toks := [Integer(x), OperatorToken(op1), Integer(y), OperatorToken(op2), Integer(z)];
    NumberAt(toks, 0, x);
    NumberAt(toks, 2, y);
    NumberAt(toks, 4, z);
    ThreeOperands(toks, 1, 3, 5, Num(x), op1, Num(y), op2, Num(z));
    ChainOfThree(toks, 0, 1, 3, 5, Num(x), op1, Num(y), op2, Num(z), 0);
  }

  /** `1 + 2 * 3` is `1 + (2 * 3)`, `2 * 3 + 1` is `(2 * 3) + 1` and
      `1 - 2 - 3` is `(1 - 2) - 3`. */
  lemma PrecedenceExamples()
    ensures ExprAt([Integer(1), Plus, Integer(2), Asterisk, Integer(3)], 0, 0)
            == Parsed(Ok(A.Binary(Num(1), A.Binary(Num(2), Num(3), A.Multiply), A.Add)), 5)
    ensures ExprAt([Integer(2), Asterisk, Integer(3), Plus, Integer(1)], 0, 0)
            == Parsed(Ok(A.Binary(A.Binary(Num(2), Num(3), A.Multiply), Num(1), A.Add)), 5)
    ensures ExprAt([Integer(1), Hyphen, Integer(2), Hyphen, Integer(3)], 0, 0)
            == Parsed(Ok(A.Binary(A.Binary(Num(1), Num(2), A.Subtract), Num(3), A.Subtract)), 5)
  {
    NumbersChain(1, A.Add, 2, A.Multiply, 3);
    NumbersChain(2, A.Multiply, 3, A.Add, 1);
    NumbersChain(1, A.Subtract, 2, A.Subtract, 3);
  }

  // ---------------------------------------------------------------------
  // Factors

  /** A unary operator applies to the whole `parse_expr(0)` that follows
      it, binary chain included. */
  lemma UnaryTakesExpr(toks: seq<Token>, i: nat, u: A.UnaryOperator, x: A.ExprNode, k: nat, minPrec: int)
    requires i < |toks| && toks[i] == UnaryToken(u)
    requires ExprAt(toks, i + 1, 0) == Parsed(Ok(x), k) && EndsChain(toks, k)
    ensures ExprAt(toks, i, minPrec) == Parsed(Ok(A.ExprNode.Unary(u, x)), k)
  {
    var e := A.ExprNode.Unary(u, x);
    FactorAtUnary(toks, i, u, x, k);
    ExprAfterFactor(toks, i, minPrec, e, k);
    LoopStops(toks, k, e, minPrec);
    Chain(ExprAt(toks, i, minPrec), ExprLoop(toks, k, e, minPrec), Parsed(Ok(e), k));
  }

  /** `-1 + 2` is the negation of the sum. */
  lemma NegatedSum()
    ensures ExprAt([Hyphen, Integer(1), Plus, Integer(2)], 0, 0)
            == Parsed(Ok(A.ExprNode.Unary(A.Negate, A.Binary(Num(1), Num(2), A.Add))), 4)
  {
    var toks := [Hyphen, Integer(1), Plus, Integer(2)];
    NumberAt(toks, 1, 1);
    NumberAt(toks, 3, 2);
    ExprHead(Num(1), toks, 1, 2);
    ExprHead(Num(2), toks, 3, 4);
    OneApplication(toks, 1, 2, 4, Num(1), A.Add, Num(2), 0);
    UnaryTakesExpr(toks, 0, A.Negate, A.Binary(Num(1), Num(2), A.Add), 4, 0);
  }

  /** A token that starts no operand stops the factor where it stands. */
  lemma FactorRejects(t: Token, rest: seq<Token>)
    requires !t.Integer? && t != Hyphen && t != Tilde && t != OpenParen
    ensures FactorAt([t] + rest, 0) == Parsed(Err(ExpectedExpression(t)), 0)
    ensures ExprAt([t] + rest, 0, 0) == Parsed(Err(ExpectedExpression(t)), 0)
  {
    assert ([t] + rest)[0] == t;
  }

  /** An opening parenthesis whose expression is not followed by `)` is an
      error at the token that stands in its place, or `NoToken` at the end. */
  lemma MissingCloseParen(toks: seq<Token>, e: A.ExprNode, j: nat)
    requires 0 < |toks| && toks[0] == OpenParen
    requires ExprAt(toks, 1, 0) == Parsed(Ok(e), j)
    requires j == |toks| || toks[j] != CloseParen
    ensures FactorAt(toks, 0) == Parsed(Err(if j == |toks| then NoToken else Expected(CloseParen, toks[j])), j)
  {
  }

  // ---------------------------------------------------------------------
  // Function definitions

  /** The fixed frame `int NAME ( void ) { return` before the expression. */
  function Header(name: seq<char>): seq<Token> {
    [Int, Identifier(name), OpenParen, Void, CloseParen, OpenBrace, Return]
  }

  predicate HeaderTokens(toks: seq<Token>, name: seq<char>) {
    && 7 <= |toks|
    && toks[0] == Int && toks[1] == Identifier(name) && toks[2] == OpenParen && toks[3] == Void
    && toks[4] == CloseParen && toks[5] == OpenBrace && toks[6] == Return
  }

  lemma ReturnOf(toks: seq<Token>, i: nat, e: A.ExprNode, j: nat)
    requires i < |toks| && toks[i] == Return
    requires ExprAt(toks, i + 1, 0) == Parsed(Ok(e), j)
    ensures ReturnStatementAt(toks, i) == Parsed(Ok(A.Return(e)), j)
  {
  }

  /** The driver after a header: the body's outcome decides, and on success
      `;` and `}` must follow it. */
  lemma FrameOf(toks: seq<Token>, name: seq<char>)
    requires HeaderTokens(toks, name)
    ensures var body := ReturnStatementAt(toks, 6);
            && (body.result.Err? ==> FunctionDefinitionAt(toks, 0) == Parsed(Err(body.result.error), body.pos))
            && (body.result.Ok? && body.pos + 1 < |toks| && toks[body.pos] == Semicolon && toks[body.pos + 1] == CloseBrace
                ==> FunctionDefinitionAt(toks, 0)
                    == Parsed(Ok(A.FunctionDefinition(name, body.result.value)), body.pos + 2))
  {
  }

  /** A header, an expression `e` from position 7 to `j`, then `;` and
      `}`: the definition of NAME returning `e`. */
  lemma DefinitionAt(toks: seq<Token>, name: seq<char>, e: A.ExprNode, j: nat)
    requires HeaderTokens(toks, name)
    requires ExprAt(toks, 7, 0) == Parsed(Ok(e), j)
    requires j + 1 < |toks| && toks[j] == Semicolon && toks[j + 1] == CloseBrace
    ensures FunctionDefinitionAt(toks, 0) == Parsed(Ok(A.FunctionDefinition(name, A.Return(e))), j + 2)
  {
    ReturnOf(toks, 6, e, j);
    FrameOf(toks, name);
  }

  /** Any tokens after a header leave the header in place. */
  lemma HeaderFront(name: seq<char>, rest: seq<Token>)
    ensures HeaderTokens(Header(name) + rest, name)
  {
  }

  /** Where the pieces of a definition with the body tokens `body` lie. */
  lemma DefinitionLayout(name: seq<char>, body: seq<Token>, trailing: seq<Token>)
    ensures var toks := Header(name) + (body + [Semicolon, CloseBrace] + trailing);
            && IsAt(toks, 7, body)
            && 7 + |body| + 1 < |toks|
            && toks[7 + |body|] == Semicolon && toks[7 + |body| + 1] == CloseBrace
  {
    var toks := Header(name) + (body + [Semicolon, CloseBrace] + trailing);
    forall k | 0 <= k < |body|
      ensures toks[7 + k] == body[k]
    {
    }
    MatchesAll(toks, 7, body);
  }

  /** `int NAME(void) { return E; }` defines NAME returning E, and the
      tokens after the closing brace are not looked at. */
  lemma FunctionDefinitionOfPrinted(name: seq<char>, e: A.ExprNode, trailing: seq<Token>)
    ensures var toks := Header(name) + (Print(e) + [Semicolon, CloseBrace] + trailing);
            FunctionDefinitionAt(toks, 0)
            == Parsed(Ok(A.FunctionDefinition(name, A.Return(e))), |toks| - |trailing|)
  {
    var rest := Print(e) + [Semicolon, CloseBrace] + trailing;
    var toks := Header(name) + rest;
    HeaderFront(name, rest);
    DefinitionLayout(name, Print(e), trailing);
    ExprOfPrinted(e, toks, 7, 0);
    DefinitionAt(toks, name, e, 7 + |Print(e)|);
  }

  /** `int main(void) { return 2; }` defines `main` returning 2. */
  lemma MainReturnsTwo()
    ensures FunctionDefinitionAt(Header("main") + [Integer(2), Semicolon, CloseBrace], 0)
            == Parsed(Ok(A.FunctionDefinition("main", A.Return(Num(2)))), 10)
  {
    var none: seq<Token> := [];
    FunctionDefinitionOfPrinted("main", Num(2), none);
    assert Print(Num(2)) + [Semicolon, CloseBrace] + none == [Integer(2), Semicolon, CloseBrace];
  }

  /** Conversely, a definition parses only from the fixed frame: the
      header, the returned expression from position 7, then `;` and `}`
      ending where the parse ends. */
  lemma DefinitionShape(toks: seq<Token>)
    requires FunctionDefinitionAt(toks, 0).result.Ok?
    ensures var d := FunctionDefinitionAt(toks, 0).result.value;
            var k := FunctionDefinitionAt(toks, 0).pos;
            && HeaderTokens(toks, d.identifier)
            && 9 <= k && toks[k - 2] == Semicolon && toks[k - 1] == CloseBrace
            && ExprAt(toks, 7, 0) == Parsed(Ok(d.body.expr), k - 2)
  {
    DefinitionHeader(toks);
    DefinitionBody(toks);
  }

  lemma DefinitionHeader(toks: seq<Token>)
    requires FunctionDefinitionAt(toks, 0).result.Ok?
    ensures HeaderTokens(toks, FunctionDefinitionAt(toks, 0).result.value.identifier)
  {
    assert ExpectAt(toks, 0, Int).pos == 1 && IdentAt(toks, 1).pos == 2;
  }

  lemma DefinitionBody(toks: seq<Token>)
    requires FunctionDefinitionAt(toks, 0).result.Ok?
    ensures var r := FunctionDefinitionAt(toks, 0);
            && 9 <= r.pos && toks[r.pos - 2] == Semicolon && toks[r.pos - 1] == CloseBrace
            && ReturnStatementAt(toks, 6) == Parsed(Ok(r.result.value.body), r.pos - 2)
  {
    DefinitionHeader(toks);
    var body := ReturnStatementAt(toks, 6);
    assert body.result.Ok?;
    assert ExpectAt(toks, body.pos, Semicolon).pos == body.pos + 1;
  }

  /** Without `{` after the parameter list the driver stops at that token. */
  lemma MissingOpenBrace(name: seq<char>, t: Token, rest: seq<Token>)
    requires t != OpenBrace
    ensures FunctionDefinitionAt([Int, Identifier(name), OpenParen, Void, CloseParen, t] + rest, 0)
            == Parsed(Err(Expected(OpenBrace, t)), 5)
  {
    var toks := [Int, Identifier(name), OpenParen, Void, CloseParen, t] + rest;
    assert toks[0] == Int && toks[1] == Identifier(name) && toks[2] == OpenParen;
    assert toks[3] == Void && toks[4] == CloseParen && toks[5] == t;
  }

  /** `return;` has no expression: the factor fails at the semicolon. */
  lemma ReturnWithoutValue(name: seq<char>, rest: seq<Token>)
    ensures FunctionDefinitionAt(Header(name) + [Semicolon] + rest, 0)
            == Parsed(Err(ExpectedExpression(Semicolon)), 7)
  {
    var toks := Header(name) + [Semicolon] + rest;
    assert toks[0] == Int && toks[1] == Identifier(name) && toks[2] == OpenParen;
    assert toks[3] == Void && toks[4] == CloseParen && toks[5] == OpenBrace && toks[6] == Return;
    assert toks[7] == Semicolon;
    assert FactorAt(toks, 7) == Parsed(Err(ExpectedExpression(Semicolon)), 7);
    assert ExprAt(toks, 7, 0) == Parsed(Err(ExpectedExpression(Semicolon)), 7);
    assert ReturnStatementAt(toks, 6) == Parsed(Err(ExpectedExpression(Semicolon)), 7);
    FrameOf(toks, name);
  }
}
