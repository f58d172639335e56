/** The lexer of src/lexer.rs: a cursor over the source text that turns it
    into a sequence of tokens.

    The pure half of the module states what lexing means: `RunEnd` is the
    maximal run of one character class, `ScanToken` the token that starts at
    an index, and `Lex` the whole token sequence (or the first error). The
    class `Lexer` is the source's cursor-based scanner; each of its methods
    is proved against these functions. */
module Lexing {
  import opened Outcomes
  import Ast

  datatype Token =
    | Identifier(name: seq<char>)
    | Integer(value: Ast.I32)
    | Void
    | Return
    | Semicolon
    | OpenParen
    | CloseParen
    | OpenBrace
    | CloseBrace
    | Int
    | EOF
    | Tilde
    | Hyphen
    | Decrement
    | Plus
    | Asterisk
    | Backslash
    | Percent
    | Exclamation
    | Ampersand
    | AmpersandAmpersand
    | Bar
    | BarBar
    | EqualEqual
    | Equal
    | ExclamationEqual
    | LessThan
    | LessThanEqual
    | GreaterThan
    | GreaterThanEqual

  /** Why lexing stopped. The last two are the source's panics: an
      `unwrap` on a digit run that does not fit an `i32`, and an `unwrap` on
      a leading character that starts no token. */
  datatype LexError =
    | OutOfBounds       // the cursor is past the end of the input
    | NotNumeric        // a number was collected from a non-digit
    | NotAlphanumeric   // a word was collected from a character outside [A-Za-z0-9_]
    | NumberOutOfRange  // the digit run is larger than the largest i32

  // ---------------------------------------------------------------------
  // Character classes (ASCII)

  predicate IsDigit(c: char) {
    '0' <= c <= '9'
  }

  predicate IsWordChar(c: char) {
    'a' <= c <= 'z' || 'A' <= c <= 'Z' || IsDigit(c) || c == '_'
  }

  predicate IsWhitespace(c: char) {
    c == ' ' || c == '\t' || c == '\n' || c == '\r' || c == '\U{000B}' || c == '\U{000C}'
  }

  datatype CharClass = Digits | Word | Blank

  predicate InClass(c: char, k: CharClass) {
    match k
    case Digits => IsDigit(c)
    case Word => IsWordChar(c)
    case Blank => IsWhitespace(c)
  }

  /** The index just past the maximal run of class `k` that starts at `i`. */
  function RunEnd(s: seq<char>, i: nat, k: CharClass): (j: nat)
    requires i <= |s|
    ensures i <= j <= |s|
    ensures forall m | i <= m < j :: InClass(s[m], k)
    ensures j == |s| || !InClass(s[j], k)
    decreases |s| - i
  {
    if i == |s| || !InClass(s[i], k) then i else RunEnd(s, i + 1, k)
  }

  /** A run that is all in the class and stops at a character outside it (or
      at the end) is the maximal run. */
  lemma RunEndAt(s: seq<char>, i: nat, j: nat, k: CharClass)
    requires i <= j <= |s|
    requires forall m | i <= m < j :: InClass(s[m], k)
    requires j == |s| || !InClass(s[j], k)
    ensures RunEnd(s, i, k) == j
  {
  }

  // ---------------------------------------------------------------------
  // Decimal numerals

  predicate AllDigits(ds: seq<char>) {
    forall m | 0 <= m < |ds| :: IsDigit(ds[m])
  }

  function DigitValue(c: char): nat
    requires IsDigit(c)
  {
    c as int - '0' as int
  }

  function Pow10(n: nat): (p: nat)
    ensures 1 <= p
  {
    if n == 0 then 1 else 10 * Pow10(n - 1)
  }

  /** The value `str::parse` gives a string of decimal digits. */
  function DecimalValue(ds: seq<char>): nat
    requires AllDigits(ds)
  {
    if ds == [] then 0 else 10 * DecimalValue(ds[..|ds| - 1]) + DigitValue(ds[|ds| - 1])
  }

  /** A run of `n` digits is worth less than ten to the `n`. */
  lemma {:induction false} DecimalValueBound(ds: seq<char>)
    requires AllDigits(ds)
    ensures DecimalValue(ds) < Pow10(|ds|)
  {
    if ds != [] {
      DecimalValueBound(ds[..|ds| - 1]);
    }
  }

  /** So a non-empty run of at most nine digits always fits an `i32`: only
      a longer run can make `str::parse` fail. */
  lemma {:induction false} NineDigitsFit(ds: seq<char>)
    requires 0 < |ds| <= 9 && AllDigits(ds)
    ensures ParseI32(ds).Ok?
  {
    DecimalValueBound(ds);
    Pow10Grows(|ds|, 9);
    assert Pow10(9) == 1_000_000_000;
  }

  lemma {:induction false} Pow10Grows(m: nat, n: nat)
    requires m <= n
    ensures Pow10(m) <= Pow10(n)
    decreases n
  {
    if m < n {
      Pow10Grows(m, n - 1);
    }
  }

  /** The shortest decimal numeral of `n`: the inverse of `DecimalValue`. */
  function DecimalDigits(n: nat): (ds: seq<char>)
    ensures |ds| > 0 && AllDigits(ds)
  {
    var last := ('0' as int + n % 10) as char;
    if n < 10 then [last] else DecimalDigits(n / 10) + [last]
  }

  lemma {:induction false} DecimalRoundTrip(n: nat)
    ensures DecimalValue(DecimalDigits(n)) == n
  {
    var ds := DecimalDigits(n);
    if n >= 10 {
      DecimalRoundTrip(n / 10);
      assert ds[..|ds| - 1] == DecimalDigits(n / 10);
    }
  }

  /** `parse::<i32>()` of a non-empty digit run: the value, or a failure
      when it does not fit (where the source's `unwrap` panics). */
  function ParseI32(ds: seq<char>): (r: Result<Ast.I32, LexError>)
    requires |ds| > 0 && AllDigits(ds)
    ensures r.Ok? <==> DecimalValue(ds) <= Ast.MaxI32
    ensures r.Ok? ==> r.value == DecimalValue(ds)
    ensures r.Err? ==> r.error == NumberOutOfRange
  {
    var v := DecimalValue(ds);
    if v <= Ast.MaxI32 then Ok(v) else Err(NumberOutOfRange)
  }

  // ---------------------------------------------------------------------
  // Keywords and tokens

  /** The keyword table of `tokenize`. */
  function KeywordOrIdentifier(w: seq<char>): (t: Token)
    ensures w == "int" <==> t == Int
    ensures w == "return" <==> t == Return
    ensures w == "void" <==> t == Void
    ensures t.Identifier? <==> w != "int" && w != "return" && w != "void"
    ensures t.Identifier? ==> t.name == w
  {
    match w
    case "int" => Int
    case "return" => Return
    case "void" => Void
    case _ => Identifier(w)
  }

  /** The one-character lookahead of `if_next_tok`, for the operator whose
      first character is at `i`: the two-character token and the index after
      it when the next character is `x`, otherwise the one-character token. */
  function Lookahead(s: seq<char>, i: nat, x: char, ifTrue: Token, ifFalse: Token): (r: (Token, nat))
    requires i < |s|
    ensures r.0 == ifTrue && r.1 == i + 2 <==> i + 1 < |s| && s[i + 1] == x
    ensures r == (ifFalse, i + 1) <==> !(i + 1 < |s| && s[i + 1] == x)
  {
    if i + 1 < |s| && s[i + 1] == x then (ifTrue, i + 2) else (ifFalse, i + 1)
  }

  /** The characters that the fixed switch of `tokenize` maps to a token by
      themselves. */
  function PunctuationToken(c: char): Option<Token> {
    match c
    case ';' => Some(Semicolon)
    case '(' => Some(OpenParen)
    case ')' => Some(CloseParen)
    case '{' => Some(OpenBrace)
    case '}' => Some(CloseBrace)
    case '~' => Some(Tilde)
    case '+' => Some(Plus)
    case '*' => Some(Asterisk)
    case '/' => Some(Backslash)
    case '%' => Some(Percent)
    case _ => None
  }

  /** The characters that start an operator of one or two characters: the
      second character of the pair, the token for the pair and the token for
      the first character alone. */
  function OperatorStart(c: char): Option<(char, Token, Token)> {
    match c
    case '!' => Some(('=', ExclamationEqual, Exclamation))
    case '&' => Some(('&', AmpersandAmpersand, Ampersand))
    case '|' => Some(('|', BarBar, Bar))
    case '-' => Some(('-', Decrement, Hyphen))
    case '=' => Some(('=', EqualEqual, Equal))
    case '<' => Some(('=', LessThanEqual, LessThan))
    case '>' => Some(('=', GreaterThanEqual, GreaterThan))
    case _ => None
  }

  /** The token that starts at the non-blank index `i`, with the index just
      past it. */
  function ScanToken(s: seq<char>, i: nat): (r: Result<(Token, nat), LexError>)
    requires i < |s|
    ensures r.Ok? ==> i < r.value.1 <= |s|
  {
    var c := s[i];
    match PunctuationToken(c)
    case Some(t) => Ok((t, i + 1))
    case None =>
      match OperatorStart(c)
      case Some((x, ifTrue, ifFalse)) => Ok(Lookahead(s, i, x, ifTrue, ifFalse))
      case None => ScanLiteral(s, i)
  }

  /** A number, a keyword or an identifier starting at index `i`: the
      maximal run of its character class. Any other character is the one
      `collect_identifier_str` rejects. */
  function ScanLiteral(s: seq<char>, i: nat): (r: Result<(Token, nat), LexError>)
    requires i < |s|
    ensures r.Ok? ==> i < r.value.1 <= |s|
  {
    if IsDigit(s[i]) then
      var end := RunEnd(s, i, Digits);
      match ParseI32(s[i..end])
      case Ok(n) => Ok((Integer(n), end))
      case Err(e) => Err(e)
    else if IsWordChar(s[i]) then
      var end := RunEnd(s, i, Word);
      Ok((KeywordOrIdentifier(s[i..end]), end))
    else
      Err(NotAlphanumeric)
  }

  function Prepend(ts: seq<Token>, r: Result<seq<Token>, LexError>): Result<seq<Token>, LexError> {
    match r
    case Ok(rest) => Ok(ts + rest)
    case Err(e) => Err(e)
  }

  lemma PrependTwice(ts: seq<Token>, us: seq<Token>, r: Result<seq<Token>, LexError>)
    ensures Prepend(ts, Prepend(us, r)) == Prepend(ts + us, r)
  {
    if r.Ok? {
      assert ts + (us + r.value) == (ts + us) + r.value;
    }
  }

  /** `Lex` unfolded once at whitespace. */
  lemma LexAtBlank(s: seq<char>, i: nat)
    requires i < |s| && IsWhitespace(s[i])
    ensures Lex(s, i) == Lex(s, RunEnd(s, i, Blank))
  {
  }

  /** `Lex` unfolded once at a character that is not whitespace. */
  lemma LexAtToken(s: seq<char>, i: nat)
    requires i < |s| && !IsWhitespace(s[i])
    ensures ScanToken(s, i).Err? ==> Lex(s, i) == Err(ScanToken(s, i).error)
    ensures ScanToken(s, i).Ok? ==> Lex(s, i) == Prepend([ScanToken(s, i).value.0], Lex(s, ScanToken(s, i).value.1))
  {
  }

  /** The tokens of `s` from index `i` on, or the first error met. */
  function Lex(s: seq<char>, i: nat): Result<seq<Token>, LexError>
    requires i <= |s|
    decreases |s| - i
  {
    if i == |s| then Ok([])
    else if IsWhitespace(s[i]) then Lex(s, RunEnd(s, i, Blank))
    else match ScanToken(s, i)
      case Err(e) => Err(e)
      case Ok((tok, next)) => Prepend([tok], Lex(s, next))
  }

  // ---------------------------------------------------------------------
  // The scanner

  class Lexer {
    const input: seq<char>
    var pos: nat

    /** Every operation leaves the cursor on a character of the input or
        just past its end. */
    ghost predicate Valid()
      reads this
    {
      pos <= |input|
    }

    constructor (input: seq<char>)
      ensures this.input == input && pos == 0 && Valid()
    {
      this.input := input;
      pos := 0;
    }

    function CharAt(n: nat): (r: Option<char>)
      ensures r.Some? <==> n < |input|
      ensures r.Some? ==> r.value == input[n]
    {
      if n < |input| then Some(input[n]) else None
    }

    function CurChar(): (r: Result<char, LexError>)
      reads this
      ensures r.Ok? <==> pos < |input|
      ensures r.Ok? ==> r.value == input[pos]
      ensures r.Err? ==> r.error == OutOfBounds
    {
      match CharAt(pos)
      case Some(c) => Ok(c)
      case None => Err(OutOfBounds)
    }

    function PeekChar(): (r: Result<char, LexError>)
      reads this
      ensures r.Ok? <==> pos + 1 < |input|
      ensures r.Ok? ==> r.value == input[pos + 1]
      ensures r.Err? ==> r.error == OutOfBounds
    {
      match CharAt(pos + 1)
      case Some(c) => Ok(c)
      case None => Err(OutOfBounds)
    }

    /** Collects the maximal digit run at the cursor and leaves the cursor
        on its last digit. */
    method CollectNumber() returns (r: Result<Ast.I32, LexError>)
      requires Valid()
      modifies this
      ensures Valid()
      ensures old(pos) == |input| ==> r == Err(OutOfBounds) && pos == old(pos)
      ensures old(pos) < |input| && !IsDigit(input[old(pos)]) ==> r == Err(NotNumeric) && pos == old(pos)
      ensures old(pos) < |input| && IsDigit(input[old(pos)]) ==>
                var end := RunEnd(input, old(pos), Digits);
                pos == end - 1 && r == ParseI32(input[old(pos)..end])
    {
      var c :- CurChar();
      if !IsDigit(c) {
        return Err(NotNumeric);
      }
      ghost var start := pos;
      var digits: seq<char> := [];
      while IsDigit(c)
        invariant start <= pos < |input| && c == input[pos]
        invariant forall m | start <= m < pos :: InClass(input[m], Digits)
        invariant digits == input[start..pos]
        decreases |input| - pos
      {
        digits := digits + [c];
        pos := pos + 1;
        assert digits == input[start..pos];
        var next := CurChar();
        if next.Err? {
          break;
        }
        c := next.value;
      }
      assert digits == input[start..pos];
      RunEndAt(input, start, pos, Digits);
      pos := pos - 1;
      r := ParseI32(digits);
    }

    /** Collects the maximal run of [A-Za-z0-9_] at the cursor and leaves
        the cursor on its last character. */
    method CollectIdentifierStr() returns (r: Result<seq<char>, LexError>)
      requires Valid()
      modifies this
      ensures Valid()
      ensures old(pos) == |input| ==> r == Err(OutOfBounds) && pos == old(pos)
      ensures old(pos) < |input| && !IsWordChar(input[old(pos)]) ==> r == Err(NotAlphanumeric) && pos == old(pos)
      ensures old(pos) < |input| && IsWordChar(input[old(pos)]) ==>
                var end := RunEnd(input, old(pos), Word);
                pos == end - 1 && r == Ok(input[old(pos)..end])
    {
      var c :- CurChar();
      if !IsWordChar(c) {
        return Err(NotAlphanumeric);
      }
      ghost var start := pos;
      var word: seq<char> := [];
      while IsWordChar(c)
        invariant start <= pos < |input| && c == input[pos]
        invariant forall m | start <= m < pos :: InClass(input[m], Word)
        invariant word == input[start..pos]
        decreases |input| - pos
      {
        word := word + [c];
        pos := pos + 1;
        assert word == input[start..pos];
        var next := CurChar();
        if next.Err? {
          break;
        }
        c := next.value;
      }
      assert word == input[start..pos];
      RunEndAt(input, start, pos, Word);
      pos := pos - 1;
      r := Ok(word);
    }

    /** Moves the cursor past the whitespace at it, to the first other
        character or to the end of the input. */
    method SkipWhitespace()
      requires Valid()
      modifies this
      ensures Valid()
      ensures pos == RunEnd(input, old(pos), Blank)
    {
      while true
        invariant old(pos) <= pos <= |input|
        invariant forall m | old(pos) <= m < pos :: InClass(input[m], Blank)
        decreases |input| - pos
      {
        match CurChar() {
          case Err(_) => break;
          case Ok(c) =>
            if IsWhitespace(c) {
              pos := pos + 1;
            } else {
              break;
            }
        }
      }
      RunEndAt(input, old(pos), pos, Blank);
    }

    /** Steps onto the next character and returns `ifTrue` when that
        character is `x`; otherwise returns `ifFalse` and stays put. */
    method IfNextTok(x: char, ifTrue: Token, ifFalse: Token) returns (tok: Token)
      requires Valid()
      modifies this
      ensures Valid()
      ensures old(pos) + 1 < |input| && input[old(pos) + 1] == x ==> tok == ifTrue && pos == old(pos) + 1
      ensures !(old(pos) + 1 < |input| && input[old(pos) + 1] == x) ==> tok == ifFalse && pos == old(pos)
    {
      var next := PeekChar();
      if next.Ok? && next.value == x {
        pos := pos + 1;
        return ifTrue;
      }
      return ifFalse;
    }

    /** The `match` of `tokenize` on the character `c` under the cursor:
        the token that starts there, with the cursor left on its last
        character. */
    method NextToken(c: char) returns (r: Result<Token, LexError>)
      requires Valid() && pos < |input| && c == input[pos] && !IsWhitespace(c)
      modifies this
      ensures Valid()
      ensures r.Ok? ==> pos < |input| && ScanToken(input, old(pos)) == Ok((r.value, pos + 1))
      ensures r.Err? ==> ScanToken(input, old(pos)) == Err(r.error)
    {
      var tok: Token;
      match c {
        case ';' => tok := Semicolon;
        case '(' => tok := OpenParen;
        case ')' => tok := CloseParen;
        case '{' => tok := OpenBrace;
        case '}' => tok := CloseBrace;
        case '~' => tok := Tilde;
        case '+' => tok := Plus;
        case '*' => tok := Asterisk;
        case '/' => tok := Backslash;
        case '%' => tok := Percent;
        case '!' => tok := IfNextTok('=', ExclamationEqual, Exclamation);
        case '&' => tok := IfNextTok('&', AmpersandAmpersand, Ampersand);
        case '|' => tok := IfNextTok('|', BarBar, Bar);
        case '-' => tok := IfNextTok('-', Decrement, Hyphen);
        case '=' => tok := IfNextTok('=', EqualEqual, Equal);
        case '<' => tok := IfNextTok('=', LessThanEqual, LessThan);
        case '>' => tok := IfNextTok('=', GreaterThanEqual, GreaterThan);
        case _ => tok :- LiteralToken(c);
      }
      return Ok(tok);
    }

    /** The last arm of that `match`: a number when `c` is a digit, otherwise
        a keyword or an identifier. */
    method LiteralToken(c: char) returns (r: Result<Token, LexError>)
      requires Valid() && pos < |input| && c == input[pos]
      modifies this
      ensures Valid()
      ensures r.Ok? ==> pos < |input| && ScanLiteral(input, old(pos)) == Ok((r.value, pos + 1))
      ensures r.Err? ==> ScanLiteral(input, old(pos)) == Err(r.error)
    {
      if IsDigit(c) {
        var n :- CollectNumber();
        return Ok(Integer(n));
      } else {
        var w :- CollectIdentifierStr();
        return Ok(KeywordOrIdentifier(w));
      }
    }

    /** Turns the rest of the input into tokens; a failure stands where the
        source panics. */
    method Tokenize() returns (r: Result<seq<Token>, LexError>)
      requires Valid()
      modifies this
      ensures Valid()
      ensures r == Lex(input, old(pos))
      ensures r.Ok? ==> pos == |input|
    {
      var res: seq<Token> := [];
      assert Lex(input, pos) == Prepend(res, Lex(input, pos)) by {
        if Lex(input, pos).Ok? {
          assert [] + Lex(input, pos).value == Lex(input, pos).value;
        }
      }
      while true
        invariant Valid() && old(pos) <= pos
        invariant Lex(input, old(pos)) == Prepend(res, Lex(input, pos))
        decreases |input| - pos
      {
        var cur := CurChar();
        if cur.Err? {
          break;
        }
        var c := cur.value;
        ghost var here := pos;
        if IsWhitespace(c) {
          LexAtBlank(input, here);
          SkipWhitespace();
          continue;
        }
        LexAtToken(input, here);
        var tok :- NextToken(c);
        PrependTwice(res, [tok], Lex(input, pos + 1));
        res := res + [tok];
        pos := pos + 1;
      }
      assert res + [] == res;
      return Ok(res);
    }
  }
}
