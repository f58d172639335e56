/** Properties of lexing: it is local (what precedes an index does not
    change the tokens from there on), whitespace yields nothing, each
    operator, number and word lexes to the one token the source's `match`
    in `tokenize` gives it, and the result never holds `EOF` and never has
    more tokens than characters. */
module LexerFacts {
  import opened Outcomes
  import opened Lexing
  import Ast

  // ---------------------------------------------------------------------
  // Locality

  lemma RunEndShift(p: seq<char>, s: seq<char>, i: nat, k: CharClass)
    requires i <= |s|
    ensures RunEnd(p + s, |p| + i, k) == |p| + RunEnd(s, i, k)
  {
    var j := RunEnd(s, i, k);
    var t := p + s;
    forall m | |p| + i <= m < |p| + j
      ensures InClass(t[m], k)
    {
      assert t[m] == s[m - |p|];
    }
    if j < |s| {
      assert t[|p| + j] == s[j];
    }
    RunEndAt(t, |p| + i, |p| + j, k);
  }

  function ShiftScan(r: Result<(Token, nat), LexError>, d: nat): Result<(Token, nat), LexError> {
    match r
    case Ok((t, n)) => Ok((t, n + d))
    case Err(e) => Err(e)
  }

  lemma ScanLiteralShift(p: seq<char>, s: seq<char>, i: nat)
    requires i < |s|
    ensures ScanLiteral(p + s, |p| + i) == ShiftScan(ScanLiteral(s, i), |p|)
  {
    var t := p + s;
    assert t[|p| + i] == s[i];
    if IsDigit(s[i]) {
      RunEndShift(p, s, i, Digits);
      var end := RunEnd(s, i, Digits);
      assert t[|p| + i..|p| + end] == s[i..end];
    } else if IsWordChar(s[i]) {
      RunEndShift(p, s, i, Word);
      var end := RunEnd(s, i, Word);
      assert t[|p| + i..|p| + end] == s[i..end];
    }
  }

  lemma ScanTokenShift(p: seq<char>, s: seq<char>, i: nat)
    requires i < |s|
    ensures ScanToken(p + s, |p| + i) == ShiftScan(ScanToken(s, i), |p|)
  {
    var t := p + s;
    assert t[|p| + i] == s[i];
    if PunctuationToken(s[i]).None? {
      if OperatorStart(s[i]).None? {
        ScanLiteralShift(p, s, i);
      } else if i + 1 < |s| {
        assert t[|p| + i + 1] == s[i + 1];
      }
    }
  }

  /** Lexing from an index depends only on the text from that index on. */
  lemma {:induction false} LexShift(p: seq<char>, s: seq<char>, i: nat)
    requires i <= |s|
    ensures Lex(p + s, |p| + i) == Lex(s, i)
    decreases |s| - i, 1
  {
    if i < |s| {
      if IsWhitespace(s[i]) {
        LexShiftBlank(p, s, i);
      } else {
        LexShiftToken(p, s, i);
      }
    }
  }

  /** The whitespace step of `LexShift`: both sides skip the same run. */
  lemma {:induction false} LexShiftBlank(p: seq<char>, s: seq<char>, i: nat)
    requires i < |s| && IsWhitespace(s[i])
    ensures Lex(p + s, |p| + i) == Lex(s, i)
    decreases |s| - i, 0
  {
    var j := RunEnd(s, i, Blank);
    ShiftedBlank(p, s, i);
    RunEndShift(p, s, i, Blank);
    LexShift(p, s, j);
    LexAtBlank(s, i);
  }

  /** Behind a prefix, the whitespace at `i` is still skipped as one run. */
  lemma ShiftedBlank(p: seq<char>, s: seq<char>, i: nat)
    requires i < |s| && IsWhitespace(s[i])
    ensures Lex(p + s, |p| + i) == Lex(p + s, RunEnd(p + s, |p| + i, Blank))
  {
    var t, k := p + s, |p| + i;
    assert k < |t| && t[k] == s[i];
    LexAtBlank(t, k);
  }

  /** The token step of `LexShift`: both sides scan the same token. */
  lemma {:induction false} LexShiftToken(p: seq<char>, s: seq<char>, i: nat)
    requires i < |s| && !IsWhitespace(s[i])
    ensures Lex(p + s, |p| + i) == Lex(s, i)
    decreases |s| - i, 0
  {
    var t := p + s;
    assert t[|p| + i] == s[i];
    LexAtToken(s, i);
    LexAtToken(t, |p| + i);
    ScanTokenShift(p, s, i);
    if ScanToken(s, i).Ok? {
      var next := ScanToken(s, i).value.1;
      LexShift(p, s, next);
      assert ScanToken(t, |p| + i).value.1 == |p| + next;
    }
  }

  /** The token sequence of `s` is what follows a prefix `p` that is done
      lexing at its end. */
  lemma LexAfter(p: seq<char>, s: seq<char>)
    ensures Lex(p + s, |p|) == Lex(s, 0)
  {
    LexShift(p, s, 0);
  }

  // ---------------------------------------------------------------------
  // Whitespace

  /** Whitespace in front of the text produces no token and changes none. */
  lemma LexWhitespacePrefix(w: seq<char>, s: seq<char>)
    requires forall m | 0 <= m < |w| :: IsWhitespace(w[m])
    ensures Lex(w + s, 0) == Lex(s, 0)
  {
    if w != [] {
      var t := w + s;
      var j := RunEnd(s, 0, Blank);
      forall m | 0 <= m < |w| + j
        ensures InClass(t[m], Blank)
      {
        if m < |w| {
          assert t[m] == w[m];
        } else {
          assert t[m] == s[m - |w|];
        }
      }
      if j < |s| {
        assert t[|w| + j] == s[j];
      }
      RunEndAt(t, 0, |w| + j, Blank);
      assert Lex(t, 0) == Lex(t, |w| + j);
      LexShift(w, s, j);
      if j > 0 {
        assert Lex(s, 0) == Lex(s, j);
      }
    } else {
      assert w + s == s;
    }
  }

  // ---------------------------------------------------------------------
  // Operators and punctuation

  /** A character the switch maps to a token by itself is that token,
      whatever follows it. */
  lemma LexPunctuation(c: char, s: seq<char>)
    requires PunctuationToken(c).Some?
    ensures Lex([c] + s, 0) == Prepend([PunctuationToken(c).value], Lex(s, 0))
  {
    assert ([c] + s)[0] == c;
    LexAtToken([c] + s, 0);
    LexAfter([c], s);
  }

  /** An operator's first character followed by its second is the
      two-character token; followed by anything else, or by nothing, it is
      the one-character token. */
  lemma LexOperator(c: char, s: seq<char>)
    requires OperatorStart(c).Some?
    ensures var (x, pair, single) := OperatorStart(c).value;
            && (s != [] && s[0] == x ==> Lex([c] + s, 0) == Prepend([pair], Lex(s[1..], 0)))
            && (s == [] || s[0] != x ==> Lex([c] + s, 0) == Prepend([single], Lex(s, 0)))
  {
    var (x, pair, single) := OperatorStart(c).value;
    var t := [c] + s;
    assert t[0] == c;
    LexAtToken(t, 0);
    if s != [] && s[0] == x {
      assert t[1] == s[0];
      assert ScanToken(t, 0) == Ok((pair, 2));
      assert t == [c, s[0]] + s[1..];
      LexAfter([c, s[0]], s[1..]);
    } else {
      assert ScanToken(t, 0) == Ok((single, 1));
      LexAfter([c], s);
    }
  }

  /** An operator's two characters lex to the one token for the pair. */
  lemma LexTwoCharOperator(c: char, s: seq<char>)
    requires OperatorStart(c).Some?
    ensures var (x, pair, _) := OperatorStart(c).value;
            Lex([c, x] + s, 0) == Prepend([pair], Lex(s, 0))
  {
    var x := OperatorStart(c).value.0;
    LexOperator(c, [x] + s);
    assert [c] + ([x] + s) == [c, x] + s;
    assert ([x] + s)[1..] == s;
  }

  /** `--` is one decrement token and `==` one equality token, never two
      one-character tokens. */
  lemma LexDoubledOperators()
    ensures Lex("--", 0) == Ok([Decrement])
    ensures Lex("==", 0) == Ok([EqualEqual])
  {
    var none: seq<char> := [];
    assert Lex(none, 0) == Ok([]);
    assert [Decrement] + [] == [Decrement] && [EqualEqual] + [] == [EqualEqual];
    LexTwoCharOperator('-', none);
    assert ['-', '-'] + none == "--";
    LexTwoCharOperator('=', none);
    assert ['=', '='] + none == "==";
  }

  // ---------------------------------------------------------------------
  // Numbers and words

  lemma ScanRun(w: seq<char>, s: seq<char>, k: CharClass)
    requires forall m | 0 <= m < |w| :: InClass(w[m], k)
    requires s == [] || !InClass(s[0], k)
    ensures RunEnd(w + s, 0, k) == |w|
    ensures (w + s)[0..|w|] == w
  {
    var t := w + s;
    forall m | 0 <= m < |w|
      ensures InClass(t[m], k)
    {
      assert t[m] == w[m];
    }
    if s != [] {
      assert t[|w|] == s[0];
    }
    RunEndAt(t, 0, |w|, k);
  }

  /** A digit run that fits an `i32` lexes to one integer token of its
      decimal value. */
  lemma LexDigits(ds: seq<char>, s: seq<char>)
    requires ds != [] && AllDigits(ds) && DecimalValue(ds) <= Ast.MaxI32
    requires s == [] || !IsDigit(s[0])
    ensures Lex(ds + s, 0) == Prepend([Integer(DecimalValue(ds))], Lex(s, 0))
  {
    ScanRun(ds, s, Digits);
    assert (ds + s)[0] == ds[0];
    assert ScanToken(ds + s, 0) == Ok((Integer(DecimalValue(ds)), |ds|));
    LexAfter(ds, s);
  }

  /** The decimal numeral of every non-negative `i32` lexes back to it. */
  lemma LexNumeral(n: nat, s: seq<char>)
    requires n <= Ast.MaxI32
    requires s == [] || !IsDigit(s[0])
    ensures Lex(DecimalDigits(n) + s, 0) == Prepend([Integer(n)], Lex(s, 0))
  {
    DecimalRoundTrip(n);
    LexDigits(DecimalDigits(n), s);
  }

  /** A digit run that does not fit an `i32` stops lexing; this is where
      the source's `unwrap` panics. */
  lemma LexOverflow(ds: seq<char>, s: seq<char>)
    requires ds != [] && AllDigits(ds) && DecimalValue(ds) > Ast.MaxI32
    requires s == [] || !IsDigit(s[0])
    ensures Lex(ds + s, 0) == Err(NumberOutOfRange)
  {
    ScanRun(ds, s, Digits);
    assert (ds + s)[0] == ds[0];
  }

  /** A word that starts with a non-digit lexes to its keyword, or to an
      identifier carrying its text. */
  lemma LexWord(w: seq<char>, s: seq<char>)
    requires w != [] && !IsDigit(w[0])
    requires forall m | 0 <= m < |w| :: IsWordChar(w[m])
    requires s == [] || !IsWordChar(s[0])
    ensures Lex(w + s, 0) == Prepend([KeywordOrIdentifier(w)], Lex(s, 0))
  {
    assert forall m | 0 <= m < |w| :: InClass(w[m], Word);
    ScanRun(w, s, Word);
    assert (w + s)[0] == w[0];
    assert ScanToken(w + s, 0) == Ok((KeywordOrIdentifier(w), |w|));
    LexAfter(w, s);
  }

  /** A leading character that is not whitespace and starts no token stops
      lexing; this is the other `unwrap` the source panics on. */
  lemma LexUnexpectedChar(c: char, s: seq<char>)
    requires !IsWhitespace(c) && !IsWordChar(c)
    requires PunctuationToken(c).None? && OperatorStart(c).None?
    ensures Lex([c] + s, 0) == Err(NotAlphanumeric)
  {
    assert ([c] + s)[0] == c;
  }

  // ---------------------------------------------------------------------
  // The shape of the result

  lemma ScanTokenNotEof(s: seq<char>, i: nat)
    requires i < |s|
    ensures ScanToken(s, i).Ok? ==> ScanToken(s, i).value.0 != EOF
  {
  }

  /** `tokenize` never emits the end-of-input marker. */
  lemma {:induction false} LexNeverEmitsEof(s: seq<char>, i: nat)
    requires i <= |s|
    ensures Lex(s, i).Ok? ==> EOF !in Lex(s, i).value
    decreases |s| - i
  {
    if i < |s| {
      if IsWhitespace(s[i]) {
        LexNeverEmitsEof(s, RunEnd(s, i, Blank));
      } else {
        ScanTokenNotEof(s, i);
        match ScanToken(s, i)
        case Err(_) =>
        case Ok((tok, next)) => LexNeverEmitsEof(s, next);
      }
    }
  }

  /** Each token consumes at least one character. */
  lemma {:induction false} LexLength(s: seq<char>, i: nat)
    requires i <= |s|
    ensures Lex(s, i).Ok? ==> |Lex(s, i).value| <= |s| - i
    decreases |s| - i
  {
    if i < |s| {
      if IsWhitespace(s[i]) {
        LexLength(s, RunEnd(s, i, Blank));
      } else {
        match ScanToken(s, i)
        case Err(_) =>
        case Ok((tok, next)) => LexLength(s, next);
      }
    }
  }

  /** Lexing fails only where `tokenize` panics: on a digit run over the
      `i32` range, or on a character that starts no token. It never fails
      for a cursor out of bounds or a number collected from a non-digit. */
  lemma {:induction false} LexFailsOnlyAtPanics(s: seq<char>, i: nat)
    requires i <= |s|
    ensures Lex(s, i).Err? ==> Lex(s, i).error == NumberOutOfRange || Lex(s, i).error == NotAlphanumeric
    decreases |s| - i
  {
    if i < |s| {
      if IsWhitespace(s[i]) {
        LexFailsOnlyAtPanics(s, RunEnd(s, i, Blank));
      } else {
        match ScanToken(s, i)
        case Err(_) =>
        case Ok((tok, next)) => LexFailsOnlyAtPanics(s, next);
      }
    }
  }

  /** The character classes `tokenize` tests: the ten decimal digits, the
      six ASCII blanks, and word characters that include every digit and
      `_` and never a blank. */
  lemma CharClasses(c: char)
    ensures IsDigit(c) <==> c in "0123456789"
    ensures IsWhitespace(c) <==> c in " \t\n\r\U{000B}\U{000C}"
    ensures IsDigit(c) || c == '_' ==> IsWordChar(c)
    ensures IsWordChar(c) ==> c as int < 128 && !IsWhitespace(c)
  {
  }

  /** The fixed arms of the `tokenize` switch: which characters they take,
      and that none of them is a blank or a word character, so the order of
      the arms and the tests after them changes nothing. */
  lemma SwitchArms(c: char)
    ensures PunctuationToken(c).Some? <==> c in ";(){}~+*/%"
    ensures OperatorStart(c).Some? <==> c in "!&|-=<>"
    ensures !(PunctuationToken(c).Some? && OperatorStart(c).Some?)
    ensures PunctuationToken(c).Some? || OperatorStart(c).Some? ==> !IsWhitespace(c) && !IsWordChar(c)
    ensures OperatorStart(c).Some? ==> OperatorStart(c).value.1 != OperatorStart(c).value.2
  {
  }
}
