/** How unit annotations are cut into tokens, and which errors they give. */
module UnitErrors {

  // The tokenizer by its laws: a text may be cut wherever no word or number goes on, and what each
  // character may begin. And the errors of the parser, each by the annotations that give it.

  import opened Decimal
  import opened Options
  import opened Units
  import opened UnitParse
  import opened UnitLex
  import opened UnitPrinted

  // ----- tokens -------------------------------------------------------------------------------------

  /** A word or a number goes on from the end of `a` into `b`. */
  predicate GoesOn(a: string, b: string) {
    && a != "" && b != ""
    && ((IsLetter(a[|a| - 1]) && IsLetter(b[0]))
        || ((IsDigit(a[|a| - 1]) || a[|a| - 1] == '-') && IsDigit(b[0])))
  }

  lemma {:induction false} LettersStop(a: string, b: string, i: nat)
    requires i < |a| && IsLetter(a[i]) && !GoesOn(a, b)
    ensures LetterRun(a + b, i) == LetterRun(a, i)
    decreases |a| - i
  {
    assert (a + b)[i] == a[i];
    if i + 1 < |a| {
      assert (a + b)[i + 1] == a[i + 1];
      if IsLetter(a[i + 1]) {
        LettersStop(a, b, i + 1);
      }
    } else if b != "" {
      assert (a + b)[i + 1] == b[0];
    }
  }

  lemma {:induction false} DigitsStop(a: string, b: string, i: nat)
    requires 0 < i <= |a| && (IsDigit(a[i - 1]) || a[i - 1] == '-') && !GoesOn(a, b)
    ensures DigitRun(a + b, i) == DigitRun(a, i)
    decreases |a| - i
  {
    if i < |a| {
      assert (a + b)[i] == a[i];
      if IsDigit(a[i]) {
        DigitsStop(a, b, i + 1);
      }
    } else if b != "" {
      assert (a + b)[i] == b[0];
    }
  }

  lemma {:induction false} TokenStops(a: string, b: string, i: nat)
    requires i < |a| && !GoesOn(a, b)
    ensures TokenEnd(a + b, i) == TokenEnd(a, i)
    ensures (a + b)[i..TokenEnd(a, i)] == a[i..TokenEnd(a, i)]
  {
    assert (a + b)[i] == a[i];
    if IsLetter(a[i]) {
      LettersStop(a, b, i);
    } else if IsDigit(a[i]) || a[i] == '-' {
      DigitsStop(a, b, i + 1);
    }
    PrefixSlice(a, b, i, TokenEnd(a, i));
  }

  lemma {:induction false} PrefixSlice(a: string, b: string, i: nat, e: nat)
    requires i <= e <= |a|
    ensures (a + b)[i..e] == a[i..e]
  {
  }

  /** A text may be cut wherever nothing goes on: its tokens are those of its parts. */
  lemma {:induction false} TokensOfParts(a: string, b: string)
    requires Tokens(a, 0).Done? && !GoesOn(a, b)
    ensures Tokens(a + b, 0) == After(Tokens(a, 0).value, Tokens(b, 0))
  {
    TokensFrom(a, b, 0);
  }

  lemma {:induction false} TokensFrom(a: string, b: string, i: nat)
    requires i <= |a| && Tokens(a, i).Done? && !GoesOn(a, b)
    ensures Tokens(a + b, i) == After(Tokens(a, i).value, Tokens(b, 0))
    decreases |a| - i
  {
    hide TokenEnd, IsSpace, GoesOn;
    if i == |a| {
      TokensShift(a, b, 0);
      NothingRead(b);
    } else if IsSpace(a[i]) {
      TokensFrom(a, b, i + 1);
    } else {
      TokenStops(a, b, i);
      var e := TokenEnd(a, i);
      TokensFrom(a, b, e);
      PrependAfter(a[i..e], Tokens(a, e).value, Tokens(b, 0));
    }
  }

  /** White space is no token, an operator is one, and so are a run of letters, a run of digits, and a
      run of digits behind a minus sign. */
  lemma {:induction false} WhatIsAToken(c: char, w: string, n: string)
    requires w != "" && forall k :: 0 <= k < |w| ==> IsLetter(w[k])
    requires n != "" && AllDigits(n)
    ensures Tokens("", 0) == Done([])
    ensures IsSpace(c) ==> Tokens([c], 0) == Done([])
    ensures c in ['*', '/', '^'] ==> Tokens([c], 0) == Done([[c]])
    ensures Tokens(w, 0) == Done([w]) && Tokens(n, 0) == Done([n]) && Tokens("-" + n, 0) == Done(["-" + n])
  {
    WordLexes(w);
    NumberLexes(n);
    MinusLexes(n);
    if IsSpace(c) {
      SkipSpace([c], 0);
    }
    if IsOperator(c) {
      LexOperator(c, "", []);
      assert [c] + "" == [c] && [[c]] + [] == [[c]];
    }
  }

  /** Any other character ends the scan, and so does a minus sign without a digit behind it. */
  lemma {:induction false} WhatIsNone(a: string, c: char, b: string)
    requires Tokens(a, 0).Done?
    ensures !IsSpace(c) && c !in ['*', '/', '^', '-'] && !IsLetter(c) && !IsDigit(c) ==>
      Tokens(a + [c] + b, 0) == Failed(ParseError(UnexpectedCharacter(c)))
    ensures b == "" || !IsDigit(b[0]) ==> Tokens(a + "-" + b, 0) == Failed(ParseError(StrayMinus))
  {
    assert ['-'] == "-";
    if !IsLetter(c) && !IsDigit(c) {
      TokensOfParts(a, [c] + b);
      assert a + [c] + b == a + ([c] + b);
    }
    if !IsSpace(c) && !IsOperator(c) && c != '-' && !IsLetter(c) && !IsDigit(c) {
      Unexpected([c] + b, 0);
    }
    if b == "" || !IsDigit(b[0]) {
      TokensOfParts(a, ['-'] + b);
      assert a + ['-'] + b == a + (['-'] + b);
      LoneMinus(b);
    }
  }

  lemma {:induction false} LoneMinus(b: string)
    requires b == "" || !IsDigit(b[0])
    ensures Tokens(['-'] + b, 0) == Failed(ParseError(StrayMinus))
  {
    var s := ['-'] + b;
    assert s[0] == '-' && (b != "" ==> s[1] == b[0]);
    assert TokenEnd(s, 0) == 1 && s[0..1] == "-";
    Stray(s, 0);
  }

  /** The characters of words and numbers. */
  lemma {:induction false} Characters(c: char)
    ensures IsLetter(c) <==> 65 <= c as int <= 90 || 97 <= c as int <= 122
    ensures IsDigit(c) <==> 48 <= c as int <= 57
    ensures IsSpace(c) <==>
      c as int in {9, 10, 11, 12, 13, 32, 133, 160, 5760, 8232, 8233, 8239, 8287, 12288} || 8192 <= c as int <= 8202
  {
  }

  /** The text is these digits, perhaps behind a sign, and the number is theirs. */
  ghost predicate Signed(s: string, digits: string, n: int) {
    && digits != "" && AllDigits(digits)
    && ((n == Value(digits) && (s == digits || s == "+" + digits)) || (n + Value(digits) == 0 && s == "-" + digits))
  }

  /** The numbers that a power may be: digits, perhaps behind a sign, of a number of 32 bits. */
  lemma {:induction false} WhatIsAPower(s: string, n: int)
    ensures ParseI32(s) == Some(n) <==> -0x8000_0000 <= n <= 0x7fff_ffff && exists digits :: Signed(s, digits, n)
  {
    if ParseI32(s) == Some(n) {
      var digits := if s[0] == '-' || s[0] == '+' then s[1..] else s;
      assert s == digits || s == "+" + digits || s == "-" + digits;
      assert Signed(s, digits, n);
    }
    if digits :| Signed(s, digits, n) {
      assert IsDigit(digits[0]);
      assert ("+" + digits)[1..] == digits && ("-" + digits)[1..] == digits;
    }
  }

  // ----- errors -------------------------------------------------------------------------------------

  /** An annotation of nothing but white space is empty. */
  lemma {:induction false} Blank(s: string)
    requires forall i :: 0 <= i < |s| ==> IsSpace(s[i])
    ensures Parse(s) == Failed(ParseError(EmptyAnnotation))
  {
    AllTrimmed(s);
  }

  lemma {:induction false} AllTrimmed(s: string)
    requires forall i :: 0 <= i < |s| ==> IsSpace(s[i])
    ensures Trim(s) == ""
  {
    hide IsSpace;
    if s != "" {
      AllTrimmed(s[1..]);
    }
  }

  /** What follows an accepted annotation, as tokens. */
  lemma {:induction false} Followed(a: string, b: string, tb: seq<string>)
    requires Parse(a).Done? && !GoesOn(a, b) && Lexes(b, tb) && tb != [] && tb[0] != "^"
    ensures Parse(a + b) == ParseRest(tb, Parse(a).value)
  {
    ParseIsOfTokens(a);
    TokensOfParts(a, b);
    var ta := Tokens(a, 0).value;
    LexedParse(a + b, ta + tb);
    TokensAppendParse(ta, tb);
  }

  /** An operator with nothing behind it. */
  lemma {:induction false} NothingBehind(a: string, op: char)
    requires Parse(a).Done? && (op == '*' || op == '/')
    ensures Parse(a + [op]) == Failed(ParseError(EndOfInput))
  {
    OneOperator(op);
    Followed(a, [op], [[op]]);
    assert [[op]][1..] == [];
  }

  lemma {:induction false} OneOperator(op: char)
    requires IsOperator(op)
    ensures Lexes([op], [[op]])
  {
    LexOperator(op, "", []);
    assert [op] + "" == [op] && [[op]] + [] == [[op]];
  }

  /** Two operators in a row. */
  lemma {:induction false} UnitIsMissing(a: string, op: char, next: char)
    requires Parse(a).Done? && (op == '*' || op == '/') && IsOperator(next)
    ensures Parse(a + [op, next]) == Failed(ParseError(ExpectedUnit([next])))
  {
    OneOperator(next);
    LexOperator(op, [next], [[next]]);
    assert [op] + [next] == [op, next] && [[op]] + [[next]] == [[op], [next]];
    Followed(a, [op, next], [[op], [next]]);
    assert [[op], [next]][1..] == [[next]];
    assert [next] in ["*", "/", "^"];
  }

  /** Two factors without an operator between them. */
  lemma {:induction false} OperatorIsMissing(a: string, b: string, token: string)
    requires Parse(a).Done? && !GoesOn(a, b) && Lexes(b, [token]) && token !in ["*", "/", "^"]
    ensures Parse(a + b) == Failed(ParseError(ExpectedOperator(token)))
  {
    Followed(a, b, [token]);
  }

  lemma {:induction false} LexFactor(op: char, b: string, token: string)
    requires IsOperator(op) && Lexes(b, [token])
    ensures Lexes([op] + b, [[op], token])
  {
    LexOperator(op, b, [token]);
    assert [[op]] + [token] == [[op], token];
  }

  lemma {:induction false} RestIsUnknown(op: string, token: string, d: Dimension)
    requires (op == "*" || op == "/") && token !in ["*", "/", "^"] && !LookupUnit(token).Done?
    ensures ParseRest([op, token], d) == Failed(UnknownUnit(token))
  {
    LookupIsSmall(token);
    assert [op, token][1..] == [token];
    hide LookupUnit;
  }

  lemma {:induction false} RestLacksPower(op: string, token: string, d: Dimension)
    requires (op == "*" || op == "/") && token !in ["*", "/", "^"] && LookupUnit(token).Done?
    ensures ParseRest([op, token, "^"], d) == Failed(ParseError(ExpectedExponent))
  {
    assert [op, token, "^"][1..] == [token, "^"];
    hide LookupUnit;
  }

  lemma {:induction false} SignOf(op: char, b: string)
    requires op == '*' || op == '/'
    ensures IsOperator(op) && ([op] == "*" || [op] == "/") && [op] != "^" && IsOperator('^') && ['^'] == "^"
    ensures forall a :: !GoesOn(a, [op] + b)
  {
  }

  /** A unit that the table does not have. */
  lemma {:induction false} UnitIsUnknown(a: string, op: char, b: string, token: string)
    requires Parse(a).Done? && (op == '*' || op == '/') && Lexes(b, [token])
    requires token !in ["*", "/", "^"] && !LookupUnit(token).Done?
    ensures Parse(a + [op] + b) == Failed(UnknownUnit(token))
  {
    hide *;
    SignOf(op, b);
    LexFactor(op, b, token);
    RestIsUnknown([op], token, Parse(a).value);
    Followed(a, [op] + b, [[op], token]);
    assert a + ([op] + b) == a + [op] + b;
  }

  /** A power sign with nothing behind it. */
  lemma {:induction false} PowerIsMissing(a: string, op: char, b: string, token: string)
    requires Parse(a).Done? && (op == '*' || op == '/') && Lexes(b, [token])
    requires token !in ["*", "/", "^"] && LookupUnit(token).Done?
    ensures Parse(a + [op] + b + "^") == Failed(ParseError(ExpectedExponent))
  {
    hide *;
    SignOf(op, b + "^");
    OneOperator('^');
    LexFactor(op, b, token);
    PowerBreaks("");
    LexAppend([op] + b, [[op], token], "^", ["^"]);
    assert [[op], token] + ["^"] == [[op], token, "^"];
    RestLacksPower([op], token, Parse(a).value);
    assert [op] + b + "^" == [op] + (b + "^") && a + ([op] + b + "^") == a + [op] + b + "^";
    Followed(a, [op] + b + "^", [[op], token, "^"]);
  }

  lemma {:induction false} PowerBreaks(c: string)
    ensures Breaks("^" + c)
    ensures "^" + "" == "^"
  {
  }

  /** A power that is no number of 32 bits. */
  lemma {:induction false} PowerIsNone(a: string, op: char, b: string, token: string, c: string, power: string)
    requires Parse(a).Done? && (op == '*' || op == '/') && Lexes(b, [token]) && Lexes(c, [power])
    requires token !in ["*", "/", "^"] && LookupUnit(token).Done? && ParseI32(power).None?
    ensures Parse(a + [op] + b + "^" + c) == Failed(ParseError(InvalidExponent(power)))
  {
    hide *;
    SignOf(op, b + ("^" + c));
    LexFactor('^', c, power);
    LexFactor(op, b, token);
    PowerBreaks(c);
    LexAppend([op] + b, [[op], token], "^" + c, ["^", power]);
    assert [[op], token] + ["^", power] == [[op], token, "^", power];
    PowerTokens([op], token, power, Parse(a).value);
    assert [op] + b + ("^" + c) == [op] + (b + ("^" + c));
    assert a + ([op] + b + ("^" + c)) == a + [op] + b + "^" + c;
    Followed(a, [op] + b + ("^" + c), [[op], token, "^", power]);
  }
}
