/**
 How the tokens of a joined text come from its parts. A text that is cut before an operator is read
 part by part; white space at the ends changes nothing; a word or a number is one token. From this
 follow the tokens of a canonical string: those of its numerator, a slash, and those of its
 denominator.
 */
module UnitLex {
  import opened Decimal
  import opened Units
  import opened UnitParse
  import StringScan

  ghost predicate Lexes(s: string, ts: seq<string>) { Tokens(s, 0) == Done(ts) }

  /** Nothing, or an operator: what cannot continue a word or a number. */
  predicate Breaks(s: string) { s == [] || IsOperator(s[0]) }

  lemma {:induction false} LettersKeep(a: string, b: string, i: nat)
    requires i <= |a| && (b == [] || !IsLetter(b[0]))
    ensures LetterRun(a + b, i) == LetterRun(a, i)
    decreases |a| - i
  {
    if i < |a| && IsLetter(a[i]) {
      LettersKeep(a, b, i + 1);
    }
  }

  lemma {:induction false} DigitsKeep(a: string, b: string, i: nat)
    requires i <= |a| && (b == [] || !IsDigit(b[0]))
    ensures DigitRun(a + b, i) == DigitRun(a, i)
    decreases |a| - i
  {
    if i < |a| && IsDigit(a[i]) {
      DigitsKeep(a, b, i + 1);
    }
  }

  lemma {:induction false} TokenKeeps(a: string, b: string, i: nat)
    requires i < |a| && (b == [] || (!IsLetter(b[0]) && !IsDigit(b[0])))
    ensures TokenEnd(a + b, i) == TokenEnd(a, i)
    ensures (a + b)[i..TokenEnd(a, i)] == a[i..TokenEnd(a, i)]
  {
    LettersKeep(a, b, i);
    DigitsKeep(a, b, i);
    DigitsKeep(a, b, i + 1);
  }

  lemma {:induction false} LetterShift(a: string, b: string, j: nat)
    requires j <= |b|
    ensures LetterRun(a + b, |a| + j) == |a| + LetterRun(b, j)
    decreases |b| - j
  {
    if j < |b| && IsLetter(b[j]) {
      LetterShift(a, b, j + 1);
    }
  }

  lemma {:induction false} DigitShift(a: string, b: string, j: nat)
    requires j <= |b|
    ensures DigitRun(a + b, |a| + j) == |a| + DigitRun(b, j)
    decreases |b| - j
  {
    if j < |b| && IsDigit(b[j]) {
      DigitShift(a, b, j + 1);
    }
  }

  lemma {:induction false} TokenShift(a: string, b: string, j: nat)
    requires j < |b|
    ensures TokenEnd(a + b, |a| + j) == |a| + TokenEnd(b, j)
    ensures (a + b)[|a| + j..|a| + TokenEnd(b, j)] == b[j..TokenEnd(b, j)]
  {
    assert (a + b)[|a| + j] == b[j];
    LetterShift(a, b, j);
    DigitShift(a, b, j);
    DigitShift(a, b, j + 1);
    hide LetterRun, DigitRun;
    SliceShift(a, b, j, TokenEnd(b, j));
  }

  lemma {:induction false} SliceShift(a: string, b: string, j: nat, e: nat)
    requires j <= e <= |b|
    ensures (a + b)[|a| + j..|a| + e] == b[j..e]
  {
  }

  /** The tokens after a prefix are those of the text after it. */
  lemma {:induction false} TokensShift(a: string, b: string, j: nat)
    requires j <= |b|
    ensures Tokens(a + b, |a| + j) == Tokens(b, j)
    decreases |b| - j
  {
    hide TokenEnd, IsSpace;
    if j < |b| {
      TokenShift(a, b, j);
      if IsSpace(b[j]) {
        TokensShift(a, b, j + 1);
      } else if j < TokenEnd(b, j) {
        TokensShift(a, b, TokenEnd(b, j));
      }
    }
  }

  /** A text that ends where a token must end is read as if alone, and what follows after it. */
  lemma {:induction false} TokensAppend(a: string, b: string, i: nat)
    requires i <= |a| && Breaks(b) && Tokens(a, i).Done?
    ensures Tokens(a + b, i) == After(Tokens(a, i).value, Tokens(b, 0))
    decreases |a| - i
  {
    hide TokenEnd, IsSpace;
    if i == |a| {
      TokensShift(a, b, 0);
      NothingRead(b);
    } else if IsSpace(a[i]) {
      TokensAppend(a, b, i + 1);
    } else {
      TokenKeeps(a, b, i);
      var e := TokenEnd(a, i);
      TokensAppend(a, b, e);
      PrependAfter(a[i..e], Tokens(a, e).value, Tokens(b, 0));
    }
  }

  lemma {:induction false} PrependAfter(t: string, done: seq<string>, rest: Outcome<seq<string>>)
    ensures Prepend(t, After(done, rest)) == After([t] + done, rest)
  {
    if rest.Done? {
      assert [t] + (done + rest.value) == [t] + done + rest.value;
    }
  }

  lemma {:induction false} LexAppend(a: string, ta: seq<string>, b: string, tb: seq<string>)
    requires Lexes(a, ta) && Lexes(b, tb) && Breaks(b)
    ensures Lexes(a + b, ta + tb)
  {
    TokensAppend(a, b, 0);
  }

  /** An operator in front is one more token. */
  lemma {:induction false} LexOperator(c: char, b: string, tb: seq<string>)
    requires IsOperator(c)
    ensures Lexes([c] + b, [[c]] + tb) <==> Lexes(b, tb)
  {
    var s := [c] + b;
    TokensShift([c], b, 0);
    assert !IsSpace(c);
    assert s[0..1] == [c] && [c] != "-";
    assert Tokens(s, 0) == Prepend([c], Tokens(b, 0));
    if Tokens(b, 0).Done? {
      assert ([[c]] + tb)[1..] == tb && ([[c]] + Tokens(b, 0).value)[1..] == Tokens(b, 0).value;
    }
  }

  // ----- white space ----------------------------------------------------------------------------

  lemma {:induction false} SpaceAfter(a: string, c: char, i: nat)
    requires i <= |a| && IsSpace(c)
    ensures Tokens(a + [c], i) == Tokens(a, i)
    decreases |a| - i
  {
    SpacesStartNothing(c);
    hide TokenEnd, IsSpace;
    if i < |a| {
      TokenKeeps(a, [c], i);
      if IsSpace(a[i]) {
        SpaceAfter(a, c, i + 1);
      } else if i < TokenEnd(a, i) {
        SpaceAfter(a, c, TokenEnd(a, i));
      }
    }
  }

  lemma {:induction false} TrimEndKeepsTokens(s: string)
    ensures Tokens(TrimEnd(s), 0) == Tokens(s, 0)
  {
    if s != [] && IsSpace(s[|s| - 1]) {
      TrimEndKeepsTokens(s[..|s| - 1]);
      SpaceAfter(s[..|s| - 1], s[|s| - 1], 0);
      assert s[..|s| - 1] + [s[|s| - 1]] == s;
    }
  }

  lemma {:induction false} TrimStartKeepsTokens(s: string)
    ensures Tokens(TrimStart(s), 0) == Tokens(s, 0)
  {
    if s != [] && IsSpace(s[0]) {
      TrimStartKeepsTokens(s[1..]);
      TokensShift([s[0]], s[1..], 0);
      assert [s[0]] + s[1..] == s;
    }
  }

  /** Trimming only matters for the message about an empty annotation. */
  lemma {:induction false} ParseIsOfTokens(s: string)
    ensures Tokens(s, 0).Done? && Tokens(s, 0).value != [] ==> Parse(s) == ParseTokens(Tokens(s, 0).value)
    ensures Parse(s).Done? ==> Tokens(s, 0).Done? && Tokens(s, 0).value != []
  {
    TrimStartKeepsTokens(s);
    TrimEndKeepsTokens(TrimStart(s));
  }

  // ----- words and numbers --------------------------------------------------------------------------

  lemma {:induction false} AllLetters(s: string, i: nat)
    requires i <= |s| && forall k :: 0 <= k < |s| ==> IsLetter(s[k])
    ensures LetterRun(s, i) == |s|
    decreases |s| - i
  {
    if i < |s| {
      AllLetters(s, i + 1);
    }
  }

  lemma {:induction false} AllDigitsRun(s: string, i: nat)
    requires i <= |s| && AllDigits(s)
    ensures DigitRun(s, i) == |s|
    decreases |s| - i
  {
    if i < |s| {
      AllDigitsRun(s, i + 1);
    }
  }

  lemma {:induction false} OnlyToken(s: string)
    requires s != [] && (IsLetter(s[0]) || IsDigit(s[0])) && TokenEnd(s, 0) == |s|
    ensures Lexes(s, [s])
  {
    assert s[0..|s|] == s && s != "-" && !IsSpace(s[0]);
    assert Tokens(s, |s|) == Done([]);
    assert [s] + [] == [s];
  }

  lemma {:induction false} WordLexes(s: string)
    requires s != [] && forall k :: 0 <= k < |s| ==> IsLetter(s[k])
    ensures Lexes(s, [s])
  {
    AllLetters(s, 0);
    OnlyToken(s);
  }

  lemma {:induction false} NumberLexes(s: string)
    requires s != [] && AllDigits(s)
    ensures Lexes(s, [s])
  {
    AllDigitsRun(s, 0);
    OnlyToken(s);
  }

  // ----- the tokens of a canonical string -------------------------------------------------------------

  function FactorTokens(symbol: string, exp: nat): seq<string> {
    if exp == 1 then [symbol] else [symbol, "^", Dec(exp)]
  }

  lemma {:induction false} SymbolLexes(i: nat)
    requires i < BASES
    ensures Lexes(BaseSymbol(i), [BaseSymbol(i)])
  {
    WordLexes(BaseSymbol(i));
  }

  lemma {:induction false} FactorLexes(i: nat, exp: nat)
    requires i < BASES && exp > 0
    ensures Lexes(FactorString(BaseSymbol(i), exp), FactorTokens(BaseSymbol(i), exp))
  {
    SymbolLexes(i);
    if exp != 1 {
      var s := BaseSymbol(i);
      NumberLexes(Dec(exp));
      LexOperator('^', Dec(exp), [Dec(exp)]);
      assert ["^"] + [Dec(exp)] == ["^", Dec(exp)];
      LexAppend(s, [s], "^" + Dec(exp), ["^", Dec(exp)]);
      assert s + "^" + Dec(exp) == s + ("^" + Dec(exp));
      hide Tokens;
      assert [s] + ["^", Dec(exp)] == [s, "^", Dec(exp)];
    }
  }

  /** The factors from base `i` on, each after a `*`. */
  function StarTokens(v: Exponents, i: nat): seq<string>
    requires i <= BASES
    decreases BASES - i
  {
    if i == BASES then []
    else (if v[i] > 0 then ["*"] + FactorTokens(BaseSymbol(i), v[i]) else []) + StarTokens(v, i + 1)
  }

  lemma {:induction false} StarNext(v: Exponents, i: nat)
    requires i < BASES
    ensures StarTokens(v, i)
         == (if v[i] > 0 then ["*"] + FactorTokens(BaseSymbol(i), v[i]) else []) + StarTokens(v, i + 1)
  {
  }

  function Starred(fs: seq<string>): string { if fs == [] then "" else "*" + StringScan.Join(fs, "*") }

  lemma {:induction false} StarredCons(f: string, fs: seq<string>)
    ensures Starred([f] + fs) == "*" + f + Starred(fs)
  {
    if fs == [] {
      assert [f] + fs == [f];
      assert "*" + f + "" == "*" + f;
    } else {
      StringScan.JoinCons(f, fs, "*");
      assert "*" + (f + "*" + StringScan.Join(fs, "*")) == "*" + f + ("*" + StringScan.Join(fs, "*"));
    }
  }

  lemma {:induction false} StarredLexes(v: Exponents, i: nat)
    requires i <= BASES
    ensures Lexes(Starred(Factors(v, i)), StarTokens(v, i)) && Breaks(Starred(Factors(v, i)))
    decreases BASES - i
  {
    if i < BASES {
      StarredLexes(v, i + 1);
      FactorsNext(v, i);
      StarNext(v, i);
      hide Lexes, Starred, StarTokens, Factors, FactorString, FactorTokens;
      var rest, tokens := Starred(Factors(v, i + 1)), StarTokens(v, i + 1);
      if v[i] > 0 {
        var f, ft := FactorString(BaseSymbol(i), v[i]), FactorTokens(BaseSymbol(i), v[i]);
        FactorLexes(i, v[i]);
        StarredCons(f, Factors(v, i + 1));
        LexOperator('*', f, ft);
        LexAppend("*" + f, ["*"] + ft, rest, tokens);
      } else {
        assert [] + Factors(v, i + 1) == Factors(v, i + 1);
        assert [] + tokens == tokens;
      }
    } else {
      assert Starred(Factors(v, i)) == "";
    }
  }
}
