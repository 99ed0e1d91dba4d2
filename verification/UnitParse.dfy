/**
 Unit annotations: the tokenizer, and the parser that takes factors from left to right. Both are
 written as functions on texts and token lists, with their errors, and as the loops of the source,
 each proved to yield what the function says. A `*` multiplies by the next factor only, and a `/`
 divides by the next factor only.
 */
module UnitParse {
  import opened Options
  import opened Decimal
  import opened Units

  predicate IsLetter(c: char) { 'a' <= c <= 'z' || 'A' <= c <= 'Z' }

  predicate IsOperator(c: char) { c == '*' || c == '/' || c == '^' }

  /** The characters with the Unicode property White_Space. */
  predicate IsSpace(c: char) {
    || '\t' <= c <= '\r' || c == ' ' || c == '\U{85}' || c == '\U{A0}' || c == '\U{1680}'
    || '\U{2000}' <= c <= '\U{200A}' || c == '\U{2028}' || c == '\U{2029}' || c == '\U{202F}'
    || c == '\U{205F}' || c == '\U{3000}'
  }

  // ----- tokens -----------------------------------------------------------------------------------

  function LetterRun(s: string, i: nat): (n: nat)
    requires i <= |s|
    ensures i <= n <= |s|
    decreases |s| - i
  {
    if i < |s| && IsLetter(s[i]) then LetterRun(s, i + 1) else i
  }

  function DigitRun(s: string, i: nat): (n: nat)
    requires i <= |s|
    ensures i <= n <= |s|
    decreases |s| - i
  {
    if i < |s| && IsDigit(s[i]) then DigitRun(s, i + 1) else i
  }

  /** Where the token at `i` ends; `i` itself when no token starts there. */
  function TokenEnd(s: string, i: nat): (n: nat)
    requires i < |s|
    ensures i <= n <= |s|
  {
    if IsOperator(s[i]) then i + 1
    else if IsLetter(s[i]) then LetterRun(s, i)
    else if IsDigit(s[i]) then DigitRun(s, i)
    else if s[i] == '-' then DigitRun(s, i + 1)
    else i
  }

  function Prepend(token: string, rest: Outcome<seq<string>>): Outcome<seq<string>> {
    if rest.Done? then Done([token] + rest.value) else rest
  }

  /** The tokens from `i` on. */
  function Tokens(s: string, i: nat): Outcome<seq<string>>
    requires i <= |s|
    decreases |s| - i
  {
    if i == |s| then Done([])
    else if IsSpace(s[i]) then Tokens(s, i + 1)
    else if TokenEnd(s, i) == i then Failed(ParseError(UnexpectedCharacter(s[i])))
    else if s[i..TokenEnd(s, i)] == "-" then Failed(ParseError(StrayMinus))
    else Prepend(s[i..TokenEnd(s, i)], Tokens(s, TokenEnd(s, i)))
  }

  /** What was read so far, before the tokens still to come. */
  function After(done: seq<string>, rest: Outcome<seq<string>>): Outcome<seq<string>> {
    if rest.Done? then Done(done + rest.value) else rest
  }

  lemma {:induction false} AfterPrepend(done: seq<string>, token: string, rest: Outcome<seq<string>>)
    ensures After(done, Prepend(token, rest)) == After(done + [token], rest)
  {
    if rest.Done? {
      assert done + ([token] + rest.value) == done + [token] + rest.value;
    }
  }

  lemma {:induction false} TokensStep(s: string, i: nat, done: seq<string>)
    requires i < |s| && !IsSpace(s[i]) && i < TokenEnd(s, i) && s[i..TokenEnd(s, i)] != "-"
    ensures After(done, Tokens(s, i)) == After(done + [s[i..TokenEnd(s, i)]], Tokens(s, TokenEnd(s, i)))
  {
    AfterPrepend(done, s[i..TokenEnd(s, i)], Tokens(s, TokenEnd(s, i)));
  }

  lemma {:induction false} SpacesStartNothing(c: char)
    requires IsSpace(c)
    ensures !IsOperator(c) && !IsLetter(c) && !IsDigit(c) && c != '-'
  {
  }

  method Tokenize(s: string) returns (r: Outcome<seq<string>>)
    ensures r == Tokens(s, 0)
  {
    hide Tokens, LetterRun, DigitRun, IsSpace;
    var tokens: seq<string> := [];
    var i := 0;
    NothingRead(s);
    while i < |s|
      invariant 0 <= i <= |s|
      invariant After(tokens, Tokens(s, i)) == Tokens(s, 0)
    {
      var c := s[i];
      if IsSpace(c) {
        SkipSpace(s, i);
        i := i + 1;
        continue;
      }
      if IsOperator(c) {
        OneChar(s, i);
        TokensStep(s, i, tokens);
        tokens := tokens + [[c]];
        i := i + 1;
      } else if IsLetter(c) {
        var start := i;
        i := ReadLetters(s, start);
        LettersEnd(s, start);
        NotMinus(s, start);
        TokensStep(s, start, tokens);
        tokens := tokens + [s[start..i]];
      } else if IsDigit(c) || c == '-' {
        var start := i;
        if c == '-' {
          i := i + 1;
        }
        i := ReadDigits(s, i);
        NumberEnd(s, start);
        if s[start..i] == "-" {
          Stray(s, start);
          return Failed(ParseError(StrayMinus));
        }
        TokensStep(s, start, tokens);
        tokens := tokens + [s[start..i]];
      } else {
        Unexpected(s, i);
        return Failed(ParseError(UnexpectedCharacter(c)));
      }
    }
    AllRead(s, tokens);
    return Done(tokens);
  }

  method ReadLetters(s: string, start: nat) returns (i: nat)
    requires start <= |s|
    ensures i == LetterRun(s, start)
  {
    i := start;
    while i < |s| && IsLetter(s[i])
      invariant i <= |s| && LetterRun(s, i) == LetterRun(s, start)
    {
      i := i + 1;
    }
  }

  method ReadDigits(s: string, start: nat) returns (i: nat)
    requires start <= |s|
    ensures i == DigitRun(s, start)
  {
    i := start;
    while i < |s| && IsDigit(s[i])
      invariant i <= |s| && DigitRun(s, i) == DigitRun(s, start)
    {
      i := i + 1;
    }
  }

  lemma {:induction false} NothingRead(s: string)
    ensures After([], Tokens(s, 0)) == Tokens(s, 0)
  {
    if Tokens(s, 0).Done? {
      assert [] + Tokens(s, 0).value == Tokens(s, 0).value;
    }
  }

  lemma {:induction false} AllRead(s: string, tokens: seq<string>)
    ensures After(tokens, Tokens(s, |s|)) == Done(tokens)
  {
    assert tokens + [] == tokens;
  }

  lemma {:induction false} SkipSpace(s: string, i: nat)
    requires i < |s| && IsSpace(s[i])
    ensures Tokens(s, i) == Tokens(s, i + 1)
  {
  }

  lemma {:induction false} OneChar(s: string, i: nat)
    requires i < |s| && IsOperator(s[i])
    ensures TokenEnd(s, i) == i + 1 && s[i..i + 1] == [s[i]] && [s[i]] != "-"
  {
  }

  lemma {:induction false} LettersEnd(s: string, i: nat)
    requires i < |s| && IsLetter(s[i])
    ensures TokenEnd(s, i) == LetterRun(s, i) && LetterRun(s, i) > i
  {
  }

  lemma {:induction false} NotMinus(s: string, i: nat)
    requires i < |s| && s[i] != '-' && i < TokenEnd(s, i)
    ensures s[i..TokenEnd(s, i)] != "-"
  {
    assert s[i..TokenEnd(s, i)][0] == s[i];
  }

  lemma {:induction false} NumberEnd(s: string, i: nat)
    requires i < |s| && (IsDigit(s[i]) || s[i] == '-')
    ensures TokenEnd(s, i) == DigitRun(s, if s[i] == '-' then i + 1 else i) && TokenEnd(s, i) > i
  {
  }

  lemma {:induction false} Stray(s: string, i: nat)
    requires i < |s| && !IsSpace(s[i]) && i < TokenEnd(s, i) && s[i..TokenEnd(s, i)] == "-"
    ensures Tokens(s, i) == Failed(ParseError(StrayMinus))
  {
  }

  lemma {:induction false} Unexpected(s: string, i: nat)
    requires i < |s| && !IsSpace(s[i]) && !IsOperator(s[i]) && !IsLetter(s[i]) && !IsDigit(s[i]) && s[i] != '-'
    ensures Tokens(s, i) == Failed(ParseError(UnexpectedCharacter(s[i])))
  {
  }

  function TrimStart(s: string): string {
    if s != [] && IsSpace(s[0]) then TrimStart(s[1..]) else s
  }

  function TrimEnd(s: string): string {
    if s != [] && IsSpace(s[|s| - 1]) then TrimEnd(s[..|s| - 1]) else s
  }

  function Trim(s: string): string { TrimEnd(TrimStart(s)) }

  // ----- the parser ---------------------------------------------------------------------------------

  /** A signed decimal number that fits 32 bits. */
  function ParseI32(s: string): Option<int> {
    var negative := s != [] && s[0] == '-';
    var digits := if s != [] && (s[0] == '-' || s[0] == '+') then s[1..] else s;
    if digits == [] || !AllDigits(digits) then None
    else
      var size: int := Value(digits);
      var n := if negative then -size else size;
      if InI32(n) then Some(n) else None
  }

  /** A factor and the number of its tokens. */
  datatype Factor = Factor(dim: Dimension, used: nat)

  function ParseFactor(ts: seq<string>): (r: Outcome<Factor>)
    ensures r.Done? ==> 0 < r.value.used <= |ts|
  {
    if ts == [] then Failed(ParseError(EndOfInput))
    else if ts[0] in ["*", "/", "^"] then Failed(ParseError(ExpectedUnit(ts[0])))
    else
      match LookupUnit(ts[0])
      case Failed(e) => Failed(e)
      case Overflowed => Overflowed
      case Done(dim) =>
        if |ts| > 1 && ts[1] == "^" then
          if |ts| == 2 then Failed(ParseError(ExpectedExponent))
          else
            match ParseI32(ts[2])
            case None => Failed(ParseError(InvalidExponent(ts[2])))
            case Some(n) =>
              if Fits(Scaled(dim, n)) then Done(Factor(Scaled(dim, n), 3)) else Overflowed
        else Done(Factor(dim, 1))
  }

  /** What the operator makes of the product so far and the next factor. */
  function Combine(op: string, acc: Exponents, factor: Exponents): Exponents {
    if op == "*" then Sum(acc, factor) else Difference(acc, factor)
  }

  /** One operator and its factor, after the product so far. */
  function ParseRound(ts: seq<string>, acc: Dimension): (r: Outcome<Factor>)
    requires ts != []
    ensures r.Done? ==> 0 < r.value.used <= |ts|
  {
    if ts[0] != "*" && ts[0] != "/" then Failed(ParseError(ExpectedOperator(ts[0])))
    else
      match ParseFactor(ts[1..])
      case Failed(e) => Failed(e)
      case Overflowed => Overflowed
      case Done(factor) =>
        if Fits(Combine(ts[0], acc, factor.dim)) then Done(Factor(Combine(ts[0], acc, factor.dim), 1 + factor.used))
        else Overflowed
  }

  function ParseRest(ts: seq<string>, acc: Dimension): Outcome<Dimension>
    decreases |ts|
  {
    if ts == [] then Done(acc)
    else
      match ParseRound(ts, acc)
      case Failed(e) => Failed(e)
      case Overflowed => Overflowed
      case Done(factor) => ParseRest(ts[factor.used..], factor.dim)
  }

  function ParseTokens(ts: seq<string>): Outcome<Dimension> {
    if ts == [] then Failed(ParseError(NoFactors))
    else
      match ParseFactor(ts)
      case Failed(e) => Failed(e)
      case Overflowed => Overflowed
      case Done(factor) => ParseRest(ts[factor.used..], factor.dim)
  }

  function Parse(s: string): Outcome<Dimension> {
    if Trim(s) == [] then Failed(ParseError(EmptyAnnotation))
    else
      match Tokens(Trim(s), 0)
      case Failed(e) => Failed(e)
      case Overflowed => Overflowed
      case Done(ts) => ParseTokens(ts)
  }

  method ReadFactor(tokens: seq<string>, idx: nat) returns (r: Outcome<(Dimension, nat)>)
    requires idx <= |tokens|
    ensures match ParseFactor(tokens[idx..])
      case Failed(e) => r == Failed(e)
      case Overflowed => r == Overflowed
      case Done(factor) => r == Done((factor.dim, idx + factor.used))
  {
    hide LookupUnit, ParseI32;
    if idx == |tokens| {
      return Failed(ParseError(EndOfInput));
    }
    var token := tokens[idx];
    if token == "*" || token == "/" || token == "^" {
      return Failed(ParseError(ExpectedUnit(token)));
    }
    var found := LookupUnit(token);
    match found
    case Failed(e) => return Failed(e);
    case Overflowed => return Overflowed;
    case Done(unit) =>
      var dim, next := unit, idx + 1;
      if next < |tokens| && tokens[next] == "^" {
        if next + 1 == |tokens| {
          return Failed(ParseError(ExpectedExponent));
        }
        var exp := ParseI32(tokens[next + 1]);
        if exp.None? {
          return Failed(ParseError(InvalidExponent(tokens[next + 1])));
        }
        ExponentFits(tokens[next + 1]);
        var power := Powi(dim, exp.value);
        if power.Overflowed? {
          return Overflowed;
        }
        dim := power.value;
        next := next + 2;
      }
      return Done((dim, next));
  }

  lemma {:induction false} ExponentFits(s: string)
    ensures ParseI32(s).Some? ==> InI32(ParseI32(s).value)
  {
  }

  method ParseUnit(input: string) returns (r: Outcome<Dimension>)
    ensures r == Parse(input)
  {
    hide Tokens, ParseFactor, Trim;
    var trimmed := Trim(input);
    if trimmed == [] {
      return Failed(ParseError(EmptyAnnotation));
    }
    var scan := Tokenize(trimmed);
    match scan
    case Failed(e) => return Failed(e);
    case Overflowed => return Overflowed;
    case Done(tokens) => r := ParseProduct(tokens);
  }

  method ParseProduct(tokens: seq<string>) returns (r: Outcome<Dimension>)
    ensures r == ParseTokens(tokens)
  {
    hide ParseFactor, ParseRest, ParseRound;
    if tokens == [] {
      return Failed(ParseError(NoFactors));
    }
    assert tokens[0..] == tokens;
    var first := ReadFactor(tokens, 0);
    match first
    case Failed(e) => return Failed(e);
    case Overflowed => return Overflowed;
    case Done(factor) =>
      var start := Multiply(DIMENSIONLESS, factor.0);
      ProductOfOne(factor.0);
      var result, idx := start.value, factor.1;
      while idx < |tokens|
        invariant idx <= |tokens| && ParseTokens(tokens) == ParseRest(tokens[idx..], result)
      {
        RestStep(tokens, idx, result);
        var next := ReadRound(tokens, idx, result);
        match next {
          case Failed(e) => return Failed(e);
          case Overflowed => return Overflowed;
          case Done(read) => result, idx := read.0, read.1;
        }
      }
      RestEnds(result);
      assert tokens[idx..] == [];
      return Done(result);
  }

  /** The body of the parser's loop. */
  method ReadRound(tokens: seq<string>, idx: nat, result: Dimension) returns (r: Outcome<(Dimension, nat)>)
    requires idx < |tokens|
    ensures match ParseRound(tokens[idx..], result)
      case Failed(e) => r == Failed(e)
      case Overflowed => r == Overflowed
      case Done(factor) => r == Done((factor.dim, idx + factor.used))
  {
    hide ParseFactor;
    var op := tokens[idx];
    assert tokens[idx..][1..] == tokens[idx + 1..];
    if op != "*" && op != "/" {
      return Failed(ParseError(ExpectedOperator(op)));
    }
    var read := ReadFactor(tokens, idx + 1);
    match read
    case Failed(e) => return Failed(e);
    case Overflowed => return Overflowed;
    case Done(factor) =>
      var combined: Outcome<Dimension>;
      if op == "*" {
        combined := Multiply(result, factor.0);
      } else {
        combined := Divide(result, factor.0);
      }
      if combined.Overflowed? {
        return Overflowed;
      }
      return Done((combined.value, factor.1));
  }

  lemma {:induction false} ProductOfOne(d: Dimension)
    ensures Checked(Sum(DIMENSIONLESS, d)) == Done(d)
  {
    assert Sum(DIMENSIONLESS, d) == d;
  }

  lemma {:induction false} RestEnds(acc: Dimension)
    ensures ParseRest([], acc) == Done(acc)
  {
  }

  /** One round of the parser's loop. */
  lemma {:induction false} RestStep(ts: seq<string>, idx: nat, acc: Dimension)
    requires idx < |ts|
    ensures ParseRound(ts[idx..], acc).Failed? ==>
      ParseRest(ts[idx..], acc) == Failed(ParseRound(ts[idx..], acc).error)
    ensures ParseRound(ts[idx..], acc).Overflowed? ==> ParseRest(ts[idx..], acc) == Overflowed
    ensures ParseRound(ts[idx..], acc).Done? ==>
      ParseRest(ts[idx..], acc)
      == ParseRest(ts[idx + ParseRound(ts[idx..], acc).value.used..], ParseRound(ts[idx..], acc).value.dim)
  {
    hide ParseRound;
    var read := ParseRound(ts[idx..], acc);
    if read.Done? {
      assert ts[idx..][read.value.used..] == ts[idx + read.value.used..];
    }
  }

  function Canonicalize(s: string): Outcome<string> {
    match Parse(s)
    case Failed(e) => Failed(e)
    case Overflowed => Overflowed
    case Done(d) => ToCanonicalString(d)
  }
}
