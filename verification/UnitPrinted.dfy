/**
 Canonical strings of units, read back: the tokens of a printed dimension, what the parser makes of
 its numerator and its denominator, and that the tokens tell the dimension. Also how an accepted
 annotation goes on when more tokens follow, and what dividing by a unit does.
 */
module UnitPrinted {
  import opened Options
  import opened Decimal
  import opened Units
  import opened UnitParse
  import opened UnitLex
  import StringScan

  // ----- parsing pieces -------------------------------------------------------------------------

  lemma {:induction false} FactorAppend(ts: seq<string>, x: seq<string>)
    requires ParseFactor(ts).Done? && (x == [] || x[0] != "^")
    ensures ParseFactor(ts + x) == ParseFactor(ts)
  {
    hide LookupUnit, ParseI32;
  }

  lemma {:induction false} RoundAppend(ts: seq<string>, x: seq<string>, acc: Dimension)
    requires ts != [] && ParseRound(ts, acc).Done? && (x == [] || x[0] != "^")
    ensures ParseRound(ts + x, acc) == ParseRound(ts, acc)
  {
    FactorAppend(ts[1..], x);
    assert (ts + x)[1..] == ts[1..] + x;
    hide ParseFactor;
  }

  /** Tokens after an accepted product go on from its value. */
  lemma {:induction false} RestOfRound(ts: seq<string>, acc: Dimension)
    requires ts != []
    ensures ParseRest(ts, acc).Done? ==> ParseRound(ts, acc).Done?
    ensures var read := ParseRound(ts, acc);
      (read.Done? ==> ParseRest(ts, acc) == ParseRest(ts[read.value.used..], read.value.dim))
  {
    hide ParseRound;
  }

  lemma {:induction false} DropAppend(ts: seq<string>, x: seq<string>, u: nat)
    requires u <= |ts|
    ensures (ts + x)[u..] == ts[u..] + x
  {
  }

  /** One round of the loop, which goes alike whatever tokens are appended. */
  lemma {:induction false} RoundThenRest(ts: seq<string>, acc: Dimension, x: seq<string>) returns (u: nat, d: Dimension)
    requires ts != [] && ParseRest(ts, acc).Done? && (x == [] || x[0] != "^")
    ensures 0 < u <= |ts| && ParseRest(ts, acc) == ParseRest(ts[u..], d)
    ensures ParseRest(ts + x, acc) == ParseRest(ts[u..] + x, d)
  {
    hide *;
    RestOfRound(ts, acc);
    RoundAppend(ts, x, acc);
    RestOfRound(ts + x, acc);
    u, d := ParseRound(ts, acc).value.used, ParseRound(ts, acc).value.dim;
    DropAppend(ts, x, u);
  }

  lemma {:induction false} RestAppend(ts: seq<string>, acc: Dimension, x: seq<string>)
    requires ParseRest(ts, acc).Done? && (x == [] || x[0] != "^")
    ensures ParseRest(ts + x, acc) == ParseRest(x, ParseRest(ts, acc).value)
    decreases |ts|
  {
    if ts == [] {
      assert ts + x == x;
    } else {
      hide *;
      var u, d := RoundThenRest(ts, acc, x);
      RestAppend(ts[u..], d, x);
    }
  }

  /** The first factor is one more factor of an empty product. */
  lemma {:induction false} LeadingStar(ts: seq<string>)
    requires ts != []
    ensures ParseTokens(ts) == ParseRest(["*"] + ts, DIMENSIONLESS)
  {
    hide ParseFactor;
    assert (["*"] + ts)[1..] == ts;
    if ParseFactor(ts).Done? {
      var f := ParseFactor(ts).value;
      ProductOfOne(f.dim);
      assert (["*"] + ts)[1 + f.used..] == ts[f.used..];
    }
  }

  lemma {:induction false} TokensAppendParse(ts: seq<string>, x: seq<string>)
    requires ParseTokens(ts).Done? && (x == [] || x[0] != "^")
    ensures ParseTokens(ts + x) == ParseRest(x, ParseTokens(ts).value)
  {
    hide ParseRest, ParseTokens;
    NotEmpty(ts);
    LeadingStar(ts);
    LeadingStar(ts + x);
    assert ["*"] + (ts + x) == ["*"] + ts + x;
    RestAppend(["*"] + ts, DIMENSIONLESS, x);
  }

  lemma {:induction false} NotEmpty(ts: seq<string>)
    requires ParseTokens(ts).Done?
    ensures ts != []
  {
  }

  // ----- dividing by a unit ---------------------------------------------------------------------

  lemma {:induction false} SplitTokens(a: string, f: string, unit: string)
    requires Parse(a).Done? && Lexes(f, [unit])
    ensures Tokens(a, 0).Done? && Tokens(a, 0).value != []
    ensures Lexes(a + "/" + f, Tokens(a, 0).value + ["/", unit])
    ensures Lexes(a + "*" + f + "^-1", Tokens(a, 0).value + ["*", unit, "^", "-1"])
  {
    ParseIsOfTokens(a);
    Itself(a);
    hide *;
    OperatorThen(a, Tokens(a, 0).value, '/', f, unit);
    OperatorThen(a, Tokens(a, 0).value, '*', f, unit);
    MinusOne();
    OperatorThen(a + "*" + f, Tokens(a, 0).value + ["*", unit], '^', "-1", "-1");
    assert a + "*" + f + "^" + "-1" == a + "*" + f + "^-1";
    assert Tokens(a, 0).value + ["*", unit] + ["^", "-1"] == Tokens(a, 0).value + ["*", unit, "^", "-1"];
  }

  lemma {:induction false} OperatorThen(a: string, ta: seq<string>, op: char, b: string, unit: string)
    requires Lexes(a, ta) && Lexes(b, [unit]) && IsOperator(op)
    ensures Lexes(a + [op] + b, ta + [[op], unit])
  {
    LexOperator(op, b, [unit]);
    hide Lexes;
    assert [[op]] + [unit] == [[op], unit];
    LexAppend(a, ta, [op] + b, [[op], unit]);
    assert a + [op] + b == a + ([op] + b);
  }

  lemma {:induction false} Itself(a: string)
    requires Tokens(a, 0).Done?
    ensures Lexes(a, Tokens(a, 0).value)
  {
  }

  lemma {:induction false} MinusOne()
    ensures Lexes("-1", ["-1"])
    ensures ParseI32("-1") == Some(-1)
  {
    var s := "-1";
    assert DigitRun(s, 1) == 2;
    assert s[0..2] == s && s != "-" && !IsSpace('-');
    assert Tokens(s, 2) == Done([]);
    assert [s] + [] == [s];
    assert Tokens(s, 0) == Prepend(s, Tokens(s, 2));
    assert s[1..] == "1" && AllDigits("1");
    assert Value("1") == 1 by {
      assert "1"[..0] == "";
    }
  }

  lemma {:induction false} InversePower(unit: string, d: Dimension)
    requires unit !in ["*", "/", "^"]
    ensures ParseRest(["/", unit], d) == ParseRest(["*", unit, "^", "-1"], d)
    ensures LookupUnit(unit).Failed? ==> ParseRest(["/", unit], d) == Failed(UnknownUnit(unit))
    ensures LookupUnit(unit).Done? ==>
      ParseRest(["/", unit], d) == Checked(Difference(d, LookupUnit(unit).value))
  {
    MinusOne();
    LookupIsSmall(unit);
    hide LookupUnit, ParseI32;
    assert ["/", unit][1..] == [unit];
    var ts := ["*", unit, "^", "-1"];
    assert ts[1..] == [unit, "^", "-1"];
    if LookupUnit(unit).Done? {
      var u := LookupUnit(unit).value;
      assert Sum(d, Scaled(u, -1)) == Difference(d, u);
      assert ["/", unit][2..] == [] && ts[4..] == [];
    }
  }

  /** A number in decimal is one token, and an exponent exactly when it fits 32 bits. */
  lemma {:induction false} NumberToken(n: int)
    ensures Lexes(DecInt(n), [DecInt(n)])
    ensures ParseI32(DecInt(n)) == if InI32(n) then Some(n) else None
  {
    if n >= 0 {
      NumberLexes(Dec(n));
      ValueOfDec(n);
      assert IsDigit(Dec(n)[0]);
    } else {
      MinusLexes(Dec(-n));
      ValueOfDec(-n);
      assert DecInt(n)[1..] == Dec(-n);
    }
  }

  lemma {:induction false} MinusLexes(digits: string)
    requires digits != "" && AllDigits(digits)
    ensures Lexes("-" + digits, ["-" + digits])
  {
    var s := "-" + digits;
    DigitShift("-", digits, 0);
    AllDigitsRun(digits, 0);
    assert s[0..|s|] == s && s != "-" && !IsSpace('-');
    assert Tokens(s, |s|) == Done([]);
    assert [s] + [] == [s];
  }

  /** What a unit and a power after an operator make of the product so far. */
  lemma {:induction false} PowerTokens(op: string, unit: string, lit: string, d: Dimension)
    requires unit !in ["*", "/", "^"] && (op == "*" || op == "/")
    ensures ParseRest([op, unit, "^", lit], d) ==
      if !LookupUnit(unit).Done? then Failed(UnknownUnit(unit))
      else if ParseI32(lit).None? then Failed(ParseError(InvalidExponent(lit)))
      else if !Fits(Scaled(LookupUnit(unit).value, ParseI32(lit).value)) then Overflowed
      else Checked(Combine(op, d, Scaled(LookupUnit(unit).value, ParseI32(lit).value)))
  {
    LookupIsSmall(unit);
    hide LookupUnit, ParseI32, Combine, Scaled, Fits;
    var ts := [op, unit, "^", lit];
    assert ts[1..] == [unit, "^", lit];
    assert ts[4..] == [];
  }

  lemma {:induction false} PowerParses(a: string, op: char, f: string, unit: string, n: int)
    requires Parse(a).Done? && Lexes(f, [unit]) && (op == '*' || op == '/')
    ensures Parse(a + [op] + f + "^" + DecInt(n)) == ParseRest([[op], unit, "^", DecInt(n)], Parse(a).value)
  {
    ParseIsOfTokens(a);
    Itself(a);
    NumberToken(n);
    hide *;
    var ta := Tokens(a, 0).value;
    OperatorThen(a, ta, op, f, unit);
    OperatorThen(a + [op] + f, ta + [[op], unit], '^', DecInt(n), DecInt(n));
    assert ta + [[op], unit] + ["^", DecInt(n)] == ta + [[op], unit, "^", DecInt(n)];
    var s := a + [op] + f + "^" + DecInt(n);
    LexedParse(s, ta + [[op], unit, "^", DecInt(n)]);
    TokensAppendParse(ta, [[op], unit, "^", DecInt(n)]);
  }

  lemma {:induction false} LexedParse(s: string, ts: seq<string>)
    requires Lexes(s, ts) && ts != []
    ensures Parse(s) == ParseTokens(ts)
  {
    ParseIsOfTokens(s);
  }

  // ----- parsing what was printed ---------------------------------------------------------------

  /** The exponents that are positive from base `i` on, over those of `acc`. */
  function Overlay(v: Exponents, i: nat, acc: Exponents): Exponents {
    seq(BASES, k requires 0 <= k < BASES => if k >= i && v[k] > 0 then v[k] else acc[k])
  }

  lemma {:induction false} DecParses(n: nat)
    requires n <= 0x7fff_ffff
    ensures ParseI32(Dec(n)) == Some(n)
  {
    ValueOfDec(n);
    assert IsDigit(Dec(n)[0]);
  }

  lemma {:induction false} OneExponent(acc: Exponents, k: nat, e: int)
    requires k < BASES && acc[k] == 0
    ensures Combine("*", acc, Scaled(Base(k), e)) == acc[k := e]
    ensures Combine("/", acc, Scaled(Base(k), e)) == acc[k := -e]
  {
  }

  lemma {:induction false} RoundOf(op: string, fs: seq<string>, rest: seq<string>, acc: Dimension)
    requires op == "*" || op == "/"
    requires ParseFactor(fs + rest).Done? && ParseFactor(fs + rest).value.used == |fs|
    ensures var sum := Combine(op, acc, ParseFactor(fs + rest).value.dim);
      Fits(sum) ==> ParseRest([op] + fs + rest, acc) == ParseRest(rest, sum)
  {
    hide ParseFactor, Combine;
    var ts := [op] + fs + rest;
    assert ts[1..] == fs + rest;
    assert ts[1 + |fs|..] == rest;
  }

  /** One printed factor after an operator. */
  lemma {:induction false} PrintedFactor(op: string, k: nat, e: int, rest: seq<string>, acc: Dimension)
    requires k < BASES && 0 < e <= 0x7fff_ffff && (op == "*" || op == "/")
    requires rest == [] || rest[0] != "^"
    requires acc[k] == 0
    ensures var sum := if op == "*" then acc[k := e] else acc[k := -e];
      Fits(sum) && ParseRest([op] + FactorTokens(BaseSymbol(k), e) + rest, acc) == ParseRest(rest, sum)
  {
    var fs := FactorTokens(BaseSymbol(k), e);
    FactorParses(k, e);
    FactorAppend(fs, rest);
    OneExponent(acc, k, e);
    hide ParseFactor, FactorTokens, Combine, BaseSymbol, Scaled;
    RoundOf(op, fs, rest, acc);
  }

  lemma {:induction false} ScaledBase(k: nat, e: int)
    requires k < BASES && 0 < e <= 0x7fff_ffff
    ensures Fits(Scaled(Base(k), e))
    ensures Scaled(Base(k), 1) == Base(k)
  {
  }

  lemma {:induction false} FactorParses(k: nat, e: int)
    requires k < BASES && 0 < e <= 0x7fff_ffff
    ensures Fits(Scaled(Base(k), e))
    ensures ParseFactor(FactorTokens(BaseSymbol(k), e))
         == Done(Factor(Scaled(Base(k), e), |FactorTokens(BaseSymbol(k), e)|))
  {
    LookupBase(k);
    DecParses(e);
    NotOperator(k);
    ScaledBase(k, e);
    hide LookupUnit, ParseI32, BaseSymbol, Base, Scaled, Fits;
  }

  lemma {:induction false} NotOperator(k: nat)
    requires k < BASES
    ensures BaseSymbol(k) !in ["*", "/", "^"]
  {
  }

  lemma {:induction false} StarsBreak(v: Exponents, i: nat)
    requires i <= BASES
    ensures StarTokens(v, i) == [] || StarTokens(v, i)[0] == "*"
    decreases BASES - i
  {
    if i < BASES {
      StarsBreak(v, i + 1);
    }
  }

  /** The exponents to be filled in are still free. */
  ghost predicate Free(v: Exponents, i: nat, acc: Exponents) {
    forall k :: i <= k < BASES && v[k] > 0 ==> acc[k] == 0
  }

  lemma {:induction false} FillNext(v: Exponents, i: nat, acc: Dimension)
    requires i < BASES && Printable(v) && Free(v, i, acc)
    ensures v[i] <= 0x7fff_ffff && Fits(acc[i := v[i]])
    ensures v[i] > 0 ==>
      acc[i] == 0 && Free(v, i + 1, acc[i := v[i]]) && Overlay(v, i, acc) == Overlay(v, i + 1, acc[i := v[i]])
    ensures v[i] <= 0 ==> Free(v, i + 1, acc) && Overlay(v, i, acc) == Overlay(v, i + 1, acc)
  {
  }

  lemma {:induction false} AllFilled(v: Exponents, acc: Dimension)
    ensures Overlay(v, BASES, acc) == acc && StarTokens(v, BASES) == []
  {
  }

  /** Printed factors fill in their exponents where the product so far has none. */
  lemma {:induction false} StarsRun(v: Exponents, i: nat, acc: Dimension)
    requires i <= BASES && Printable(v) && Free(v, i, acc)
    ensures ParseRest(StarTokens(v, i), acc) == Done(Overlay(v, i, acc))
    decreases BASES - i
  {
    hide *;
    if i < BASES {
      FillNext(v, i, acc);
      StarNext(v, i);
      StarsBreak(v, i + 1);
      if v[i] > 0 {
        PrintedFactor("*", i, v[i], StarTokens(v, i + 1), acc);
        StarsRun(v, i + 1, acc[i := v[i]]);
      } else {
        StarsRun(v, i + 1, acc);
        assert [] + StarTokens(v, i + 1) == StarTokens(v, i + 1);
      }
    } else {
      RestEnds(acc);
      AllFilled(v, acc);
    }
  }

  /** The positive exponents alone. */
  function Positive(v: Exponents): Exponents { Overlay(v, 0, DIMENSIONLESS) }

  lemma {:induction false} SignsApart(v: Exponents)
    ensures Difference(Positive(v), Positive(Negated(v))) == v
  {
  }

  function Above(v: Exponents): seq<string> {
    if StarTokens(v, 0) == [] then ["1"] else StarTokens(v, 0)[1..]
  }

  lemma {:induction false} AboveIsProduct(v: Exponents)
    ensures Above(v) != []
    ensures Factors(v, 0) != [] ==> StarTokens(v, 0) == ["*"] + Above(v)
    ensures Factors(v, 0) == [] ==> StarTokens(v, 0) == [] && Above(v) == ["1"]
  {
    StarsFollowFactors(v, 0);
    StarsBreak(v, 0);
    hide StarTokens, Factors;
    if Factors(v, 0) != [] {
      assert StarTokens(v, 0) == [StarTokens(v, 0)[0]] + StarTokens(v, 0)[1..];
    }
  }

  lemma {:induction false} StarsFollowFactors(v: Exponents, i: nat)
    requires i <= BASES
    ensures Factors(v, i) == [] <==> StarTokens(v, i) == []
    ensures StarTokens(v, i) == [] || |StarTokens(v, i)| > 1
    decreases BASES - i
  {
    if i < BASES {
      StarsFollowFactors(v, i + 1);
    }
  }

  lemma {:induction false} NoFactors(v: Exponents, i: nat)
    requires i <= BASES
    ensures Factors(v, i) == [] <==> forall k :: i <= k < BASES ==> v[k] <= 0
    decreases BASES - i
  {
    if i < BASES {
      NoFactors(v, i + 1);
    }
  }

  lemma {:induction false} AboveParses(v: Exponents)
    requires Printable(v)
    ensures ParseTokens(Above(v)) == Done(Positive(v))
  {
    hide *;
    AboveIsProduct(v);
    if Factors(v, 0) == [] {
      NothingPositive(v);
      JustOne();
    } else {
      AllFree(v);
      StarsRun(v, 0, DIMENSIONLESS);
      LeadingStar(Above(v));
      PositiveIs(v);
    }
  }

  lemma {:induction false} AllFree(v: Exponents)
    ensures Free(v, 0, DIMENSIONLESS)
  {
  }

  lemma {:induction false} PositiveIs(v: Exponents)
    ensures Positive(v) == Overlay(v, 0, DIMENSIONLESS)
  {
  }

  lemma {:induction false} NothingPositive(v: Exponents)
    requires Factors(v, 0) == []
    ensures Positive(v) == DIMENSIONLESS
  {
    NoFactors(v, 0);
  }

  lemma {:induction false} JustOne()
    ensures ParseTokens(["1"]) == Done(DIMENSIONLESS)
  {
    assert ["1"][1..] == [];
  }

  /** The tokens of the denominator. */
  function Below(v: Exponents): seq<string> {
    if Factors(Negated(v), 0) == [] then [] else ["/"] + Above(Negated(v))
  }

  lemma {:induction false} JoinLexes(v: Exponents)
    ensures Factors(v, 0) != [] ==> Lexes(StringScan.Join(Factors(v, 0), "*"), Above(v))
    ensures Factors(v, 0) == [] ==> Lexes("1", Above(v))
  {
    NumberLexes("1");
    StarredLexes(v, 0);
    AboveIsProduct(v);
    hide Above, Factors, StarTokens, Lexes;
    if Factors(v, 0) != [] {
      LexOperator('*', StringScan.Join(Factors(v, 0), "*"), Above(v));
    }
  }

  lemma {:induction false} CanonicalLexes(v: Exponents)
    ensures Lexes(Canonical(v), Above(v) + Below(v))
  {
    JoinLexes(v);
    JoinLexes(Negated(v));
    FractionParts(v);
    hide Canonical, Factors, StarTokens, Lexes, StringScan.Join, Negated;
    var above, below := Factors(v, 0), Factors(Negated(v), 0);
    var num := if above == [] then "1" else StringScan.Join(above, "*");
    assert Lexes(num, Above(v));
    hide Above;
    if below != [] {
      var den := StringScan.Join(below, "*");
      LexOperator('/', den, Above(Negated(v)));
      LexAppend(num, Above(v), "/" + den, ["/"] + Above(Negated(v)));
    } else {
      assert Above(v) + [] == Above(v);
    }
  }

  lemma {:induction false} FractionParts(v: Exponents)
    ensures var above, below := Factors(v, 0), Factors(Negated(v), 0);
      var num := if above == [] then "1" else StringScan.Join(above, "*");
      Canonical(v) == if below == [] then num else num + ("/" + StringScan.Join(below, "*"))
  {
    hide Factors, StringScan.Join;
    var above, below := Factors(v, 0), Factors(Negated(v), 0);
    var num := if above == [] then "1" else StringScan.Join(above, "*");
    var den := StringScan.Join(below, "*");
    assert num + "/" + den == num + ("/" + den);
  }

  /** Whether a base before `k` has a negative exponent. */
  predicate NegativeBefore(v: Exponents, k: nat)
    requires k <= BASES
  {
    exists j :: 0 <= j < k && v[j] < 0
  }

  /** Every negative exponent after the first turned positive. */
  function Flipped(v: Exponents): Exponents {
    seq(BASES, k requires 0 <= k < BASES => if v[k] < 0 && NegativeBefore(v, k) then -v[k] else v[k])
  }

  predicate AtMostOneNegative(v: Exponents) {
    forall j, k :: 0 <= j < k < BASES ==> v[j] >= 0 || v[k] >= 0
  }

  lemma {:induction false} SkipStars(v: Exponents, i: nat, j: nat)
    requires i <= j < BASES && v[j] > 0 && forall k :: i <= k < j ==> v[k] <= 0
    ensures StarTokens(v, i) == ["*"] + FactorTokens(BaseSymbol(j), v[j]) + StarTokens(v, j + 1)
    decreases j - i
  {
    StarNext(v, i);
    hide StarTokens, FactorTokens;
    if i < j {
      SkipStars(v, i + 1, j);
      assert [] + StarTokens(v, i + 1) == StarTokens(v, i + 1);
    }
  }

  lemma {:induction false} FirstNegative(v: Exponents, i: nat) returns (j: nat)
    requires i <= BASES && exists k :: i <= k < BASES && v[k] < 0
    ensures i <= j < BASES && v[j] < 0 && forall k :: i <= k < j ==> v[k] >= 0
    decreases BASES - i
  {
    if v[i] < 0 {
      j := i;
    } else {
      j := FirstNegative(v, i + 1);
    }
  }

  lemma {:induction false} BelowParses(v: Exponents)
    requires Printable(v)
    ensures Fits(Positive(v))
    ensures ParseRest(Below(v), Positive(v)) == Done(Flipped(v))
  {
    NoFactors(Negated(v), 0);
    PositiveFits(v);
    if Factors(Negated(v), 0) == [] {
      NothingBelow(v);
      hide ParseRest, Positive, Flipped;
      RestEnds(Positive(v));
    } else {
      var k :| 0 <= k < BASES && Negated(v)[k] > 0;
      assert v[k] < 0;
      var j := FirstNegative(v, 0);
      SomethingBelow(v, j);
    }
  }

  lemma {:induction false} PositiveFits(v: Exponents)
    requires Printable(v)
    ensures Fits(Positive(v))
  {
  }

  lemma {:induction false} NothingBelow(v: Exponents)
    requires Factors(Negated(v), 0) == []
    ensures Below(v) == [] && Positive(v) == Flipped(v)
  {
    NoFactors(Negated(v), 0);
    forall k | 0 <= k < BASES ensures Positive(v)[k] == Flipped(v)[k] {
      assert Negated(v)[k] == -v[k];
    }
  }

  lemma {:induction false} SomethingBelow(v: Exponents, j: nat)
    requires Printable(v)
    requires j < BASES && v[j] < 0 && forall k :: 0 <= k < j ==> v[k] >= 0
    ensures Fits(Positive(v))
    ensures ParseRest(Below(v), Positive(v)) == Done(Flipped(v))
  {
    hide *;
    PositiveFits(v);
    BelowTokens(v, j);
    StarsBreak(Negated(v), j + 1);
    OthersBelow(v, j);
    LeastNegates(v, j);
    LastFactor(j, v[j], Positive(v), StarTokens(Negated(v), j + 1));
  }

  lemma {:induction false} LastFactor(j: nat, e: int, acc: Dimension, rest: seq<string>)
    requires j < BASES && MIN < e < 0 && acc[j] == 0 && (rest == [] || rest[0] != "^")
    ensures Fits(acc[j := e])
    ensures ParseRest(["/"] + FactorTokens(BaseSymbol(j), -e) + rest, acc) == ParseRest(rest, acc[j := e])
  {
    hide FactorTokens, ParseRest, BaseSymbol;
    PrintedFactor("/", j, -e, rest, acc);
    assert acc[j := -(-e)] == acc[j := e];
  }

  lemma {:induction false} LeastNegates(v: Exponents, j: nat)
    requires Printable(v) && j < BASES
    ensures MIN < v[j]
  {
  }

  lemma {:induction false} OthersBelow(v: Exponents, j: nat)
    requires Printable(v)
    requires j < BASES && v[j] < 0 && forall k :: 0 <= k < j ==> v[k] >= 0
    ensures Positive(v)[j] == 0 && Fits(Positive(v)[j := v[j]])
    ensures ParseRest(StarTokens(Negated(v), j + 1), Positive(v)[j := v[j]]) == Done(Flipped(v))
  {
    FlipIsOverlay(v, j);
    hide StarTokens, ParseRest, Positive, Overlay, Flipped;
    StarsRun(Negated(v), j + 1, Positive(v)[j := v[j]]);
  }

  lemma {:induction false} BelowTokens(v: Exponents, j: nat)
    requires j < BASES && v[j] < 0 && forall k :: 0 <= k < j ==> v[k] >= 0
    ensures Below(v) == ["/"] + FactorTokens(BaseSymbol(j), -v[j]) + StarTokens(Negated(v), j + 1)
  {
    hide *;
    NegatedSigns(v, j);
    SomeFactor(Negated(v), j);
    BelowIs(v);
    AboveIsProduct(Negated(v));
    SkipStars(Negated(v), 0, j);
    OtherLead("*", "/", Above(Negated(v)), FactorTokens(BaseSymbol(j), -v[j]), StarTokens(Negated(v), j + 1));
  }

  lemma {:induction false} SomeFactor(v: Exponents, j: nat)
    requires j < BASES && v[j] > 0
    ensures Factors(v, 0) != []
  {
    NoFactors(v, 0);
  }

  lemma {:induction false} BelowIs(v: Exponents)
    requires Factors(Negated(v), 0) != []
    ensures Below(v) == ["/"] + Above(Negated(v))
  {
  }

  lemma {:induction false} NegatedSigns(v: Exponents, j: nat)
    requires j < BASES && v[j] < 0 && forall k :: 0 <= k < j ==> v[k] >= 0
    ensures Negated(v)[j] == -v[j] > 0 && forall k :: 0 <= k < j ==> Negated(v)[k] <= 0
  {
  }

  lemma {:induction false} OtherLead(op: string, other: string, a: seq<string>, x: seq<string>, y: seq<string>)
    requires [op] + a == [op] + x + y
    ensures [other] + a == [other] + x + y
  {
    assert ([op] + a)[1..] == a && ([op] + x + y)[1..] == x + y;
  }

  lemma {:induction false} FlipIsOverlay(v: Exponents, j: nat)
    requires Printable(v)
    requires j < BASES && v[j] < 0 && forall k :: 0 <= k < j ==> v[k] >= 0
    ensures Overlay(Negated(v), j + 1, Positive(v)[j := v[j]]) == Flipped(v)
    ensures Printable(Negated(v)) && Fits(Positive(v)[j := v[j]])
    ensures Positive(v)[j] == 0
    ensures forall k :: j + 1 <= k < BASES && Negated(v)[k] > 0 ==> Positive(v)[j := v[j]][k] == 0
  {
    forall k | 0 <= k < BASES
      ensures Overlay(Negated(v), j + 1, Positive(v)[j := v[j]])[k] == Flipped(v)[k]
    {
      assert v[k] < 0 ==> (NegativeBefore(v, k) <==> k > j);
    }
  }

  lemma {:induction false} BelowStarts(v: Exponents)
    ensures Below(v) == [] || Below(v)[0] == "/"
  {
  }

  lemma {:induction false} NotNothing(v: Exponents)
    ensures Above(v) + Below(v) != []
  {
    AboveIsProduct(v);
  }

  lemma {:induction false} FlippedSame(v: Exponents)
    ensures Flipped(v) == v <==> AtMostOneNegative(v)
  {
    if AtMostOneNegative(v) {
      assert Flipped(v) == v;
    } else {
      var j, k :| 0 <= j < k < BASES && v[j] < 0 && v[k] < 0;
      assert NegativeBefore(v, k);
      assert Flipped(v)[k] == -v[k];
    }
  }

  // ----- canonical strings name dimensions --------------------------------------------------------

  lemma {:induction false} NoSlash(v: Exponents, i: nat)
    requires i <= BASES
    ensures "/" !in StarTokens(v, i)
    decreases BASES - i
  {
    if i < BASES {
      NoSlash(v, i + 1);
      StarNext(v, i);
      if v[i] > 0 {
        FactorNoSlash(i, v[i]);
      }
    }
  }

  lemma {:induction false} FactorNoSlash(i: nat, e: nat)
    requires i < BASES
    ensures "/" !in FactorTokens(BaseSymbol(i), e)
  {
    assert IsDigit(Dec(e)[0]);
    assert "/"[0] == '/';
    NotOperator(i);
  }

  lemma {:induction false} AboveNoSlash(v: Exponents)
    ensures "/" !in Above(v)
  {
    NoSlash(v, 0);
  }

  lemma {:induction false} ElementAt(a: seq<string>, x: seq<string>, i: int)
    ensures 0 <= i < |a| ==> (a + x)[i] == a[i] && (a + x)[i] in a
    ensures |a| <= i < |a| + |x| ==> (a + x)[i] == x[i - |a|]
  {
  }

  lemma {:induction false} SlashNotInside(a: seq<string>, x: seq<string>, b: seq<string>, y: seq<string>)
    requires "/" !in b && a + x == b + y && (x == [] || x[0] == "/")
    ensures |b| <= |a|
  {
    if |a| < |b| {
      ElementAt(a, x, |a|);
      ElementAt(b, y, |a|);
    }
  }

  /** A list is cut in one way at its first slash. */
  lemma {:induction false} CutAtSlash(a: seq<string>, x: seq<string>, b: seq<string>, y: seq<string>)
    requires "/" !in a && "/" !in b && a + x == b + y
    requires x == [] || x[0] == "/"
    requires y == [] || y[0] == "/"
    ensures a == b && x == y
  {
    SlashNotInside(a, x, b, y);
    SlashNotInside(b, y, a, x);
    var l := a + x;
    assert l[..|a|] == a && l[..|b|] == b && l[|a|..] == x && l[|b|..] == y;
  }

  lemma {:induction false} NegatedPrintable(v: Exponents)
    requires Printable(v)
    ensures Printable(Negated(v))
  {
  }

  /** The denominator read alone gives the negative exponents. */
  lemma {:induction false} BelowTells(v: Exponents)
    requires Printable(v)
    ensures Below(v) == [] ==> Positive(Negated(v)) == DIMENSIONLESS
    ensures Below(v) != [] ==> ParseTokens(Below(v)[1..]) == Done(Positive(Negated(v)))
  {
    NegatedPrintable(v);
    AboveParses(Negated(v));
    NoFactors(Negated(v), 0);
    hide ParseTokens;
    if Below(v) == [] {
      assert Positive(Negated(v)) == DIMENSIONLESS;
    } else {
      assert Below(v)[1..] == Above(Negated(v));
    }
  }

  lemma {:induction false} SameTokens(u: Exponents, v: Exponents)
    requires Canonical(u) == Canonical(v)
    ensures Above(u) == Above(v) && Below(u) == Below(v)
  {
    CanonicalLexes(u);
    CanonicalLexes(v);
    AboveNoSlash(u);
    AboveNoSlash(v);
    BelowStarts(u);
    BelowStarts(v);
    hide Above, Below, Canonical, Tokens;
    CutAtSlash(Above(u), Below(u), Above(v), Below(v));
  }

  lemma {:induction false} FlippedPrintable(v: Exponents)
    requires Printable(v)
    ensures Printable(Flipped(v))
  {
  }
}
