/** Printing and parsing of units. */
module UnitLaws {

  // The printer puts every negative exponent after one `/`, joined by `*`; the parser's `/` takes one
  // factor. So parsing a canonical string turns the sign of every negative exponent after the first,
  // and nothing else.

  import opened Units
  import opened UnitParse
  import opened Decimal
  import opened UnitLex
  import opened UnitPrinted

  /** After an accepted annotation, dividing by a unit and multiplying by its power -1 are the same:
      the same dimension, or the same error. */
  lemma {:induction false} SlashIsInversePower(a: string, f: string, unit: string)
    requires Parse(a).Done? && Lexes(f, [unit]) && unit !in ["*", "/", "^"]
    ensures Parse(a + "/" + f) == Parse(a + "*" + f + "^-1")
    ensures LookupUnit(unit).Failed? ==> Parse(a + "/" + f) == Failed(UnknownUnit(unit))
    ensures LookupUnit(unit).Done? ==>
      Parse(a + "/" + f) == Checked(Difference(Parse(a).value, LookupUnit(unit).value))
  {
    SplitTokens(a, f, unit);
    hide Parse, ParseTokens, ParseRest, LookupUnit;
    var ta := Tokens(a, 0).value;
    ParseIsOfTokens(a);
    ParseIsOfTokens(a + "/" + f);
    ParseIsOfTokens(a + "*" + f + "^-1");
    TokensAppendParse(ta, ["/", unit]);
    TokensAppendParse(ta, ["*", unit, "^", "-1"]);
    InversePower(unit, Parse(a).value);
  }

  /** Dividing by a power and multiplying by the opposite power can differ only at the edge of 32 bits:
      the least exponent has no opposite, and a power may fit on one side only. */
  predicate OppositePowersAgree(u: Exponents, n: int, d: Exponents) {
    n != MIN && ((Fits(Scaled(u, n)) <==> Fits(Scaled(u, -n))) || !Fits(Difference(d, Scaled(u, n))))
  }

  /** The general law: after an accepted annotation, `/u^n` and `*u^-n` give the same result, or the
      same error, exactly when the unit is unknown or its opposite powers agree. */
  lemma {:induction false} SlashPowerIsOppositePower(a: string, f: string, unit: string, n: int)
    requires Parse(a).Done? && Lexes(f, [unit]) && unit !in ["*", "/", "^"] && InI32(n)
    ensures Parse(a + "/" + f + "^" + DecInt(n)) == Parse(a + "*" + f + "^" + DecInt(-n)) <==>
      (LookupUnit(unit).Done? ==> OppositePowersAgree(LookupUnit(unit).value, n, Parse(a).value))
    ensures LookupUnit(unit).Done? && Fits(Scaled(LookupUnit(unit).value, n)) ==>
      Parse(a + "/" + f + "^" + DecInt(n)) == Checked(Difference(Parse(a).value, Scaled(LookupUnit(unit).value, n)))
  {
    hide *;
    PowerParses(a, '/', f, unit, n);
    PowerParses(a, '*', f, unit, -n);
    OneSlash();
    PowerOutcomes(unit, n, Parse(a).value);
  }

  lemma {:induction false} OneSlash()
    ensures ['/'] == "/" && ['*'] == "*"
  {
  }

  lemma {:induction false} PowerOutcomes(unit: string, n: int, d: Dimension)
    requires unit !in ["*", "/", "^"] && InI32(n)
    ensures ParseRest(["/", unit, "^", DecInt(n)], d) == ParseRest(["*", unit, "^", DecInt(-n)], d) <==>
      (LookupUnit(unit).Done? ==> OppositePowersAgree(LookupUnit(unit).value, n, d))
    ensures LookupUnit(unit).Done? && Fits(Scaled(LookupUnit(unit).value, n)) ==>
      ParseRest(["/", unit, "^", DecInt(n)], d) == Checked(Difference(d, Scaled(LookupUnit(unit).value, n)))
  {
    NumberToken(n);
    NumberToken(-n);
    PowerTokens("/", unit, DecInt(n), d);
    PowerTokens("*", unit, DecInt(-n), d);
    assert InI32(-n) <==> n != MIN;
    if LookupUnit(unit).Done? {
      var u := LookupUnit(unit).value;
      OppositeSum(d, u, n);
      assert Combine("/", d, Scaled(u, n)) == Difference(d, Scaled(u, n)) == Combine("*", d, Scaled(u, -n));
      hide ParseRest, LookupUnit, ParseI32, Scaled, Difference, Sum, Fits, DecInt, Combine;
    }
  }

  lemma {:induction false} OppositeSum(d: Exponents, u: Exponents, n: int)
    ensures Sum(d, Scaled(u, -n)) == Difference(d, Scaled(u, n))
  {
    forall i | 0 <= i < BASES ensures u[i] * -n == -(u[i] * n) {}
  }

  /** Both edges are met: by the coulomb at the least power, and by the newton at 2^30. */
  lemma {:induction false} EdgePowersDiffer()
    ensures LookupUnit("C").Done? && LookupUnit("N").Done?
    ensures !OppositePowersAgree(LookupUnit("C").value, MIN, DIMENSIONLESS)
    ensures !OppositePowersAgree(LookupUnit("N").value, 0x4000_0000, [0, 0, -1, 0, 0, 0, 0])
  {
    var u, n := [1, 1, -2, 0, 0, 0, 0], 0x4000_0000;
    assert Scaled(u, n) == [n, n, MIN, 0, 0, 0, 0] && Fits(Scaled(u, n));
    assert !InI32(Scaled(u, -n)[2]);
    assert Difference([0, 0, -1, 0, 0, 0, 0], Scaled(u, n)) == [-n, -n, 0x7fff_ffff, 0, 0, 0, 0];
  }

  /** Parsing what was printed gives the dimension back with the sign of every negative exponent
      after the first turned; so print and parse cancel exactly when at most one is negative. */
  lemma {:induction false} PrintThenParse(v: Dimension)
    requires Printable(v)
    ensures Fits(Flipped(v)) && Parse(Canonical(v)) == Done(Flipped(v))
    ensures Parse(Canonical(v)) == Done(v) <==> AtMostOneNegative(v)
  {
    CanonicalLexes(v);
    AboveIsProduct(v);
    AboveParses(v);
    BelowParses(v);
    FlippedSame(v);
    ParseIsOfTokens(Canonical(v));
    BelowStarts(v);
    TokensAppendParse(Above(v), Below(v));
    NotNothing(v);
  }

  /** Dimensions print alike only if they are alike. */
  lemma {:induction false} CanonicalInjective(u: Dimension, v: Dimension)
    requires Printable(u) && Printable(v)
    ensures Canonical(u) == Canonical(v) <==> u == v
  {
    if Canonical(u) == Canonical(v) {
      SameTokens(u, v);
      AboveParses(u);
      AboveParses(v);
      BelowTells(u);
      BelowTells(v);
      SignsApart(u);
      SignsApart(v);
      hide *;
    }
  }

  /** Two accepted annotations get one canonical string exactly when they mean one dimension. */
  lemma {:induction false} SameStringSameDimension(a: string, b: string)
    requires Canonicalize(a).Done? && Canonicalize(b).Done?
    ensures Parse(a).Done? && Parse(b).Done?
    ensures Canonicalize(a) == Canonicalize(b) <==> Parse(a) == Parse(b)
  {
    hide Parse, Canonical;
    CanonicalInjective(Parse(a).value, Parse(b).value);
  }

  /** A canonical string is its own canonical string exactly when it has at most one negative
      exponent; otherwise canonicalizing again names another dimension. */
  lemma {:induction false} CanonicalizeAgain(v: Dimension)
    requires Printable(v)
    ensures Fits(Flipped(v)) && Canonicalize(Canonical(v)) == Done(Canonical(Flipped(v)))
    ensures Canonicalize(Canonical(v)) == Done(Canonical(v)) <==> AtMostOneNegative(v)
  {
    PrintThenParse(v);
    FlippedPrintable(v);
    FlippedSame(v);
    hide Parse, Canonical, Flipped, AtMostOneNegative;
    CanonicalInjective(Flipped(v), v);
  }

  /** The case in point: what the table gives for the volt prints as a string that means something
      else. */
  lemma {:induction false} VoltPrintsWrong()
    ensures LookupUnit("V").Done? && !AtMostOneNegative(LookupUnit("V").value)
    ensures Parse(Canonical(LookupUnit("V").value)) == Done([2, 1, -3, 1, 0, 0, 0])
  {
    VoltFlips();
    hide Parse, Canonical, Flipped, AtMostOneNegative;
    PrintThenParse([2, 1, -3, -1, 0, 0, 0]);
  }

  lemma {:induction false} VoltFlips()
    ensures Printable([2, 1, -3, -1, 0, 0, 0])
    ensures Flipped([2, 1, -3, -1, 0, 0, 0]) == [2, 1, -3, 1, 0, 0, 0]
    ensures !AtMostOneNegative([2, 1, -3, -1, 0, 0, 0])
  {
    var v: Exponents := [2, 1, -3, -1, 0, 0, 0];
    assert v[2] < 0 && v[3] < 0;
    assert NegativeBefore(v, 3);
    assert !NegativeBefore(v, 2);
  }
}
