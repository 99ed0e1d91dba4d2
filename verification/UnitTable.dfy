/** What the units of the table mean. */
module UnitTable {

  // Every unit is told through the parser: the base units by their exponents, the derived units by
  // annotations that define them. And the printer's order of the base units.

  import opened Decimal
  import opened Options
  import opened Units
  import opened UnitParse
  import opened UnitLex
  import opened UnitPrinted
  import StringScan

  /** A factor alone means what the table gives for it. */
  lemma {:induction false} Alone(f: string, unit: string)
    requires Lexes(f, [unit]) && unit !in ["*", "/", "^"]
    ensures Parse(f) == LookupUnit(unit)
  {
    LexedParse(f, [unit]);
    LookupIsSmall(unit);
    RestEnds(DIMENSIONLESS);
    hide LookupUnit;
    assert [unit][1..] == [];
  }

  lemma {:induction false} OperatorAndUnit(op: string, unit: string, d: Dimension)
    requires (op == "*" || op == "/") && unit !in ["*", "/", "^"] && LookupUnit(unit).Done?
    ensures ParseRest([op, unit], d) == Checked(Combine(op, d, LookupUnit(unit).value))
  {
    hide LookupUnit, Fits, Combine;
    var ts := [op, unit];
    assert ts[1..] == [unit] && ts[2..] == [];
  }

  /** One more factor multiplies or divides what was read before. */
  lemma {:induction false} OneMoreFactor(a: string, op: char, f: string, unit: string)
    requires Parse(a).Done? && (op == '*' || op == '/')
    requires Lexes(f, [unit]) && unit !in ["*", "/", "^"] && LookupUnit(unit).Done?
    ensures var d, u := Parse(a).value, LookupUnit(unit).value;
      Parse(a + [op] + f) == Checked(if op == '*' then Sum(d, u) else Difference(d, u))
  {
    ParseIsOfTokens(a);
    Itself(a);
    var ta := Tokens(a, 0).value;
    assert ['*'] == "*" && ['/'] == "/";
    OperatorAndUnit([op], unit, Parse(a).value);
    hide Parse, ParseTokens, ParseRest, LookupUnit, Tokens, Lexes, Sum, Difference;
    OperatorThen(a, ta, op, f, unit);
    LexedParse(a + [op] + f, ta + [[op], unit]);
    TokensAppendParse(ta, [[op], unit]);
  }

  /** The same with a power. */
  lemma {:induction false} OneMorePower(a: string, op: char, f: string, unit: string, n: int)
    requires Parse(a).Done? && (op == '*' || op == '/') && InI32(n)
    requires Lexes(f, [unit]) && unit !in ["*", "/", "^"] && LookupUnit(unit).Done?
    ensures var d, v := Parse(a).value, Scaled(LookupUnit(unit).value, n);
      Parse(a + [op] + f + "^" + DecInt(n))
      == if Fits(v) then Checked(if op == '*' then Sum(d, v) else Difference(d, v)) else Overflowed
  {
    assert ['*'] == "*" && ['/'] == "/";
    NumberToken(n);
    hide Parse, ParseRest, LookupUnit, Lexes, Sum, Difference, Scaled, Fits, DecInt, ParseI32;
    PowerParses(a, op, f, unit, n);
    PowerTokens([op], unit, DecInt(n), Parse(a).value);
  }

  lemma {:induction false} Word(s: string)
    requires s != "" && forall k :: 0 <= k < |s| ==> IsLetter(s[k])
    ensures Lexes(s, [s]) && s !in ["*", "/", "^"]
    ensures Parse(s) == LookupUnit(s)
  {
    WordLexes(s);
    assert s !in ["*", "/", "^"];
    Alone(s, s);
  }

  /** The number one stands for no unit. */
  lemma {:induction false} One()
    ensures Parse("1") == Done([0, 0, 0, 0, 0, 0, 0])
  {
    NumberLexes("1");
    Alone("1", "1");
  }

  /** The base units in their order, which is that of the exponents. */
  lemma {:induction false} BaseUnits()
    ensures forall i :: 0 <= i < 7 ==> Parse(["m", "kg", "s", "A", "K", "mol", "cd"][i]) == Done(Unit(i))
  {
    forall i | 0 <= i < 7 ensures Parse(["m", "kg", "s", "A", "K", "mol", "cd"][i]) == Done(Unit(i)) {
      Spelled(i);
      BaseUnit(i);
    }
  }

  /** A one among the exponents. */
  function Unit(i: nat): Exponents
    requires i < 7
  {
    [if i == 0 then 1 else 0, if i == 1 then 1 else 0, if i == 2 then 1 else 0, if i == 3 then 1 else 0,
     if i == 4 then 1 else 0, if i == 5 then 1 else 0, if i == 6 then 1 else 0]
  }

  lemma {:induction false} Spelled(i: nat)
    requires i < 7
    ensures BaseSymbol(i) == ["m", "kg", "s", "A", "K", "mol", "cd"][i]
  {
  }

  lemma {:induction false} BaseUnit(i: nat)
    requires i < 7
    ensures Parse(BaseSymbol(i)) == Done(Unit(i))
  {
    SymbolLexes(i);
    NotOperator(i);
    LookupBase(i);
    hide Parse, LookupUnit, Lexes, BaseSymbol;
    Alone(BaseSymbol(i), BaseSymbol(i));
    assert Base(i) == Unit(i);
  }

  lemma {:induction false} Product(a: string, f: string)
    requires Parse(a).Done? && f != "" && (forall k :: 0 <= k < |f| ==> IsLetter(f[k])) && Parse(f).Done?
    ensures Parse(a + "*" + f) == Checked(Sum(Parse(a).value, Parse(f).value))
    ensures Parse(a + "/" + f) == Checked(Difference(Parse(a).value, Parse(f).value))
  {
    Word(f);
    hide Parse, LookupUnit, Lexes, Sum, Difference;
    assert ['*'] == "*" && ['/'] == "/";
    OneMoreFactor(a, '*', f, f);
    OneMoreFactor(a, '/', f, f);
  }

  lemma {:induction false} OverSquare(a: string, f: string)
    requires Parse(a).Done? && f != "" && (forall k :: 0 <= k < |f| ==> IsLetter(f[k])) && Parse(f).Done?
    ensures var v := Scaled(Parse(f).value, 2);
      Parse(a + "/" + f + "^2") == if Fits(v) then Checked(Difference(Parse(a).value, v)) else Overflowed
  {
    Word(f);
    assert ['/'] == "/" && DecInt(2) == "2" && "^" + "2" == "^2";
    hide Parse, LookupUnit, Lexes, Difference, Scaled, Fits, DecInt;
    OneMorePower(a, '/', f, f, 2);
    assert a + "/" + f + "^" + "2" == a + "/" + f + "^2";
  }

  // ----- the derived units --------------------------------------------------------------------------

  lemma {:induction false} Hertz()
    ensures Parse("Hz") == Done([0, 0, -1, 0, 0, 0, 0])
  {
    Word("Hz");
  }

  lemma {:induction false} Newton()
    ensures Parse("N") == Done([1, 1, -2, 0, 0, 0, 0])
  {
    Word("N");
  }

  lemma {:induction false} Pascal()
    ensures Parse("Pa") == Done([-1, 1, -2, 0, 0, 0, 0])
  {
    Word("Pa");
  }

  lemma {:induction false} Joule()
    ensures Parse("J") == Done([2, 1, -2, 0, 0, 0, 0])
  {
    Word("J");
  }

  lemma {:induction false} Watt()
    ensures Parse("W") == Done([2, 1, -3, 0, 0, 0, 0])
  {
    Word("W");
  }

  lemma {:induction false} Coulomb()
    ensures Parse("C") == Done([0, 0, 1, 1, 0, 0, 0])
  {
    Word("C");
  }

  lemma {:induction false} Volt()
    ensures Parse("V") == Done([2, 1, -3, -1, 0, 0, 0])
  {
    Word("V");
  }

  /** The first four base units, which the derived ones are made of. */
  lemma {:induction false} FourBaseUnits()
    ensures Parse("m") == Done([1, 0, 0, 0, 0, 0, 0]) && Parse("kg") == Done([0, 1, 0, 0, 0, 0, 0])
    ensures Parse("s") == Done([0, 0, 1, 0, 0, 0, 0]) && Parse("A") == Done([0, 0, 0, 1, 0, 0, 0])
  {
    hide *;
    BaseUnits();
    var bases := ["m", "kg", "s", "A", "K", "mol", "cd"];
    assert Parse(bases[0]) == Done(Unit(0)) && Parse(bases[1]) == Done(Unit(1));
    assert Parse(bases[2]) == Done(Unit(2)) && Parse(bases[3]) == Done(Unit(3));
    Units4();
  }

  lemma {:induction false} Units4()
    ensures Unit(0) == [1, 0, 0, 0, 0, 0, 0] && Unit(1) == [0, 1, 0, 0, 0, 0, 0]
    ensures Unit(2) == [0, 0, 1, 0, 0, 0, 0] && Unit(3) == [0, 0, 0, 1, 0, 0, 0]
  {
  }

  /** A hertz is one a second. */
  lemma {:induction false} HertzIs()
    ensures Parse("Hz") == Parse("1/s")
  {
    One();
    FourBaseUnits();
    Hertz();
    hide Parse;
    Product("1", "s");
    assert "1" + "/" + "s" == "1/s";
    assert Difference([0, 0, 0, 0, 0, 0, 0], [0, 0, 1, 0, 0, 0, 0]) == [0, 0, -1, 0, 0, 0, 0];
  }

  /** A newton is a kilogram metre a second squared. */
  lemma {:induction false} NewtonIs()
    ensures Parse("N") == Parse("kg*m/s^2")
  {
    FourBaseUnits();
    Newton();
    hide Parse;
    Product("kg", "m");
    assert "kg" + "*" + "m" == "kg*m";
    assert Sum([0, 1, 0, 0, 0, 0, 0], [1, 0, 0, 0, 0, 0, 0]) == [1, 1, 0, 0, 0, 0, 0];
    assert Scaled([0, 0, 1, 0, 0, 0, 0], 2) == [0, 0, 2, 0, 0, 0, 0];
    OverSquare("kg*m", "s");
    assert "kg*m" + "/" + "s" + "^2" == "kg*m/s^2";
    assert Difference([1, 1, 0, 0, 0, 0, 0], [0, 0, 2, 0, 0, 0, 0]) == [1, 1, -2, 0, 0, 0, 0];
  }

  /** A pascal is a newton a square metre. */
  lemma {:induction false} PascalIs()
    ensures Parse("Pa") == Parse("N/m^2")
  {
    FourBaseUnits();
    Newton();
    Pascal();
    hide Parse;
    OverSquare("N", "m");
    assert "N" + "/" + "m" + "^2" == "N/m^2";
    assert Scaled([1, 0, 0, 0, 0, 0, 0], 2) == [2, 0, 0, 0, 0, 0, 0];
    assert Difference([1, 1, -2, 0, 0, 0, 0], [2, 0, 0, 0, 0, 0, 0]) == [-1, 1, -2, 0, 0, 0, 0];
  }

  /** A joule is a newton metre. */
  lemma {:induction false} JouleIs()
    ensures Parse("J") == Parse("N*m")
  {
    FourBaseUnits();
    Newton();
    Joule();
    hide Parse;
    Product("N", "m");
    assert "N" + "*" + "m" == "N*m";
    assert Sum([1, 1, -2, 0, 0, 0, 0], [1, 0, 0, 0, 0, 0, 0]) == [2, 1, -2, 0, 0, 0, 0];
  }

  /** A watt is a joule a second. */
  lemma {:induction false} WattIs()
    ensures Parse("W") == Parse("J/s")
  {
    FourBaseUnits();
    Joule();
    Watt();
    hide Parse;
    Product("J", "s");
    assert "J" + "/" + "s" == "J/s";
    assert Difference([2, 1, -2, 0, 0, 0, 0], [0, 0, 1, 0, 0, 0, 0]) == [2, 1, -3, 0, 0, 0, 0];
  }

  /** A volt is a watt an ampere. */
  lemma {:induction false} VoltIs()
    ensures Parse("V") == Parse("W/A")
  {
    FourBaseUnits();
    Watt();
    Volt();
    hide Parse;
    Product("W", "A");
    assert "W" + "/" + "A" == "W/A";
    assert Difference([2, 1, -3, 0, 0, 0, 0], [0, 0, 0, 1, 0, 0, 0]) == [2, 1, -3, -1, 0, 0, 0];
  }

  /** A coulomb is an ampere second. */
  lemma {:induction false} CoulombIs()
    ensures Parse("C") == Parse("A*s")
  {
    FourBaseUnits();
    Coulomb();
    hide Parse;
    Product("A", "s");
    assert "A" + "*" + "s" == "A*s";
    assert Sum([0, 0, 0, 1, 0, 0, 0], [0, 0, 1, 0, 0, 0, 0]) == [0, 0, 1, 1, 0, 0, 0];
  }

  /** The derived units by their definitions. */
  lemma {:induction false} DerivedUnits()
    ensures Parse("Hz") == Parse("1/s") && Parse("N") == Parse("kg*m/s^2") && Parse("Pa") == Parse("N/m^2")
    ensures Parse("J") == Parse("N*m") && Parse("W") == Parse("J/s") && Parse("V") == Parse("W/A")
    ensures Parse("C") == Parse("A*s")
  {
    hide *;
    HertzIs();
    NewtonIs();
    PascalIs();
    JouleIs();
    WattIs();
    VoltIs();
    CoulombIs();
  }

  /** No other token is a unit. */
  lemma {:induction false} KnownTokens(token: string)
    ensures LookupUnit(token).Done? <==>
      token in ["1", "m", "kg", "s", "A", "K", "mol", "cd", "Hz", "N", "Pa", "J", "W", "C", "V"]
    ensures !LookupUnit(token).Done? ==> LookupUnit(token) == Failed(UnknownUnit(token))
  {
  }

  // ----- the printed form -----------------------------------------------------------------------------

  /** A positive power of a unit, as it is printed. */
  function Printed(symbol: string, e: int): seq<string> {
    if e <= 0 then [] else if e == 1 then [symbol] else [symbol + "^" + DecInt(e)]
  }

  function InOrder(v: Exponents): seq<string> {
    Printed("m", v[0]) + Printed("kg", v[1]) + Printed("s", v[2]) + Printed("A", v[3])
    + Printed("K", v[4]) + Printed("mol", v[5]) + Printed("cd", v[6])
  }

  lemma {:induction false} FactorIsPrinted(v: Exponents, i: nat)
    requires i < BASES
    ensures Factors(v, i) == Printed(BaseSymbol(i), v[i]) + Factors(v, i + 1)
  {
    FactorsNext(v, i);
    hide Factors, BaseSymbol, Dec;
  }

  lemma {:induction false} Symbols()
    ensures BaseSymbol(0) == "m" && BaseSymbol(1) == "kg" && BaseSymbol(2) == "s" && BaseSymbol(3) == "A"
    ensures BaseSymbol(4) == "K" && BaseSymbol(5) == "mol" && BaseSymbol(6) == "cd"
  {
  }

  lemma {:induction false} FactorsInOrder(v: Exponents)
    ensures Factors(v, 0) == InOrder(v)
  {
    Symbols();
    NoFactorsLeft(v);
    hide Factors, BaseSymbol, Printed;
    FactorIsPrinted(v, 0);
    FactorIsPrinted(v, 1);
    FactorIsPrinted(v, 2);
    FactorIsPrinted(v, 3);
    FactorIsPrinted(v, 4);
    FactorIsPrinted(v, 5);
    FactorIsPrinted(v, 6);
  }

  /** The positive powers in the order of the base units, and after a slash the negative ones. */
  lemma {:induction false} PrintedForm(v: Exponents)
    ensures var above, below := InOrder(v), InOrder(Negated(v));
      Canonical(v) == (if above == [] then "1" else StringScan.Join(above, "*"))
                      + (if below == [] then "" else "/" + StringScan.Join(below, "*"))
  {
    FactorsInOrder(v);
    FactorsInOrder(Negated(v));
    hide InOrder, StringScan.Join, Factors;
  }
}
