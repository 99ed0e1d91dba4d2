/** Physical dimensions and their canonical string. */
module Units {

  // Physical dimensions: vectors of seven exponents over the SI base units, their arithmetic in
  // 32-bit integers, the unit table, and the canonical string.

  import opened Decimal
  import opened StringScan

  /** What the code does: a value, an error, or arithmetic that leaves 32 bits (a panic in a checked
      build). */
  datatype Outcome<+T> = Done(value: T) | Failed(error: UnitError) | Overflowed

  datatype UnitError =
    | Mismatch(left: Dimension, right: Dimension, operation: string)
    | UnknownUnit(unit: string)
    | ParseError(reason: Reason)

  datatype Reason =
    | EmptyAnnotation
    | NoFactors
    | ExpectedOperator(found: string)
    | EndOfInput
    | ExpectedUnit(found: string)
    | ExpectedExponent
    | InvalidExponent(found: string)
    | StrayMinus
    | UnexpectedCharacter(c: char)

  const BASES: nat := 7
  const MIN: int := -0x8000_0000

  predicate InI32(i: int) { MIN <= i <= 0x7fff_ffff }

  /** Exponents of any size. */
  type Exponents = v: seq<int> | |v| == BASES witness [0, 0, 0, 0, 0, 0, 0]

  predicate Fits(v: Exponents) { forall i :: 0 <= i < BASES ==> InI32(v[i]) }

  type Dimension = v: Exponents | Fits(v) witness [0, 0, 0, 0, 0, 0, 0]

  const DIMENSIONLESS: Dimension := [0, 0, 0, 0, 0, 0, 0]

  /** The order of the bases: length, mass, time, current, temperature, amount, intensity. */
  function BaseSymbol(i: nat): string
    requires i < BASES
  {
    ["m", "kg", "s", "A", "K", "mol", "cd"][i]
  }

  // ----- arithmetic -----------------------------------------------------------------------------

  function Sum(a: Exponents, b: Exponents): Exponents { seq(BASES, i requires 0 <= i < BASES => a[i] + b[i]) }

  function Difference(a: Exponents, b: Exponents): Exponents {
    seq(BASES, i requires 0 <= i < BASES => a[i] - b[i])
  }

  function Scaled(a: Exponents, n: int): Exponents { seq(BASES, i requires 0 <= i < BASES => a[i] * n) }

  function Checked(v: Exponents): Outcome<Dimension> { if Fits(v) then Done(v) else Overflowed }

  method Multiply(a: Dimension, b: Dimension) returns (r: Outcome<Dimension>)
    ensures r == Checked(Sum(a, b))
  {
    var exps: Exponents := a;
    for i := 0 to BASES
      invariant forall k :: 0 <= k < i ==> exps[k] == a[k] + b[k] && InI32(exps[k])
      invariant forall k :: i <= k < BASES ==> exps[k] == a[k]
    {
      if !InI32(exps[i] + b[i]) {
        assert !InI32(Sum(a, b)[i]);
        return Overflowed;
      }
      exps := exps[i := exps[i] + b[i]];
    }
    assert exps == Sum(a, b);
    return Done(exps);
  }

  method Divide(a: Dimension, b: Dimension) returns (r: Outcome<Dimension>)
    ensures r == Checked(Difference(a, b))
  {
    var exps: Exponents := a;
    for i := 0 to BASES
      invariant forall k :: 0 <= k < i ==> exps[k] == a[k] - b[k] && InI32(exps[k])
      invariant forall k :: i <= k < BASES ==> exps[k] == a[k]
    {
      if !InI32(exps[i] - b[i]) {
        assert !InI32(Difference(a, b)[i]);
        return Overflowed;
      }
      exps := exps[i := exps[i] - b[i]];
    }
    assert exps == Difference(a, b);
    return Done(exps);
  }

  method Powi(a: Dimension, n: int) returns (r: Outcome<Dimension>)
    requires InI32(n)
    ensures r == Checked(Scaled(a, n))
  {
    var exps: Exponents := a;
    for i := 0 to BASES
      invariant forall k :: 0 <= k < i ==> exps[k] == a[k] * n && InI32(exps[k])
      invariant forall k :: i <= k < BASES ==> exps[k] == a[k]
    {
      if !InI32(exps[i] * n) {
        assert !InI32(Scaled(a, n)[i]);
        return Overflowed;
      }
      exps := exps[i := exps[i] * n];
    }
    assert exps == Scaled(a, n);
    return Done(exps);
  }

  method Reciprocal(a: Dimension) returns (r: Outcome<Dimension>)
    ensures r == Checked(Difference(DIMENSIONLESS, a))
  {
    r := Powi(a, -1);
    assert Scaled(a, -1) == Difference(DIMENSIONLESS, a);
  }

  /** The group laws, as far as 32 bits reach: a quotient undoes a product, a product undoes a
      quotient, and dividing is multiplying by the reciprocal. */
  lemma {:induction false} QuotientUndoesProduct(a: Dimension, b: Dimension)
    ensures Fits(Sum(a, b)) ==> Checked(Difference(Sum(a, b), b)) == Done(a)
    ensures Fits(Difference(a, b)) ==> Checked(Sum(Difference(a, b), b)) == Done(a)
    ensures Difference(a, b) == Sum(a, Difference(DIMENSIONLESS, b))
    ensures Sum(a, b) == Sum(b, a) && Sum(a, DIMENSIONLESS) == a
  {
    assert Difference(Sum(a, b), b) == a;
    assert Sum(Difference(a, b), b) == a;
  }

  // ----- the unit table ---------------------------------------------------------------------------

  function Base(i: nat): Dimension
    requires i < BASES
  {
    DIMENSIONLESS[i := 1]
  }

  function LookupUnit(token: string): Outcome<Dimension> {
    if token == "1" then Done(DIMENSIONLESS)
    else if token == "m" then Done(Base(0))
    else if token == "kg" then Done(Base(1))
    else if token == "s" then Done(Base(2))
    else if token == "A" then Done(Base(3))
    else if token == "K" then Done(Base(4))
    else if token == "mol" then Done(Base(5))
    else if token == "cd" then Done(Base(6))
    else if token == "Hz" then Done([0, 0, -1, 0, 0, 0, 0])
    else if token == "N" then Done([1, 1, -2, 0, 0, 0, 0])
    else if token == "Pa" then Done([-1, 1, -2, 0, 0, 0, 0])
    else if token == "J" then Done([2, 1, -2, 0, 0, 0, 0])
    else if token == "W" then Done([2, 1, -3, 0, 0, 0, 0])
    else if token == "C" then Done([0, 0, 1, 1, 0, 0, 0])
    else if token == "V" then Done([2, 1, -3, -1, 0, 0, 0])
    else Failed(UnknownUnit(token))
  }

  lemma {:induction false} LookupBase(i: nat)
    requires i < BASES
    ensures LookupUnit(BaseSymbol(i)) == Done(Base(i))
  {
  }

  lemma {:induction false} LookupIsSmall(token: string)
    ensures LookupUnit(token).Done? ==> forall i :: 0 <= i < BASES ==> -3 <= LookupUnit(token).value[i] <= 3
    ensures LookupUnit(token).Done? || LookupUnit(token) == Failed(UnknownUnit(token))
  {
  }

  // ----- the canonical string -----------------------------------------------------------------------

  function FactorString(symbol: string, exp: nat): string {
    if exp == 1 then symbol else symbol + "^" + Dec(exp)
  }

  /** The factors with positive exponents, from base `i` on. */
  function Factors(v: Exponents, i: nat): seq<string>
    requires i <= BASES
    decreases BASES - i
  {
    if i == BASES then []
    else (if v[i] > 0 then [FactorString(BaseSymbol(i), v[i])] else []) + Factors(v, i + 1)
  }

  function Negated(v: Exponents): Exponents { seq(BASES, i requires 0 <= i < BASES => -v[i]) }

  /** The string for a numerator and a denominator. */
  function Fraction(above: seq<string>, below: seq<string>): string {
    if above == [] && below == [] then "1"
    else
      var num := if above == [] then "1" else Join(above, "*");
      if below == [] then num else num + "/" + Join(below, "*")
  }

  function Canonical(v: Exponents): string { Fraction(Factors(v, 0), Factors(Negated(v), 0)) }

  /** The least exponent cannot be negated in 32 bits. */
  predicate Printable(v: Exponents) { forall i :: 0 <= i < BASES ==> MIN < v[i] <= 0x7fff_ffff }

  function ToCanonicalString(d: Dimension): Outcome<string> {
    if Printable(d) then Done(Canonical(d)) else Overflowed
  }

  lemma {:induction false} FactorsNext(v: Exponents, i: nat)
    requires i < BASES
    ensures Factors(v, i) == (if v[i] > 0 then [FactorString(BaseSymbol(i), v[i])] else []) + Factors(v, i + 1)
  {
  }

  method PrintDimension(d: Dimension) returns (r: Outcome<string>)
    ensures r == ToCanonicalString(d)
  {
    hide Factors, FactorString, Fraction;
    var numerator: seq<string>, denominator: seq<string> := [], [];
    for i := 0 to BASES
      invariant forall k :: 0 <= k < i ==> d[k] != MIN
      invariant numerator + Factors(d, i) == Factors(d, 0)
      invariant denominator + Factors(Negated(d), i) == Factors(Negated(d), 0)
    {
      FactorsNext(d, i);
      FactorsNext(Negated(d), i);
      var e := d[i];
      if e > 0 {
        numerator := numerator + [FactorString(BaseSymbol(i), e)];
      } else if e < 0 {
        if e == MIN {
          return Overflowed;
        }
        denominator := denominator + [FactorString(BaseSymbol(i), -e)];
      }
    }
    NoFactorsLeft(d);
    NoFactorsLeft(Negated(d));
    assert numerator + [] == numerator && denominator + [] == denominator;
    return Done(Fraction(numerator, denominator));
  }

  lemma {:induction false} NoFactorsLeft(v: Exponents)
    ensures Factors(v, BASES) == []
  {
  }
}
