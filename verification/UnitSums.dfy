/** What an accepted unit annotation means. */
module UnitSums {

  // It is the sum of the exponents of its factors, each with its sign, in whatever order they stand.

  import opened Options
  import opened Units
  import opened UnitParse
  import opened UnitLex
  import opened UnitPrinted
  import opened Multisets

  /** A factor after its operator, as it is spelled. */
  datatype Term = Term(op: string, unit: string, power: Option<string>)

  function Spell(t: Term): seq<string> {
    [t.op, t.unit] + if t.power.Some? then ["^", t.power.value] else []
  }

  function SpellAll(terms: seq<Term>): seq<string> {
    if terms == [] then [] else Spell(terms[0]) + SpellAll(terms[1..])
  }

  function PowerOf(t: Term): Option<int> { if t.power.None? then Some(1) else ParseI32(t.power.value) }

  /** The operator is one, the unit is in the table and the power is a 32-bit number. */
  predicate Known(t: Term) {
    (t.op == "*" || t.op == "/") && LookupUnit(t.unit).Done? && PowerOf(t).Some?
  }

  predicate AllKnown(terms: seq<Term>) { forall i :: 0 <= i < |terms| ==> Known(terms[i]) }

  function PowerVector(t: Term): Exponents
    requires Known(t)
  {
    Scaled(LookupUnit(t.unit).value, PowerOf(t).value)
  }

  /** What a term adds: its power, negated after a `/`. */
  function Amount(t: Term): Exponents
    requires Known(t)
  {
    if t.op == "*" then PowerVector(t) else Negated(PowerVector(t))
  }

  function Total(terms: seq<Term>): Exponents
    requires AllKnown(terms)
  {
    if terms == [] then DIMENSIONLESS else Sum(Amount(terms[0]), Total(terms[1..]))
  }

  /** No power and no partial sum leaves 32 bits. */
  predicate Stays(terms: seq<Term>, acc: Exponents)
    requires AllKnown(terms)
  {
    terms == [] ||
    (Fits(PowerVector(terms[0])) && Fits(Sum(acc, Amount(terms[0]))) && Stays(terms[1..], Sum(acc, Amount(terms[0]))))
  }

  lemma {:induction false} SumAssociates(a: Exponents, b: Exponents, c: Exponents)
    ensures Sum(Sum(a, b), c) == Sum(a, Sum(b, c))
  {
  }

  lemma {:induction false} AddsAmount(t: Term, acc: Exponents)
    requires Known(t)
    ensures Combine(t.op, acc, PowerVector(t)) == Sum(acc, Amount(t))
  {
    assert Difference(acc, PowerVector(t)) == Sum(acc, Negated(PowerVector(t)));
  }

  lemma {:induction false} UnitIsNoOperator(unit: string)
    requires LookupUnit(unit).Done?
    ensures unit !in ["*", "/", "^"]
  {
  }

  lemma {:induction false} SpelledFactor(t: Term, rest: seq<string>)
    requires Known(t) && (rest == [] || rest[0] != "^")
    ensures ParseFactor(Spell(t)[1..] + rest)
         == if Fits(PowerVector(t)) then Done(Factor(PowerVector(t), |Spell(t)| - 1)) else Overflowed
  {
    UnitIsNoOperator(t.unit);
    hide LookupUnit, ParseI32;
    var ts := Spell(t)[1..] + rest;
    assert ts[0] == t.unit;
    if t.power.None? {
      var u := LookupUnit(t.unit).value;
      assert Scaled(u, 1) == u;
    } else {
      assert ts[1] == "^" && ts[2] == t.power.value;
    }
  }

  lemma {:induction false} SpelledRound(t: Term, rest: seq<string>, acc: Dimension)
    requires Known(t) && (rest == [] || rest[0] != "^")
    ensures ParseRest(Spell(t) + rest, acc)
         == if Fits(PowerVector(t)) && Fits(Sum(acc, Amount(t))) then ParseRest(rest, Sum(acc, Amount(t)))
            else Overflowed
  {
    SpelledFactor(t, rest);
    AddsAmount(t, acc);
    hide ParseFactor, PowerVector, Amount, Fits, LookupUnit, ParseI32;
    var ts := Spell(t) + rest;
    assert ts[0] == t.op && ts[1..] == Spell(t)[1..] + rest;
    assert ts[|Spell(t)|..] == rest;
  }

  lemma {:induction false} SpellBreaks(terms: seq<Term>)
    requires AllKnown(terms)
    ensures SpellAll(terms) == [] || SpellAll(terms)[0] != "^"
  {
    if terms != [] {
      assert Known(terms[0]);
    }
  }

  /** Terms add up from the left; the parse fails only when a power or a partial sum overflows. */
  lemma {:induction false} SpelledParses(terms: seq<Term>, acc: Dimension)
    requires AllKnown(terms)
    ensures ParseRest(SpellAll(terms), acc)
         == if Stays(terms, acc) then Done(Sum(acc, Total(terms))) else Overflowed
    ensures Stays(terms, acc) ==> Fits(Sum(acc, Total(terms)))
  {
    hide ParseRest, Amount, PowerVector, Fits;
    if terms == [] {
      RestEnds(acc);
      assert Sum(acc, DIMENSIONLESS) == acc;
    } else {
      assert Known(terms[0]);
      SpellBreaks(terms[1..]);
      SpelledRound(terms[0], SpellAll(terms[1..]), acc);
      if Fits(PowerVector(terms[0])) && Fits(Sum(acc, Amount(terms[0]))) {
        SpelledParses(terms[1..], Sum(acc, Amount(terms[0])));
        SumAssociates(acc, Amount(terms[0]), Total(terms[1..]));
      }
    }
  }

  lemma {:induction false} RoundIsTerm(ts: seq<string>, acc: Dimension) returns (t: Term)
    requires ts != [] && ParseRound(ts, acc).Done?
    ensures Known(t) && ts == Spell(t) + ts[ParseRound(ts, acc).value.used..]
  {
    hide LookupUnit, ParseI32;
    var us := ts[1..];
    var used := ParseFactor(us).value.used;
    t := Term(ts[0], us[0], if used == 3 then Some(us[2]) else None);
    assert ts[..1 + used] == Spell(t);
    assert ts == ts[..1 + used] + ts[1 + used..];
  }

  /** Whatever the parser accepts is a spelling of known terms. */
  lemma {:induction false} AcceptedIsSpelled(ts: seq<string>, acc: Dimension) returns (terms: seq<Term>)
    requires ParseRest(ts, acc).Done?
    ensures AllKnown(terms) && SpellAll(terms) == ts
    decreases |ts|
  {
    if ts == [] {
      terms := [];
    } else {
      hide ParseRound, Known, Spell;
      var read := ParseRound(ts, acc).value;
      var t := RoundIsTerm(ts, acc);
      var rest := AcceptedIsSpelled(ts[read.used..], read.dim);
      terms := [t] + rest;
      assert terms[1..] == rest;
    }
  }

  ghost predicate Spells(s: string, terms: seq<Term>) {
    terms != [] && Tokens(s, 0).Done? && SpellAll(terms) == ["*"] + Tokens(s, 0).value
  }

  lemma {:induction false} TwoTokens(terms: seq<Term>)
    requires terms != []
    ensures |SpellAll(terms)| >= 2
  {
  }

  lemma {:induction false} FromNothing(v: Exponents)
    ensures Sum(DIMENSIONLESS, v) == v
  {
  }

  /** An annotation spelled from known units and powers means their signed sum. */
  lemma {:induction false} MeansTheSignedSum(s: string, terms: seq<Term>)
    requires AllKnown(terms) && Spells(s, terms)
    ensures Parse(s) == if Stays(terms, DIMENSIONLESS) then Done(Total(terms)) else Overflowed
  {
    var ts := Tokens(s, 0).value;
    TwoTokens(terms);
    ParseIsOfTokens(s);
    hide Parse, ParseTokens, ParseRest, Total, Stays, Sum, SpellAll, Tokens, AllKnown;
    LeadingStar(ts);
    SpelledParses(terms, DIMENSIONLESS);
    FromNothing(Total(terms));
  }

  /** And nothing else is accepted. */
  lemma {:induction false} OnlySumsAreAccepted(s: string)
    requires Parse(s).Done?
    ensures exists terms ::
      AllKnown(terms) && Spells(s, terms) && Stays(terms, DIMENSIONLESS) && Parse(s) == Done(Total(terms))
  {
    ParseIsOfTokens(s);
    var ts := Tokens(s, 0).value;
    LeadingStar(ts);
    hide Parse, ParseTokens, ParseRest, Total, Stays, Tokens;
    var terms := AcceptedIsSpelled(["*"] + ts, DIMENSIONLESS);
    assert terms != [];
    MeansTheSignedSum(s, terms);
  }

  // ----- order does not matter --------------------------------------------------------------------

  lemma {:induction false} TakeTerm(terms: seq<Term>, i: nat)
    requires AllKnown(terms) && i < |terms|
    ensures Total(terms) == Sum(Amount(terms[i]), Total(terms[..i] + terms[i + 1..]))
  {
    hide Amount, Known;
    var without := terms[..i] + terms[i + 1..];
    if i == 0 {
      assert without == terms[1..];
    } else {
      TakeTerm(terms[1..], i - 1);
      assert terms[1..][..i - 1] + terms[1..][i..] == without[1..];
      hide Total;
      TotalStep(terms);
      TotalStep(without);
      Swap(Amount(terms[0]), Amount(terms[i]), Total(without[1..]));
    }
  }

  lemma {:induction false} TotalStep(terms: seq<Term>)
    requires AllKnown(terms) && terms != []
    ensures Total(terms) == Sum(Amount(terms[0]), Total(terms[1..]))
  {
  }

  lemma {:induction false} Swap(a: Exponents, b: Exponents, c: Exponents)
    ensures Sum(a, Sum(b, c)) == Sum(b, Sum(a, c))
  {
  }

  lemma {:induction false} DropOne(a: seq<Term>, i: nat)
    requires i < |a|
    ensures multiset(a) == multiset(a[..i] + a[i + 1..]) + multiset{a[i]}
  {
    var before, after := a[..i], a[i + 1..];
    assert a == before + ([a[i]] + after);
    assert multiset([a[i]] + after) == multiset{a[i]} + multiset(after);
  }

  lemma {:induction false} StillKnown(a: seq<Term>, i: nat)
    requires i < |a| && AllKnown(a)
    ensures AllKnown(a[..i] + a[i + 1..])
  {
    hide Known;
  }

  lemma {:induction false} DropBoth(a: seq<Term>, b: seq<Term>, i: nat)
    requires AllKnown(a) && AllKnown(b) && multiset(a) == multiset(b)
    requires a != [] && i < |b| && b[i] == a[0]
    ensures AllKnown(a[1..]) && AllKnown(b[..i] + b[i + 1..])
    ensures multiset(a[1..]) == multiset(b[..i] + b[i + 1..])
  {
    StillKnown(b, i);
    Front(a);
    DropOne(b, i);
    hide Known;
    CancelOne(multiset(a[1..]), multiset(b[..i] + b[i + 1..]), a[0]);
  }

  lemma {:induction false} TotalOfNone(a: seq<Term>)
    requires a == [] && AllKnown(a)
    ensures Total(a) == DIMENSIONLESS
  {
  }

  lemma {:induction false} FindIn(x: Term, b: seq<Term>) returns (i: nat)
    requires x in multiset(b)
    ensures i < |b| && b[i] == x
  {
    assert x in b;
    i :| 0 <= i < |b| && b[i] == x;
  }

  /** The same terms, in any order, have the same sum. */
  lemma {:induction false} SameTermsSameTotal(a: seq<Term>, b: seq<Term>)
    requires AllKnown(a) && AllKnown(b) && multiset(a) == multiset(b)
    ensures Total(a) == Total(b)
    decreases |a|
  {
    hide *;
    if a == [] {
      TotalOfNone(a);
      TotalOfNone(b);
      assert |multiset(b)| == |b| == 0;
    } else {
      var i := FindIn(a[0], b);
      DropBoth(a, b, i);
      SameTermsSameTotal(a[1..], b[..i] + b[i + 1..]);
      TakeTerm(b, i);
      TotalStep(a);
    }
  }

  /** Two accepted annotations spelled from the same terms, in any order, mean the same dimension. */
  lemma {:induction false} SameTermsSameDimension(s: string, a: seq<Term>, t: string, b: seq<Term>)
    requires AllKnown(a) && AllKnown(b) && Spells(s, a) && Spells(t, b) && multiset(a) == multiset(b)
    requires Parse(s).Done? && Parse(t).Done?
    ensures Parse(s) == Parse(t) == Done(Total(a))
  {
    hide Parse, Spells, Stays, Total, AllKnown;
    MeansTheSignedSum(s, a);
    MeansTheSignedSum(t, b);
    SameTermsSameTotal(a, b);
  }
}
