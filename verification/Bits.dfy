/** Bit counting and bit smearing. */
module Bits {

  // Bit counting and bit smearing, as the generated C performs them: goto loops over a word, and
  // shifts that spread the top bit downward. A C int that is not negative is a natural number
  // below 2^31; the bit operations are defined on its binary digits.

  const MAX: int := 0x7fff_ffff
  const LOW: int := -0x8000_0000

  function Pow2(k: nat): (p: nat)
    ensures p > 0
  {
    if k == 0 then 1 else 2 * Pow2(k - 1)
  }

  predicate Bit(n: nat, i: nat) { if i == 0 then n % 2 == 1 else Bit(n / 2, i - 1) }

  function And(a: nat, b: nat): nat {
    if a == 0 then 0 else 2 * And(a / 2, b / 2) + (if a % 2 == 1 && b % 2 == 1 then 1 else 0)
  }

  function Or(a: nat, b: nat): nat
    decreases a + b
  {
    if a == 0 && b == 0 then 0 else 2 * Or(a / 2, b / 2) + (if a % 2 == 1 || b % 2 == 1 then 1 else 0)
  }

  function ShiftRight(n: nat, k: nat): nat { if k == 0 then n else ShiftRight(n / 2, k - 1) }

  // ----- digits -------------------------------------------------------------------------------

  lemma {:induction false} OrBit(a: nat, b: nat, i: nat)
    ensures Bit(Or(a, b), i) <==> Bit(a, i) || Bit(b, i)
  {
    if a == 0 && b == 0 {
      ZeroBits(i);
    } else if i > 0 {
      OrBit(a / 2, b / 2, i - 1);
      assert Or(a, b) / 2 == Or(a / 2, b / 2);
    }
  }

  lemma {:induction false} ZeroBits(i: nat)
    ensures !Bit(0, i)
  {
    if i > 0 {
      ZeroBits(i - 1);
    }
  }

  lemma {:induction false} ShiftBit(n: nat, k: nat, i: nat)
    ensures Bit(ShiftRight(n, k), i) <==> Bit(n, i + k)
  {
    if k > 0 {
      ShiftBit(n / 2, k - 1, i);
    }
  }

  /** The digits determine the number. */
  lemma {:induction false} SameBits(a: nat, b: nat)
    requires forall i: nat :: Bit(a, i) <==> Bit(b, i)
    ensures a == b
    decreases a + b
  {
    assert Bit(a, 0) <==> Bit(b, 0);
    if a != 0 || b != 0 {
      forall i: nat ensures Bit(a / 2, i) <==> Bit(b / 2, i) {
        assert Bit(a, i + 1) <==> Bit(b, i + 1);
      }
      SameBits(a / 2, b / 2);
    }
  }

  lemma {:induction false} HighBits(n: nat, k: nat, i: nat)
    requires n < Pow2(k) && k <= i
    ensures !Bit(n, i)
  {
    if k == 0 {
      ZeroBits(i);
    } else {
      HighBits(n / 2, k - 1, i - 1);
    }
  }

  /** The digits below `k` all 1 and the others 0. */
  lemma {:induction false} AllOnes(k: nat, i: nat)
    ensures Bit(Pow2(k) - 1, i) <==> i < k
  {
    if k == 0 {
      ZeroBits(i);
    } else if i > 0 {
      AllOnes(k - 1, i - 1);
      assert (Pow2(k) - 1) / 2 == Pow2(k - 1) - 1;
    }
  }

  /** The position of the highest 1. */
  function Top(n: nat): nat
    requires n > 0
  {
    if n == 1 then 0 else 1 + Top(n / 2)
  }

  lemma {:induction false} TopBounds(n: nat)
    requires n > 0
    ensures Pow2(Top(n)) <= n < Pow2(Top(n) + 1)
    ensures Bit(n, Top(n))
  {
    if n > 1 {
      TopBounds(n / 2);
      assert Pow2(Top(n) + 1) == 2 * Pow2(Top(n));
    }
  }

  lemma {:induction false} Pow2Grows(i: nat, j: nat)
    requires i <= j
    ensures Pow2(i) <= Pow2(j) && (i < j ==> 2 * Pow2(i) <= Pow2(j))
  {
    if i < j {
      Pow2Grows(i, j - 1);
    }
  }

  /** Only one position can be the highest. */
  lemma {:induction false} TopIs(n: nat, t: nat)
    requires n > 0 && Pow2(t) <= n < Pow2(t + 1)
    ensures Top(n) == t
  {
    TopBounds(n);
    if t < Top(n) {
      Pow2Grows(t + 1, Top(n));
    } else if Top(n) < t {
      Pow2Grows(Top(n) + 1, t);
    }
  }

  // ----- counting ---------------------------------------------------------------------------------

  function Ones(n: nat): nat { if n == 0 then 0 else n % 2 + Ones(n / 2) }

  /** The positions of the ones. */
  function OnesBelow(n: nat, k: nat): set<nat> { set i: nat | i < k && Bit(n, i) }

  lemma {:induction false} OnesCounts(n: nat, k: nat)
    requires n < Pow2(k)
    ensures Ones(n) == |OnesBelow(n, k)|
  {
    if k == 0 {
      assert OnesBelow(n, 0) == {};
    } else {
      OnesCounts(n / 2, k - 1);
      var half := OnesBelow(n / 2, k - 1);
      var up := set i | i in half :: i + 1;
      Shifted(half, up);
      OneLonger(n, k, half, up);
      hide OnesBelow;
      if n % 2 == 1 {
        assert |up + {0}| == |up| + 1;
      }
    }
  }

  lemma {:induction false} OneLonger(n: nat, k: nat, half: set<nat>, up: set<nat>)
    requires k > 0 && half == OnesBelow(n / 2, k - 1) && up == set i | i in half :: i + 1
    ensures OnesBelow(n, k) == if n % 2 == 1 then up + {0} else up
  {
    forall i: nat ensures i in OnesBelow(n, k) <==> i in up || (i == 0 && n % 2 == 1) {
      if i > 0 && i in OnesBelow(n, k) {
        assert i - 1 in half;
      }
    }
  }

  lemma {:induction false} Shifted(s: set<nat>, t: set<nat>)
    requires t == set i | i in s :: i + 1
    ensures |t| == |s| && 0 !in t
    decreases |s|
  {
    if s != {} {
      var x :| x in s;
      var rest := s - {x};
      var less := set i | i in rest :: i + 1;
      Shifted(rest, less);
      forall y: nat ensures y in t <==> y in less || y == x + 1 {
        if y in t && y != x + 1 {
          assert y - 1 in rest;
        }
      }
      assert t == less + {x + 1};
    }
  }

  method CountOnes(n: nat) returns (count: nat)
    requires n <= MAX
    ensures count == Ones(n)
  {
    count := 0;
    var val := n;
    while val != 0
      invariant count + Ones(val) == Ones(n)
    {
      LowestBit(val);
      count := count + And(val, 1);
      val := ShiftRight(val, 1);
    }
  }

  lemma {:induction false} LowestBit(n: nat)
    ensures And(n, 1) == n % 2 && ShiftRight(n, 1) == n / 2
  {
    AndZero(n / 2);
    assert ShiftRight(n / 2, 0) == n / 2;
  }

  lemma {:induction false} AndZero(n: nat)
    ensures And(n, 0) == 0
  {
    if n != 0 {
      AndZero(n / 2);
    }
  }

  /** Only zero has no ones, and only powers of two have one. */
  lemma {:induction false} OneOne(n: nat)
    ensures Ones(n) == 0 <==> n == 0
    ensures Ones(n) == 1 <==> n > 0 && n == Pow2(Top(n))
  {
    if n > 0 {
      OneOne(n / 2);
    }
  }

  lemma {:induction false} ClearLowest(n: nat)
    requires n > 0
    ensures And(n, n - 1) == 0 <==> Ones(n) == 1
  {
    if n % 2 == 1 {
      OneOne(n / 2);
      AndSelf(n / 2);
      assert (n - 1) / 2 == n / 2;
    } else {
      ClearLowest(n / 2);
      assert (n - 1) / 2 == n / 2 - 1;
    }
  }

  lemma {:induction false} AndSelf(n: nat)
    ensures And(n, n) == n
  {
    if n > 0 {
      AndSelf(n / 2);
    }
  }

  /** The test on n & (n - 1) says whether the counting loop ends with 1, which is whether n is a
      power of two. */
  method IsPowerOfTwo(n: int) returns (r: bool)
    requires LOW <= n <= MAX
    ensures r <==> n > 0 && Ones(n) == 1
    ensures r <==> exists k: nat :: n == Pow2(k)
  {
    if n > 0 {
      r := And(n, n - 1) == 0;
      ClearLowest(n);
      PowersOfTwo(n);
    } else {
      r := false;
      forall k: nat ensures n != Pow2(k) {
        Pow2Grows(0, k);
      }
    }
  }

  lemma {:induction false} PowersOfTwo(n: nat)
    requires n > 0
    ensures Ones(n) == 1 <==> exists k: nat :: n == Pow2(k)
  {
    OneOne(n);
    if k: nat :| n == Pow2(k) {
      Pow2Grows(k, k + 1);
      TopIs(n, k);
    }
  }

  // ----- smearing -----------------------------------------------------------------------------------

  /** Some digit of `n` among the w from position `i` up is 1. */
  ghost predicate OneWithin(n: nat, i: nat, w: nat) { exists j: nat :: i <= j < i + w && Bit(n, j) }

  /** Every 1 of `n` has been copied to the w - 1 places below it. */
  ghost predicate Smeared(n: nat, val: nat, w: nat) { forall i: nat :: Bit(val, i) <==> OneWithin(n, i, w) }

  function Smear(val: nat, k: nat): nat { Or(val, ShiftRight(val, k)) }

  lemma {:induction false} SmearDoubles(n: nat, val: nat, w: nat)
    requires Smeared(n, val, w)
    ensures Smeared(n, Smear(val, w), 2 * w)
  {
    forall i: nat ensures Bit(Smear(val, w), i) <==> OneWithin(n, i, 2 * w) {
      OrBit(val, ShiftRight(val, w), i);
      ShiftBit(val, w, i);
      assert OneWithin(n, i, 2 * w) <==> OneWithin(n, i, w) || OneWithin(n, i + w, w);
    }
  }

  lemma {:induction false} SmearedOnce(n: nat)
    ensures Smeared(n, n, 1)
  {
    forall i: nat ensures Bit(n, i) <==> OneWithin(n, i, 1) {
    }
  }

  /** Smeared over the whole word, a number is all ones up to its top bit. */
  lemma {:induction false} SmearedFully(n: nat, val: nat)
    requires 0 < n <= MAX && Smeared(n, val, 32)
    ensures val == Pow2(Top(n) + 1) - 1
  {
    TopBounds(n);
    TopBelow31(n);
    forall i: nat ensures Bit(val, i) <==> Bit(Pow2(Top(n) + 1) - 1, i) {
      AllOnes(Top(n) + 1, i);
      if i <= Top(n) {
        assert OneWithin(n, i, 32);
      } else {
        forall j: nat | i <= j ensures !Bit(n, j) {
          HighBits(n, Top(n) + 1, j);
        }
      }
    }
    SameBits(val, Pow2(Top(n) + 1) - 1);
  }

  lemma {:induction false} Pow2Of31()
    ensures Pow2(31) == 0x8000_0000 && Pow2(30) == 0x4000_0000
  {
    assert Pow2(8) == 256;
    assert Pow2(16) == 0x1_0000;
    assert Pow2(24) == 0x100_0000;
  }

  lemma {:induction false} TopBelow31(n: nat)
    requires 0 < n <= MAX
    ensures Top(n) <= 30
    ensures n <= 0x4000_0000 - 1 <==> Top(n) <= 29
  {
    Pow2Of31();
    TopBounds(n);
    if Top(n) > 30 {
      Pow2Grows(31, Top(n));
    }
    if Top(n) <= 29 {
      Pow2Grows(Top(n) + 1, 30);
    } else {
      Pow2Grows(30, Top(n));
    }
  }

  ghost predicate IsPow2(p: nat) { exists k: nat :: p == Pow2(k) }

  ghost predicate LeastPow2From(n: int, p: nat) {
    IsPow2(p) && n <= p && forall k: nat :: n <= Pow2(k) ==> p <= Pow2(k)
  }

  datatype Outcome = Done(value: int) | Overflows

  /** The least power of two from `n` on, for every argument up to 2^30; beyond, the last addition
      leaves the range of an int. */
  method NextPowerOfTwo(n: int) returns (r: Outcome)
    requires LOW <= n <= MAX
    ensures r.Overflows? <==> n > 0x4000_0000
    ensures r.Done? ==> r.value > 0 && LeastPow2From(n, r.value)
    ensures r.Done? && n >= 2 ==> r.value == Pow2(Top(n - 1) + 1)
  {
    if n <= 1 {
      OneIsLeast(n);
      return Done(1);
    }
    var start: nat := n - 1;
    var val := start;
    SmearedOnce(start);
    SmearDoubles(start, val, 1);
    val := Smear(val, 1);
    SmearDoubles(start, val, 2);
    val := Smear(val, 2);
    SmearDoubles(start, val, 4);
    val := Smear(val, 4);
    SmearDoubles(start, val, 8);
    val := Smear(val, 8);
    SmearDoubles(start, val, 16);
    val := Smear(val, 16);
    SmearedFully(start, val);
    NextIsLeast(n);
    if val == MAX {
      return Overflows;
    }
    return Done(val + 1);
  }

  lemma {:induction false} OneIsLeast(n: int)
    requires n <= 1
    ensures LeastPow2From(n, 1)
  {
    assert Pow2(0) == 1;
  }

  lemma {:induction false} NextIsLeast(n: int)
    requires 2 <= n <= MAX
    ensures LeastPow2From(n, Pow2(Top(n - 1) + 1))
    ensures Pow2(Top(n - 1) + 1) - 1 == MAX <==> n > 0x4000_0000
    ensures Pow2(Top(n - 1) + 1) - 1 <= MAX
  {
    var t := Top(n - 1);
    TopBounds(n - 1);
    TopBelow31(n - 1);
    Pow2Of31();
    Pow2Grows(t + 1, 31);
    forall k: nat | n <= Pow2(k) ensures Pow2(t + 1) <= Pow2(k) {
      if k <= t {
        Pow2Grows(k, t);
      } else {
        Pow2Grows(t + 1, k);
      }
    }
    if t <= 29 {
      Pow2Grows(t + 1, 30);
    }
  }

  // ----- leading zeros ------------------------------------------------------------------------------

  lemma {:induction false} AndPow2(n: nat, k: nat)
    ensures And(n, Pow2(k)) == 0 <==> !Bit(n, k)
  {
    if n == 0 {
      ZeroBits(k);
    } else if k == 0 {
      AndZero(n / 2);
    } else {
      AndPow2(n / 2, k - 1);
    }
  }

  lemma {:induction false} TopBitSet(n: nat, k: nat)
    requires n < Pow2(k + 1)
    ensures Bit(n, k) <==> n >= Pow2(k)
  {
    if k > 0 {
      TopBitSet(n / 2, k - 1);
    }
  }

  lemma {:induction false} TopDoubles(n: nat)
    requires n > 0
    ensures Top(2 * n) == Top(n) + 1
  {
  }

  /** The scan stops at bit 30, so it counts the zeros of 31 bits: 30 minus the top position, and 32
      only for zero itself. A negative number gives 0. */
  method LeadingZeros(n: int) returns (count: nat)
    requires LOW <= n <= MAX
    ensures n == 0 ==> count == 32
    ensures n < 0 ==> count == 0
    ensures n > 0 ==> Top(n) <= 30 && count == 30 - Top(n)
  {
    if n == 0 {
      return 32;
    }
    if n > 0 {
      TopBelow31(n);
    }
    count := 0;
    var val := n;
    while val > 0 && And(val, 0x4000_0000) == 0
      invariant val <= MAX
      invariant n < 0 ==> val == n && count == 0
      invariant n > 0 ==> val > 0 && Top(val) <= 30 && Top(val) == Top(n) + count
      decreases MAX - val
    {
      BelowBit30(val);
      TopDoubles(val);
      count := count + 1;
      val := 2 * val;
      TopBelow31(val);
    }
    if n > 0 {
      BelowBit30(val);
    }
  }

  lemma {:induction false} BelowBit30(n: nat)
    requires 0 < n <= MAX
    ensures And(n, 0x4000_0000) == 0 <==> n < 0x4000_0000
    ensures Top(n) <= 30
    ensures n < 0x4000_0000 <==> Top(n) <= 29
  {
    Pow2Of31();
    AndPow2(n, 30);
    TopBitSet(n, 30);
    TopBelow31(n);
  }

  /** The two routines fit together: the next power of two is 2 to the 31 less the leading zeros. */
  lemma {:induction false} NextFromLeadingZeros(n: int, lz: nat, p: int)
    requires 2 <= n <= 0x4000_0000
    requires Top(n - 1) <= 30 && lz == 30 - Top(n - 1)
    ensures LeastPow2From(n, Pow2(31 - lz))
    ensures p > 0 && LeastPow2From(n, p) ==> p == Pow2(31 - lz)
  {
    NextIsLeast(n);
  }
}
