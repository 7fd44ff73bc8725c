/** The number classifier of main.py: primality by trial division, perfection by
    the sum of proper divisors, the Armstrong test and the digit sum over the
    decimal text of the number, and the ordered list of properties. */
module Classifier {
  import opened Decimal

  // ---------------------------------------------------------------- primality

  /** Integer square root: the bound `int(math.sqrt(n))` of the trial division. */
  function Isqrt(n: nat): (r: nat)
    ensures r * r <= n < (r + 1) * (r + 1)
  {
    if n == 0 then 0
    else
      var s := Isqrt(n - 1);
      if (s + 1) * (s + 1) <= n then s + 1 else s
  }

  /** The meaning of "prime": at least 2 and no divisor strictly between 1 and `n`. */
  predicate Prime(n: int) {
    n >= 2 && forall d :: 1 < d < n ==> n % d != 0
  }

  /** Euclidean division has one quotient and remainder. */
  lemma DivModUnique(n: int, b: int, q: int, r: int)
    requires b > 0 && 0 <= r < b && n == q * b + r
    ensures n % b == r
  {
    var q0, r0 := n / b, n % b;
    var k := q - q0;
    assert k * b == q * b - q0 * b;
    assert k * b == r0 - r;
    MulAwayFromZero(k, b);
  }

  lemma MulAwayFromZero(k: int, b: int)
    requires b >= 0
    ensures k >= 1 ==> k * b >= b
    ensures k <= -1 ==> k * b <= -b
  {
    if k >= 1 {
      assert k * b == (k - 1) * b + b;
    } else if k <= -1 {
      assert k * b == (k + 1) * b - b;
    }
  }

  /** If `d` divides `n`, so does the cofactor `n / d`, and the two multiply back to `n`. */
  lemma Cofactor(n: nat, d: nat)
    requires d > 0 && n % d == 0
    ensures n == d * (n / d) && (n / d > 0 ==> n % (n / d) == 0)
  {
    var e := n / d;
    assert n == d * e;
    if e > 0 {
      DivModUnique(n, e, d, 0);
    }
  }

  /** Trial division up to the square root is enough: a divisor above the root
      has a cofactor at or below it. */
  lemma {:induction false} TrialDivisionSuffices(n: int, r: nat)
    requires n >= 2 && r * r <= n < (r + 1) * (r + 1)
    requires forall i :: 2 <= i <= r ==> n % i != 0
    ensures Prime(n)
  {
    forall d | 1 < d < n
      ensures n % d != 0
    {
      if n % d == 0 {
        var e := n / d;
        Cofactor(n, d);
        assert e >= 2;
        assert d > r && e > r;
        MulMonotone(d, e, r + 1);
        assert false;
      }
    }
  }

  lemma MulMonotone(a: nat, b: nat, c: nat)
    requires a >= c && b >= c
    ensures a * b >= c * c
  {
    assert a * b >= c * b;
    assert c * b >= c * c;
  }

  /** `is_prime(n)`: false below 2, otherwise trial division by every `i` in
      `2..Isqrt(n)`, returning false at the first one that divides `n`. */
  method IsPrime(n: int) returns (b: bool)
    ensures b <==> n >= 2 && forall i :: 2 <= i <= Isqrt(n) ==> n % i != 0
    ensures b <==> Prime(n)
  {
    if n < 2 {
      return false;
    }
    var limit := Isqrt(n);
    for i := 2 to limit + 1
      invariant forall j :: 2 <= j < i ==> n % j != 0
    {
      if n % i == 0 {
        assert i < n by {
          MulMonotone(limit, limit, i);
        }
        return false;
      }
    }
    TrialDivisionSuffices(n, limit);
    return true;
  }

  // ---------------------------------------------------------------- perfection

  /** Sum of the `i` in `[1, k)` that divide `n`. */
  function DivisorSum(n: int, k: nat): (s: nat)
    ensures k >= 2 ==> s >= 1
    ensures 2 * s <= k * (k - 1) || k == 0
  {
    if k <= 1 then 0
    else DivisorSum(n, k - 1) + (if n % (k - 1) == 0 then k - 1 else 0)
  }

  /** `is_perfect(n)`: false for `n <= 1`, else the divisors in `[1, n)` sum to `n`.
      No number below 6 passes the test. */
  predicate IsPerfect(n: int): (r: bool)
    ensures r ==> n >= 6
  {
    NoSmallPerfect(n);
    n > 1 && DivisorSum(n, n) == n
  }

  /** The divisor sums of 2, 3, 4 and 5 are 1, 1, 3 and 1. */
  lemma NoSmallPerfect(n: int)
    ensures 1 < n < 6 ==> DivisorSum(n, n) != n
  {
    if n == 2 || n == 3 || n == 4 || n == 5 {
      assert DivisorSum(n, 2) == 1;
      assert DivisorSum(n, 3) == (if n % 2 == 0 then 3 else 1);
    }
  }

  /** For a prime `n`, 1 is the only divisor in `[1, k)` for any `k <= n`. */
  lemma {:induction false} PrimeDivisorSum(n: int, k: nat)
    requires Prime(n) && 1 <= k <= n
    ensures DivisorSum(n, k) == if k == 1 then 0 else 1
  {
    if k > 2 {
      PrimeDivisorSum(n, k - 1);
      assert n % (k - 1) != 0;
    }
  }

  /** No divisor of `n` in `[a, b)` leaves the divisor sum unchanged over that range. */
  lemma {:induction false} DivisorSumGap(n: int, a: nat, b: nat)
    requires a <= b
    requires forall i :: a <= i < b && i > 0 ==> n % i != 0
    ensures DivisorSum(n, b) == DivisorSum(n, a)
  {
    if a < b {
      DivisorSumGap(n, a, b - 1);
      if b >= 2 {
        assert n % (b - 1) != 0;
      }
    }
  }

  /** No prime is perfect: its proper divisors sum to 1. */
  lemma PrimeNotPerfect(n: int)
    requires Prime(n)
    ensures !IsPerfect(n)
  {
    PrimeDivisorSum(n, n);
  }

  /** The perfect numbers 6 and 28; 10 is not perfect, nor is anything up to 1. */
  lemma PerfectExamples()
    ensures IsPerfect(6) && IsPerfect(28)
    ensures !IsPerfect(10)
    ensures forall n :: n <= 1 ==> !IsPerfect(n)
  {
    assert DivisorSum(6, 6) == 6;
    assert DivisorSum(28, 5) == 7;
    assert DivisorSum(28, 10) == 14;
    assert DivisorSum(28, 15) == 28;
    assert DivisorSum(28, 20) == 28;
    assert DivisorSum(28, 25) == 28;
    assert DivisorSum(10, 10) == 8;
  }

  /** 371 has no divisor in `[54, 371)`: its cofactor would lie in 2..6. */
  lemma NoLargeDivisor371(i: int)
    requires 54 <= i < 371
    ensures 371 % i != 0
  {
  }

  /** The divisors of 371 below 54 are 1, 7 and 53. */
  lemma SmallDivisorSum371()
    ensures DivisorSum(371, 54) == 61
  {
    assert DivisorSum(371, 5) == 1;
    assert DivisorSum(371, 10) == 8;
    assert DivisorSum(371, 15) == 8;
    assert DivisorSum(371, 20) == 8;
    assert DivisorSum(371, 25) == 8;
    assert DivisorSum(371, 30) == 8;
    assert DivisorSum(371, 35) == 8;
    assert DivisorSum(371, 40) == 8;
    assert DivisorSum(371, 45) == 8;
    assert DivisorSum(371, 50) == 8;
  }

  /** 371 = 7 * 53, with proper divisors 1, 7 and 53: neither prime nor perfect. */
  lemma Facts371()
    ensures !Prime(371) && !IsPerfect(371)
  {
    assert 371 % 7 == 0;
    forall i | 54 <= i < 371 && i > 0
      ensures 371 % i != 0
    {
      NoLargeDivisor371(i);
    }
    DivisorSumGap(371, 54, 371);
    SmallDivisorSum371();
  }

  // --------------------------------------------------------- decimal digits

  /** Sum of `int(digit) ** p` over the characters of `s`: the power 1 adds
      the digits up. */
  function PowerSum(s: string, p: nat): (r: nat)
    requires AllDigits(s)
    ensures p == 1 ==> r == DigitCharSum(s)
  {
    if s == [] then 0
    else
      assert Pow(DigitValue(s[0]), 1) == DigitValue(s[0]);
      Pow(DigitValue(s[0]), p) + PowerSum(s[1..], p)
  }

  /** `is_armstrong(n)`, defined on `n >= 0` only: for negative `n` the source's
      `int('-')` raises. The test over the characters of `str(n)` is the
      arithmetic one: the `k`-th powers of the decimal digits of `n`, `k` the
      digit count, sum to `n`. */
  predicate IsArmstrong(n: nat): (r: bool)
    ensures r <==> SumPowers(Digits(n), DigitCount(n)) == n
  {
    PowerSumArith(n, DigitCount(n));
    var s := NatToString(n);
    PowerSum(s, |s|) == n
  }

  /** Sum of `int(digit)` over the characters of `s`. */
  function DigitCharSum(s: string): (r: nat)
    requires AllDigits(s)
    ensures r <= 9 * |s|
  {
    if s == [] then 0 else DigitValue(s[0]) + DigitCharSum(s[1..])
  }

  /** `get_digit_sum(n)`, defined on `n >= 0` only, like `IsArmstrong`. */
  function DigitSum(n: nat): (r: nat)
    ensures r <= 9 * DigitCount(n)
  {
    DigitCharSum(NatToString(n))
  }

  /** Sum of `d ** p` over a sequence of digits. */
  function SumPowers(ds: seq<nat>, p: nat): nat {
    if ds == [] then 0 else SumPowers(ds[..|ds| - 1], p) + Pow(ds[|ds| - 1], p)
  }

  lemma {:induction false} PowerSumAppend(s: string, c: char, p: nat)
    requires AllDigits(s) && IsDigitChar(c)
    ensures PowerSum(s + [c], p) == PowerSum(s, p) + Pow(DigitValue(c), p)
  {
    if s != [] {
      assert (s + [c])[1..] == s[1..] + [c];
      PowerSumAppend(s[1..], c, p);
    }
  }

  lemma {:induction false} DigitCharSumAppend(s: string, c: char)
    requires AllDigits(s) && IsDigitChar(c)
    ensures DigitCharSum(s + [c]) == DigitCharSum(s) + DigitValue(c)
  {
    if s != [] {
      assert (s + [c])[1..] == s[1..] + [c];
      DigitCharSumAppend(s[1..], c);
    }
  }

  /** The sum over the characters of `str(n)` is the sum over the decimal
      digits of `n` obtained by division. */
  lemma {:induction false} PowerSumArith(n: nat, p: nat)
    ensures PowerSum(NatToString(n), p) == SumPowers(Digits(n), p)
  {
    if n < 10 {
      assert NatToString(n)[1..] == [];
      assert Digits(n)[..0] == [];
    } else {
      PowerSumArith(n / 10, p);
      PowerSumAppend(NatToString(n / 10), DigitChar(n % 10), p);
      assert Digits(n)[..|Digits(n)| - 1] == Digits(n / 10);
    }
  }

  /** Every one-digit number is an Armstrong number. */
  lemma SingleDigitArmstrong(n: nat)
    requires n < 10
    ensures IsArmstrong(n)
  {
    var s := NatToString(n);
    assert s == [DigitChar(n)] && s[1..] == [];
    assert Pow(n, 1) == n;
  }

  /** 153 and 371 are Armstrong numbers; 10 is not. */
  lemma ArmstrongExamples()
    ensures IsArmstrong(153) && IsArmstrong(371)
    ensures !IsArmstrong(10)
  {
    Armstrong153();
    Armstrong371();
    NotArmstrong10();
  }

  lemma Armstrong153()
    ensures IsArmstrong(153)
  {
    assert NatToString(153) == "153";
    assert PowerSum("153", 3) == 153 by {
      assert "153"[1..] == "53" && "53"[1..] == "3" && "3"[1..] == "";
    }
  }

  lemma Armstrong371()
    ensures IsArmstrong(371)
  {
    assert NatToString(371) == "371";
    assert PowerSum("371", 3) == 371 by {
      assert "371"[1..] == "71" && "71"[1..] == "1" && "1"[1..] == "";
    }
  }

  lemma NotArmstrong10()
    ensures !IsArmstrong(10)
  {
    assert NatToString(10) == "10";
    assert PowerSum("10", 2) == 1 by {
      assert "10"[1..] == "0" && "0"[1..] == "";
    }
  }

  /** The digit sum over `str(n)` is the arithmetic digit sum. */
  lemma {:induction false} DigitSumArith(n: nat)
    ensures DigitSum(n) == if n < 10 then n else DigitSum(n / 10) + n % 10
  {
    if n >= 10 {
      DigitCharSumAppend(NatToString(n / 10), DigitChar(n % 10));
    }
  }

  /** Casting out nines: a number and its digit sum agree modulo 9, and the
      digit sum never exceeds the number. */
  lemma {:induction false} DigitSumMod9(n: nat)
    ensures DigitSum(n) % 9 == n % 9
    ensures DigitSum(n) <= n
  {
    DigitSumArith(n);
    if n >= 10 {
      DigitSumMod9(n / 10);
      var q, d := n / 10, n % 10;
      assert n == 9 * q + (q + d);
      assert DigitSum(n) == DigitSum(q) + d;
      assert (q + d) % 9 == (DigitSum(q) + d) % 9 by {
        ModAddRight(q, DigitSum(q), d);
      }
      assert n % 9 == (q + d) % 9 by {
        ModAddMultiple(q + d, q);
      }
    }
  }

  lemma ModAddRight(a: nat, b: nat, d: nat)
    requires a % 9 == b % 9
    ensures (a + d) % 9 == (b + d) % 9
  {
    assert a == 9 * (a / 9) + a % 9;
    assert b == 9 * (b / 9) + b % 9;
    ModAddMultiple(a % 9 + d, a / 9);
    ModAddMultiple(b % 9 + d, b / 9);
  }

  lemma ModAddMultiple(x: nat, q: nat)
    ensures (9 * q + x) % 9 == x % 9
  {
  }

  // -------------------------------------------------------------- properties

  /** `get_properties(n)`: "armstrong" first when it applies, then the parity. */
  function PropertiesOf(n: nat): (r: seq<string>)
    ensures 1 <= |r| <= 2
    ensures r[|r| - 1] == "even" <==> n % 2 == 0
    ensures r[|r| - 1] == "odd" <==> n % 2 != 0
    ensures "armstrong" in r <==> IsArmstrong(n)
    ensures forall i :: 0 <= i < |r| && r[i] == "armstrong" ==> i == 0
    ensures |r| == 2 <==> IsArmstrong(n)
  {
    (if IsArmstrong(n) then ["armstrong"] else []) + [if n % 2 == 0 then "even" else "odd"]
  }

  /** `get_properties(n)` as the source writes it, appending to a local list.
      The source's first step, `is_armstrong(n)`, raises for negative `n`. */
  method GetProperties(n: int) returns (props: seq<string>)
    requires n >= 0
    ensures props == PropertiesOf(n)
  {
    props := [];
    if IsArmstrong(n) {
      props := props + ["armstrong"];
    }
    if n % 2 == 0 {
      props := props + ["even"];
    } else {
      props := props + ["odd"];
    }
  }
}
