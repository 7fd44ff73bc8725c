/** Decimal text of integers: Python's `str(n)` on an `int`, `int(c)` on a single
    digit character, and `int(s)` on a query-string value (restricted to an
    optional sign followed by ASCII digits). */
module Decimal {
  import opened Wrappers

  predicate IsDigitChar(c: char) {
    '0' <= c <= '9'
  }

  predicate AllDigits(s: string) {
    forall i :: 0 <= i < |s| ==> IsDigitChar(s[i])
  }

  /** `int(c)` for one ASCII digit character. */
  function DigitValue(c: char): (d: nat)
    requires IsDigitChar(c)
    ensures d <= 9
  {
    c as int - '0' as int
  }

  function DigitChar(d: nat): (c: char)
    requires d <= 9
    ensures IsDigitChar(c) && DigitValue(c) == d
  {
    ('0' as int + d) as char
  }

  /** `b ** e` on non-negative Python ints. */
  function Pow(b: nat, e: nat): nat {
    if e == 0 then 1 else b * Pow(b, e - 1)
  }

  lemma {:induction false} PowAdd(b: nat, x: nat, y: nat)
    ensures Pow(b, x + y) == Pow(b, x) * Pow(b, y)
  {
    if x > 0 {
      PowAdd(b, x - 1, y);
      assert Pow(b, x + y) == b * Pow(b, x - 1 + y);
    }
  }

  /** Number of decimal digits of `n`, by repeated division by ten (0 has one digit). */
  function DigitCount(n: nat): nat {
    if n < 10 then 1 else 1 + DigitCount(n / 10)
  }

  /** `str(n)` for `n >= 0`: most significant digit first, no leading zero. */
  function NatToString(n: nat): (s: string)
    ensures AllDigits(s)
    ensures |s| == DigitCount(n)
    ensures |s| > 1 ==> s[0] != '0'
  {
    if n < 10 then [DigitChar(n)] else NatToString(n / 10) + [DigitChar(n % 10)]
  }

  /** The decimal digits of `n` as numbers, most significant first. */
  function Digits(n: nat): (ds: seq<nat>)
    ensures |ds| == DigitCount(n)
    ensures forall i :: 0 <= i < |ds| ==> ds[i] <= 9
  {
    if n < 10 then [n] else Digits(n / 10) + [n % 10]
  }

  /** Character `i` of `str(n)` is the `i`-th decimal digit of `n`. */
  lemma {:induction false} NatToStringDigits(n: nat)
    ensures forall i :: 0 <= i < |NatToString(n)| ==> NatToString(n)[i] == DigitChar(Digits(n)[i])
  {
    if n >= 10 {
      NatToStringDigits(n / 10);
    }
  }

  /** `str(n)` for any `int`: a negative number is written with a leading '-'. */
  function IntToString(n: int): (s: string)
    ensures |s| > 0
    ensures n >= 0 ==> s == NatToString(n)
    ensures n < 0 ==> s[0] == '-' && s[1..] == NatToString(-n)
  {
    if n < 0 then "-" + NatToString(-n) else NatToString(n)
  }

  /** Reads a run of ASCII digits, one character at a time from the right;
      no digits, or any other character, is a failure. */
  function ParseDigits(s: string): (r: Option<nat>)
    ensures r.Some? <==> |s| > 0 && AllDigits(s)
    ensures r.Some? ==> r.value < Pow(10, |s|)
  {
    if |s| == 0 || !IsDigitChar(s[|s| - 1]) then None
    else if |s| == 1 then Some(DigitValue(s[0]))
    else
      match ParseDigits(s[..|s| - 1])
      case None => None
      case Some(v) => Some(10 * v + DigitValue(s[|s| - 1]))
  }

  /** The grammar the model accepts for `int(s)`: an optional sign and at least one digit. */
  predicate IsIntLiteral(s: string) {
    if |s| > 0 && (s[0] == '-' || s[0] == '+') then |s| > 1 && AllDigits(s[1..])
    else |s| > 0 && AllDigits(s)
  }

  /** `int(s)`, with `None` standing for the `ValueError` it raises. */
  function ParseInt(s: string): (r: Option<int>)
    ensures r.Some? <==> IsIntLiteral(s)
  {
    if |s| > 0 && (s[0] == '-' || s[0] == '+') then
      match ParseDigits(s[1..])
      case None => None
      case Some(v) =>
        var x: int := if s[0] == '-' then -(v as int) else v;
        Some(x)
    else
      match ParseDigits(s)
      case None => None
      case Some(v) => Some(v)
  }

  /** Reading back what `str` wrote gives the number again. */
  lemma {:induction false} ParseDigitsOfNatToString(n: nat)
    ensures ParseDigits(NatToString(n)) == Some(n)
  {
    if n >= 10 {
      var s := NatToString(n);
      ParseDigitsOfNatToString(n / 10);
      assert s[..|s| - 1] == NatToString(n / 10);
      assert s[|s| - 1] == DigitChar(n % 10);
    }
  }

  /** `int(str(n)) == n` for every integer, negative ones included. */
  lemma ParseIntRoundTrip(n: int)
    ensures ParseInt(IntToString(n)) == Some(n)
  {
    var s := IntToString(n);
    if n < 0 {
      ParseDigitsOfNatToString(-n);
      assert s[1..] == NatToString(-n);
    } else {
      ParseDigitsOfNatToString(n);
      assert s[0] != '-' && s[0] != '+' by { assert IsDigitChar(s[0]); }
    }
  }

  /** A leading `+` changes nothing and a leading `-` negates the value of the
      digits. (`ParseDigits(t).Some?` says that `t` is a non-empty run of digits.) */
  lemma ParseIntSigned(t: string)
    requires ParseDigits(t).Some?
    ensures ParseInt(t) == Some(ParseDigits(t).value as int)
    ensures ParseInt("+" + t) == ParseInt(t)
    ensures ParseInt("-" + t) == Some(-(ParseDigits(t).value as int))
  {
    assert t[0] != '-' && t[0] != '+' by {
      assert IsDigitChar(t[0]);
    }
    var plus, minus := "+" + t, "-" + t;
    assert plus[0] == '+' && plus[1..] == t;
    assert minus[0] == '-' && minus[1..] == t;
  }

  /** Leading zeros do not change the value. Together with
      `ParseDigitsOfNatToString` this fixes the value of every digit string,
      since each one is some zeros followed by `str(m)` for some `m`. */
  lemma {:induction false} ParseDigitsLeadingZero(t: string)
    requires |t| > 0 && AllDigits(t)
    ensures ParseDigits("0" + t) == ParseDigits(t)
  {
    var s := "0" + t;
    assert s[|s| - 1] == t[|t| - 1];
    assert s[..|s| - 1] == "0" + t[..|t| - 1];
    if |t| > 1 {
      ParseDigitsLeadingZero(t[..|t| - 1]);
    }
  }

  /** `int("+5") == 5`, `int("007") == 7` and `int("-0") == 0`. */
  lemma ParseIntExamples()
    ensures ParseInt("+5") == Some(5)
    ensures ParseInt("007") == Some(7)
    ensures ParseInt("-0") == Some(0)
  {
    ParseIntSigned("5");
    ParseIntSigned("0");
    ParseDigitsLeadingZero("7");
    ParseDigitsLeadingZero("07");
    assert "0" + "07" == "007" && "0" + "7" == "07";
    ParseIntSigned("007");
  }

  /** A value with a decimal point, such as "4.7", is not an integer literal. */
  lemma DecimalPointRejected(s: string, k: nat)
    requires k < |s| && s[k] == '.'
    ensures ParseInt(s) == None
  {
    if |s| > 0 && (s[0] == '-' || s[0] == '+') {
      assert !IsDigitChar(s[1..][k - 1]);
    } else {
      assert !IsDigitChar(s[k]);
    }
  }
}
