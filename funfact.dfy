/** The text-shaping half of `get_fun_fact`: the numbers service's reply is an
    abstract outcome, and the fact is a pure function of `n` and that outcome. */
module FunFact {
  import opened Wrappers
  import opened Decimal
  import opened Classifier

  /** What `requests.get` yields: a reply with its status code and decoded body,
      or an exception (connection error, timeout, decoding failure). */
  datatype FetchOutcome = Reply(statusCode: int, text: string) | Raised

  /** Python's `str.isspace` for one character: the characters `str.strip()`
      removes when given no argument. */
  predicate IsSpace(c: char): (r: bool)
    ensures c == ' ' || c == '\t' || c == '\n' || c == '\r' ==> r
    ensures r ==> !IsDigitChar(c)
  {
    var k := c as int;
    (0x09 <= k <= 0x0D) || (0x1C <= k <= 0x20) || k == 0x85 || k == 0xA0 ||
    k == 0x1680 || (0x2000 <= k <= 0x200A) || k == 0x2028 || k == 0x2029 ||
    k == 0x202F || k == 0x205F || k == 0x3000
  }

  /** `s.lstrip()`: drops the leading whitespace and nothing else. */
  function StripLeading(s: string): (r: string)
    ensures |r| <= |s| && r == s[|s| - |r|..]
    ensures forall i :: 0 <= i < |s| - |r| ==> IsSpace(s[i])
    ensures r == [] || !IsSpace(r[0])
  {
    if s != [] && IsSpace(s[0]) then StripLeading(s[1..]) else s
  }

  /** `s.rstrip()`: drops the trailing whitespace and nothing else. */
  function StripTrailing(s: string): (r: string)
    ensures |r| <= |s| && r == s[..|r|]
    ensures forall i :: |r| <= i < |s| ==> IsSpace(s[i])
    ensures r == [] || !IsSpace(r[|r| - 1])
  {
    if s != [] && IsSpace(s[|s| - 1]) then StripTrailing(s[..|s| - 1]) else s
  }

  /** Neither the first nor the last character is whitespace. */
  predicate NoOuterSpace(t: string) {
    t == [] || (!IsSpace(t[0]) && !IsSpace(t[|t| - 1]))
  }

  /** `s.strip()`. */
  function Strip(s: string): (r: string)
    ensures NoOuterSpace(r)
  {
    StripTrailing(StripLeading(s))
  }

  /** `s.replace(a, b)` for one-character `a` and `b`. */
  function ReplaceChar(s: string, a: char, b: char): (r: string)
    ensures |r| == |s|
    ensures forall i :: 0 <= i < |s| ==> r[i] == if s[i] == a then b else s[i]
    ensures a != b ==> a !in r
  {
    if s == [] then [] else [if s[0] == a then b else s[0]] + ReplaceChar(s[1..], a, b)
  }

  /** `s.replace(c, '')`: every `c` is removed, every other character kept in order. */
  function RemoveChar(s: string, c: char): (r: string)
    ensures c !in r
    ensures forall x :: x in r ==> x in s
    ensures |r| <= |s|
    ensures c !in s ==> r == s
    ensures s != [] && s[0] != c ==> r != [] && r[0] == s[0]
    ensures s != [] && s[|s| - 1] != c ==> r != [] && r[|r| - 1] == s[|s| - 1]
  {
    if s == [] then []
    else
      assert s == [s[0]] + s[1..];
      if s[0] == c then RemoveChar(s[1..], c)
      else [s[0]] + RemoveChar(s[1..], c)
  }

  /** Every character other than `c` keeps its number of occurrences. */
  lemma {:induction false} RemoveCharCounts(s: string, c: char)
    ensures multiset(RemoveChar(s, c)) == multiset(s)[c := 0]
  {
    if s != [] {
      RemoveCharCounts(s[1..], c);
      assert s == [s[0]] + s[1..];
      assert multiset(s) == multiset([s[0]]) + multiset(s[1..]);
      if s[0] != c {
        var rest := RemoveChar(s[1..], c);
        assert multiset([s[0]] + rest) == multiset([s[0]]) + multiset(rest);
      }
    }
  }

  /** Removal works piece by piece, so the kept characters stay in their order. */
  lemma {:induction false} RemoveCharAppend(s: string, t: string, c: char)
    ensures RemoveChar(s + t, c) == RemoveChar(s, c) + RemoveChar(t, c)
  {
    if s == [] {
      assert s + t == t;
    } else {
      assert (s + t)[0] == s[0] && (s + t)[1..] == s[1..] + t;
      RemoveCharAppend(s[1..], t, c);
    }
  }

  /** Text already free of line breaks and of outer whitespace. */
  predicate IsClean(t: string) {
    '\n' !in t && '\r' !in t && NoOuterSpace(t)
  }

  /** The body of a 200 reply: `text.strip().replace('\n', ' ').replace('\r', '')`. */
  function Sanitize(text: string): (r: string)
    ensures IsClean(r)
  {
    var stripped := Strip(text);
    var joined := ReplaceChar(stripped, '\n', ' ');
    assert joined == [] || (joined[0] == stripped[0] && joined[|joined| - 1] == stripped[|stripped| - 1]);
    RemoveChar(joined, '\r')
  }

  lemma ReplaceAbsent(s: string, a: char, b: char)
    requires a !in s
    ensures ReplaceChar(s, a, b) == s
  {
  }

  /** Sanitising leaves a text unchanged exactly when it is already clean. */
  lemma SanitizeFixpoint(t: string)
    ensures Sanitize(t) == t <==> IsClean(t)
  {
    if IsClean(t) {
      assert StripLeading(t) == t;
      assert StripTrailing(t) == t;
      ReplaceAbsent(t, '\n', ' ');
    }
  }

  /** Sanitising twice is sanitising once. */
  lemma SanitizeIdempotent(t: string)
    ensures Sanitize(Sanitize(t)) == Sanitize(t)
  {
    SanitizeFixpoint(Sanitize(t));
  }

  /** `sep.join(parts)`. */
  function Join(parts: seq<string>, sep: string): (r: string)
    ensures |parts| == 1 ==> r == parts[0]
  {
    if parts == [] then "" else if |parts| == 1 then parts[0]
    else parts[0] + sep + Join(parts[1..], sep)
  }

  /** Joining one more part adds the separator and that part at the end. */
  lemma {:induction false} JoinAppend(parts: seq<string>, p: string, sep: string)
    requires |parts| >= 1
    ensures Join(parts + [p], sep) == Join(parts, sep) + sep + p
  {
    if |parts| > 1 {
      assert (parts + [p])[1..] == parts[1..] + [p];
      JoinAppend(parts[1..], p, sep);
    }
  }

  /** `[f"{d}^{power}" for d in digits]`: one term per digit character, in order. */
  function PowerTerms(digits: string, power: string): (terms: seq<string>)
    ensures |terms| == |digits|
    ensures forall i :: 0 <= i < |digits| ==> terms[i] == [digits[i]] + "^" + power
  {
    if digits == [] then [] else [[digits[0]] + "^" + power] + PowerTerms(digits[1..], power)
  }

  /** The terms for `str(n)`, the power being its length: term `i` is the
      `i`-th decimal digit of `n` raised to the digit count. */
  function CalculationTerms(n: nat): (terms: seq<string>)
    ensures |terms| == DigitCount(n)
    ensures forall i :: 0 <= i < |terms| ==>
      terms[i] == [DigitChar(Digits(n)[i])] + "^" + NatToString(DigitCount(n))
  {
    NatToStringDigits(n);
    var digits := NatToString(n);
    PowerTerms(digits, NatToString(|digits|))
  }

  /** `" + ".join(...)` of the terms; a one-digit number has the single term `d^1`. */
  function Calculation(n: nat): (r: string)
    ensures n < 10 ==> r == [DigitChar(n)] + "^1"
  {
    assert n < 10 ==> NatToString(DigitCount(n)) == "1";
    Join(CalculationTerms(n), " + ")
  }

  /** `f"{n} is an Armstrong number because {calculation} = {n}"`: `str(n)`
      twice around the calculation and 35 characters of fixed text. */
  function ArmstrongSentence(n: nat): (r: string)
    ensures IntToString(n) <= r
    ensures |r| == 2 * |IntToString(n)| + |Calculation(n)| + 35
  {
    IntToString(n) + " is an Armstrong number because " + Calculation(n) + " = " + IntToString(n)
  }

  /** The fact returned from the `except` clause: the number written after
      `"Number "` reads back as `n`. */
  function ExceptionFact(n: int): (r: string)
    ensures |r| > 7 && r[..7] == "Number "
    ensures ParseInt(r[7..]) == Some(n)
  {
    ParseIntRoundTrip(n);
    var r := "Number " + IntToString(n);
    assert r[7..] == IntToString(n);
    r
  }

  /** The fact for a reply other than 200. For negative `n` the call
      `is_armstrong(n)` inside the `try` raises, which leads to the `except`
      clause. For `n >= 0` the fallback agrees with the properties list: it is
      the Armstrong sentence exactly when "armstrong" is among the properties,
      and otherwise it names the parity entry of the list. */
  function NonOkFact(n: int): (r: string)
    ensures n < 0 ==> r == ExceptionFact(n)
    ensures n >= 0 ==> (r == ArmstrongSentence(n) <==> "armstrong" in PropertiesOf(n))
    ensures n >= 0 && "armstrong" !in PropertiesOf(n) ==>
      r == IntToString(n) + " is " + PropertiesOf(n)[0]
  {
    if n < 0 then ExceptionFact(n)
    else if IsArmstrong(n) then ArmstrongSentence(n)
    else
      ParitySentenceDiffers(n);
      ParitySentenceNamesProperty(n);
      IntToString(n) + (if n % 2 == 0 then " is even" else " is odd")
  }

  /** Without "armstrong" the properties list is the parity entry alone. */
  lemma ParitySentenceNamesProperty(n: nat)
    requires !IsArmstrong(n)
    ensures "armstrong" !in PropertiesOf(n)
    ensures IntToString(n) + (if n % 2 == 0 then " is even" else " is odd") ==
      IntToString(n) + " is " + PropertiesOf(n)[0]
  {
    var parity := if n % 2 == 0 then "even" else "odd";
    assert PropertiesOf(n) == [parity];
    assert (if n % 2 == 0 then " is even" else " is odd") == " is " + parity;
  }

  /** `get_fun_fact(n)` given the outcome of the request to the numbers service. */
  function GetFunFact(n: int, fetch: FetchOutcome): (r: string)
    ensures fetch.Reply? && fetch.statusCode == 200 ==> r == Sanitize(fetch.text) && IsClean(r)
    ensures fetch.Raised? ==> r == ExceptionFact(n)
    ensures fetch.Reply? && fetch.statusCode != 200 ==> r == NonOkFact(n)
  {
    match fetch
    case Raised => ExceptionFact(n)
    case Reply(code, text) => if code == 200 then Sanitize(text) else NonOkFact(n)
  }

  /** The parity sentence is never the Armstrong sentence: it is shorter. */
  lemma ParitySentenceDiffers(n: nat)
    ensures IntToString(n) + (if n % 2 == 0 then " is even" else " is odd") != ArmstrongSentence(n)
  {
    var tail := if n % 2 == 0 then " is even" else " is odd";
    assert |IntToString(n) + tail| <= |IntToString(n)| + 8;
  }

  lemma Calculation153()
    ensures Calculation(153) == "1^3 + 5^3 + 3^3"
  {
    Terms153();
    assert Join(["1^3", "5^3", "3^3"], " + ") == "1^3 + 5^3 + 3^3" by {
      assert ["1^3", "5^3", "3^3"][1..] == ["5^3", "3^3"];
      assert ["5^3", "3^3"][1..] == ["3^3"];
    }
  }

  lemma Terms153()
    ensures CalculationTerms(153) == ["1^3", "5^3", "3^3"]
  {
    assert NatToString(153) == "153";
    assert NatToString(3) == "3";
    var t := PowerTerms("153", "3");
    assert t[0] == ['1'] + "^" + "3" == "1^3";
    assert t[1] == ['5'] + "^" + "3" == "5^3";
    assert t[2] == ['3'] + "^" + "3" == "3^3";
  }

  /** A failing reply for the Armstrong number 153 gives the explanation
      `1^3 + 5^3 + 3^3 = 153`. */
  lemma ArmstrongFallbackExample()
    ensures GetFunFact(153, Reply(404, "")) ==
      "153" + " is an Armstrong number because " + "1^3 + 5^3 + 3^3" + " = " + "153"
  {
    Armstrong153();
    assert NonOkFact(153) == ArmstrongSentence(153);
    Calculation153();
    assert IntToString(153) == "153";
  }

  /** A failing reply for 10 gives the parity sentence. */
  lemma ParityFallbackExample()
    ensures GetFunFact(10, Reply(500, "")) == "10 is even"
  {
    NotArmstrong10();
    assert IntToString(10) == "10";
    assert NonOkFact(10) == "10" + " is even";
  }

  /** An exception gives "Number {n}", and so does a failing reply for a
      negative `n`, whose non-200 path raises. */
  lemma ExceptionFallbackExamples()
    ensures GetFunFact(153, Raised) == "Number 153"
    ensures GetFunFact(-7, Reply(404, "")) == "Number -7"
  {
    assert IntToString(153) == "153";
    assert NatToString(7) == "7";
  }
}
