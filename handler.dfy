/** The `classify_number` request handler of main.py: validation of the
    `number` query parameter and assembly of the response. */
module Handler {
  import opened Wrappers
  import opened Decimal
  import opened Classifier
  import opened FunFact

  /** The body of a rejected request. */
  datatype ErrorResponse = ErrorResponse(number: string, error: bool)

  /** The body of a classified number. */
  datatype NumberResponse = NumberResponse(
    number: int,
    isPrime: bool,
    isPerfect: bool,
    properties: seq<string>,
    digitSum: nat,
    funFact: string)

  /** What the endpoint answers: a JSON error body with its status code, a
      classification (status 200), or the server's reply to an exception that
      escaped the handler (status 500). */
  datatype HttpResponse =
    | Rejected(status: int, body: ErrorResponse)
    | Classified(result: NumberResponse)
    | InternalServerError
  {
    function StatusCode(): int {
      match this
      case Rejected(status, _) => status
      case Classified(_) => 200
      case InternalServerError => 500
    }
  }

  /** The classification of a parsed number `n >= 0`, field by field. */
  predicate Describes(r: NumberResponse, n: nat, fetch: FetchOutcome) {
    r.number == n && r.isPrime == Prime(n) && r.isPerfect == IsPerfect(n) &&
    r.properties == PropertiesOf(n) && r.digitSum == DigitSum(n) &&
    r.funFact == GetFunFact(n, fetch)
  }

  /** 2^1024 - 2^970: the smallest integer that rounds to 2^1024 or more as a
      double, so that `math.sqrt(n)` in `is_prime` raises `OverflowError`. */
  const SqrtOverflowBound: nat := 179769313486231580793728971405303415079934132710037826936173778980444968292764750946649017977587207096330286416692887910946555547851940402630657488671505820681908902000708383676273854845817711531764475730270069855571366959622842914819860834936475292719074168444365510704342711559699508093042880177904174497792

  lemma SqrtOverflowBoundValue()
    ensures SqrtOverflowBound == Pow(2, 1024) - Pow(2, 970)
  {
    // repeated squaring up to 2^1024
    assert Pow(2, 1) == 2;
    PowAdd(2, 1, 1);
    assert Pow(2, 2) == 4;
    PowAdd(2, 2, 2);
    assert Pow(2, 4) == 16;
    PowAdd(2, 4, 4);
    assert Pow(2, 8) == 256;
    PowAdd(2, 8, 8);
    assert Pow(2, 16) == 65536;
    PowAdd(2, 16, 16);
    assert Pow(2, 32) == 4294967296;
    PowAdd(2, 32, 32);
    assert Pow(2, 64) == 18446744073709551616;
    PowAdd(2, 64, 64);
    PowAdd(2, 128, 128);
    PowAdd(2, 256, 256);
    PowAdd(2, 512, 512);
    // 970 = 512 + 256 + 128 + 64 + 8 + 2
    PowAdd(2, 512, 256);
    PowAdd(2, 768, 128);
    PowAdd(2, 896, 64);
    PowAdd(2, 960, 8);
    PowAdd(2, 968, 2);
  }

  /** The parsed numbers the handler classifies: the rest raise, a negative one
      in `is_armstrong` (through `get_properties`), one from
      `SqrtOverflowBound` up in `math.sqrt` (through `is_prime`), both outside
      the `try`. */
  predicate Classifiable(n: int) {
    0 <= n < SqrtOverflowBound
  }

  /** `classify_number(number)`, with `fetch` standing for the outcome of the
      request to the numbers service. */
  function ClassifyNumber(number: Option<string>, fetch: FetchOutcome): (r: HttpResponse)
    ensures number.None? ==> r == Rejected(400, ErrorResponse("", true))
    ensures number.Some? && ParseInt(number.value).None? ==>
      r == Rejected(400, ErrorResponse(number.value, true))
    ensures r.Classified? <==>
      number.Some? && ParseInt(number.value).Some? && Classifiable(ParseInt(number.value).value)
    ensures r.InternalServerError? <==>
      number.Some? && ParseInt(number.value).Some? && !Classifiable(ParseInt(number.value).value)
    ensures r.Classified? ==>
      r.result.number >= 0 && Some(r.result.number) == ParseInt(number.value) &&
      Describes(r.result, r.result.number, fetch)
  {
    match number
    case None => Rejected(400, ErrorResponse("", true))
    case Some(text) =>
      match ParseInt(text)
      case None => Rejected(400, ErrorResponse(text, true))
      case Some(n) =>
        if !Classifiable(n) then InternalServerError
        else Classified(NumberResponse(
          number := n,
          isPrime := Prime(n),
          isPerfect := IsPerfect(n),
          properties := PropertiesOf(n),
          digitSum := DigitSum(n),
          funFact := GetFunFact(n, fetch)))
  }

  /** Every `str(n)` of a classifiable `n` is classified as `n`; every other
      one (negative, or too large for `math.sqrt`) ends in an internal server error. */
  lemma ClassifyCanonical(n: int, fetch: FetchOutcome)
    ensures var r := ClassifyNumber(Some(IntToString(n)), fetch);
      if Classifiable(n) then r.Classified? && Describes(r.result, n, fetch)
      else r == InternalServerError
  {
    ParseIntRoundTrip(n);
  }

  /** A value with a decimal point is rejected with status 400 and echoed unchanged. */
  lemma DecimalRejected(s: string, k: nat, fetch: FetchOutcome)
    requires k < |s| && s[k] == '.'
    ensures ClassifyNumber(Some(s), fetch) == Rejected(400, ErrorResponse(s, true))
  {
    DecimalPointRejected(s, k);
  }

  /** `?number=371` classifies 371 as an odd Armstrong number, not prime, not
      perfect, with digit sum 11. */
  lemma Scenario371(fetch: FetchOutcome)
    ensures var r := ClassifyNumber(Some("371"), fetch);
      r.Classified? && r.result.number == 371 && !r.result.isPrime && !r.result.isPerfect &&
      r.result.properties == ["armstrong", "odd"] && r.result.digitSum == 11
  {
    Properties371();
    DigitSum371();
    Facts371();
    assert IntToString(371) == "371";
    ClassifyCanonical(371, fetch);
  }

  lemma Properties371()
    ensures PropertiesOf(371) == ["armstrong", "odd"]
  {
    Armstrong371();
  }

  lemma DigitSum371()
    ensures DigitSum(371) == 11
  {
    assert NatToString(371) == "371";
    assert DigitCharSum("371") == 11 by {
      assert "371"[1..] == "71" && "71"[1..] == "1" && "1"[1..] == "";
    }
  }

  /** `?number=153` with a failing reply from the numbers service carries the
      Armstrong explanation as its fact. */
  lemma Scenario153Fallback()
    ensures var r := ClassifyNumber(Some("153"), Reply(404, ""));
      r.Classified? && r.result.number == 153 &&
      r.result.funFact == "153" + " is an Armstrong number because " + "1^3 + 5^3 + 3^3" + " = " + "153"
  {
    assert IntToString(153) == "153";
    ClassifyCanonical(153, Reply(404, ""));
    ArmstrongFallbackExample();
  }

  /** `?number=abc`, `?number=4.9` and a missing parameter are all rejected. */
  lemma ScenarioRejected(fetch: FetchOutcome)
    ensures ClassifyNumber(Some("abc"), fetch) == Rejected(400, ErrorResponse("abc", true))
    ensures ClassifyNumber(Some("4.9"), fetch) == Rejected(400, ErrorResponse("4.9", true))
    ensures ClassifyNumber(None, fetch).StatusCode() == 400
  {
    assert !IsDigitChar("abc"[0]) && !IsIntLiteral("abc");
    assert ParseInt("abc") == None;
    DecimalRejected("4.9", 1, fetch);
  }
}
