# Number classification API: a Dafny model

The service answers `GET /api/classify-number?number=<value>`. It parses the
value as an integer. It reports whether the number is prime, whether it is
perfect, its properties (`"armstrong"` when it applies, then `"even"` or
`"odd"`), its digit sum, and a "fun fact". The fact comes from an outside
numbers service, with a local fallback sentence when that service fails.

The model has five modules:

- `Wrappers` (wrappers.dfy): `Option`.
- `Decimal` (decimal.dfy): `str(n)` as `NatToString`/`IntToString`, `int(s)` as
  `ParseInt`, `int(c)` for one digit as `DigitValue`, and `**` as `Pow`.
- `Classifier` (classifier.dfy): `is_prime` as a method with its trial-division
  loop, proved against the predicate `Prime`. Also `is_perfect`, `is_armstrong`
  and `get_digit_sum` as recursive functions, and `get_properties` as a method
  that appends to a local list, proved against the function `PropertiesOf`.
- `FunFact` (funfact.dfy): the outcome of the HTTP request is a value,
  `FetchOutcome`: either `Reply(statusCode, text)` or `Raised` (any exception).
  `GetFunFact(n, fetch)` is then a pure function that sanitises a 200 body,
  builds the non-200 fallback, or gives the exception fallback `"Number {n}"`.
- `Handler` (handler.dfy): `classify_number` as `ClassifyNumber(number, fetch)`.
  It maps an optional query string to a 400 error body, a 200 classification,
  or a 500 internal server error.

Behaviour of the code that the model follows:

- Negative numbers. `is_prime` and `is_perfect` answer `False` for them.
  `is_armstrong` and `get_digit_sum` call `int('-')` on the sign of `str(n)`,
  which raises `ValueError`. The model therefore defines `IsArmstrong`,
  `DigitSum`, `PropertiesOf` and `GetProperties` on `n >= 0` only. In the
  handler, `get_properties(num)` is evaluated outside any `try`, so a request
  such as `?number=-5` ends as a 500 reply (`InternalServerError`). Inside
  `get_fun_fact` the same exception is caught by the bare `except`, so
  `GetFunFact` of a negative `n` with a non-200 reply is `"Number {n}"`. No
  absolute value is taken anywhere, and so `DigitSum(-n) == DigitSum(n)` has
  no counterpart.
- Decimal strings. `int("4.9")` raises `ValueError`, so `?number=4.9` is a 400
  reply echoing `"4.9"`. The value is not truncated to 4 (`DecimalRejected`,
  `ScenarioRejected`).
- Sanitising a 200 body does only `strip()`, then replaces `'\n'` with a space,
  then removes `'\r'`. Non-ASCII text is not removed, and the text is not
  checked against JSON encoding.
- There are two fallbacks. A reply other than 200 gives the Armstrong
  explanation or the parity sentence. An exception (connection error and the
  like) gives `"Number {n}"`.
- Very large numbers. `int()` accepts numbers far beyond the range of a double.
  `is_prime` calls `math.sqrt(n)`, which converts `n` to a double. For every
  `n >= 2^1024 - 2^970` (309 digits) that conversion raises `OverflowError`.
  The call is outside the `try`, whose `except` catches only `ValueError`
  anyway. So such a request ends as a 500 reply too. `Classifiable` spells out
  the range that gets a 200 reply: `0 <= n < SqrtOverflowBound`.

## Model

| member | source | states |
|---|---|---|
| `Decimal.NatToString` | main.py:50 | `str(n)` for `n >= 0` is all ASCII digits, one per decimal digit (`DigitCount`), with no leading zero |
| `Decimal.NatToStringDigits` | main.py:50 | character `i` of `str(n)` is the `i`-th decimal digit of `n` (`Digits(n)[i]`) |
| `Decimal.IntToString` | main.py:85-89 | `str(n)` inside the f-strings: non-empty; `str(n)` of the digits for `n >= 0`; `'-'` followed by `str(-n)` for `n < 0` |
| `Decimal.ParseDigits` | main.py:105 | a run of ASCII digits parses, and nothing else does; the value is below `10^len` |
| `Decimal.ParseInt` | main.py:104-106 | `int(s)` succeeds exactly on an optional sign followed by one or more ASCII digits |
| `Decimal.ParseIntRoundTrip` | main.py:105 | `int(str(n)) == n` for every integer `n`, negative ones included |
| `Decimal.ParseIntSigned` | main.py:105 | for a run of digits `t`, `int("+" + t) == int(t)` is the value of the digits, and `int("-" + t)` is its negation |
| `Decimal.ParseDigitsLeadingZero` | main.py:105 | leading zeros do not change the value; with the round trip this fixes the value of every digit string |
| `Decimal.ParseIntExamples` | main.py:105 | `int("+5") == 5`, `int("007") == 7`, `int("-0") == 0` |
| `Decimal.DecimalPointRejected` | main.py:104-106 | a string containing `'.'` (such as `"4.7"`) is not accepted by `int()` |
| `Classifier.Isqrt` | main.py:36 | the loop bound is the integer square root: `r*r <= n < (r+1)*(r+1)` |
| `Classifier.IsPrime` | main.py:32-39 | the result is true iff `n >= 2` and no `i` in `2..isqrt(n)` divides `n`; equivalently iff `n` is prime (no divisor strictly between 1 and `n`) |
| `Classifier.TrialDivisionSuffices` | main.py:36-39 | finding no divisor up to the square root proves that `n` has no divisor in `(1, n)` |
| `Classifier.DivisorSum` | main.py:45 | the sum of the divisors in `[1, k)` is at least 1 once 1 is in range, and at most `k(k-1)/2` |
| `Classifier.DivisorSumGap` | main.py:45 | a range `[a, b)` holding no divisor adds nothing to the sum |
| `Classifier.IsPerfect` | main.py:41-46 | `is_perfect`: false for `n <= 1`, else the divisors in `[1, n)` sum to `n`; nothing below 6 passes |
| `Classifier.PrimeNotPerfect` | main.py:41-46 | a prime's divisors below itself sum to 1, so no prime is perfect |
| `Classifier.PerfectExamples` | main.py:41-46 | 6 and 28 are perfect, 10 is not, and no `n <= 1` is perfect |
| `Classifier.Facts371` | main.py:32-46 | 371 is neither prime nor perfect (its divisors below itself are 1, 7 and 53) |
| `Classifier.PowerSum` | main.py:52 | the generator sum of `int(digit) ** power` over a digit string; with power 1 it is the digit sum `DigitCharSum` |
| `Classifier.IsArmstrong` | main.py:48-52 | the test over the characters of `str(n)` is the arithmetic one: the `k`-th powers of the decimal digits of `n` (`Digits(n)`, by division) sum to `n`, where `k` is the digit count |
| `Classifier.SingleDigitArmstrong` | main.py:48-52 | every `n` in 0..9 is an Armstrong number |
| `Classifier.ArmstrongExamples` | main.py:48-52 | 153 and 371 are Armstrong numbers; 10 is not |
| `Classifier.DigitCharSum` | main.py:56 | the generator sum of `int(digit)` over a digit string is at most 9 times its length |
| `Classifier.DigitSum` | main.py:54-56 | the digit sum of `n >= 0` is non-negative and at most 9 times the digit count |
| `Classifier.DigitSumArith` | main.py:54-56 | the digit sum over `str(n)` is the arithmetic one: the last digit `n % 10` plus the digit sum of `n / 10` |
| `Classifier.DigitSumMod9` | main.py:54-56 | a number and its digit sum agree modulo 9, and the digit sum never exceeds the number |
| `Classifier.PropertiesOf` | main.py:58-69 | one or two entries; the last is `"even"` iff `n % 2 == 0` and `"odd"` otherwise; `"armstrong"` appears iff `IsArmstrong(n)`, and only at index 0 |
| `Classifier.GetProperties` | main.py:58-69 | the list built by the appends is exactly `PropertiesOf(n)` |
| `FunFact.IsSpace` | main.py:77 | the characters `str.strip()` removes, written out as the code points for which Python's `str.isspace()` holds; its contract states that space, tab, `'\n'` and `'\r'` are among them and that no digit is |
| `FunFact.StripLeading` | main.py:77 | the result is a suffix of the input, everything dropped is whitespace, and it does not start with whitespace |
| `FunFact.StripTrailing` | main.py:77 | the result is a prefix of the input, everything dropped is whitespace, and it does not end with whitespace |
| `FunFact.Strip` | main.py:77 | the stripped text neither starts nor ends with whitespace (`NoOuterSpace`) |
| `FunFact.ReplaceChar` | main.py:77 | same length; each occurrence of `a` becomes `b` and every other character is kept; no `a` is left |
| `FunFact.RemoveChar` | main.py:77 | no `c` is left; no other character appears; unchanged when there is no `c`; a first or last character other than `c` is kept |
| `FunFact.RemoveCharCounts` | main.py:77 | every character other than `c` keeps its number of occurrences |
| `FunFact.RemoveCharAppend` | main.py:77 | removal distributes over concatenation, so the kept characters stay in their order |
| `FunFact.Sanitize` | main.py:77 | the sanitised fact is clean (`IsClean`): no `'\n'`, no `'\r'`, and no leading or trailing whitespace |
| `FunFact.SanitizeFixpoint` | main.py:77 | sanitising leaves a text unchanged iff it is already free of line breaks and outer whitespace |
| `FunFact.SanitizeIdempotent` | main.py:77 | sanitising twice gives the same text as sanitising once |
| `FunFact.Join` | main.py:84 | `sep.join` of a single part is that part |
| `FunFact.JoinAppend` | main.py:84 | joining one more part appends the separator and the part |
| `FunFact.PowerTerms` | main.py:82-84 | one term `d^k` per character `d` of the digits, in order |
| `FunFact.CalculationTerms` | main.py:82-84 | the terms for `str(n)`: one per decimal digit of `n`, term `i` being the `i`-th digit (`Digits(n)[i]`) followed by `^` and the digit count |
| `FunFact.Calculation` | main.py:82-84 | `" + ".join` of `CalculationTerms(n)`; a one-digit number gives the single term `d^1` |
| `FunFact.ArmstrongSentence` | main.py:85 | `"{n} is an Armstrong number because {calculation} = {n}"`: it starts with `str(n)`, and its length is twice that of `str(n)` plus the calculation plus 35 characters of fixed text |
| `FunFact.ExceptionFact` | main.py:87-89 | `"Number "` followed by a text that `int()` reads back as `n` |
| `FunFact.NonOkFact` | main.py:80-89 | the non-200 fallback: for negative `n`, whose `is_armstrong` raises inside the `try`, the exception fact; for `n >= 0`, the Armstrong sentence (`ArmstrongSentence`, main.py:85) iff `"armstrong"` is among the properties (main.py:58-69), and otherwise `"{n} is " + properties[0]` |
| `FunFact.GetFunFact` | main.py:71-89 | a 200 reply gives exactly the reply text sanitised (`Sanitize(text)`), which is clean; a non-200 reply gives the fallback `NonOkFact(n)`; an exception gives `"Number {n}"` |
| `FunFact.ArmstrongFallbackExample` | main.py:81-85 | a 404 reply for 153 gives `"153 is an Armstrong number because 1^3 + 5^3 + 3^3 = 153"` |
| `FunFact.ParityFallbackExample` | main.py:86 | a 500 reply for 10 gives `"10 is even"` |
| `FunFact.ExceptionFallbackExamples` | main.py:80-89 | an exception for 153 gives `"Number 153"`; a 404 reply for -7 gives `"Number -7"`, because `is_armstrong(-7)` raises inside the `try` |
| `Handler.SqrtOverflowBoundValue` | main.py:36 | the overflow bound of `math.sqrt` is `2^1024 - 2^970` |
| `Handler.ClassifyNumber` | main.py:92-121 | missing parameter: 400 with `{number: "", error: true}`; unparsable string: 400 echoing it unchanged; negative number or one from `2^1024 - 2^970` up: 500; otherwise 200 whose `number` is the parsed value and whose other fields are the classifier results on it |
| `Handler.ClassifyCanonical` | main.py:104-121 | for each classifiable `n`, the request `?number=str(n)` is classified as `n`; for every other `n` it gives 500 |
| `Handler.DecimalRejected` | main.py:104-110 | a value with a decimal point is rejected with 400 and echoed unchanged |
| `Handler.Scenario371` | main.py:112-119 | `?number=371` gives 200 with `number` 371, not prime, not perfect, properties `["armstrong", "odd"]`, digit sum 11 |
| `Handler.Scenario153Fallback` | main.py:80-85 | `?number=153` with a 404 reply carries the Armstrong explanation for 153 as its fact |
| `Handler.ScenarioRejected` | main.py:96-110 | `?number=abc` and `?number=4.9` give 400 echoing the value; a missing parameter gives 400 |

## Left out

- The FastAPI application, the CORS middleware, the route decorator and the uvicorn start-up (main.py:9-18, 91, 123-125) are framework plumbing.
- The HTTP request to numbersapi.com (main.py:74) is network I/O. It is an abstract `FetchOutcome` parameter. No timeout is modelled, and there is none in the code.
- Decoding the reply body into `response.text` is left out: `text` is given already decoded.
- `Classifier.IsPrime`: `int(math.sqrt(n))` (main.py:36) is a floating-point computation, replaced by the exact integer square root `Isqrt`. Below `2^1024 - 2^970` the float rounding of `math.sqrt`, which can differ from `Isqrt` for large `n`, is not modelled. From that bound up, `math.sqrt` raises `OverflowError`; `IsPrime` still answers, and the raise is modelled only in `Handler.ClassifyNumber` (a 500 reply).
- `Decimal.ParseInt`: Python's `int()` also accepts surrounding whitespace, `_` between digits and non-ASCII Unicode decimal digits. It also rejects strings over its digit limit (4300 digits by default). `ParseInt` accepts only an optional `+`/`-` followed by ASCII digits, with no length limit.
- Pydantic validation and JSON serialisation (main.py:20-30, 98-101, 107-110, 112-121) are replaced by the datatypes `ErrorResponse`, `NumberResponse` and `HttpResponse`. The body of the 500 reply is not modelled.
- `async` execution has no concurrency content here.
- Running time is not modelled. `is_perfect` is linear in `n`, so a large number makes a request slow.
