/** The `/api/counter` request handler as a pure function from the request
    method, the `maxNumber` query value and the random draw to the response
    (status and JSON body). It keeps no state between calls: the function form
    says so. `Math.random()` is a parameter: an exact fraction in [0, 1); the
    floating-point rounding of `Math.random() * bound` is not modelled. */
module CounterApi {
  import opened JsValues
  import JsParseInt

  /** `req.query.maxNumber`: absent, one string, or (for a repeated key) an array. */
  datatype QueryValue = Missing | Single(text: string) | Multiple(items: seq<string>)

  /** The JSON body: a number (NaN is what `json` receives; its serialisation
      is not modelled) or the `{message: ...}` object. */
  datatype Body = Number(n: Num) | Message(message: string)

  datatype Response = Response(status: int, body: Body)

  /** The bound used when `maxNumber` is absent, empty or an array. */
  const DefaultBound: int := 10

  const NotAllowedMessage: string := "Method Not Allowed"

  /** A value `num / den` of `Math.random()`, in [0, 1). */
  datatype Fraction = Fraction(num: nat, den: nat)
  type Random = r: Fraction | r.num < r.den witness Fraction(0, 1)

  /** `Math.floor(r * bound)`: `/` with a positive divisor rounds down, also for
      a negative dividend. */
  function FloorTimes(r: Random, bound: int): (k: int)
    ensures k * r.den <= r.num * bound < (k + 1) * r.den
  {
    (r.num * bound) / r.den
  }

  /** The ternary on `maxNumber`: `maxNumber && !Array.isArray(maxNumber)
      ? parseInt(maxNumber) : 10`. */
  function Bound(maxNumber: QueryValue): Num
  {
    if maxNumber.Single? && StringTruthy(maxNumber.text) then JsParseInt.ParseInt(maxNumber.text)
    else Int(DefaultBound)
  }

  /** `Math.floor(Math.random() * bound) + 1`; NaN stays NaN. */
  function RandomResult(bound: Num, r: Random): Num
  {
    match bound
    case NaN => NaN
    case Int(b) => Int(FloorTimes(r, b) + 1)
  }

  /** `handler(req, res)`: GET answers 200 with the random number; any other
      method (or none) answers 405 with the error message. */
  function Handler(httpMethod: Optional<string>, maxNumber: QueryValue, r: Random): (resp: Response)
    ensures resp.status == 200 <==> httpMethod == Defined("GET")
    ensures resp.status == 405 <==> httpMethod != Defined("GET")
    ensures resp.status == 405 ==> resp.body == Message(NotAllowedMessage)
    ensures resp.status == 200 ==> resp.body.Number?
  {
    if httpMethod == Defined("GET") then
      Response(200, Number(RandomResult(Bound(maxNumber), r)))
    else
      Response(405, Message(NotAllowedMessage))
  }

  // ---------------------------------------------------------------------------
  // Properties.

  /** A method other than GET gets the same 405 answer whatever the query and
      the draw: no bound and no random number enter the response. */
  lemma NotGetIgnoresQueryAndDraw(httpMethod: Optional<string>, q1: QueryValue, q2: QueryValue, r1: Random, r2: Random)
    requires httpMethod != Defined("GET")
    ensures Handler(httpMethod, q1, r1) == Handler(httpMethod, q2, r2) == Response(405, Message("Method Not Allowed"))
  {
  }

  /** The bound is exactly 10 when `maxNumber` is absent, empty or an array. */
  lemma DefaultBoundCases(items: seq<string>)
    ensures Bound(Missing) == Int(10)
    ensures Bound(Single("")) == Int(10)
    ensures Bound(Multiple(items)) == Int(10)
  {
  }

  /** Any other single string goes through `parseInt`, with no fallback: text
      with no leading digits gives a NaN bound, not 10. */
  lemma BoundParsesSingleString(text: string)
    requires text != ""
    ensures Bound(Single(text)) == JsParseInt.ParseInt(text)
  {
  }

  lemma BoundExamples()
    ensures Bound(Single("20")) == Int(20)
    ensures Bound(Single("20x")) == Int(20)
    ensures Bound(Single("abc")) == NaN
  {
    BoundParsesSingleString("20");
    JsParseInt.ParseIntTwenty();
    BoundParsesSingleString("20x");
    JsParseInt.ParseIntTwentyWithSuffix();
    BoundParsesSingleString("abc");
    JsParseInt.ParseIntNaNExamples();
  }

  /** For a bound b >= 1 the draw floor(r * b) lies in [0, b), so a GET answers
      200 with a number in [1, b]. */
  lemma {:induction false} ResultInRange(maxNumber: QueryValue, r: Random)
    requires Bound(maxNumber).Int? && Bound(maxNumber).value >= 1
    ensures var b := Bound(maxNumber).value;
            var resp := Handler(Defined("GET"), maxNumber, r);
            resp.status == 200 && resp.body.Number? && resp.body.n.Int?
            && 1 <= resp.body.n.value <= b
            && resp.body.n.value == FloorTimes(r, b) + 1
  {
    var b := Bound(maxNumber).value;
    var k := FloorTimes(r, b);
    DrawInRange(r, b);
  }

  /** floor(r * b) for 0 <= r < 1 and b >= 1 lies in [0, b). */
  lemma DrawInRange(r: Random, b: int)
    requires b >= 1
    ensures 0 <= FloorTimes(r, b) < b
  {
    var k := FloorTimes(r, b);
    assert k * r.den <= r.num * b < (k + 1) * r.den;
    assert r.num * b < b * r.den;
    LessByFactor(k, b, r.den);
    LessByFactor(0, k + 1, r.den);
  }

  /** Cancelling a positive factor keeps a strict inequality. */
  lemma LessByFactor(x: int, y: int, c: int)
    requires c > 0 && x * c < y * c
    ensures x < y
  {
  }

  /** The draw k / b, scaled by b and rounded down, is k. */
  lemma FloorTimesExact(k: nat, b: nat)
    requires k < b
    ensures FloorTimes(Fraction(k, b), b) == k
  {
    var f := FloorTimes(Fraction(k, b), b);
    assert f * b <= k * b < (f + 1) * b;
    LessByFactor(k, f + 1, b);
    LessByFactor(f, k + 1, b);
  }

  /** Every value in [1, b] is the answer to some draw: the draw (v - 1) / b. */
  lemma EveryResultReachable(maxNumber: QueryValue, v: int)
    requires Bound(maxNumber).Int? && 1 <= v <= Bound(maxNumber).value
    ensures var r: Random := Fraction(v - 1, Bound(maxNumber).value);
            Handler(Defined("GET"), maxNumber, r) == Response(200, Number(Int(v)))
  {
    var b := Bound(maxNumber).value;
    var r: Random := Fraction(v - 1, b);
    FloorTimesExact(v - 1, b);
    assert RandomResult(Int(b), r) == Int(v);
  }

  /** `maxNumber=0`: floor(r * 0) + 1 is 1 for every draw. */
  lemma ZeroBoundGivesOne(maxNumber: QueryValue, r: Random)
    requires Bound(maxNumber) == Int(0)
    ensures Handler(Defined("GET"), maxNumber, r) == Response(200, Number(Int(1)))
  {
    assert r.num * 0 == 0;
    assert FloorTimes(r, 0) == 0;
  }

  /** A negative bound b (say from `maxNumber=-5`) gives a number in [b + 1, 1]. */
  lemma NegativeBoundRange(maxNumber: QueryValue, r: Random)
    requires Bound(maxNumber).Int? && Bound(maxNumber).value < 0
    ensures var b := Bound(maxNumber).value;
            var resp := Handler(Defined("GET"), maxNumber, r);
            resp.body.Number? && resp.body.n.Int? && b + 1 <= resp.body.n.value <= 1
  {
    DrawInNegativeRange(r, Bound(maxNumber).value);
  }

  /** floor(r * b) for 0 <= r < 1 and b < 0 lies in [b, 0]. */
  lemma DrawInNegativeRange(r: Random, b: int)
    requires b < 0
    ensures b <= FloorTimes(r, b) <= 0
  {
    var k := FloorTimes(r, b);
    assert k * r.den <= r.num * b < (k + 1) * r.den;
    assert r.num * b <= 0;
    assert b * r.den < r.num * b;
    LessByFactor(b, k + 1, r.den);
    LessByFactor(k, 1, r.den);
  }

  /** A NaN bound (from text with no leading digits) makes the answer NaN. */
  lemma NaNBoundGivesNaN(maxNumber: QueryValue, r: Random)
    requires Bound(maxNumber) == NaN
    ensures Handler(Defined("GET"), maxNumber, r) == Response(200, Number(NaN))
  {
  }

  /** Concrete requests: the home page's `maxNumber=20` answers in [1, 20]; no
      `maxNumber` (bound 10) answers in [1, 10]; `maxNumber=abc` answers NaN;
      POST answers 405. */
  lemma HandlerExamples(r: Random)
    ensures var resp := Handler(Defined("GET"), Single("20"), r);
            resp.status == 200 && resp.body.Number? && resp.body.n.Int? && 1 <= resp.body.n.value <= 20
    ensures var resp := Handler(Defined("GET"), Missing, r);
            resp.body.Number? && resp.body.n.Int? && 1 <= resp.body.n.value <= 10
    ensures Handler(Defined("GET"), Single("abc"), r).body == Number(NaN)
    ensures Handler(Defined("POST"), Single("20"), r) == Response(405, Message("Method Not Allowed"))
  {
    BoundExamples();
    ResultInRange(Single("20"), r);
    ResultInRange(Missing, r);
  }
}
