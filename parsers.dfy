/** The built-in parser library (src/parsers.ts). A parser turns the raw
    text of an environment variable into a value or throws; here it returns
    a `Result`. */
module Parsers {
  import opened Errors
  import opened JsParseInt

  /** What a parser may produce. It stands for the `any` of the source's
      `Parser` type, which only strings and numbers fill in this library. */
  datatype Value = Str(s: string) | Int(i: int)

  /** A parser as the resolution engine sees it: raw text in, a value or a
      thrown error out. */
  type Parser = string -> Result<Value>

  /** The external `validator` package, whose code is not part of this
      model: each field is the check the source calls. */
  datatype Validator = Validator(
    isEmail: string -> bool,
    isURL: string -> bool,
    isIP: string -> bool,
    isPort: string -> bool)

  const NotANumber := "value is not a number"

  /** `string`: the identity, which never throws. */
  function String(serializedValue: string): (r: Result<string>)
    ensures r == Ok(serializedValue)
  {
    Ok(serializedValue)
  }

  /** `integer`: `parseInt(serializedValue, 10)`, throwing only on NaN. */
  function Integer(serializedValue: string): (r: Result<int>)
    ensures r.Err? <==> ParseInt10(serializedValue) == None
    ensures r.Ok? ==> ParseInt10(serializedValue) == Some(r.value)
    ensures r.Err? ==> r.error == PlainError(NotANumber)
  {
    match ParseInt10(serializedValue)
    case None => Err(PlainError(NotANumber))
    case Some(value) => Ok(value)
  }

  /** `positiveInteger`: `integer`, then rejects values that are not > 0. */
  function PositiveInteger(serializedValue: string): (r: Result<int>)
    ensures r.Ok? <==> Integer(serializedValue).Ok? && Integer(serializedValue).value > 0
    ensures r.Ok? ==> r == Integer(serializedValue)
    ensures Integer(serializedValue).Err? ==> r == Integer(serializedValue)
    ensures Integer(serializedValue).Ok? && r.Err? ==> r.error == PlainError("value is not positive")
  {
    match Integer(serializedValue)
    case Err(e) => Err(e)
    case Ok(value) => if value <= 0 then Err(PlainError("value is not positive")) else Ok(value)
  }

  /** `nonPositiveInteger`: `integer`, then rejects values > 0. */
  function NonPositiveInteger(serializedValue: string): (r: Result<int>)
    ensures r.Ok? <==> Integer(serializedValue).Ok? && Integer(serializedValue).value <= 0
    ensures r.Ok? ==> r == Integer(serializedValue)
    ensures Integer(serializedValue).Err? ==> r == Integer(serializedValue)
    ensures Integer(serializedValue).Ok? && r.Err? ==> r.error == PlainError("value is positive")
  {
    match Integer(serializedValue)
    case Err(e) => Err(e)
    case Ok(value) => if value > 0 then Err(PlainError("value is positive")) else Ok(value)
  }

  /** `negativeInteger`: `integer`, then rejects values that are not < 0. */
  function NegativeInteger(serializedValue: string): (r: Result<int>)
    ensures r.Ok? <==> Integer(serializedValue).Ok? && Integer(serializedValue).value < 0
    ensures r.Ok? ==> r == Integer(serializedValue)
    ensures Integer(serializedValue).Err? ==> r == Integer(serializedValue)
    ensures Integer(serializedValue).Ok? && r.Err? ==> r.error == PlainError("value is not negative")
  {
    match Integer(serializedValue)
    case Err(e) => Err(e)
    case Ok(value) => if value >= 0 then Err(PlainError("value is not negative")) else Ok(value)
  }

  /** `nonNegativeInteger`: `integer`, then rejects values < 0. */
  function NonNegativeInteger(serializedValue: string): (r: Result<int>)
    ensures r.Ok? <==> Integer(serializedValue).Ok? && Integer(serializedValue).value >= 0
    ensures r.Ok? ==> r == Integer(serializedValue)
    ensures Integer(serializedValue).Err? ==> r == Integer(serializedValue)
    ensures Integer(serializedValue).Ok? && r.Err? ==> r.error == PlainError("value is negative")
  {
    match Integer(serializedValue)
    case Err(e) => Err(e)
    case Ok(value) => if value < 0 then Err(PlainError("value is negative")) else Ok(value)
  }

  /** The parser that `whitelist` returns, applied to one text. */
  function WhitelistParser(whitelistedValues: seq<string>, serializedValue: string): (r: Result<string>)
    ensures r.Ok? <==> serializedValue in whitelistedValues
    ensures r.Ok? ==> r.value == serializedValue
    ensures r.Err? ==> r.error == PlainError("value is not whitelisted")
  {
    if serializedValue in whitelistedValues then Ok(serializedValue)
    else Err(PlainError("value is not whitelisted"))
  }

  /** `whitelist`: a factory that closes over the allowed values. */
  function Whitelist(whitelistedValues: seq<string>): (parser: string -> Result<string>)
    ensures forall s :: parser(s).Ok? <==> s in whitelistedValues
    ensures forall s :: parser(s).Ok? ==> parser(s).value == s
    ensures forall s :: parser(s).Err? ==> parser(s).error == PlainError("value is not whitelisted")
  {
    s => WhitelistParser(whitelistedValues, s)
  }

  /** The common shape of the four validator-backed parsers: return the
      text unchanged when the check accepts it, throw otherwise. */
  function Guard(accepted: bool, serializedValue: string, message: string): (r: Result<string>)
    ensures r.Ok? <==> accepted
    ensures r.Ok? ==> r.value == serializedValue
    ensures r.Err? ==> r.error == PlainError(message)
  {
    if accepted then Ok(serializedValue) else Err(PlainError(message))
  }

  /** `email`: the text itself when `isEmail` accepts it. */
  function Email(validator: Validator, serializedValue: string): (r: Result<string>)
    ensures r.Ok? <==> validator.isEmail(serializedValue)
    ensures r.Ok? ==> r.value == serializedValue
    ensures r.Err? ==> r.error == PlainError("value is not an email")
  {
    Guard(validator.isEmail(serializedValue), serializedValue, "value is not an email")
  }

  /** `url`: the text itself when `isURL` accepts it. */
  function Url(validator: Validator, serializedValue: string): (r: Result<string>)
    ensures r.Ok? <==> validator.isURL(serializedValue)
    ensures r.Ok? ==> r.value == serializedValue
    ensures r.Err? ==> r.error == PlainError("value is not an URL")
  {
    Guard(validator.isURL(serializedValue), serializedValue, "value is not an URL")
  }

  /** `ipAddress`: the text itself when `isIP` accepts it (either version). */
  function IpAddress(validator: Validator, serializedValue: string): (r: Result<string>)
    ensures r.Ok? <==> validator.isIP(serializedValue)
    ensures r.Ok? ==> r.value == serializedValue
    ensures r.Err? ==> r.error == PlainError("value is not an IP address")
  {
    Guard(validator.isIP(serializedValue), serializedValue, "value is not an IP address")
  }

  /** `port`: the text itself when `isPort` accepts it. The result stays a
      string; it is not converted to a number. */
  function Port(validator: Validator, serializedValue: string): (r: Result<string>)
    ensures r.Ok? <==> validator.isPort(serializedValue)
    ensures r.Ok? ==> r.value == serializedValue
    ensures r.Err? ==> r.error == PlainError("value is not a port")
  {
    Guard(validator.isPort(serializedValue), serializedValue, "value is not a port")
  }

  /** A library parser that yields numbers, as the engine sees it. */
  function IntParser(parse: string -> Result<int>): Parser {
    s => match parse(s) case Ok(n) => Ok(Int(n)) case Err(e) => Err(e)
  }

  /** A library parser that yields strings, as the engine sees it. */
  function StrParser(parse: string -> Result<string>): Parser {
    s => match parse(s) case Ok(t) => Ok(Str(t)) case Err(e) => Err(e)
  }

  // Properties of `integer`

  /** `integer` reads back the canonical text of every integer. */
  lemma IntegerRoundTrip(n: int)
    ensures Integer(IntToString(n)) == Ok(n)
  {
    ParseIntRoundTrip(n);
  }

  /** `integer` reads the leading decimal number of the text and ignores
      whatever follows its digits. */
  lemma IntegerReadsPrefix(ws: string, sign: string, ds: string, rest: string)
    requires AllStrWhiteSpace(ws)
    requires sign == "" || sign == "+" || sign == "-"
    requires ds != [] && AllDigits(ds)
    requires rest == [] || !IsDigit(rest[0])
    ensures Integer(ws + sign + ds + rest) == Ok(Signed(sign == "-", DigitsValue(ds)))
  {
    ParseIntReadsPrefix(ws, sign, ds, rest);
  }

  /** `integer` throws "value is not a number" when no digit follows the
      leading white space and the optional sign. */
  lemma IntegerRejectsMissingDigits(ws: string, sign: string, rest: string)
    requires AllStrWhiteSpace(ws)
    requires sign == "" || sign == "+" || sign == "-"
    requires rest == [] || !IsDigit(rest[0])
    requires sign == "" ==> rest == [] || (!IsStrWhiteSpace(rest[0]) && rest[0] != '+' && rest[0] != '-')
    ensures Integer(ws + sign + rest) == Err(PlainError(NotANumber))
  {
    ParseIntNaN(ws, sign, rest);
  }

  /** The examples of src/parsers.test.ts:42-60 that the code meets:
      "10" gives 10 and "NaN" throws. */
  lemma IntegerExamples()
    ensures Integer("10") == Ok(10)
    ensures Integer("NaN") == Err(PlainError(NotANumber))
  {
    assert IntToString(10) == "10";
    IntegerRoundTrip(10);
    IntegerRejectsMissingDigits("", "", "NaN");
    assert "" + "" + "NaN" == "NaN";
  }

  /** The integer parser as a schema entry stores "10" as the number 10. */
  lemma IntParserReadsTen()
    ensures IntParser(Integer)("10") == Ok(Int(10))
  {
    IntegerExamples();
  }

  /** As written, `integer` accepts an integer followed by a decimal
      fraction and returns the integer part: "10.2" gives 10, where
      src/parsers.test.ts:50-54 expects a throw. */
  lemma IntegerAcceptsTrailingFraction(n: int, fraction: string)
    requires AllDigits(fraction)
    ensures Integer(IntToString(n) + "." + fraction) == Ok(n)
  {
    var rest := "." + fraction;
    assert IntToString(n) + "." + fraction == IntToString(n) + rest;
    ParseIntReadsCanonical(n, rest);
  }

  /** The input of src/parsers.test.ts:50-54: "10.2" gives 10. */
  lemma IntegerAcceptsTenPointTwo()
    ensures Integer("10.2") == Ok(10)
  {
    assert IntToString(10) + "." + "2" == "10.2";
    IntegerAcceptsTrailingFraction(10, "2");
  }

  // Properties of the sign-constrained parsers

  /** On every text that `integer` accepts, exactly one of `positiveInteger`
      and `nonPositiveInteger` succeeds, and exactly one of
      `negativeInteger` and `nonNegativeInteger`. */
  lemma SignParsersPartition(serializedValue: string)
    requires Integer(serializedValue).Ok?
    ensures PositiveInteger(serializedValue).Ok? != NonPositiveInteger(serializedValue).Ok?
    ensures NegativeInteger(serializedValue).Ok? != NonNegativeInteger(serializedValue).Ok?
  {
  }

  /** On a text that `integer` rejects, all four sign-constrained parsers
      throw its error unchanged. */
  lemma SignParsersPropagate(serializedValue: string)
    requires Integer(serializedValue).Err?
    ensures PositiveInteger(serializedValue) == Err(PlainError(NotANumber))
    ensures NonPositiveInteger(serializedValue) == Err(PlainError(NotANumber))
    ensures NegativeInteger(serializedValue) == Err(PlainError(NotANumber))
    ensures NonNegativeInteger(serializedValue) == Err(PlainError(NotANumber))
  {
  }

  /** The texts that src/parsers.test.ts:165-250 feed to the
      sign-constrained parsers, as `integer` reads them. */
  lemma SignTestInputs()
    ensures Integer("2") == Ok(2) && Integer("0") == Ok(0)
    ensures Integer("10") == Ok(10) && Integer("-10") == Ok(-10)
    ensures Integer("NaN").Err?
  {
    IntegerExamples();
    IntegerReadsTwo();
    IntegerReadsZero();
    IntegerReadsMinusTen();
  }

  lemma IntegerReadsTwo() ensures Integer("2") == Ok(2) {
    assert IntToString(2) == "2";
    IntegerRoundTrip(2);
  }

  lemma IntegerReadsZero() ensures Integer("0") == Ok(0) {
    assert IntToString(0) == "0";
    IntegerRoundTrip(0);
  }

  lemma IntegerReadsMinusTen() ensures Integer("-10") == Ok(-10) {
    assert Decimal(10) == "10";
    assert IntToString(-10) == "-" + "10" == "-10";
    IntegerRoundTrip(-10);
  }

  /** The examples of src/parsers.test.ts:165-250. */
  lemma SignParserExamples()
    ensures PositiveInteger("2") == Ok(2) && PositiveInteger("0").Err? && PositiveInteger("NaN").Err?
    ensures NonPositiveInteger("-10") == Ok(-10) && NonPositiveInteger("10").Err?
    ensures NegativeInteger("-10") == Ok(-10) && NegativeInteger("10").Err?
    ensures NonNegativeInteger("0") == Ok(0) && NonNegativeInteger("-10").Err?
  {
    SignTestInputs();
  }

  // The corrected `integer`

  /** The integer format that src/parsers.test.ts:50-54 evidently intends:
      at most one sign, then one or more decimal digits, and nothing else. */
  predicate IsIntegerText(s: string) {
    var digits := if s != [] && (s[0] == '+' || s[0] == '-') then s[1..] else s;
    digits != [] && AllDigits(digits)
  }

  /** `integer` with the strict format check: the same value as `parseInt`
      where the whole text is an integer, "value is not a number" otherwise. */
  function StrictInteger(serializedValue: string): (r: Result<int>)
    ensures r.Ok? <==> IsIntegerText(serializedValue)
    ensures r.Err? ==> r.error == PlainError(NotANumber)
  {
    if IsIntegerText(serializedValue) then
      var negative := serializedValue[0] == '-';
      var signed := serializedValue[0] == '+' || serializedValue[0] == '-';
      var digits := if signed then serializedValue[1..] else serializedValue;
      Ok(Signed(negative, DigitsValue(digits)))
    else Err(PlainError(NotANumber))
  }

  /** The corrected parser only narrows what `integer` accepts: where it
      succeeds, `integer` succeeds with the same value. */
  lemma StrictIntegerRefinesInteger(serializedValue: string)
    ensures StrictInteger(serializedValue).Ok? ==> Integer(serializedValue) == StrictInteger(serializedValue)
  {
    if IsIntegerText(serializedValue) {
      var s := serializedValue;
      var signed := s[0] == '+' || s[0] == '-';
      var sign := if signed then s[..1] else "";
      var digits := if signed then s[1..] else s;
      assert s == "" + sign + digits + "";
      IntegerReadsPrefix("", sign, digits, "");
    }
  }

  /** The corrected parser reads back the canonical text of every integer. */
  lemma StrictIntegerRoundTrip(n: int)
    ensures StrictInteger(IntToString(n)) == Ok(n)
  {
    var s := IntToString(n);
    assert IsIntegerText(s) by {
      if n < 0 {
        assert s[1..] == Decimal(-n);
      }
    }
    StrictIntegerRefinesInteger(s);
    IntegerRoundTrip(n);
  }

  /** The corrected parser rejects an integer followed by a fraction, which
      `integer` as written accepts. */
  lemma StrictIntegerRejectsTrailingFraction(n: int, fraction: string)
    requires AllDigits(fraction)
    ensures StrictInteger(IntToString(n) + "." + fraction).Err?
  {
    var s := IntToString(n) + "." + fraction;
    var d := Decimal(if n < 0 then -n else n);
    var at := if n < 0 then 1 + |d| else |d|;
    assert s[at] == '.';
  }

  /** The input of src/parsers.test.ts:50-54 is rejected by the corrected
      parser, as the test expects. */
  lemma StrictIntegerRejectsTenPointTwo()
    ensures StrictInteger("10.2").Err?
  {
    assert !IsDigit("10.2"[2]);
  }

  // Properties of `whitelist` and the validator-backed parsers

  /** The examples of src/parsers.test.ts:143-162. */
  lemma WhitelistExamples()
    ensures Whitelist(["production", "development"])("production") == Ok("production")
    ensures Whitelist(["staging", "development"])("production").Err?
  {
  }
}
