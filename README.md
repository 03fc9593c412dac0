# environment: schema-driven resolution of environment variables

This project models the core of the `environment` library in Dafny. The library resolves a declarative schema against a snapshot of environment variables. Each schema key names an environment variable and a parser. An entry is either required, or optional with a default. Resolution returns an object keyed by schema key, or fails on the first entry that cannot be resolved.

The model has seven modules, one per file:

- `Errors` (errors.dfy) holds the failure datatypes. A thrown error becomes `Err`. A plain `Error` from a parser and the engine's `EnvironmentVariableError` are two constructors of `Error`.
- `JsParseInt` (parse_int.dfy) models JavaScript's `parseInt(text, 10)`, following the ECMAScript algorithm `parseInt (string, radix)`. It skips leading white space, reads one optional sign, then reads the longest run of decimal digits. With no digit the result is NaN, written `None`.
- `Parsers` (parsers.dfy) models src/parsers.ts: `string`, `integer`, the four sign-constrained integer parsers, the `whitelist` factory, and the four parsers backed by the `validator` package. It also holds the corrected integer parser described under Findings.
- `SchemaFold` (schema_fold.dfy) is the `Object.entries(schema).reduce(...)` fold that both revisions of `makeEnv` share. Each resolved value is spread into a fresh object under its key, and the first thrown error aborts the fold.
- `Environment` (environment.dfy) models src/environment.ts. An optional entry's default is a typed value that is returned without parsing.
- `LegacyEnv` (legacy_env.dfy) models src/env.ts, the earlier revision. Its default is serialized text that goes through `parse` like a value read from the environment.
- `Revisions` (revisions.dfy) states where the two revisions agree and where they diverge.

Inputs that the source reads from outside are parameters here:

- `process.env` is a `map<string, string>` parameter. A variable that is not set has no key.
- The `validator` checks `isEmail`, `isURL`, `isIP` and `isPort` are the four fields of a `Validator` parameter.

A schema is the list of `(key, entry)` pairs in the order `Object.entries` yields them. Parsers are total functions `string -> Result<Value>`, where `Value` is a string or an integer. This stands in for the `any` that the source's `Parser` type returns.

The model follows the code in these points, which are easy to misread:

- `integer` reads a leading decimal prefix instead of checking the whole text (see Findings).
- `port` returns the text itself, not a number.
- `whitelist` fails with the fixed message "value is not whitelisted". It does not list the allowed values.
- The required-variable error appends the description only when it is a non-empty string. This matches JavaScript's truthiness test.

## Model

`JsParseInt.ParseInt10` itself has no contract of its own: `ParseIntBySplit` states its result on every text, and `ParseIntReadsPrefix` and `ParseIntNaN` state the same in the other direction, from the shape of the text. The message helpers `Environment.RequiredMessage`, `Environment.InvalidFormatMessage`, `LegacyEnv.RequiredMessage` and `LegacyEnv.InvalidFormatMessage` are the templates of src/environment.ts:57-61 and 84-88 and src/env.ts:54-56 and 69-71; the rows of `GetValue`, `ParseEnvVarValue`, `SerializedValue` and `RequiredMessageNamesVariable` state them.

| member | source | states |
|---|---|---|
| `Parsers.String` | src/parsers.ts:5-7 | `string` returns its input unchanged and never fails |
| `Parsers.Integer` | src/parsers.ts:9-17 | `integer` fails with "value is not a number" exactly when `parseInt(s, 10)` is NaN; otherwise it returns `parseInt`'s value |
| `JsParseInt.Split` | src/parsers.ts:10 | every text is the concatenation of all of its leading white space, a sign whenever one follows it, the longest run of digits after that, and a rest that does not start with a digit |
| `JsParseInt.ParseIntBySplit` | src/parsers.ts:10 | `parseInt(s, 10)` (`JsParseInt.ParseInt10`) on every text: NaN exactly when no digit follows the leading white space and the optional sign; otherwise the signed value of the longest digit run, whatever follows |
| `JsParseInt.LeadingWhiteSpace` | src/parsers.ts:10 | the number of leading white-space characters: all of them are white space, and the next one, if any, is not |
| `JsParseInt.TrimStart` | src/parsers.ts:10 | `parseInt` drops exactly the leading white space: the rest is a suffix that does not start with white space |
| `JsParseInt.LeadingDigits` | src/parsers.ts:10 | `parseInt` reads the longest run of digits: a prefix made only of digits, followed by a non-digit or the end |
| `JsParseInt.ParseIntReadsPrefix` | src/parsers.ts:10 | white space, an optional sign, then digits followed by anything that is not a digit, reads as the signed value of the digits |
| `JsParseInt.ParseIntNaN` | src/parsers.ts:10 | when no digit follows the white space and the optional sign, `parseInt` gives NaN |
| `JsParseInt.ParseIntReadsCanonical` | src/parsers.ts:10 | the canonical text of any integer, followed by anything that does not start with a digit, reads as that integer |
| `JsParseInt.ParseIntRoundTrip` | src/parsers.ts:10 | `parseInt` reads back the canonical decimal text of every integer |
| `Parsers.IntegerRoundTrip` | src/parsers.ts:9-17 | `integer` reads back the canonical decimal text of every integer |
| `Parsers.IntegerReadsPrefix` | src/parsers.ts:10-16 | `integer` returns the value of the leading decimal number and ignores what follows its digits |
| `Parsers.IntegerRejectsMissingDigits` | src/parsers.ts:10-14 | `integer` throws "value is not a number" when the text has no leading decimal digits |
| `Parsers.IntegerExamples` | src/parsers.test.ts:42-60 | "10" gives 10 and "NaN" throws, as the tests expect |
| `Parsers.IntegerAcceptsTrailingFraction` | src/parsers.ts:10 | as written, any integer's text followed by "." and digits is accepted and read as that integer |
| `Parsers.IntegerAcceptsTenPointTwo` | src/parsers.test.ts:50-54 | "10.2" gives 10, although the test expects a throw |
| `Parsers.PositiveInteger` | src/parsers.ts:83-91 | succeeds iff `integer` succeeds with a value > 0, with the same value; `integer`'s error propagates unchanged; otherwise "value is not positive" |
| `Parsers.NonPositiveInteger` | src/parsers.ts:93-101 | succeeds iff `integer` succeeds with a value <= 0, with the same value; `integer`'s error propagates; otherwise "value is positive" |
| `Parsers.NegativeInteger` | src/parsers.ts:103-111 | succeeds iff `integer` succeeds with a value < 0, with the same value; `integer`'s error propagates; otherwise "value is not negative" |
| `Parsers.NonNegativeInteger` | src/parsers.ts:113-121 | succeeds iff `integer` succeeds with a value >= 0, with the same value; `integer`'s error propagates; otherwise "value is negative" |
| `Parsers.SignParsersPartition` | src/parsers.ts:83-121 | on text that `integer` accepts, exactly one of positive/non-positive succeeds, and exactly one of negative/non-negative |
| `Parsers.SignParsersPropagate` | src/parsers.ts:83-121 | on text that `integer` rejects, all four sign-constrained parsers throw "value is not a number" |
| `Parsers.SignParserExamples` | src/parsers.test.ts:165-250 | the test inputs: "2" is positive, "0" is not; "-10" is non-positive and negative; "10" is neither; "0" is non-negative, "-10" is not |
| `Parsers.WhitelistParser` | src/parsers.ts:70-78 | succeeds iff the text is one of the allowed values, and then returns it unchanged; otherwise "value is not whitelisted" |
| `Parsers.Whitelist` | src/parsers.ts:69-81 | the factory returns a parser that accepts exactly the allowed values, returns them unchanged, and otherwise fails with "value is not whitelisted" |
| `Parsers.WhitelistExamples` | src/parsers.test.ts:143-162 | "production" passes the list that holds it and fails a list that does not |
| `Parsers.Email` | src/parsers.ts:29-37 | returns the text unchanged iff `isEmail` accepts it; otherwise "value is not an email" |
| `Parsers.Url` | src/parsers.ts:39-47 | returns the text unchanged iff `isURL` accepts it; otherwise "value is not an URL" |
| `Parsers.IpAddress` | src/parsers.ts:49-57 | returns the text unchanged iff `isIP` accepts it; otherwise "value is not an IP address" |
| `Parsers.Port` | src/parsers.ts:59-67 | returns the text itself, a string and not a number, iff `isPort` accepts it; otherwise "value is not a port" |
| `Parsers.StrictInteger` | src/parsers.test.ts:50-54 | corrected `integer`: succeeds exactly on an optional sign followed by one or more digits and nothing else |
| `Parsers.StrictIntegerRefinesInteger` | src/parsers.ts:9-17 | wherever the corrected parser succeeds, the code's `integer` succeeds with the same value |
| `Parsers.StrictIntegerRoundTrip` | src/parsers.ts:9-17 | the corrected parser reads back the canonical decimal text of every integer |
| `Parsers.StrictIntegerRejectsTrailingFraction` | src/parsers.test.ts:50-54 | the corrected parser rejects every integer's text followed by "." and digits |
| `Parsers.StrictIntegerRejectsTenPointTwo` | src/parsers.test.ts:50-54 | the corrected parser rejects "10.2", as the test expects |
| `SchemaFold.Reduce` | src/environment.ts:43-47 | the fold succeeds iff every entry resolves; the result's keys are then exactly the entries' keys |
| `SchemaFold.ReduceValueAt` | src/environment.ts:43-47 | on success, each key holds the value resolved from its last entry |
| `SchemaFold.ReduceStopsAtFirstError` | src/environment.ts:43-47 | the first entry that fails decides the error; nothing later is consulted and no partial object is returned |
| `Environment.ParseEnvVarValue` | src/environment.ts:74-92 | a parser success is returned unchanged; a failure with reason r on text v for key k becomes `k has invalid format. Reason: r. Got: 'v'` |
| `Environment.GetValue` | src/environment.ts:52-72 | a set variable, even "", goes to the parser; an unset required one fails with `<name> is required but is not set`, plus the description when one is given; an unset optional one yields the default |
| `Environment.MakeEnv` | src/environment.ts:40-50 | succeeds iff every entry resolves; the result's keys are then the schema keys, not the variable names; the empty schema gives the empty object |
| `Environment.MakeEnvValue` | src/environment.ts:43-47 | on success, each schema key holds the value its entry resolved to |
| `Environment.MakeEnvFailsAtFirstError` | src/environment.ts:43-47 | fail-fast: the first failing entry's error is the result |
| `Environment.DefaultIsNotParsed` | src/environment.ts:55-66 | an unset optional variable yields exactly the default, whatever the parser is |
| `Environment.SetVariableIsParsed` | src/environment.ts:52-71 | for a set variable, requiredness and description change nothing, and a parser success is the result |
| `Environment.RequiredMessageNamesVariable` | src/environment.ts:57-61 | the required message starts with `<name> is required but is not set`; something follows iff there is a non-empty description, and then the message ends with it |
| `Environment.EmptySchemaExample` | src/environment.test.ts:13-17 | the empty schema gives the empty object |
| `Environment.SetVariableExample` | src/environment.test.ts:56-72 | the test's scenario restated with this revision's field name `parser` (the test passes `parse`): a variable set to "10" with the integer parser gives 10 under the schema key |
| `Environment.UnsetRequiredExample` | src/environment.test.ts:42-54 | an unset required variable fails with its name in the message |
| `LegacyEnv.SerializedValue` | src/env.ts:50-62 | the text given to `parse` is the variable's value when it is set and the default when it is unset and optional; unset and required fails with `<name> is required but is not set` |
| `LegacyEnv.GetValue` | src/env.ts:47-76 | the chosen text goes through `parse`; a success is returned unchanged; a failure becomes `<key> has invalid format. <reason>. got <text>` |
| `LegacyEnv.MakeEnv` | src/env.ts:37-45 | succeeds iff every entry resolves; the result's keys are then the schema keys; the empty schema gives the empty object |
| `LegacyEnv.MakeEnvValue` | src/env.ts:38-42 | on success, each schema key holds the value its entry resolved to |
| `LegacyEnv.MakeEnvFailsAtFirstError` | src/env.ts:38-42 | fail-fast: the first failing entry's error is the result |
| `LegacyEnv.DefaultIsParsedLikeAValue` | src/env.ts:52-66 | an unset optional variable resolves exactly as if it were set to its default text |
| `LegacyEnv.DefaultsExample` | src/environment.test.ts:19-40 | defaults "100" and "test" resolve to the number 100 and the string "test" |
| `LegacyEnv.SetVariableExample` | src/environment.test.ts:56-72 | a variable set to "10" with `parse: integer` gives 10 under the schema key |
| `LegacyEnv.DefaultTenExample` | src/environment.test.ts:74-92 | an unset optional variable with default text "10" gives 10 under the schema key |
| `Revisions.SetVariableAgrees` | src/env.ts:61-66 | a set variable that the parser accepts resolves to the same value in both revisions |
| `Revisions.SetVariableErrorsDiffer` | src/env.ts:68-72 | a rejected set variable fails in both revisions; the messages share the head `<key> has invalid format. ` and always differ |
| `Revisions.UnsetRequiredAgreesWithoutDescription` | src/env.ts:53-56 | an unset required variable fails in both; the errors are equal iff the newer entry has no non-empty description |
| `Revisions.UnsetOptionalAgreesIffDefaultParsesToIt` | src/env.ts:59 | the newer revision always yields its default; the two agree iff parsing the older default text gives the newer default |
| `Revisions.AllSetRevisionsAgree` | src/env.ts:37-76 | when every variable is set, both revisions fail, or both build the same object |

## Left out

- `float` (src/parsers.ts:19-27) is not modelled. It relies on `parseFloat` and IEEE floating point.
- `boolean`, `array` and `regex` are not modelled. src/index.ts exports them and src/parsers.test.ts:13-39 tests `boolean`, but no implementation of them is part of the source.
- The test at src/environment.test.ts:94-108 expects a non-string default to throw. No code in src/env.ts or src/environment.ts performs that check. `LegacyEnv` takes the default as a string.
- The `validator` package is not part of this model. Its four checks are opaque `string -> bool` parameters.
- `process.env` is an explicit map argument. The source reads the live process environment.
- `EnvironmentVariableError` (src/EnvironmentVariableError.ts) is a constructor tag. Its `name` property is not modelled.
- A parser that throws something other than an `Error` is not modelled. Parsers here fail only with an `Error` value that carries a message.
- Parsers.Integer: returns the exact value of the digits as an unbounded integer. In the source the result is an IEEE double: digit runs beyond 2^53 are rounded, very long runs give Infinity, and "-0" gives negative zero. Every sign check treats negative zero as 0, as the model does.
- Strings are sequences of Unicode scalar values, not UTF-16 code units. This differs only for unpaired surrogates, which no white-space or digit test matches.
- The resolved object is a `map`, so its key order is not modelled. The schema is taken as the list `Object.entries` produces. JavaScript lists integer-like keys first; that ordering is not modelled.
- Idempotence has no lemma. Resolution is a function of the schema and the snapshot, so two calls on the same inputs are equal by construction.
- The TypeScript mapped and conditional types (`Env<T>`, `Schema<T>`, `SchemaEntryType`) are not modelled. They have no run-time behaviour. One `Value` datatype stands for the parsed values.
- The engine and the sign-constrained parsers keep the code's `integer` (`Parsers.Integer`), because they model the code as it stands. The corrected `Parsers.StrictInteger` is a separate definition; only its own lemmas use it.

## Findings

| source | as written | input that shows it | evidently intended | confidence | as-written member | corrected member |
|---|---|---|---|---|---|---|
| src/parsers.ts:10 | `integer` uses `parseInt(serializedValue, 10)`, which reads the leading digits and ignores the rest | "10.2" is accepted as 10; the test at src/parsers.test.ts:50-54 expects a throw | reject any text that is not an optional sign followed by digits | high; not executed | `Parsers.IntegerAcceptsTrailingFraction` | `Parsers.StrictInteger` |
