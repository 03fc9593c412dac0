/** The earlier revision of the resolution engine, src/env.ts. Its entries
    carry `parse` instead of `parser` and no description, and an optional
    entry's default is serialized text that goes through `parse` exactly
    like a value read from the environment. */
module LegacyEnv {
  import opened Errors
  import opened Parsers
  import SchemaFold
  import JsParseInt

  /** `SchemaEntryRequiredInfo`: required, or optional with a default in
      serialized form. */
  datatype SchemaEntryRequiredInfo = Required | Optional(defaultEnvVarValue: string)

  datatype SchemaEntry = SchemaEntry(
    parse: Parser,
    envVarName: string,
    requiredInfo: SchemaEntryRequiredInfo)

  /** A schema, as the list that `Object.entries` yields for it. */
  type Schema = seq<(string, SchemaEntry)>

  /** The snapshot of `process.env`: a variable that is not set has no key. */
  type ProcessEnv = map<string, string>

  /** The resolved object, keyed by schema key. */
  type Env = map<string, Value>

  /** The message for a required variable that is not set. */
  function RequiredMessage(envVarName: string): string {
    envVarName + " is required but is not set"
  }

  /** The message for a text that `parse` rejected. */
  function InvalidFormatMessage(key: string, reason: string, serializedValue: string): string {
    key + " has invalid format. " + reason + ". got " + serializedValue
  }

  /** The text handed to `parse`: the variable's own value when it is set,
      the default when it is unset and optional; an unset required variable
      fails. */
  function SerializedValue(processEnv: ProcessEnv, schemaEntry: SchemaEntry): (r: Result<string>)
    ensures schemaEntry.envVarName in processEnv ==> r == Ok(processEnv[schemaEntry.envVarName])
    ensures schemaEntry.envVarName !in processEnv && schemaEntry.requiredInfo.Optional? ==>
      r == Ok(schemaEntry.requiredInfo.defaultEnvVarValue)
    ensures schemaEntry.envVarName !in processEnv && schemaEntry.requiredInfo.Required? ==>
      r == Err(EnvironmentVariableError(RequiredMessage(schemaEntry.envVarName)))
  {
    if schemaEntry.envVarName in processEnv then Ok(processEnv[schemaEntry.envVarName])
    else
      match schemaEntry.requiredInfo
      case Required => Err(EnvironmentVariableError(RequiredMessage(schemaEntry.envVarName)))
      case Optional(defaultEnvVarValue) => Ok(defaultEnvVarValue)
  }

  /** `getValue`: whatever text was chosen goes through `parse`; a
      rejection names the key, the reason and that text, which may be the
      default. */
  function GetValue(processEnv: ProcessEnv, key: string, schemaEntry: SchemaEntry): (r: Result<Value>)
    ensures SerializedValue(processEnv, schemaEntry).Err? ==> r == Err(SerializedValue(processEnv, schemaEntry).error)
    ensures SerializedValue(processEnv, schemaEntry).Ok? ==>
      var serializedValue := SerializedValue(processEnv, schemaEntry).value;
      && (schemaEntry.parse(serializedValue).Ok? ==> r == schemaEntry.parse(serializedValue))
      && (schemaEntry.parse(serializedValue).Err? ==>
            r == Err(EnvironmentVariableError(
                   InvalidFormatMessage(key, schemaEntry.parse(serializedValue).error.message, serializedValue))))
  {
    match SerializedValue(processEnv, schemaEntry)
    case Err(error) => Err(error)
    case Ok(serializedValue) =>
      match schemaEntry.parse(serializedValue)
      case Ok(value) => Ok(value)
      case Err(error) => Err(EnvironmentVariableError(InvalidFormatMessage(key, error.message, serializedValue)))
  }

  /** `makeEnv`: resolves every entry in order. It succeeds exactly when
      every entry resolves, and then the keys of the result are exactly the
      schema keys; the empty schema gives the empty object. */
  function MakeEnv(processEnv: ProcessEnv, schema: Schema): (r: Result<Env>)
    ensures r.Ok? <==> forall i | 0 <= i < |schema| :: GetValue(processEnv, schema[i].0, schema[i].1).Ok?
    ensures r.Ok? ==> r.value.Keys == SchemaFold.KeysOf(schema)
    ensures schema == [] ==> r == Ok(map[])
  {
    SchemaFold.Reduce(schema, (key, schemaEntry) => GetValue(processEnv, key, schemaEntry), map[])
  }

  /** On success, each schema key holds the value its entry resolved to. */
  lemma MakeEnvValue(processEnv: ProcessEnv, schema: Schema, i: nat)
    requires i < |schema|
    requires forall j | i < j < |schema| :: schema[j].0 != schema[i].0
    requires MakeEnv(processEnv, schema).Ok?
    ensures schema[i].0 in MakeEnv(processEnv, schema).value
    ensures MakeEnv(processEnv, schema).value[schema[i].0] == GetValue(processEnv, schema[i].0, schema[i].1).value
  {
    SchemaFold.ReduceValueAt(schema, (key, schemaEntry) => GetValue(processEnv, key, schemaEntry), map[], i);
  }

  /** Fail-fast: the first entry that fails decides the error, and no
      partial object is returned. */
  lemma MakeEnvFailsAtFirstError(processEnv: ProcessEnv, schema: Schema, i: nat)
    requires i < |schema|
    requires forall j | 0 <= j < i :: GetValue(processEnv, schema[j].0, schema[j].1).Ok?
    requires GetValue(processEnv, schema[i].0, schema[i].1).Err?
    ensures MakeEnv(processEnv, schema) == Err(GetValue(processEnv, schema[i].0, schema[i].1).error)
  {
    SchemaFold.ReduceStopsAtFirstError(schema, (key, schemaEntry) => GetValue(processEnv, key, schemaEntry), map[], i);
  }

  /** An unset optional variable resolves exactly as if it had been set to
      its default text. */
  lemma DefaultIsParsedLikeAValue(processEnv: ProcessEnv, key: string, schemaEntry: SchemaEntry)
    requires schemaEntry.envVarName !in processEnv
    requires schemaEntry.requiredInfo.Optional?
    ensures GetValue(processEnv, key, schemaEntry)
         == GetValue(processEnv[schemaEntry.envVarName := schemaEntry.requiredInfo.defaultEnvVarValue], key, schemaEntry)
  {
  }

  /** src/environment.test.ts:19-40 (written against this revision's field
      names): unset optional variables resolve to their parsed defaults,
      "100" to the number 100 and "test" to "test". */
  lemma DefaultsExample()
    ensures MakeEnv(map[], [("testInteger", SchemaEntry(IntParser(Integer), "ENV_TEST_INTEGER", Optional("100"))),
                            ("testString", SchemaEntry(StrParser(String), "ENV_TEST_STRING", Optional("test")))])
         == Ok(map["testInteger" := Int(100), "testString" := Str("test")])
  {
    DefaultEntriesResolve();
    MakeEnvOfTwo(map[], "testInteger", SchemaEntry(IntParser(Integer), "ENV_TEST_INTEGER", Optional("100")),
                 "testString", SchemaEntry(StrParser(String), "ENV_TEST_STRING", Optional("test")));
  }

  lemma MakeEnvOfTwo(processEnv: ProcessEnv, key1: string, entry1: SchemaEntry, key2: string, entry2: SchemaEntry)
    requires key1 != key2
    requires GetValue(processEnv, key1, entry1).Ok? && GetValue(processEnv, key2, entry2).Ok?
    ensures MakeEnv(processEnv, [(key1, entry1), (key2, entry2)])
         == Ok(map[key1 := GetValue(processEnv, key1, entry1).value, key2 := GetValue(processEnv, key2, entry2).value])
  {
    var schema := [(key1, entry1), (key2, entry2)];
    var r := MakeEnv(processEnv, schema);
    assert r.Ok?;
    MakeEnvValue(processEnv, schema, 0);
    MakeEnvValue(processEnv, schema, 1);
    assert SchemaFold.KeysOf(schema) == {key1, key2};
    var expected := map[key1 := GetValue(processEnv, key1, entry1).value, key2 := GetValue(processEnv, key2, entry2).value];
    assert r.value.Keys == expected.Keys;
    assert forall k | k in expected :: r.value[k] == expected[k];
    assert r.value == expected;
    assert r == Ok(expected);
  }

  lemma DefaultEntriesResolve()
    ensures GetValue(map[], "testInteger", SchemaEntry(IntParser(Integer), "ENV_TEST_INTEGER", Optional("100")))
         == Ok(Int(100))
    ensures GetValue(map[], "testString", SchemaEntry(StrParser(String), "ENV_TEST_STRING", Optional("test")))
         == Ok(Str("test"))
  {
    IntegerParserReadsHundred();
    StringParserReadsTest();
  }

  lemma StringParserReadsTest()
    ensures StrParser(String)("test") == Ok(Str("test"))
  {
    assert String("test") == Ok("test");
  }

  lemma IntegerParserReadsHundred()
    ensures IntParser(Integer)("100") == Ok(Int(100))
  {
    assert JsParseInt.Decimal(100) == "100";
    assert JsParseInt.IntToString(100) == "100";
    IntegerRoundTrip(100);
  }

  /** src/environment.test.ts:56-72: a variable set to "10" is read through
      `parse` and stored under the schema key, not the variable name. */
  lemma SetVariableExample()
    ensures MakeEnv(map["ENV_TEST" := "10"], [("test", SchemaEntry(IntParser(Integer), "ENV_TEST", Required))])
         == Ok(map["test" := Int(10)])
  {
    IntParserReadsTen();
    MakeEnvOfOne(map["ENV_TEST" := "10"], "test", SchemaEntry(IntParser(Integer), "ENV_TEST", Required));
  }

  /** src/environment.test.ts:74-92: an unset optional variable falls back
      to its default text "10", which `parse` reads as the number 10. */
  lemma DefaultTenExample()
    ensures MakeEnv(map[], [("test", SchemaEntry(IntParser(Integer), "ENV_TEST", Optional("10")))])
         == Ok(map["test" := Int(10)])
  {
    IntParserReadsTen();
    MakeEnvOfOne(map[], "test", SchemaEntry(IntParser(Integer), "ENV_TEST", Optional("10")));
  }

  lemma MakeEnvOfOne(processEnv: ProcessEnv, key: string, entry: SchemaEntry)
    requires GetValue(processEnv, key, entry).Ok?
    ensures MakeEnv(processEnv, [(key, entry)]) == Ok(map[key := GetValue(processEnv, key, entry).value])
  {
    var schema := [(key, entry)];
    var r := MakeEnv(processEnv, schema);
    assert r.Ok?;
    MakeEnvValue(processEnv, schema, 0);
    assert SchemaFold.KeysOf(schema) == {key};
    var expected := map[key := GetValue(processEnv, key, entry).value];
    assert r.value.Keys == expected.Keys;
    assert r.value == expected;
  }
}
