/** The resolution engine of src/environment.ts: a schema maps each
    configuration key to an entry naming an environment variable and a
    parser; an entry is either required or carries a default value, which
    is used as it is, without parsing. */
module Environment {
  import opened Errors
  import opened Parsers
  import SchemaFold

  /** The closed union `SchemaEntryRequiredInfo`: required, or optional with
      an already typed default. */
  datatype SchemaEntryRequiredInfo = Required | Optional(defaultValue: Value)

  /** `SchemaEntry`; `description` is the optional helper text. */
  datatype SchemaEntry = SchemaEntry(
    parser: Parser,
    envVarName: string,
    description: Option<string>,
    requiredInfo: SchemaEntryRequiredInfo)

  /** A schema, as the list that `Object.entries` yields for it. */
  type Schema = seq<(string, SchemaEntry)>

  /** The snapshot of `process.env`: a variable that is not set has no key. */
  type ProcessEnv = map<string, string>

  /** The resolved object, keyed by schema key. */
  type Env = map<string, Value>

  /** The message for a required variable that is not set. The description
      is appended only when it is a non-empty string, as JavaScript's
      truthiness test decides. */
  function RequiredMessage(envVarName: string, description: Option<string>): string {
    var message := envVarName + " is required but is not set";
    if description.Some? && description.value != "" then message + ". Variable description: " + description.value
    else message
  }

  /** The message for a value the parser rejected. */
  function InvalidFormatMessage(key: string, reason: string, serializedValue: string): string {
    key + " has invalid format. Reason: " + reason + ". Got: '" + serializedValue + "'"
  }

  /** `parseEnvVarValue`: the parser's value unchanged, or its error
      rewrapped as an `EnvironmentVariableError` naming the key, the reason
      and the raw text. */
  function ParseEnvVarValue(key: string, serializedValue: string, schemaEntry: SchemaEntry): (r: Result<Value>)
    ensures schemaEntry.parser(serializedValue).Ok? ==> r == schemaEntry.parser(serializedValue)
    ensures schemaEntry.parser(serializedValue).Err? ==>
      r == Err(EnvironmentVariableError(
             InvalidFormatMessage(key, schemaEntry.parser(serializedValue).error.message, serializedValue)))
  {
    match schemaEntry.parser(serializedValue)
    case Ok(value) => Ok(value)
    case Err(error) => Err(EnvironmentVariableError(InvalidFormatMessage(key, error.message, serializedValue)))
  }

  /** `getValue`: a set variable, even one set to the empty string, goes to
      the parser; an unset one fails when required and yields the default
      otherwise. */
  function GetValue(processEnv: ProcessEnv, key: string, schemaEntry: SchemaEntry): (r: Result<Value>)
    ensures schemaEntry.envVarName in processEnv ==>
      r == ParseEnvVarValue(key, processEnv[schemaEntry.envVarName], schemaEntry)
    ensures schemaEntry.envVarName !in processEnv && schemaEntry.requiredInfo.Required? ==>
      r == Err(EnvironmentVariableError(RequiredMessage(schemaEntry.envVarName, schemaEntry.description)))
    ensures schemaEntry.envVarName !in processEnv && schemaEntry.requiredInfo.Optional? ==>
      r == Ok(schemaEntry.requiredInfo.defaultValue)
  {
    if schemaEntry.envVarName !in processEnv then
      match schemaEntry.requiredInfo
      case Required => Err(EnvironmentVariableError(RequiredMessage(schemaEntry.envVarName, schemaEntry.description)))
      case Optional(defaultValue) => Ok(defaultValue)
    else
      ParseEnvVarValue(key, processEnv[schemaEntry.envVarName], schemaEntry)
  }

  /** `makeEnv`: resolves every entry in order. It succeeds exactly when
      every entry resolves, and then the keys of the result are exactly the
      schema keys (not the variable names); the empty schema gives the
      empty object. */
  function MakeEnv(processEnv: ProcessEnv, schema: Schema): (r: Result<Env>)
    ensures r.Ok? <==> forall i | 0 <= i < |schema| :: GetValue(processEnv, schema[i].0, schema[i].1).Ok?
    ensures r.Ok? ==> r.value.Keys == SchemaFold.KeysOf(schema)
    ensures schema == [] ==> r == Ok(map[])
  {
    SchemaFold.Reduce(schema, (key, schemaEntry) => GetValue(processEnv, key, schemaEntry), map[])
  }

  /** On success, each schema key holds the value its entry resolved to
      (the last entry for the key, should a list repeat one). */
  lemma MakeEnvValue(processEnv: ProcessEnv, schema: Schema, i: nat)
    requires i < |schema|
    requires forall j | i < j < |schema| :: schema[j].0 != schema[i].0
    requires MakeEnv(processEnv, schema).Ok?
    ensures schema[i].0 in MakeEnv(processEnv, schema).value
    ensures MakeEnv(processEnv, schema).value[schema[i].0] == GetValue(processEnv, schema[i].0, schema[i].1).value
  {
    SchemaFold.ReduceValueAt(schema, (key, schemaEntry) => GetValue(processEnv, key, schemaEntry), map[], i);
  }

  /** Fail-fast: the first entry that fails decides the error, and no
      partial object is returned. */
  lemma MakeEnvFailsAtFirstError(processEnv: ProcessEnv, schema: Schema, i: nat)
    requires i < |schema|
    requires forall j | 0 <= j < i :: GetValue(processEnv, schema[j].0, schema[j].1).Ok?
    requires GetValue(processEnv, schema[i].0, schema[i].1).Err?
    ensures MakeEnv(processEnv, schema) == Err(GetValue(processEnv, schema[i].0, schema[i].1).error)
  {
    SchemaFold.ReduceStopsAtFirstError(schema, (key, schemaEntry) => GetValue(processEnv, key, schemaEntry), map[], i);
  }

  /** An unset optional variable yields its default whatever the parser
      would do with it: the parser is never consulted. */
  lemma DefaultIsNotParsed(processEnv: ProcessEnv, key: string, schemaEntry: SchemaEntry, otherParser: Parser)
    requires schemaEntry.envVarName !in processEnv
    requires schemaEntry.requiredInfo.Optional?
    ensures GetValue(processEnv, key, schemaEntry) == Ok(schemaEntry.requiredInfo.defaultValue)
    ensures GetValue(processEnv, key, schemaEntry.(parser := otherParser)) == GetValue(processEnv, key, schemaEntry)
  {
  }

  /** Only an unset variable reaches the required/default branch: for a set
      variable, including one set to "", requiredness and description make
      no difference, and a parser success is returned unchanged. */
  lemma SetVariableIsParsed(processEnv: ProcessEnv, key: string, schemaEntry: SchemaEntry,
                            requiredInfo: SchemaEntryRequiredInfo, description: Option<string>)
    requires schemaEntry.envVarName in processEnv
    ensures GetValue(processEnv, key, schemaEntry)
         == GetValue(processEnv, key, schemaEntry.(requiredInfo := requiredInfo, description := description))
    ensures schemaEntry.parser(processEnv[schemaEntry.envVarName]).Ok? ==>
      GetValue(processEnv, key, schemaEntry) == schemaEntry.parser(processEnv[schemaEntry.envVarName])
  {
  }

  /** The required-variable message starts with the variable's name and
      "is required but is not set", and ends with the description when a
      non-empty one is given; without one nothing follows. */
  lemma RequiredMessageNamesVariable(envVarName: string, description: Option<string>)
    ensures var m := RequiredMessage(envVarName, description);
      var prefix := envVarName + " is required but is not set";
      && |prefix| <= |m| && m[..|prefix|] == prefix
      && (description.None? || description.value == "" <==> m == prefix)
      && (description.Some? && description.value != "" ==> m[|m| - |description.value|..] == description.value)
  {
  }

  /** src/environment.test.ts:13-17: the empty schema gives the empty
      object. */
  lemma EmptySchemaExample()
    ensures MakeEnv(map[], []) == Ok(map[])
  {
  }

  /** The scenario of src/environment.test.ts:56-72, written here with this
      revision's field name `parser`: a set variable is read through its
      parser and stored under the schema key, not the variable name. (The
      test itself passes `parse`, the field name of src/env.ts; given to this
      revision, such an entry has no `parser` to call. `LegacyEnv` states the
      test as written.) */
  lemma SetVariableExample()
    ensures MakeEnv(map["ENV_TEST" := "10"],
                    [("test", SchemaEntry(IntParser(Integer), "ENV_TEST", None, Required))])
         == Ok(map["test" := Int(10)])
  {
    var processEnv := map["ENV_TEST" := "10"];
    var schema := [("test", SchemaEntry(IntParser(Integer), "ENV_TEST", None, Required))];
    IntParserReadsTen();
    assert GetValue(processEnv, "test", schema[0].1) == Ok(Int(10));
    var r := MakeEnv(processEnv, schema);
    assert r.Ok?;
    MakeEnvValue(processEnv, schema, 0);
    assert SchemaFold.KeysOf(schema) == {"test"};
    assert r.value.Keys == {"test"};
    assert r.value["test"] == Int(10);
    assert r.value == map["test" := Int(10)];
  }

  /** src/environment.test.ts:42-54: an unset required variable fails. */
  lemma UnsetRequiredExample()
    ensures MakeEnv(map[], [("notSet", SchemaEntry(StrParser(String), "ENV_VAR_NOT_SET", None, Required))])
         == Err(EnvironmentVariableError("ENV_VAR_NOT_SET is required but is not set"))
  {
    var schema := [("notSet", SchemaEntry(StrParser(String), "ENV_VAR_NOT_SET", None, Required))];
    assert RequiredMessage("ENV_VAR_NOT_SET", None) == "ENV_VAR_NOT_SET is required but is not set";
    MakeEnvFailsAtFirstError(map[], schema, 0);
  }
}
