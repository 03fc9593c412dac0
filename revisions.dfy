/** Where the two revisions of the engine, src/env.ts and
    src/environment.ts, agree and where they part: they read a set variable
    the same way and differ only in the wording of their errors, in the
    description the newer one appends, and in how an unset optional
    variable is resolved. */
module Revisions {
  import opened Errors
  import opened Parsers
  import Environment
  import LegacyEnv
  import SchemaFold

  /** A current entry and an earlier one that read the same variable with
      the same parser. */
  ghost predicate SameSource(entry: Environment.SchemaEntry, legacy: LegacyEnv.SchemaEntry) {
    entry.parser == legacy.parse && entry.envVarName == legacy.envVarName
  }

  /** Two schemas that list the same keys, in the same order, with entries
      of the same source. */
  ghost predicate Corresponding(schema: Environment.Schema, legacy: LegacyEnv.Schema) {
    && |schema| == |legacy|
    && forall i | 0 <= i < |schema| :: schema[i].0 == legacy[i].0 && SameSource(schema[i].1, legacy[i].1)
  }

  /** A set variable that the parser accepts resolves to the same value in
      both revisions. */
  lemma SetVariableAgrees(processEnv: map<string, string>, key: string,
                          entry: Environment.SchemaEntry, legacy: LegacyEnv.SchemaEntry)
    requires SameSource(entry, legacy)
    requires entry.envVarName in processEnv
    requires entry.parser(processEnv[entry.envVarName]).Ok?
    ensures Environment.GetValue(processEnv, key, entry) == entry.parser(processEnv[entry.envVarName])
    ensures LegacyEnv.GetValue(processEnv, key, legacy) == Environment.GetValue(processEnv, key, entry)
  {
  }

  /** A set variable that the parser rejects fails in both revisions, with
      messages that start alike and always differ: the newer one is eleven
      characters longer ("Reason: ", the quotes and a capital "Got"). */
  lemma SetVariableErrorsDiffer(processEnv: map<string, string>, key: string,
                                entry: Environment.SchemaEntry, legacy: LegacyEnv.SchemaEntry)
    requires SameSource(entry, legacy)
    requires entry.envVarName in processEnv
    requires entry.parser(processEnv[entry.envVarName]).Err?
    ensures Environment.GetValue(processEnv, key, entry).Err?
    ensures LegacyEnv.GetValue(processEnv, key, legacy).Err?
    ensures var current := Environment.GetValue(processEnv, key, entry).error.message;
      var earlier := LegacyEnv.GetValue(processEnv, key, legacy).error.message;
      var head := key + " has invalid format. ";
      && current[..|head|] == head && earlier[..|head|] == head
      && |current| == |earlier| + 11
  {
    var v := processEnv[entry.envVarName];
    var reason := entry.parser(v).error.message;
    var current := Environment.InvalidFormatMessage(key, reason, v);
    var earlier := LegacyEnv.InvalidFormatMessage(key, reason, v);
    var head := key + " has invalid format. ";
    assert current == head + ("Reason: " + reason + ". Got: '" + v + "'");
    assert earlier == head + (reason + ". got " + v);
  }

  /** An unset required variable fails in both revisions; the messages are
      equal exactly when the newer entry has no non-empty description. */
  lemma UnsetRequiredAgreesWithoutDescription(processEnv: map<string, string>, key: string,
                                              entry: Environment.SchemaEntry, legacy: LegacyEnv.SchemaEntry)
    requires SameSource(entry, legacy)
    requires entry.envVarName !in processEnv
    requires entry.requiredInfo.Required? && legacy.requiredInfo.Required?
    ensures Environment.GetValue(processEnv, key, entry).Err?
    ensures LegacyEnv.GetValue(processEnv, key, legacy).Err?
    ensures Environment.GetValue(processEnv, key, entry) == LegacyEnv.GetValue(processEnv, key, legacy)
        <==> entry.description.None? || entry.description.value == ""
  {
    Environment.RequiredMessageNamesVariable(entry.envVarName, entry.description);
  }

  /** An unset optional variable: the newer revision always returns its
      default untouched, the earlier one parses its default text, and the
      two agree exactly when parsing that text gives the newer default. */
  lemma UnsetOptionalAgreesIffDefaultParsesToIt(processEnv: map<string, string>, key: string,
                                                entry: Environment.SchemaEntry, legacy: LegacyEnv.SchemaEntry)
    requires SameSource(entry, legacy)
    requires entry.envVarName !in processEnv
    requires entry.requiredInfo.Optional? && legacy.requiredInfo.Optional?
    ensures Environment.GetValue(processEnv, key, entry).Ok?
    ensures Environment.GetValue(processEnv, key, entry) == LegacyEnv.GetValue(processEnv, key, legacy)
        <==> legacy.parse(legacy.requiredInfo.defaultEnvVarValue) == Ok(entry.requiredInfo.defaultValue)
  {
  }

  /** When every variable a schema names is set, the two revisions either
      both fail or build the same object. */
  lemma AllSetRevisionsAgree(processEnv: map<string, string>, schema: Environment.Schema, legacy: LegacyEnv.Schema)
    requires Corresponding(schema, legacy)
    requires forall i | 0 <= i < |schema| :: schema[i].1.envVarName in processEnv
    ensures Environment.MakeEnv(processEnv, schema).Ok? == LegacyEnv.MakeEnv(processEnv, legacy).Ok?
    ensures Environment.MakeEnv(processEnv, schema).Ok? ==>
      Environment.MakeEnv(processEnv, schema) == LegacyEnv.MakeEnv(processEnv, legacy)
  {
    var resolve := (key, entry) => Environment.GetValue(processEnv, key, entry);
    var resolveLegacy := (key, entry) => LegacyEnv.GetValue(processEnv, key, entry);
    forall i | 0 <= i < |schema|
      ensures resolve(schema[i].0, schema[i].1).Ok? || resolveLegacy(legacy[i].0, legacy[i].1).Ok? ==>
              resolve(schema[i].0, schema[i].1) == resolveLegacy(legacy[i].0, legacy[i].1)
    {
      var v := processEnv[schema[i].1.envVarName];
      if schema[i].1.parser(v).Ok? {
        SetVariableAgrees(processEnv, schema[i].0, schema[i].1, legacy[i].1);
      } else {
        SetVariableErrorsDiffer(processEnv, schema[i].0, schema[i].1, legacy[i].1);
      }
    }
    SchemaFold.ReduceAgree(schema, resolve, legacy, resolveLegacy, map[]);
  }
}
