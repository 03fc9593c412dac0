/** The fold that both revisions of `makeEnv` use:
    `Object.entries(schema).reduce((acc, [key, entry]) => ({ ...acc, [key]: resolve(key, entry) }), {})`.
    Entries are visited in the order `Object.entries` yields them; each value
    is spread into a fresh object under the entry's key, so a later entry
    with the same key would win; the first thrown error aborts the fold and
    no partial object survives it. */
module SchemaFold {
  import opened Errors

  /** The keys an entry list mentions. */
  function KeysOf<E>(entries: seq<(string, E)>): set<string> {
    set i | 0 <= i < |entries| :: entries[i].0
  }

  /** The fold, starting from the object `acc`. It succeeds exactly when
      every entry resolves, and then its keys are those of `acc` and of the
      entries. */
  function Reduce<E, V>(entries: seq<(string, E)>, resolve: (string, E) -> Result<V>, acc: map<string, V>)
    : (r: Result<map<string, V>>)
    ensures r.Ok? <==> forall i | 0 <= i < |entries| :: resolve(entries[i].0, entries[i].1).Ok?
    ensures r.Ok? ==> r.value.Keys == acc.Keys + KeysOf(entries)
    decreases |entries|
  {
    if entries == [] then Ok(acc)
    else
      match resolve(entries[0].0, entries[0].1)
      case Err(e) => Err(e)
      case Ok(v) =>
        assert KeysOf(entries) == {entries[0].0} + KeysOf(entries[1..]) by {
          assert forall i | 1 <= i < |entries| :: entries[i] == entries[1..][i - 1];
        }
        Reduce(entries[1..], resolve, acc[entries[0].0 := v])
  }

  /** A key that `acc` holds and no entry mentions keeps its value. */
  lemma {:induction false} ReduceKeeps<E, V>(entries: seq<(string, E)>, resolve: (string, E) -> Result<V>,
                                             acc: map<string, V>, key: string)
    requires key in acc && key !in KeysOf(entries)
    requires Reduce(entries, resolve, acc).Ok?
    ensures key in Reduce(entries, resolve, acc).value
    ensures Reduce(entries, resolve, acc).value[key] == acc[key]
  {
    if entries != [] {
      var v := resolve(entries[0].0, entries[0].1).value;
      assert KeysOf(entries[1..]) <= KeysOf(entries) by {
        assert forall i | 0 <= i < |entries| - 1 :: entries[1..][i] == entries[i + 1];
      }
      assert entries[0].0 in KeysOf(entries);
      ReduceKeeps(entries[1..], resolve, acc[entries[0].0 := v], key);
    }
  }

  /** On success, the key of an entry that no later entry repeats holds the
      value resolved from that entry. */
  lemma {:induction false} ReduceValueAt<E, V>(entries: seq<(string, E)>, resolve: (string, E) -> Result<V>,
                                               acc: map<string, V>, i: nat)
    requires i < |entries|
    requires forall j | i < j < |entries| :: entries[j].0 != entries[i].0
    requires Reduce(entries, resolve, acc).Ok?
    ensures entries[i].0 in Reduce(entries, resolve, acc).value
    ensures Reduce(entries, resolve, acc).value[entries[i].0] == resolve(entries[i].0, entries[i].1).value
  {
    var v := resolve(entries[0].0, entries[0].1).value;
    var rest := entries[1..];
    if i == 0 {
      assert entries[0].0 !in KeysOf(rest) by {
        forall j | 0 <= j < |rest| ensures rest[j].0 != entries[0].0 {
          assert rest[j] == entries[j + 1];
        }
      }
      ReduceKeeps(rest, resolve, acc[entries[0].0 := v], entries[0].0);
    } else {
      assert rest[i - 1] == entries[i];
      assert forall j | i - 1 < j < |rest| :: rest[j] == entries[j + 1];
      ReduceValueAt(rest, resolve, acc[entries[0].0 := v], i - 1);
    }
  }

  /** Fail-fast: when entry `i` is the first that fails, the fold fails
      with exactly that entry's error. */
  lemma {:induction false} ReduceStopsAtFirstError<E, V>(entries: seq<(string, E)>, resolve: (string, E) -> Result<V>,
                                                         acc: map<string, V>, i: nat)
    requires i < |entries|
    requires forall j | 0 <= j < i :: resolve(entries[j].0, entries[j].1).Ok?
    requires resolve(entries[i].0, entries[i].1).Err?
    ensures Reduce(entries, resolve, acc) == Err(resolve(entries[i].0, entries[i].1).error)
  {
    if i > 0 {
      var v := resolve(entries[0].0, entries[0].1).value;
      var rest := entries[1..];
      assert rest[i - 1] == entries[i];
      assert forall j | 0 <= j < i - 1 :: rest[j] == entries[j + 1];
      ReduceStopsAtFirstError(rest, resolve, acc[entries[0].0 := v], i - 1);
    }
  }

  /** Two folds over entry lists with the same keys, whose resolvers agree
      on every entry where either of them succeeds, either both fail or
      build the same object. */
  lemma {:induction false} ReduceAgree<E1, E2, V>(
    entries1: seq<(string, E1)>, resolve1: (string, E1) -> Result<V>,
    entries2: seq<(string, E2)>, resolve2: (string, E2) -> Result<V>,
    acc: map<string, V>)
    requires |entries1| == |entries2|
    requires forall i | 0 <= i < |entries1| :: entries1[i].0 == entries2[i].0
    requires forall i | 0 <= i < |entries1| ::
      resolve1(entries1[i].0, entries1[i].1).Ok? || resolve2(entries2[i].0, entries2[i].1).Ok? ==>
      resolve1(entries1[i].0, entries1[i].1) == resolve2(entries2[i].0, entries2[i].1)
    ensures Reduce(entries1, resolve1, acc).Ok? == Reduce(entries2, resolve2, acc).Ok?
    ensures Reduce(entries1, resolve1, acc).Ok? ==> Reduce(entries1, resolve1, acc) == Reduce(entries2, resolve2, acc)
  {
    if entries1 != [] {
      var r1 := resolve1(entries1[0].0, entries1[0].1);
      var r2 := resolve2(entries2[0].0, entries2[0].1);
      if r1.Ok? {
        var rest1, rest2 := entries1[1..], entries2[1..];
        assert forall i | 0 <= i < |rest1| :: rest1[i] == entries1[i + 1] && rest2[i] == entries2[i + 1];
        ReduceAgree(rest1, resolve1, rest2, resolve2, acc[entries1[0].0 := r1.value]);
      }
    }
  }
}
