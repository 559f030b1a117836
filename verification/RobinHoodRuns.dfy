/** Whole runs of the hash table against a plain map. */
module RobinHoodRuns {
  import opened RobinHoodLayout
  import opened RobinHoodCrowds
  import opened RobinHood

  datatype Op<K, V> =
    | Emplace(key: K, val: V)
    | Assign(key: K, val: V)
    | Erase(key: K)
    | Find(key: K)
    | Size
    | Reserve(count: nat, force: bool)
    | Compact
    | Clear

  /** What an operation answers: a looked-up value, or a number. */
  datatype Answer<V> = Value(value: Option<V>) | Number(number: int)

  /** The operation on a plain map. */
  function Apply<K(==), V>(op: Op<K, V>, m: map<K, V>): (map<K, V>, Answer<V>) {
    match op
    case Emplace(key, val) => if key in m then (m, Number(0)) else (m[key := val], Number(1))
    case Assign(key, val) => (m[key := val], Number(0))
    case Erase(key) => (m - {key}, Number(if key in m then 1 else 0))
    case Find(key) => (m, Value(if key in m then Some(m[key]) else None))
    case Size => (m, Number(|m|))
    case Reserve(_, _) => (m, Number(0))
    case Compact => (m, Number(0))
    case Clear => (map[], Number(0))
  }

  /** The run on a plain map, answers in order. */
  ghost function ApplyAll<K, V>(ops: seq<Op<K, V>>, m: map<K, V>): (map<K, V>, seq<Answer<V>>) {
    if ops == [] then (m, [])
    else
      var (m', answers) := ApplyAll(ops[..|ops| - 1], m);
      var (r, a) := Apply(ops[|ops| - 1], m');
      (r, answers + [a])
  }

  method Perform<K(==), V>(t: Table<K, V>, op: Op<K, V>) returns (ok: bool, answer: Answer<V>)
    requires t.Valid()
    modifies t, t.info, t.keyVals
    ensures t.Valid()
    ensures (fresh(t.info) && fresh(t.keyVals)) || (t.info == old(t.info) && t.keyVals == old(t.keyVals))
    ensures ok ==> (t.contents, answer) == Apply(op, old(t.contents))
    ensures !ok ==> Crowded(t.hash, old(t.contents).Keys)
  {
    hide Table.Valid, SubMap, Crowded, Hopeless;
    ok, answer := true, Number(0);
    match op {
      case Emplace(key, val) =>
        var inserted;
        ok, inserted := t.Emplace(key, val);
        answer := Number(if inserted then 1 else 0);
      case Assign(key, val) => ok := t.InsertOrAssign(key, val);
      case Erase(key) =>
        var count := t.Erase(key);
        answer := Number(count);
      case Find(key) =>
        var found := t.Find(key);
        answer := Value(found);
      case Size =>
        var n := t.Size();
        answer := Number(n);
      case Reserve(count, force) => ok := t.Reserve(count, force);
      case Compact => ok := t.Compact();
      case Clear => t.Clear();
    }
  }

  /** At some moment of the run on a plain map its keys are crowded. */
  ghost predicate SomeTimeCrowded<K, V>(hash: (K, nat) -> nat, ops: seq<Op<K, V>>, m: map<K, V>) {
    exists i :: 0 <= i <= |ops| && Crowded(hash, ApplyAll(ops[..i], m).0.Keys)
  }

  /** For any hash function a run gives the answers of a plain map, or else reports an overflow; and that only if the keys
      were crowded at some moment, so never while there are fewer than 127 of them. */
  method RunAll<K(==), V>(t: Table<K, V>, ops: seq<Op<K, V>>) returns (ok: bool, answers: seq<Answer<V>>)
    requires t.Valid()
    modifies t, t.info, t.keyVals
    ensures t.Valid()
    ensures ok ==> (t.contents, answers) == ApplyAll(ops, old(t.contents))
    ensures !ok ==> SomeTimeCrowded(t.hash, ops, old(t.contents))
    ensures (forall i :: 0 <= i <= |ops| ==> |ApplyAll(ops[..i], old(t.contents)).0| < 127) ==> ok
  {
    hide Table.Valid, Crowded;
    ok, answers := true, [];
    var i := 0;
    while i < |ops|
      invariant 0 <= i <= |ops| && t.Valid()
      invariant (fresh(t.info) && fresh(t.keyVals)) || (t.info == old(t.info) && t.keyVals == old(t.keyVals))
      invariant ok && (t.contents, answers) == ApplyAll(ops[..i], old(t.contents))
    {
      ghost var m := t.contents;
      var answer;
      ok, answer := Perform(t, ops[i]);
      if !ok {
        FewAreNotCrowded(t.hash, m.Keys);
        return;
      }
      answers := answers + [answer];
      assert ops[..i + 1][..i] == ops[..i];
      i := i + 1;
    }
    assert ops[..i] == ops;
  }

  /** The bound is exact: with one hash for all keys the table takes 127 of them and no more. */
  method EmplaceSameHash<K(==, !new), V>(t: Table<K, V>, key: K, val: V) returns (ok: bool)
    requires t.Valid() && OneHash(t.hash)
    modifies t, t.info, t.keyVals
    ensures t.Valid() && (ok <==> key in old(t.contents) || |old(t.contents)| < 127)
    ensures ok ==> key in t.contents
  {
    hide Table.Valid, SubMap, Crowded, Hopeless;
    ghost var keys := t.contents.Keys;
    var inserted;
    ok, inserted := t.Emplace(key, val);
    SameHash(t.hash, keys);
    SameHash(t.hash, keys + {key});
  }
}
