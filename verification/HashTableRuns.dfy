/** Whole runs of hash table operations against a finite map. */
module HashTableRuns {
  import opened Bytes
  import opened HashTable

  datatype Op<V> = Put(key: Key, val: V) | Get(key: Key) | Del(key: Key)

  datatype Reply<V> = Done | Value(val: Option<V>) | Deleted(ok: bool)

  ghost function After<V>(m: map<Key, V>, op: Op<V>): map<Key, V> {
    match op
    case Put(key, val) => m[key := val]
    case Get(_) => m
    case Del(key) => m - {key}
  }

  ghost function Answer<V>(m: map<Key, V>, op: Op<V>): Reply<V> {
    match op
    case Put(_, _) => Done
    case Get(key) => Value(if key in m then Some(m[key]) else None)
    case Del(key) => Deleted(key in m)
  }

  ghost function AfterAll<V>(m: map<Key, V>, ops: seq<Op<V>>): map<Key, V> {
    if ops == [] then m else After(AfterAll(m, ops[..|ops| - 1]), ops[|ops| - 1])
  }

  ghost function Answers<V>(m: map<Key, V>, ops: seq<Op<V>>): seq<Reply<V>> {
    if ops == [] then [] else
    Answers(m, ops[..|ops| - 1]) + [Answer(AfterAll(m, ops[..|ops| - 1]), ops[|ops| - 1])]
  }

  /** Runs without a deletion, and runs that put only unbound keys. */
  ghost predicate NoDeletions<V>(ops: seq<Op<V>>) {
    forall i | 0 <= i < |ops| :: !ops[i].Del?
  }

  ghost predicate NewKeysOnly<V>(m: map<Key, V>, ops: seq<Op<V>>) {
    forall i | 0 <= i < |ops| && ops[i].Put? :: ops[i].key !in AfterAll(m, ops[..i])
  }

  method Step<V>(t: HashTable<V>, op: Op<V>) returns (ok: bool, reply: Reply<V>)
    requires t.Valid() && op.key in t.u && (op.Put? ==> op.key !in t.table.m || t.table.AllUnbroken(t.hash))
    modifies t, t.entries
    ensures t.Valid() && (t.entries == old(t.entries) || fresh(t.entries))
    ensures !op.Put? ==> ok
    ensures old(t.table.AllUnbroken(t.hash)) && !op.Del? ==> t.table.AllUnbroken(t.hash)
    ensures ok ==> t.table.m == After(old(t.table.m), op) && reply == Answer(old(t.table.m), op)
  {
    ok, reply := true, Done;
    match op
    case Put(key, val) =>
      assert key in t.table.m ==> t.table.Unbroken(t.hash, key);
      ok := t.Put(key, val);
    case Get(key) =>
      var v := t.Get(key);
      reply := Value(v);
    case Del(key) =>
      var found := t.Del(key);
      reply := Deleted(found);
  }

  /** Through every such run, until memory runs out, the table is the map and answers as the map does. */
  method Run<V>(t: HashTable<V>, ops: seq<Op<V>>) returns (ok: bool, replies: seq<Reply<V>>)
    requires t.Valid() && t.table.AllUnbroken(t.hash) && forall i | 0 <= i < |ops| :: ops[i].key in t.u
    requires NoDeletions(ops) || NewKeysOnly(t.table.m, ops)
    modifies t, t.entries
    ensures t.Valid()
    ensures ok ==> t.table.m == AfterAll(old(t.table.m), ops) && replies == Answers(old(t.table.m), ops)
  {
    ghost var m := t.table.m;
    replies := [];
    for i := 0 to |ops|
      invariant t.Valid() && (t.entries == old(t.entries) || fresh(t.entries))
      invariant NoDeletions(ops) ==> t.table.AllUnbroken(t.hash)
      invariant t.table.m == AfterAll(m, ops[..i]) && replies == Answers(m, ops[..i])
    {
      assert ops[..i + 1][..i] == ops[..i];
      var r;
      ok, r := Step(t, ops[i]);
      if !ok {
        return;
      }
      replies := replies + [r];
    }
    assert ops[..|ops|] == ops;
    ok := true;
  }
}
