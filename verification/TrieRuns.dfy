/** Whole runs of trie operations against a finite map and the set of prefixes that have a node. */
module TrieRuns {
  import opened Bytes
  import opened Items
  import opened Trie

  datatype Op = Put(key: Key, item: DbItem) | Get(key: Key) | Del(key: Key) | DelPrefix(prefix: Key)

  datatype Reply = Done | Found(item: DbItem?) | Deleted(ok: bool)

  /** The bindings, and the prefixes of keys put that no later deletion by prefix has taken away. */
  datatype Keyspace = Keyspace(m: Bindings, seen: set<Key>)

  /** One operation on it. */
  ghost function After(s: Keyspace, op: Op): Keyspace {
    match op
    case Put(key, item) => Keyspace(s.m[key := item], s.seen + Prefixes(key, |key|))
    case Get(_) => s
    case Del(key) => if key == [] then s else Keyspace(s.m - {key}, s.seen)
    case DelPrefix(prefix) => Keyspace(PrefixRemoved(s.m, prefix), NotBelow(s.seen, prefix))
  }

  /** The answer to it: with the server's destructor a deletion tells whether the key was bound, without one whether the
      walk reached a node. */
  ghost function Answer(s: Keyspace, op: Op, destructor: bool): Reply {
    match op
    case Get(key) => Found(if key in s.m then s.m[key] else null)
    case Del(key) => Deleted(key != [] && if destructor then key in s.m else key in s.seen)
    case _ => Done
  }

  /** The keys it unbinds strictly below a deleted prefix. */
  ghost function Lost(s: Keyspace, op: Op): nat {
    if op.DelPrefix? then |Below(s.m, op.prefix)| else 0
  }

  ghost function AfterAll(s: Keyspace, ops: seq<Op>): Keyspace {
    if ops == [] then s else After(AfterAll(s, ops[..|ops| - 1]), ops[|ops| - 1])
  }

  ghost function Answers(s: Keyspace, ops: seq<Op>, destructor: bool): seq<Reply> {
    if ops == [] then [] else
    Answers(s, ops[..|ops| - 1], destructor) + [Answer(AfterAll(s, ops[..|ops| - 1]), ops[|ops| - 1], destructor)]
  }

  ghost function LostAll(s: Keyspace, ops: seq<Op>): nat {
    if ops == [] then 0 else
    LostAll(s, ops[..|ops| - 1]) + Lost(AfterAll(s, ops[..|ops| - 1]), ops[|ops| - 1])
  }

  ghost function Seen(t: Trie): Keyspace
    requires t.Valid()
    reads t, t.Repr
  {
    Keyspace(t.Contents(), t.tree.nodes.Keys)
  }

  method Step(t: Trie, op: Op) returns (reply: Reply)
    requires t.Valid() && t.Sized()
    modifies t.Repr
    ensures t.Valid() && t.Sized() && fresh(t.Repr - old(t.Repr))
    ensures Seen(t) == After(old(Seen(t)), op)
    ensures reply == Answer(old(Seen(t)), op, t.destructor)
    ensures t.leaked == old(t.leaked) + if t.destructor then Lost(old(Seen(t)), op) else 0
  {
    reply := Done;
    match op
    case Put(key, item) =>
      t.Insert(key, item);
    case Get(key) =>
      var item := t.Find(key);
      reply := Found(item);
    case Del(key) =>
      var ok := t.Delete(key);
      reply := Deleted(ok);
    case DelPrefix(prefix) =>
      t.PrefixDelete(prefix);
  }

  /** Over every run the trie is the map, answers as described, and its size exceeds the number of bound keys by exactly
      the keys the run destroyed below deleted prefixes (by none without a destructor). */
  method Run(t: Trie, ops: seq<Op>) returns (replies: seq<Reply>)
    requires t.Valid() && t.Sized() && t.leaked == 0
    modifies t.Repr
    ensures t.Valid() && Seen(t) == AfterAll(old(Seen(t)), ops)
    ensures replies == Answers(old(Seen(t)), ops, t.destructor)
    ensures t.size == |t.Contents()| + if t.destructor then LostAll(old(Seen(t)), ops) else 0
  {
    ghost var s := Seen(t);
    replies := [];
    for i := 0 to |ops|
      invariant t.Valid() && t.Sized() && fresh(t.Repr - old(t.Repr))
      invariant Seen(t) == AfterAll(s, ops[..i])
      invariant replies == Answers(s, ops[..i], t.destructor)
      invariant t.leaked == if t.destructor then LostAll(s, ops[..i]) else 0
    {
      assert ops[..i + 1][..i] == ops[..i];
      var r := Step(t, ops[i]);
      replies := replies + [r];
    }
    assert ops[..|ops|] == ops;
  }
}
