/** The open-addressing hash table (src/hashtable.c): at most MAX_CHAIN_LENGTH linear probes, deletion
    without tombstones, and a rehash that puts every entry into a table of twice the size. */
module HashTable {
  import opened Bytes

  const INITIAL_SIZE: nat := 4
  const MAX_CHAIN_LENGTH: nat := 8

  datatype Entry<V> = Free | Taken(key: Key, val: V)

  function Lower(c: Chr): Chr {
    if 65 <= c <= 90 then c + 32 else c
  }

  /** STREQ(s, t, strlen(s)): the first |s| characters of `t` are those of `s`, ignoring case. */
  predicate Streq(s: Key, t: Key) {
    |s| <= |t| && forall i | 0 <= i < |s| :: Lower(s[i]) == Lower(t[i])
  }

  /** The same character, or the two cases of one letter from A to Z. */
  predicate SameLetter(c: Chr, d: Chr) {
    c == d || (65 <= c <= 90 && d == c + 32) || (65 <= d <= 90 && c == d + 32)
  }

  /** The comparison looks at the first |s| characters only and tells letters apart but not their cases. */
  lemma StreqIs(s: Key, t: Key)
    ensures Streq(s, t) <==> |s| <= |t| && forall i :: 0 <= i < |s| ==> SameLetter(s[i], t[i])
  {
    forall i | 0 <= i < |s| && i < |t|
      ensures Lower(s[i]) == Lower(t[i]) <==> SameLetter(s[i], t[i])
    {
    }
  }

  /** A universe of keys the comparison tells apart: no key is a case-insensitive prefix of another. */
  ghost predicate Separated(u: iset<Key>) {
    forall s, t | s in u && t in u && Streq(s, t) :: s == t
  }

  /** The slot of the i-th probe for a hash: linear probing, round the table. */
  function Slot(hash: nat, i: nat, n: nat): (j: nat)
    requires n > 0
    ensures j < n
  {
    if i == 0 then hash % n else Next(Slot(hash, i - 1, n), n)
  }

  function Next(x: nat, n: nat): nat {
    if x + 1 == n then 0 else x + 1
  }

  lemma NextIsMod(x: nat, n: nat)
    requires x < n
    ensures Next(x, n) == (x + 1) % n
  {
  }

  /** Fewer than n probes visit different slots ... */
  lemma {:induction false} SlotIs(hash: nat, i: nat, n: nat)
    requires i <= n && n > 0
    ensures Slot(hash, i, n) == if hash % n + i < n then hash % n + i else hash % n + i - n
  {
    if i > 0 {
      SlotIs(hash, i - 1, n);
    }
  }

  lemma SlotsDiffer(hash: nat, i: nat, j: nat, n: nat)
    requires i < j < n
    ensures Slot(hash, i, n) != Slot(hash, j, n)
  {
    SlotIs(hash, i, n);
    SlotIs(hash, j, n);
  }

  /** ... and then they repeat. */
  lemma {:induction false} SlotRepeats(hash: nat, i: nat, n: nat)
    requires n > 0
    ensures Slot(hash, i + n, n) == Slot(hash, i, n)
  {
    if i == 0 {
      SlotIs(hash, n, n);
    } else {
      SlotRepeats(hash, i - 1, n);
    }
  }

  /** hashtable_hash stops at a free slot, or at one whose key begins the searched key. */
  predicate Stops<V>(s: seq<Entry<V>>, hash: nat, key: Key, i: nat)
    requires s != []
  {
    var e := s[Slot(hash, i, |s|)];
    e.Free? || Streq(e.key, key)
  }

  /** hashtable_get and hashtable_del stop at a taken slot whose key the searched key begins. */
  predicate Hits<V>(s: seq<Entry<V>>, hash: nat, key: Key, i: nat)
    requires s != []
  {
    var e := s[Slot(hash, i, |s|)];
    e.Taken? && Streq(key, e.key)
  }

  /** The probing loop of hashtable_hash: the first slot that is free or holds the key. */
  function PutSlot<V>(s: seq<Entry<V>>, hash: nat, key: Key, i: nat): (r: Option<nat>)
    requires s != []
    decreases MAX_CHAIN_LENGTH - i
    ensures var end := if r.Some? then r.value else MAX_CHAIN_LENGTH;
            && (r.Some? ==> i <= r.value < MAX_CHAIN_LENGTH && Stops(s, hash, key, r.value))
            && forall x {:trigger Stops(s, hash, key, x)} | i <= x < end :: !Stops(s, hash, key, x)
  {
    if i >= MAX_CHAIN_LENGTH then None
    else if Stops(s, hash, key, i) then Some(i)
    else PutSlot(s, hash, key, i + 1)
  }

  ghost predicate TakenByOther<V>(s: seq<Entry<V>>, hash: nat, key: Key, i: nat)
    requires s != []
  {
    var e := s[Slot(hash, i, |s|)]; e.Taken? && !Streq(e.key, key)
  }

  /** The eight slots from the hash on are all taken by other keys. */
  ghost predicate Crowded<V>(s: seq<Entry<V>>, hash: nat, key: Key)
    requires s != []
  {
    forall i: nat {:trigger TakenByOther(s, hash, key, i)} :: i < 8 ==> TakenByOther(s, hash, key, i)
  }

  /** It gives up exactly then. */
  lemma ProbesAll<V>(s: seq<Entry<V>>, hash: nat, key: Key)
    requires s != []
    ensures PutSlot(s, hash, key, 0).None? <==> Crowded(s, hash, key)
  {
    var r := PutSlot(s, hash, key, 0);
    if r.None? {
      forall i: nat | i < 8
        ensures TakenByOther(s, hash, key, i)
      {
        assert !Stops(s, hash, key, i);
      }
    } else {
      assert Stops(s, hash, key, r.value) && !TakenByOther(s, hash, key, r.value);
    }
  }

  /** The probing loop of hashtable_get and hashtable_del: the first taken slot that holds the key. */
  function GetSlot<V>(s: seq<Entry<V>>, hash: nat, key: Key, i: nat): (r: Option<nat>)
    requires s != []
    decreases MAX_CHAIN_LENGTH - i
    ensures var end := if r.Some? then r.value else MAX_CHAIN_LENGTH;
            && (r.Some? ==> i <= r.value < MAX_CHAIN_LENGTH && Hits(s, hash, key, r.value))
            && forall x {:trigger Hits(s, hash, key, x)} | i <= x < end :: !Hits(s, hash, key, x)
  {
    if i >= MAX_CHAIN_LENGTH then None
    else if Hits(s, hash, key, i) then Some(i)
    else GetSlot(s, hash, key, i + 1)
  }

  /** The slots of a table together with the map they stand for and, for each key, how many probes away from
      its hash it lies. */
  datatype Table<V> = Table(slots: seq<Entry<V>>, m: map<Key, V>, step: map<Key, nat>) {

    ghost predicate Valid(hash: Key -> nat, u: iset<Key>) {
      && slots != [] && m.Keys == step.Keys && Separated(u)
      && (forall k {:trigger Placed(hash, k)} | k in m :: k in u && Placed(hash, k))
      && (forall j {:trigger Owned(hash, j)} | 0 <= j < |slots| :: Owned(hash, j))
    }

    ghost function At(hash: Key -> nat, k: Key): nat
      requires slots != [] && k in step
    {
      Slot(hash(k), step[k], |slots|)
    }

    /** A bound key lies within the probe window of its hash, with its value. */
    ghost predicate Placed(hash: Key -> nat, k: Key)
      requires slots != [] && k in m && m.Keys == step.Keys
    {
      step[k] < MAX_CHAIN_LENGTH && step[k] < |slots| && slots[At(hash, k)] == Taken(k, m[k])
    }

    /** A taken slot is the slot of its key: no key lies in two slots. */
    ghost predicate Owned(hash: Key -> nat, j: nat)
      requires slots != [] && m.Keys == step.Keys && j < |slots|
    {
      slots[j].Taken? ==> slots[j].key in m && At(hash, slots[j].key) == j
    }

    /** No free slot precedes `k` in its probe window. */
    ghost predicate Unbroken(hash: Key -> nat, k: Key)
      requires slots != [] && k in step
    {
      forall i | 0 <= i < step[k] :: slots[Slot(hash(k), i, |slots|)].Taken?
    }

    ghost predicate AllUnbroken(hash: Key -> nat)
      requires slots != [] && m.Keys == step.Keys
    {
      forall k {:trigger Unbroken(hash, k)} | k in m :: Unbroken(hash, k)
    }

    /** Get finds a key exactly when it is bound, and finds its value. */
    lemma GetFinds(hash: Key -> nat, u: iset<Key>, key: Key)
      requires Valid(hash, u) && key in u
      ensures var r := GetSlot(slots, hash(key), key, 0);
              && (r.Some? <==> key in m)
              && (r.Some? ==> Slot(hash(key), r.value, |slots|) == At(hash, key)
                              && slots[At(hash, key)] == Taken(key, m[key]))
    {
      var r := GetSlot(slots, hash(key), key, 0);
      if key in m {
        assert Placed(hash, key);
        assert Hits(slots, hash(key), key, step[key]);
      }
      if r.Some? {
        var j := Slot(hash(key), r.value, |slots|);
        assert Owned(hash, j);
        assert Placed(hash, slots[j].key);
      }
    }

    lemma TakenInUse(hash: Key -> nat, u: iset<Key>, j: nat)
      requires Valid(hash, u) && j < |slots|
      ensures slots[j].Taken? ==> slots[j].key in m && slots[j].key in u
    {
      assert Owned(hash, j);
      if slots[j].Taken? {
        assert Placed(hash, slots[j].key);
      }
    }

    /** Put finds a free slot for an unbound key, and sees no free slot before it ... */
    lemma PutFindsFree(hash: Key -> nat, u: iset<Key>, key: Key)
      requires Valid(hash, u) && key in u && key !in m
      ensures var r := PutSlot(slots, hash(key), key, 0);
              r.Some? ==> slots[Slot(hash(key), r.value, |slots|)].Free? && r.value < |slots|
                          && forall i | 0 <= i < r.value :: slots[Slot(hash(key), i, |slots|)].Taken?
    {
      var r := PutSlot(slots, hash(key), key, 0);
      if r.Some? {
        var j := Slot(hash(key), r.value, |slots|);
        TakenInUse(hash, u, j);
        if r.value >= |slots| {
          SlotRepeats(hash(key), r.value - |slots|, |slots|);
          assert Stops(slots, hash(key), key, r.value - |slots|);
        }
        forall i | 0 <= i < r.value
          ensures slots[Slot(hash(key), i, |slots|)].Taken?
        {
          assert !Stops(slots, hash(key), key, i);
        }
      }
    }

    /** A taken slot that stops the search for a bound key is the key's. */
    lemma TakenStops(hash: Key -> nat, u: iset<Key>, key: Key, i: nat)
      requires Valid(hash, u) && key in m && i <= step[key] && Stops(slots, hash(key), key, i)
      ensures slots[Slot(hash(key), i, |slots|)].Taken? ==> i == step[key]
    {
      var j := Slot(hash(key), i, |slots|);
      assert Placed(hash, key) && Owned(hash, j);
      TakenInUse(hash, u, j);
      if i < step[key] {
        SlotsDiffer(hash(key), i, step[key], |slots|);
      }
    }

    /** ... and finds the slot of a bound key exactly when no free slot comes first. */
    lemma PutFindsBound(hash: Key -> nat, u: iset<Key>, key: Key)
      requires Valid(hash, u) && key in m
      ensures var r := PutSlot(slots, hash(key), key, 0);
              && r.Some?
              && (if Unbroken(hash, key) then Slot(hash(key), r.value, |slots|) == At(hash, key)
                  else slots[Slot(hash(key), r.value, |slots|)].Free?)
    {
      assert Placed(hash, key);
      assert Stops(slots, hash(key), key, step[key]);
      var r := PutSlot(slots, hash(key), key, 0);
      TakenStops(hash, u, key, r.value);
      if slots[Slot(hash(key), r.value, |slots|)].Taken? {
        forall i | 0 <= i < step[key]
          ensures slots[Slot(hash(key), i, |slots|)].Taken?
        {
          assert !Stops(slots, hash(key), key, i);
        }
      }
    }

    /** So a put that cannot duplicate its key writes a free slot exactly when the key is unbound. */
    lemma PutTarget(hash: Key -> nat, u: iset<Key>, key: Key)
      requires Valid(hash, u) && key in u && (key in m ==> Unbroken(hash, key))
      ensures var r := PutSlot(slots, hash(key), key, 0);
              r.Some? ==>
                var j := Slot(hash(key), r.value, |slots|);
                && (slots[j].Free? <==> key !in m)
                && (key in m ==> j == At(hash, key))
                && (key !in m ==> r.value < |slots|
                                  && forall i | 0 <= i < r.value :: slots[Slot(hash(key), i, |slots|)].Taken?)
    {
      if key in m {
        PutFindsBound(hash, u, key);
        assert Placed(hash, key);
      } else {
        PutFindsFree(hash, u, key);
      }
    }

    /** The table with an unbound key stored at probe `i`. */
    ghost function Stored(hash: Key -> nat, key: Key, val: V, i: nat): Table<V>
      requires slots != []
    {
      Table(slots[Slot(hash(key), i, |slots|) := Taken(key, val)], m[key := val], step[key := i])
    }

    lemma StoredValid(hash: Key -> nat, u: iset<Key>, key: Key, val: V, i: nat)
      requires Valid(hash, u) && key in u && key !in m && i < MAX_CHAIN_LENGTH && i < |slots|
      requires slots[Slot(hash(key), i, |slots|)].Free?
      ensures Stored(hash, key, val, i).Valid(hash, u)
    {
      var t := Stored(hash, key, val, i);
      forall k | k in t.m
        ensures k in u && t.Placed(hash, k)
      {
        assert k != key ==> Placed(hash, k);
      }
      forall j | 0 <= j < |t.slots|
        ensures t.Owned(hash, j)
      {
        assert Owned(hash, j);
      }
    }

    /** Storing never opens a gap. */
    lemma StoredUnbroken(hash: Key -> nat, u: iset<Key>, key: Key, val: V, i: nat)
      requires Valid(hash, u) && key !in m && AllUnbroken(hash)
      requires forall x | 0 <= x < i :: slots[Slot(hash(key), x, |slots|)].Taken?
      ensures Stored(hash, key, val, i).AllUnbroken(hash)
    {
      var t := Stored(hash, key, val, i);
      forall k | k in t.m
        ensures t.Unbroken(hash, k)
      {
        assert k != key ==> Unbroken(hash, k);
      }
    }

    /** The table with the value of a bound key replaced. */
    ghost function Replaced(hash: Key -> nat, key: Key, val: V): Table<V>
      requires slots != [] && key in step
    {
      Table(slots[At(hash, key) := Taken(key, val)], m[key := val], step)
    }

    lemma ReplacedValid(hash: Key -> nat, u: iset<Key>, key: Key, val: V)
      requires Valid(hash, u) && key in m
      ensures Replaced(hash, key, val).Valid(hash, u)
      ensures AllUnbroken(hash) ==> Replaced(hash, key, val).AllUnbroken(hash)
    {
      var t := Replaced(hash, key, val);
      assert Placed(hash, key);
      forall k | k in t.m
        ensures k in u && t.Placed(hash, k) && (AllUnbroken(hash) ==> t.Unbroken(hash, k))
      {
        assert Placed(hash, k);
        assert AllUnbroken(hash) ==> Unbroken(hash, k);
      }
      forall j | 0 <= j < |t.slots|
        ensures t.Owned(hash, j)
      {
        assert Owned(hash, j);
      }
    }

    /** The table with a bound key deleted: its slot is free again, whatever lies behind it. */
    ghost function Removed(hash: Key -> nat, key: Key): Table<V>
      requires slots != [] && key in step
    {
      Table(slots[At(hash, key) := Free], m - {key}, step - {key})
    }

    lemma RemovedValid(hash: Key -> nat, u: iset<Key>, key: Key)
      requires Valid(hash, u) && key in m
      ensures Removed(hash, key).Valid(hash, u)
    {
      var t := Removed(hash, key);
      assert Placed(hash, key);
      forall k | k in t.m
        ensures k in u && t.Placed(hash, k)
      {
        assert Placed(hash, k);
      }
      forall j | 0 <= j < |t.slots|
        ensures t.Owned(hash, j)
      {
        assert Owned(hash, j);
      }
    }

    /** Putting a bound key that a free slot precedes leaves it in two slots: no map fits the result. */
    lemma PutDuplicates(hash: Key -> nat, u: iset<Key>, key: Key, val: V, m': map<Key, V>, step': map<Key, nat>)
      requires Valid(hash, u) && key in m && !Unbroken(hash, key)
      ensures var r := PutSlot(slots, hash(key), key, 0);
              r.Some? && !Table(slots[Slot(hash(key), r.value, |slots|) := Taken(key, val)], m', step').Valid(hash, u)
    {
      PutFindsBound(hash, u, key);
      var r := PutSlot(slots, hash(key), key, 0);
      var j := Slot(hash(key), r.value, |slots|);
      var t := Table(slots[j := Taken(key, val)], m', step');
      assert Placed(hash, key);
      if t.Valid(hash, u) {
        t.OneSlot(hash, u, j, At(hash, key));
      }
    }

    lemma OneSlot(hash: Key -> nat, u: iset<Key>, i: nat, j: nat)
      requires Valid(hash, u) && i < |slots| && j < |slots| && slots[i].Taken? && slots[j].Taken?
      requires slots[i].key == slots[j].key
      ensures i == j
    {
      assert Owned(hash, i) && Owned(hash, j);
    }
  }

  ghost function Empty<V>(n: nat): Table<V> {
    Table(seq(n, _ => Free), map[], map[])
  }

  /** The table after two keys whose hashes meet in a new table have been put, and the first of them deleted. */
  ghost function TwoPutOneDeleted(hash: Key -> nat, a: Key, b: Key): Table<int>
    requires a != b
  {
    Empty<int>(INITIAL_SIZE).Stored(hash, a, 1, 0).Stored(hash, b, 2, 1).Removed(hash, a)
  }

  /** The two puts do choose these slots. */
  lemma TwoPutsMeet(hash: Key -> nat, u: iset<Key>, a: Key, b: Key)
    requires Separated(u) && a in u && b in u && a != b && hash(a) % INITIAL_SIZE == hash(b) % INITIAL_SIZE
    ensures var t0 := Empty<int>(INITIAL_SIZE);
      && PutSlot(t0.slots, hash(a), a, 0) == Some(0)
      && PutSlot(t0.Stored(hash, a, 1, 0).slots, hash(b), b, 0) == Some(1)
  {
    var t0 := Empty<int>(INITIAL_SIZE);
    var t1 := t0.Stored(hash, a, 1, 0);
    SlotIs(hash(b), 0, INITIAL_SIZE);
    SlotIs(hash(b), 1, INITIAL_SIZE);
    assert !Stops(t1.slots, hash(b), b, 0) && Stops(t1.slots, hash(b), b, 1);
  }

  /** A deletion is enough to bring that about: with two keys whose hashes meet in a new table, deleting the first
      leaves a free slot before the second, which the next put of the second takes, since the table is not half full. */
  lemma DeleteOpensGap(hash: Key -> nat, u: iset<Key>, a: Key, b: Key)
    requires Separated(u) && a in u && b in u && a != b && hash(a) % INITIAL_SIZE == hash(b) % INITIAL_SIZE
    ensures var t := TwoPutOneDeleted(hash, a, b);
      && t.Valid(hash, u) && b in t.m && !t.Unbroken(hash, b) && |t.m| < |t.slots| / 2
      && PutSlot(t.slots, hash(b), b, 0) == Some(0) && t.slots[Slot(hash(b), 0, |t.slots|)].Free?
  {
    var t0 := Empty<int>(INITIAL_SIZE);
    var t1 := t0.Stored(hash, a, 1, 0);
    var t2 := t1.Stored(hash, b, 2, 1);
    SlotIs(hash(b), 0, INITIAL_SIZE);
    SlotIs(hash(b), 1, INITIAL_SIZE);
    t0.StoredValid(hash, u, a, 1, 0);
    t1.StoredValid(hash, u, b, 2, 1);
    t2.RemovedValid(hash, u, a);
    assert t2.Removed(hash, a).slots[Slot(hash(b), 0, INITIAL_SIZE)].Free?;
    assert t2.m - {a} == map[b := 2];
  }

  class HashTable<V> {
    const hash: Key -> nat
    const memory: nat               // no allocation can give a larger table
    var entries: array<Entry<V>>
    var size: nat
    ghost const u: iset<Key>        // the keys in use
    ghost var table: Table<V>

    ghost predicate Valid()
      reads this, entries
    {
      && table.Valid(hash, u) && entries[..] == table.slots
      && size == |table.m| && 2 * size <= entries.Length && 4 <= entries.Length
    }

    /** hashtable_new */
    constructor (hash: Key -> nat, memory: nat, ghost u: iset<Key>)
      requires Separated(u)
      ensures Valid() && table.m == map[] && table.AllUnbroken(hash) && fresh(entries) && entries.Length == 4
      ensures this.hash == hash && this.u == u
    {
      this.hash, this.memory, this.u := hash, memory, u;
      entries := new Entry<V>[INITIAL_SIZE](_ => Free);
      size := 0;
      new;
      table := Empty(INITIAL_SIZE);
    }

    /** What hashtable_hash returns: none when the table is half full or the probe window is used up. */
    ghost predicate Found(key: Key, r: Option<nat>)
      requires Valid()
      reads this, entries
    {
      var p := PutSlot(table.slots, hash(key), key, 0);
      r == if size >= entries.Length / 2 || p.None? then None else Some(Slot(hash(key), p.value, entries.Length))
    }

    /** Putting `key` cannot bind it twice: it is unbound, or no free slot precedes it. */
    ghost predicate Safe(key: Key)
      requires Valid()
      reads this, entries
    {
      key in u && (key in table.m ==> table.Unbroken(hash, key))
    }

    /** hashtable_hash: none stands for -HASHTABLE_FULL. */
    method FindSlot(key: Key) returns (r: Option<nat>)
      requires Valid()
      ensures Found(key, r)
      ensures r.None? <==> size >= entries.Length / 2 || Crowded(entries[..], hash(key), key)
    {
      ProbesAll(table.slots, hash(key), key);
      if size >= entries.Length / 2 {
        return None;
      }
      var n := entries.Length;
      var curr := hash(key) % n;
      var i := 0;
      while i < MAX_CHAIN_LENGTH
        invariant i <= MAX_CHAIN_LENGTH && curr == Slot(hash(key), i, n)
        invariant PutSlot(table.slots, hash(key), key, 0) == PutSlot(table.slots, hash(key), key, i)
      {
        if entries[curr].Free? || Streq(entries[curr].key, key) {
          return Some(curr);
        }
        NextIsMod(curr, n);
        curr := (curr + 1) % n;
        i := i + 1;
      }
      r := None;
    }

    /** The probing loop of hashtable_get and hashtable_del. */
    method Probe(key: Key) returns (r: Option<nat>)
      requires Valid() && key in u
      ensures r.Some? <==> key in table.m
      ensures r.Some? ==> r.value == table.At(hash, key) && entries[r.value] == Taken(key, table.m[key])
    {
      table.GetFinds(hash, u, key);
      var n := entries.Length;
      var curr := hash(key) % n;
      var i := 0;
      while i < MAX_CHAIN_LENGTH
        invariant i <= MAX_CHAIN_LENGTH && curr == Slot(hash(key), i, n)
        invariant GetSlot(table.slots, hash(key), key, 0) == GetSlot(table.slots, hash(key), key, i)
      {
        if entries[curr].Taken? && Streq(key, entries[curr].key) {
          return Some(curr);
        }
        NextIsMod(curr, n);
        curr := (curr + 1) % n;
        i := i + 1;
      }
      r := None;
    }

    /** hashtable_get */
    method Get(key: Key) returns (r: Option<V>)
      requires Valid() && key in u
      ensures r == if key in table.m then Some(table.m[key]) else None
    {
      var p := Probe(key);
      r := if p.Some? then Some(entries[p.value].val) else None;
    }

    /** hashtable_del: false stands for -HASHTABLE_ERR. */
    method Del(key: Key) returns (ok: bool)
      requires Valid() && key in u
      modifies this, entries
      ensures Valid() && entries == old(entries) && (ok <==> key in old(table.m))
      ensures table.m == old(table.m) - {key}
    {
      var p := Probe(key);
      if p.None? {
        return false;
      }
      table.RemovedValid(hash, u, key);
      entries[p.value] := Free;
      size := size - 1;
      table := table.Removed(hash, key);
      ok := true;
    }

    /** The end of hashtable_put: writing the slot found.  A bound key that a free slot precedes ends up in two. */
    method Store(key: Key, val: V, index: nat)
      requires Valid() && key in u && Found(key, Some(index))
      modifies this, entries
      ensures entries == old(entries) && index < entries.Length
      ensures entries[..] == old(entries[..])[index := Taken(key, val)]
      ensures old(Safe(key)) ==> Valid() && table.m == old(table.m)[key := val]
      ensures old(Safe(key) && table.AllUnbroken(hash)) ==> table.AllUnbroken(hash)
      ensures !old(Safe(key)) ==> Twice(key)
    {
      ghost var i := PutSlot(table.slots, hash(key), key, 0).value;
      ghost var t, safe := table, Safe(key);
      if safe {
        t := Written(key, val, index, i);
      } else {
        table.PutFindsBound(hash, u, key);
        assert table.Placed(hash, key);
      }
      if entries[index].Free? {
        size := size + 1;
      }
      entries[index] := Taken(key, val);
      assert !safe ==> entries[t.At(hash, key)].Taken? && entries[t.At(hash, key)].key == key;
      table := t;
    }

    /** The key lies in two slots. */
    ghost predicate Twice(key: Key)
      reads this, entries
    {
      exists i, j :: 0 <= i < entries.Length && 0 <= j < entries.Length && i != j
                     && entries[i].Taken? && entries[i].key == key && entries[j].Taken? && entries[j].key == key
    }

    /** The table after a put that cannot duplicate its key. */
    ghost method Written(key: Key, val: V, index: nat, i: nat) returns (t: Table<V>)
      requires Valid() && Safe(key) && Found(key, Some(index)) && PutSlot(table.slots, hash(key), key, 0) == Some(i)
      ensures t.Valid(hash, u) && t.m == table.m[key := val] && index < |table.slots|
      ensures t.slots == table.slots[index := Taken(key, val)]
      ensures |t.m| == |table.m| + if table.slots[index].Free? then 1 else 0
      ensures table.AllUnbroken(hash) ==> t.AllUnbroken(hash)
    {
      table.PutTarget(hash, u, key);
      if table.slots[index].Free? {
        table.StoredValid(hash, u, key, val, i);
        if table.AllUnbroken(hash) {
          table.StoredUnbroken(hash, u, key, val, i);
        }
        t := table.Stored(hash, key, val, i);
      } else {
        table.ReplacedValid(hash, u, key, val);
        t := table.Replaced(hash, key, val);
      }
    }

    ghost function Room(): nat
      reads this
    {
      if entries.Length <= memory then memory - entries.Length else 0
    }

    /** The put keeps the table a map: the key is unbound, or no free slot precedes it, or the table is half full
        and so rehashed first. */
    ghost predicate Clean(key: Key)
      requires Valid()
      reads this, entries
    {
      key in u && (Safe(key) || size >= entries.Length / 2)
    }

    /** hashtable_put: false stands for -HASHTABLE_ERR, when memory runs out. */
    method Put(key: Key, val: V) returns (ok: bool)
      requires Valid() && key in u
      modifies this, entries
      decreases Room(), 1
      ensures (entries == old(entries) || fresh(entries)) && entries.Length >= old(entries.Length)
      ensures old(entries.Length) <= memory ==> entries.Length <= memory
      ensures old(Clean(key)) ==> Valid()
      ensures old(Clean(key) && table.AllUnbroken(hash)) ==> table.AllUnbroken(hash)
      ensures old(Clean(key)) && ok ==> table.m == old(table.m)[key := val]
      ensures old(Clean(key)) && !ok ==> Submap(table.m, old(table.m))
      ensures !old(Clean(key)) ==> ok && entries == old(entries) && Twice(key)
    {
      if !Clean(key) {
        table.PutFindsBound(hash, u, key);
      }
      var index := FindSlot(key);
      while index.None?
        invariant Valid() && (old(Clean(key)) ==> index.None? || Safe(key)) && Found(key, index)
        invariant table.m == old(table.m) && (!old(Clean(key)) ==> index.Some? && !Safe(key) && entries == old(entries))
        invariant entries == old(entries) || fresh(entries)
        invariant entries.Length >= old(entries.Length)
        invariant old(entries.Length) <= memory ==> entries.Length <= memory
        invariant old(table.AllUnbroken(hash)) ==> table.AllUnbroken(hash)
        decreases Room()
      {
        ok := Rehash();
        if !ok {
          return;
        }
        index := FindSlot(key);
      }
      Store(key, val, index.value);
      ok := true;
    }

    /** hashtable_rehash.  The allocation of the larger table may fail, and fails beyond `memory`; a failure
        inside a nested rehash loses the entries not yet moved. */
    method Rehash() returns (ok: bool)
      requires Valid()
      modifies this, entries
      decreases Room(), 0
      ensures Valid() && (entries == old(entries) || fresh(entries)) && entries.Length >= old(entries.Length)
      ensures old(table.AllUnbroken(hash)) ==> table.AllUnbroken(hash)
      ensures ok ==> table.m == old(table.m) && table.AllUnbroken(hash) && 2 * old(entries.Length) <= entries.Length
      ensures entries != old(entries) ==> entries.Length <= memory
      ensures !ok ==> Submap(table.m, old(table.m))
    {
      var granted: bool := *;
      if !granted || 2 * entries.Length > memory {
        return false;
      }
      var curr := entries;
      ghost var t := table;
      entries := new Entry<V>[2 * curr.Length](_ => Free);
      size := 0;
      table := Empty(2 * curr.Length);
      ok := MoveAll(curr, t);
    }

    /** The loop of hashtable_rehash. */
    method MoveAll(curr: array<Entry<V>>, ghost t: Table<V>) returns (ok: bool)
      requires Valid() && table.m == map[] && table.AllUnbroken(hash) && entries.Length <= memory
      requires t.Valid(hash, u) && curr[..] == t.slots && curr != entries
      modifies this, entries
      decreases Room(), 2
      ensures Valid() && (entries == old(entries) || fresh(entries)) && old(entries.Length) <= entries.Length <= memory
      ensures table.AllUnbroken(hash) && (if ok then table.m == t.m else Submap(table.m, t.m))
    {
      var i := 0;
      while i < curr.Length
        invariant 0 <= i <= curr.Length && Valid() && table.AllUnbroken(hash)
        invariant (entries == old(entries) || fresh(entries)) && old(entries.Length) <= entries.Length <= memory
        invariant curr[..] == t.slots && table.m == Moved(t, hash, i)
      {
        MovedStep(t, hash, u, i);
        if curr[i].Taken? {
          ok := Put(curr[i].key, curr[i].val);
          if !ok {
            return;
          }
        }
        i := i + 1;
      }
      MovedAll(t, hash, u);
      ok := true;
    }
  }

  lemma MovedStep<V>(t: Table<V>, hash: Key -> nat, u: iset<Key>, i: nat)
    requires t.Valid(hash, u) && i < |t.slots|
    ensures Submap(Moved(t, hash, i), t.m)
    ensures t.slots[i].Free? ==> Moved(t, hash, i + 1) == Moved(t, hash, i)
    ensures t.slots[i].Taken? ==>
              var k := t.slots[i].key;
              k in u && k !in Moved(t, hash, i) && Moved(t, hash, i + 1) == Moved(t, hash, i)[k := t.slots[i].val]
  {
    assert t.Owned(hash, i);
    forall k | k in t.m
      ensures t.At(hash, k) == i <==> t.slots[i].Taken? && t.slots[i].key == k
    {
      assert t.Placed(hash, k);
    }
    if t.slots[i].Taken? {
      assert t.Placed(hash, t.slots[i].key);
    }
  }

  lemma MovedAll<V>(t: Table<V>, hash: Key -> nat, u: iset<Key>)
    requires t.Valid(hash, u)
    ensures Moved(t, hash, |t.slots|) == t.m
  {
  }

  ghost predicate Submap<V>(a: map<Key, V>, b: map<Key, V>) {
    forall k <- a :: k in b && a[k] == b[k]
  }

  /** The bindings whose slots come before `i`. */
  ghost function Moved<V>(t: Table<V>, hash: Key -> nat, i: nat): map<Key, V>
    requires t.slots != [] && t.m.Keys == t.step.Keys
  {
    map k | k in t.m && t.At(hash, k) < i :: t.m[k]
  }
}
