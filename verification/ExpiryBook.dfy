/** Runs of PUT, DEL and TTL commands and expiry ticks in any order, on what the list, the tries and the items say
    (src/server.c, src/db.c): which keys have an entry in the list, and when a key goes. */
module ExpiryBook {
  import opened Bytes
  import opened Items
  import opened Trie
  import opened Expiry

  // ---------------------------------------------------------------- the state between commands

  datatype Times = Times(ttl: int, ctime: int)

  /** What the list, the tries and the items say between two commands. */
  datatype Book = Book(es: seq<ExpiringKey>, h: Holdings, times: map<DbItem, Times>)

  ghost function TtlOf(b: Book, x: DbItem): int {
    if x in b.times then b.times[x].ttl else -1
  }

  ghost function Deadline(b: Book, x: DbItem): int {
    if x in b.times then b.times[x].ctime + b.times[x].ttl else 0
  }

  ghost function Ds(b: Book): (ds: seq<int>)
    ensures |ds| == |b.es| && forall i :: 0 <= i < |ds| ==> ds[i] == Deadline(b, b.es[i].item)
  {
    seq(|b.es|, i requires 0 <= i < |b.es| => Deadline(b, b.es[i].item))
  }

  /** The items of the tries and of the entries are recorded, and the entries' tries are known. */
  ghost predicate Complete(b: Book) {
    && (forall t, k {:trigger b.h[t][k]} :: t in b.h && k in b.h[t] ==> b.h[t][k] in b.times)
    && forall e <- b.es :: e.item in b.times && e.trie in b.h
  }

  datatype Command =
    | Put(t: Trie, key: Key, val: Key, ttl: int, now: int)
    | Del(t: Trie, key: Key)
    | Ttl(t: Trie, key: Key, ttl: int, now: int)
    | Tick(now: int)

  ghost predicate Finds(b: Book, cmd: Command) {
    !cmd.Tick? && cmd.t in b.h && cmd.key in b.h[cmd.t]
  }

  ghost function EntryFor(b: Book, t: Trie, key: Key): ExpiringKey
    requires t in b.h && key in b.h[t]
  {
    ExpiringKey(t, b.h[t][key], key)
  }

  /** What a tick leaves. */
  ghost function AfterTick(b: Book, now: int): Book {
    var m := Due(Ds(b), now);
    Book(Kept(b.es, m), DropAll(b.h, b.es, (m + 1) / 2), b.times)
  }

  /** What a TTL command for a bound key does; the order of entries with one deadline is open. */
  ghost predicate Renewed(b: Book, cmd: Command, b': Book)
    requires cmd.Ttl? && Finds(b, cmd)
  {
    var item := b.h[cmd.t][cmd.key];
    && b'.h == b.h && b'.times == b.times[item := Times(Short(cmd.ttl), cmd.now)]
    && multiset(b'.es) == Entered(multiset(b.es), EntryFor(b, cmd.t, cmd.key), TtlOf(b, item) < 0)
    && Ascending(Ds(b'))
  }

  /** What a PUT command does: the key is bound to a new item, and the list does not change. */
  ghost predicate BoundAnew(b: Book, cmd: Command, b': Book)
    requires cmd.Put? && cmd.t in b.h
  {
    && cmd.t in b'.h && cmd.key in b'.h[cmd.t] && b'.h[cmd.t][cmd.key] !in b.times
    && b'.h == b.h[cmd.t := b.h[cmd.t][cmd.key := b'.h[cmd.t][cmd.key]]]
    && b'.times == b.times[b'.h[cmd.t][cmd.key] := Times(Short(cmd.ttl), cmd.now)]
    && b'.es == b.es
  }

  /** What a DEL command leaves: an entry of the key stays. */
  ghost function AfterDel(b: Book, cmd: Command): Book
    requires cmd.Del?
  {
    b.(h := DropKey(b.h, cmd.t, cmd.key))
  }

  ghost predicate Next(b: Book, cmd: Command, b': Book) {
    match cmd
    case Tick(now) => b' == AfterTick(b, now)
    case Ttl(_, _, _, _) => if Finds(b, cmd) then Renewed(b, cmd, b') else b' == b
    case Put(t, _, _, _, _) => if t in b.h then BoundAnew(b, cmd, b') else b' == b
    case Del(_, _) => b' == AfterDel(b, cmd)
  }

  // ---------------------------------------------------------------- which keys have an entry

  /** No two keys share an item. */
  ghost predicate Own(h: Holdings) {
    forall t, k, u, l {:trigger h[t][k], h[u][l]} ::
      t in h && k in h[t] && u in h && l in h[u] && h[t][k] == h[u][l] ==> t == u && k == l
  }

  /** The entry's key is bound to its item, which has a ttl, and the entry is there once. */
  ghost predicate Rightful(b: Book, e: ExpiringKey) {
    BoundIn(b.h, e.trie, e.key, e.item) && TtlOf(b, e.item) >= 0 && multiset(b.es)[e] == 1
  }

  /** Nothing in the list is wrong: it is in the order of the deadlines, and every entry is rightful.  The empty key is
      left out: trie_delete never unbinds it. */
  ghost predicate Sound(b: Book) {
    && Complete(b) && Own(b.h) && Ascending(Ds(b))
    && forall e {:trigger Rightful(b, e)} :: e in b.es && e.key != [] ==> Rightful(b, e)
  }

  ghost predicate ListedIf(b: Book, t: Trie, k: Key)
    requires t in b.h && k in b.h[t]
  {
    TtlOf(b, b.h[t][k]) >= 0 ==> EntryFor(b, t, k) in b.es
  }

  /** Nothing is missing from the list: every bound key with a ttl has an entry. */
  ghost predicate Full(b: Book) {
    forall t, k {:trigger ListedIf(b, t, k)} :: t in b.h && k in b.h[t] && k != [] ==> ListedIf(b, t, k)
  }

  /** The entries are exactly those of the bound keys with a ttl, each once. */
  ghost predicate Exact(b: Book) {
    Sound(b) && Full(b)
  }

  lemma StartsExact(b: Book)
    requires Complete(b) && Own(b.h) && b.es == []
    requires forall t, k :: t in b.h && k in b.h[t] ==> TtlOf(b, b.h[t][k]) < 0
    ensures Exact(b)
  {
    forall t, k | t in b.h && k in b.h[t] && k != []
      ensures ListedIf(b, t, k)
    {
      assert TtlOf(b, b.h[t][k]) < 0;
    }
  }

  ghost predicate HasEntry(es: seq<ExpiringKey>, t: Trie, q: Key) {
    exists i :: 0 <= i < |es| && Names(es[i], t, q)
  }

  lemma NoEntryOther(es: seq<ExpiringKey>, e: ExpiringKey, t: Trie, q: Key)
    requires e in es
    ensures Names(e, t, q) ==> HasEntry(es, t, q)
  {
    var i :| 0 <= i < |es| && es[i] == e;
    if Names(e, t, q) {
      assert Names(es[i], t, q);
    }
  }

  /** In a sound list a bound key has an entry exactly when it has its own. */
  lemma OwnEntry(b: Book, t: Trie, q: Key)
    requires Sound(b) && q != []
    ensures HasEntry(b.es, t, q) <==> t in b.h && q in b.h[t] && EntryFor(b, t, q) in b.es
  {
    if i :| 0 <= i < |b.es| && Names(b.es[i], t, q) {
      assert Rightful(b, b.es[i]);
    }
    if t in b.h && q in b.h[t] && EntryFor(b, t, q) in b.es {
      var i :| 0 <= i < |b.es| && b.es[i] == EntryFor(b, t, q);
      assert Names(b.es[i], t, q);
    }
  }

  /** The command makes the list unsound.  A TTL command: by a negative ttl (asked for, or beyond 16 bits) for a key
      that has an entry or gets one.  A PUT or DEL command: by leaving behind the entry of the key. */
  ghost predicate Spoils(b: Book, cmd: Command) {
    && !cmd.Tick? && cmd.key != [] && cmd.t in b.h
    && if cmd.Ttl? then
         && Finds(b, cmd) && Short(cmd.ttl) < 0
         && (TtlOf(b, b.h[cmd.t][cmd.key]) < 0 || EntryFor(b, cmd.t, cmd.key) in b.es)
       else HasEntry(b.es, cmd.t, cmd.key)
  }

  /** A PUT command with a ttl: the key gets no entry. */
  ghost predicate PutTimed(b: Book, cmd: Command) {
    cmd.Put? && cmd.key != [] && cmd.t in b.h && Short(cmd.ttl) >= 0
  }

  // ---------------------------------------------------------------- TTL

  lemma {:induction false} RenewedComplete(b: Book, cmd: Command, b': Book)
    requires cmd.Ttl? && Finds(b, cmd) && Renewed(b, cmd, b') && Complete(b)
    ensures Complete(b')
  {
    forall e | e in b'.es
      ensures e.item in b'.times && e.trie in b'.h
    {
      assert e in multiset(b'.es);
      if e != EntryFor(b, cmd.t, cmd.key) {
        assert e in multiset(b.es);
      }
    }
  }

  lemma {:induction false} RenewedOther(b: Book, cmd: Command, b': Book, e: ExpiringKey)
    requires cmd.Ttl? && Finds(b, cmd) && Renewed(b, cmd, b') && Sound(b)
    requires e in b'.es && e.key != [] && e != EntryFor(b, cmd.t, cmd.key)
    ensures Rightful(b', e)
  {
    assert e in multiset(b'.es);
    assert e in multiset(b.es);
    assert Rightful(b, e);
    assert b.h[e.trie][e.key] != b.h[cmd.t][cmd.key];
  }

  /** The entry of the key itself is there once if it was or the item had no ttl, and rightful if the new ttl is not
      negative. */
  lemma {:induction false} RenewedSelf(b: Book, cmd: Command, b': Book)
    requires cmd.Ttl? && Finds(b, cmd) && Renewed(b, cmd, b') && Sound(b) && cmd.key != []
    ensures var e := EntryFor(b, cmd.t, cmd.key);
      && (e in b'.es <==> TtlOf(b, e.item) < 0 || e in b.es) && (e in b'.es ==> multiset(b'.es)[e] == 1)
      && TtlOf(b', e.item) == Short(cmd.ttl)
  {
    var e := EntryFor(b, cmd.t, cmd.key);
    assert e in b'.es <==> e in multiset(b'.es);
    if e in b.es {
      assert Rightful(b, e);
    }
  }

  lemma {:induction false} TtlSound(b: Book, cmd: Command, b': Book)
    requires cmd.Ttl? && Finds(b, cmd) && Renewed(b, cmd, b') && Sound(b)
    ensures Sound(b') <==> !Spoils(b, cmd)
  {
    var self := EntryFor(b, cmd.t, cmd.key);
    RenewedComplete(b, cmd, b');
    if cmd.key != [] {
      RenewedSelf(b, cmd, b');
    }
    if Spoils(b, cmd) {
      assert self in b'.es && !Rightful(b', self);
    } else {
      forall e | e in b'.es && e.key != []
        ensures Rightful(b', e)
      {
        if e != self {
          RenewedOther(b, cmd, b', e);
        }
      }
    }
  }

  lemma {:induction false} TtlFull(b: Book, cmd: Command, b': Book)
    requires cmd.Ttl? && Finds(b, cmd) && Renewed(b, cmd, b') && Exact(b)
    ensures Full(b')
  {
    forall t, k | t in b'.h && k in b'.h[t] && k != []
      ensures ListedIf(b', t, k)
    {
      var e := EntryFor(b, t, k);
      assert ListedIf(b, t, k);
      assert b.h[t][k] == b.h[cmd.t][cmd.key] ==> t == cmd.t && k == cmd.key;
      assert e in multiset(b.es) ==> e in multiset(b'.es);
      if t == cmd.t && k == cmd.key {
        RenewedSelf(b, cmd, b');
      }
    }
  }

  // ---------------------------------------------------------------- PUT and DEL

  lemma {:induction false} PutComplete(b: Book, cmd: Command, b': Book)
    requires cmd.Put? && cmd.t in b.h && BoundAnew(b, cmd, b') && Complete(b)
    ensures Complete(b')
  {
  }

  lemma {:induction false} PutOwn(b: Book, cmd: Command, b': Book)
    requires cmd.Put? && cmd.t in b.h && BoundAnew(b, cmd, b') && Complete(b) && Own(b.h)
    ensures Own(b'.h)
  {
    forall t, k, u, l | t in b'.h && k in b'.h[t] && u in b'.h && l in b'.h[u] && b'.h[t][k] == b'.h[u][l]
      ensures t == u && k == l
    {
      PutOthers(b, cmd, b', t, k);
      PutOthers(b, cmd, b', u, l);
    }
  }

  /** Only the key itself has the new item. */
  lemma {:induction false} PutOthers(b: Book, cmd: Command, b': Book, t: Trie, k: Key)
    requires cmd.Put? && cmd.t in b.h && BoundAnew(b, cmd, b') && Complete(b) && t in b'.h && k in b'.h[t]
    ensures t == cmd.t && k == cmd.key <==> b'.h[t][k] == b'.h[cmd.t][cmd.key]
    ensures (t != cmd.t || k != cmd.key) ==> t in b.h && k in b.h[t] && b'.h[t][k] == b.h[t][k]
  {
    if t != cmd.t || k != cmd.key {
      assert b.h[t][k] in b.times;
    }
  }

  /** The entries keep their times. */
  lemma {:induction false} PutTimes(b: Book, cmd: Command, b': Book)
    requires cmd.Put? && cmd.t in b.h && BoundAnew(b, cmd, b') && Complete(b)
    ensures Ds(b') == Ds(b) && forall e <- b.es :: TtlOf(b', e.item) == TtlOf(b, e.item)
  {
    forall e | e in b.es
      ensures e.item in b.times && e.item != b'.h[cmd.t][cmd.key]
    {
    }
    forall i | 0 <= i < |b.es|
      ensures Ds(b')[i] == Ds(b)[i]
    {
      assert b.es[i] in b.es;
    }
  }

  lemma {:induction false} PutSound(b: Book, cmd: Command, b': Book)
    requires cmd.Put? && cmd.t in b.h && BoundAnew(b, cmd, b') && Sound(b)
    ensures Sound(b') <==> !Spoils(b, cmd)
  {
    PutComplete(b, cmd, b');
    PutOwn(b, cmd, b');
    PutTimes(b, cmd, b');
    if Spoils(b, cmd) {
      var i :| 0 <= i < |b.es| && Names(b.es[i], cmd.t, cmd.key);
      assert b.es[i].item in b.times;
      assert b.es[i] in b'.es && !Rightful(b', b.es[i]);
    } else {
      forall e | e in b'.es && e.key != []
        ensures Rightful(b', e)
      {
        assert Rightful(b, e);
        NoEntryOther(b.es, e, cmd.t, cmd.key);
      }
    }
  }

  lemma {:induction false} PutFull(b: Book, cmd: Command, b': Book)
    requires cmd.Put? && cmd.t in b.h && BoundAnew(b, cmd, b') && Exact(b)
    ensures Full(b') <==> !PutTimed(b, cmd)
  {
    PutTimes(b, cmd, b');
    var x := b'.h[cmd.t][cmd.key];
    assert EntryFor(b', cmd.t, cmd.key) !in b.es;
    if PutTimed(b, cmd) {
      assert !ListedIf(b', cmd.t, cmd.key);
    } else {
      forall t, k | t in b'.h && k in b'.h[t] && k != []
        ensures ListedIf(b', t, k)
      {
        if t != cmd.t || k != cmd.key {
          assert ListedIf(b, t, k) && b.h[t][k] in b.times;
        }
      }
    }
  }

  lemma {:induction false} DelBinds(b: Book, cmd: Command, t: Trie, q: Key, item: DbItem)
    requires cmd.Del?
    ensures BoundIn(AfterDel(b, cmd).h, t, q, item) <==>
            BoundIn(b.h, t, q, item) && (t != cmd.t || q != cmd.key || q == [])
  {
  }

  lemma {:induction false} DelOwn(b: Book, cmd: Command)
    requires cmd.Del? && Complete(b) && Own(b.h)
    ensures Complete(AfterDel(b, cmd)) && Own(AfterDel(b, cmd).h)
  {
    var b' := AfterDel(b, cmd);
    forall t, k, u, l | t in b'.h && k in b'.h[t] && u in b'.h && l in b'.h[u] && b'.h[t][k] == b'.h[u][l]
      ensures t == u && k == l
    {
      assert b.h[t][k] == b.h[u][l];
    }
  }

  lemma {:induction false} DelSound(b: Book, cmd: Command)
    requires cmd.Del? && Sound(b)
    ensures Sound(AfterDel(b, cmd)) <==> !Spoils(b, cmd)
  {
    var b' := AfterDel(b, cmd);
    DelOwn(b, cmd);
    assert Ds(b') == Ds(b);
    if Spoils(b, cmd) {
      var i :| 0 <= i < |b.es| && Names(b.es[i], cmd.t, cmd.key);
      assert b.es[i] in b'.es && !Rightful(b', b.es[i]);
    } else {
      forall e | e in b'.es && e.key != []
        ensures Rightful(b', e)
      {
        assert Rightful(b, e);
        NoEntryOther(b.es, e, cmd.t, cmd.key);
      }
    }
  }

  lemma {:induction false} DelFull(b: Book, cmd: Command)
    requires cmd.Del? && Full(b)
    ensures Full(AfterDel(b, cmd))
  {
    var b' := AfterDel(b, cmd);
    forall t, k | t in b'.h && k in b'.h[t] && k != []
      ensures ListedIf(b', t, k)
    {
      assert ListedIf(b, t, k);
    }
  }

  // ---------------------------------------------------------------- a tick

  /** What a tick removes: n entries at 0, 2, 4, ... */
  function Firsts<T>(s: seq<T>, n: nat): (r: seq<T>)
    requires 2 * n <= |s| + 1
    ensures |r| == n
  {
    if n == 0 then [] else Firsts(s, n - 1) + [s[2 * (n - 1)]]
  }

  lemma {:induction false} FirstsAt<T>(s: seq<T>, n: nat, j: nat)
    requires 2 * n <= |s| + 1 && j < n
    ensures Firsts(s, n)[j] == s[2 * j]
  {
    if j < n - 1 {
      FirstsAt(s, n - 1, j);
    }
  }

  lemma {:induction false} EvenHalves<T>(s: seq<T>, n: nat, m: nat)
    requires m == 2 * n <= |s|
    ensures multiset(Seconds(s, n)) + multiset(Firsts(s, n)) == multiset(s[..m])
  {
    if n > 0 {
      var below, m0 := n - 1, m - 2;
      var x, y := s[m0], s[m - 1];
      EvenHalves(s, below, m0);
      FirstsNext(s, below, n, x);
      SecondsNext(s, below, n, y);
      TwoMore(s, m0, m, x, y);
    }
  }

  lemma {:induction false} FirstsNext<T>(s: seq<T>, n: nat, n1: nat, x: T)
    requires n1 == n + 1 && 2 * n < |s| && s[2 * n] == x
    ensures Firsts(s, n1) == Firsts(s, n) + [x]
  {
  }

  lemma {:induction false} SecondsNext<T>(s: seq<T>, n: nat, n1: nat, y: T)
    requires n1 == n + 1 && 2 * n + 1 < |s| && s[2 * n + 1] == y
    ensures Seconds(s, n1) == Seconds(s, n) + [y]
  {
  }

  lemma TwoMore<T>(s: seq<T>, m0: nat, m: nat, x: T, y: T)
    requires m == m0 + 2 <= |s| && s[m0] == x && s[m - 1] == y
    ensures multiset(s[..m]) == multiset(s[..m0]) + multiset{x} + multiset{y}
  {
    assert s[..m] == s[..m0] + [x] + [y];
  }

  lemma {:induction false} OddHalves<T>(s: seq<T>, n: nat, n1: nat, m: nat)
    requires m == 2 * n + 1 <= |s| && n1 == n + 1
    ensures multiset(Seconds(s, n)) + multiset(Firsts(s, n1)) == multiset(s[..m])
  {
    var x, below := s[m - 1], m - 1;
    EvenHalves(s, n, below);
    FirstsNext(s, n, n1, x);
    assert s[..m] == s[..below] + [x];
  }

  lemma {:induction false} Halves<T>(s: seq<T>, m: nat, firsts: nat, seconds: nat)
    requires m <= |s| && firsts == (m + 1) / 2 && seconds == m / 2
    ensures multiset(Seconds(s, seconds)) + multiset(Firsts(s, firsts)) == multiset(s[..m])
  {
    if m == 2 * seconds {
      assert firsts == seconds;
      EvenHalves(s, seconds, m);
    } else {
      OddHalves(s, seconds, firsts, m);
    }
  }

  /** What a tick keeps and what it removes make up the list. */
  lemma {:induction false} KeptAndFirsts<T>(s: seq<T>, m: nat, n: nat)
    requires m <= |s| && n == (m + 1) / 2
    ensures multiset(Kept(s, m)) + multiset(Firsts(s, n)) == multiset(s)
  {
    Halves(s, m, n, m / 2);
    assert s == s[..m] + s[m..];
  }

  lemma {:induction false} FirstsStruck(es: seq<ExpiringKey>, n: nat, t: Trie, q: Key) returns (e: ExpiringKey)
    requires 2 * n <= |es| + 1 && StruckFirst(es, n, t, q)
    ensures e in multiset(Firsts(es, n)) && Names(e, t, q)
  {
    var j :| 0 <= j < n && Names(es[2 * j], t, q);
    FirstsAt(es, n, j);
    e := es[2 * j];
    assert Firsts(es, n)[j] == e;
  }

  lemma {:induction false} StruckByFirsts(es: seq<ExpiringKey>, n: nat, e: ExpiringKey)
    requires 2 * n <= |es| + 1 && e in multiset(Firsts(es, n))
    ensures StruckFirst(es, n, e.trie, e.key)
  {
    var j :| 0 <= j < n && Firsts(es, n)[j] == e;
    FirstsAt(es, n, j);
    assert Names(es[2 * j], e.trie, e.key);
  }

  lemma {:induction false} DeadlinesKept(b: Book, now: int)
    ensures Ds(AfterTick(b, now)) == Kept(Ds(b), Due(Ds(b), now))
  {
    DeadlinesOf(b, AfterTick(b, now), Ds(b), Due(Ds(b), now));
  }

  lemma {:induction false} DeadlinesOf(b: Book, b': Book, ds: seq<int>, m: nat)
    requires ds == Ds(b) && m <= |ds| && b'.times == b.times && b'.es == Kept(b.es, m)
    ensures Ds(b') == Kept(ds, m)
  {
    KeptAt(b.es, m);
    KeptAt(ds, m);
  }

  /** A tick only unbinds. */
  lemma {:induction false} TickBinds(b: Book, now: int, t: Trie, q: Key, item: DbItem)
    ensures BoundIn(AfterTick(b, now).h, t, q, item) <==>
            BoundIn(b.h, t, q, item) && (q == [] || !StruckFirst(b.es, (Due(Ds(b), now) + 1) / 2, t, q))
  {
    var n := (Due(Ds(b), now) + 1) / 2;
    DropAllKeys(b.h, b.es, n);
    if t in b.h {
      DropsStruck(b.h, t, b.es, n, q);
    }
  }

  lemma {:induction false} TickListed(b: Book, now: int, t: Trie, k: Key)
    requires t in b.h && k in b.h[t] && k != [] && ListedIf(b, t, k)
    requires var b' := AfterTick(b, now); t in b'.h && k in b'.h[t]
    ensures ListedIf(AfterTick(b, now), t, k)
  {
    var m, b' := Due(Ds(b), now), AfterTick(b, now);
    var e, n := EntryFor(b, t, k), (m + 1) / 2;
    TickBinds(b, now, t, k, b'.h[t][k]);
    KeptAndFirsts(b.es, m, n);
    if e in multiset(Firsts(b.es, n)) {
      StruckByFirsts(b.es, n, e);
    }
    assert e in multiset(b.es) ==> e in multiset(Kept(b.es, m));
  }

  lemma SameEntry(b: Book, e: ExpiringKey, f: ExpiringKey)
    requires Sound(b) && e in b.es && f in b.es && e.key != [] && Names(f, e.trie, e.key)
    ensures f == e
  {
    assert Rightful(b, e) && Rightful(b, f);
  }

  lemma {:induction false} TickEntry(b: Book, now: int, e: ExpiringKey)
    requires Sound(b) && e in AfterTick(b, now).es && e.key != []
    ensures Rightful(AfterTick(b, now), e)
  {
    var m := Due(Ds(b), now);
    var n := (m + 1) / 2;
    KeptAndFirsts(b.es, m, n);
    assert e in multiset(Kept(b.es, m));
    assert e in multiset(b.es);
    assert Rightful(b, e);
    TickBinds(b, now, e.trie, e.key, e.item);
    if StruckFirst(b.es, n, e.trie, e.key) {
      var f := FirstsStruck(b.es, n, e.trie, e.key);
      assert f in multiset(b.es);
      SameEntry(b, e, f);
    }
  }

  lemma {:induction false} TickOwn(b: Book, now: int)
    requires Own(b.h)
    ensures Own(AfterTick(b, now).h)
  {
    var h := AfterTick(b, now).h;
    forall t, k, u, l | t in h && k in h[t] && u in h && l in h[u] && h[t][k] == h[u][l]
      ensures t == u && k == l
    {
      TickBinds(b, now, t, k, h[t][k]);
      TickBinds(b, now, u, l, h[u][l]);
      assert b.h[t][k] == b.h[u][l];
    }
  }

  lemma {:induction false} KeptMember<T>(s: seq<T>, m: nat, x: T)
    requires m <= |s| && x in Kept(s, m)
    ensures x in s
  {
    KeptAt(s, m);
  }

  lemma {:induction false} TickComplete(b: Book, now: int)
    requires Complete(b)
    ensures Complete(AfterTick(b, now))
  {
    var b', m := AfterTick(b, now), Due(Ds(b), now);
    DropAllKeys(b.h, b.es, (m + 1) / 2);
    forall t, k | t in b'.h && k in b'.h[t]
      ensures b'.h[t][k] in b'.times
    {
      TickBinds(b, now, t, k, b'.h[t][k]);
    }
    forall e | e in b'.es
      ensures e.item in b'.times && e.trie in b'.h
    {
      KeptMember(b.es, m, e);
    }
  }

  lemma {:induction false} TickSound(b: Book, now: int)
    requires Sound(b)
    ensures Sound(AfterTick(b, now))
  {
    var b' := AfterTick(b, now);
    TickComplete(b, now);
    TickOwn(b, now);
    DeadlinesKept(b, now);
    KeptDue(Ds(b), now);
    forall e | e in b'.es && e.key != []
      ensures Rightful(b', e)
    {
      TickEntry(b, now, e);
    }
  }

  lemma {:induction false} TickFull(b: Book, now: int)
    requires Full(b)
    ensures Full(AfterTick(b, now))
  {
    var b' := AfterTick(b, now);
    forall t, k | t in b'.h && k in b'.h[t] && k != []
      ensures ListedIf(b', t, k)
    {
      TickBinds(b, now, t, k, b'.h[t][k]);
      assert ListedIf(b, t, k);
      TickListed(b, now, t, k);
    }
  }

  // ---------------------------------------------------------------- every command

  /** Every command keeps the list sound except, exactly, those that spoil it. */
  lemma {:induction false} NextSound(b: Book, cmd: Command, b': Book)
    requires Sound(b) && Next(b, cmd, b')
    ensures Sound(b') <==> !Spoils(b, cmd)
  {
    match cmd
    case Tick(now) => TickSound(b, now);
    case Ttl(_, _, _, _) =>
      if Finds(b, cmd) {
        TtlSound(b, cmd, b');
      }
    case Put(t, _, _, _, _) =>
      if t in b.h {
        PutSound(b, cmd, b');
      }
    case Del(_, _) => DelSound(b, cmd);
  }

  lemma {:induction false} NextFull(b: Book, cmd: Command, b': Book)
    requires Exact(b) && Next(b, cmd, b')
    ensures Full(b') <==> !PutTimed(b, cmd)
  {
    match cmd
    case Tick(now) => TickFull(b, now);
    case Ttl(_, _, _, _) =>
      if Finds(b, cmd) {
        TtlFull(b, cmd, b');
      }
    case Put(t, _, _, _, _) =>
      if t in b.h {
        PutFull(b, cmd, b');
      }
    case Del(_, _) => DelFull(b, cmd);
  }

  /** Every command keeps the list exact except, exactly, those that spoil it and a PUT with a ttl. */
  lemma {:induction false} NextExact(b: Book, cmd: Command, b': Book)
    requires Exact(b) && Next(b, cmd, b')
    ensures Exact(b') <==> !Spoils(b, cmd) && !PutTimed(b, cmd)
  {
    NextSound(b, cmd, b');
    NextFull(b, cmd, b');
  }

  ghost predicate About(cmd: Command, t: Trie, q: Key) {
    (cmd.Put? || cmd.Del?) && cmd.t == t && cmd.key == q
  }

  /** The tick comes after the deadline of an item with a ttl. */
  ghost predicate After(b: Book, cmd: Command, item: DbItem) {
    cmd.Tick? && TtlOf(b, item) >= 0 && Deadline(b, item) <= cmd.now
  }

  lemma {:induction false} TickNeverEarly(b: Book, now: int, t: Trie, q: Key, item: DbItem)
    requires Sound(b) && BoundIn(b.h, t, q, item) && !BoundIn(AfterTick(b, now).h, t, q, item)
    ensures q != [] && TtlOf(b, item) >= 0 && Deadline(b, item) <= now
  {
    var m := Due(Ds(b), now);
    TickBinds(b, now, t, q, item);
    var j :| 0 <= j < (m + 1) / 2 && Names(b.es[2 * j], t, q);
    assert Rightful(b, b.es[2 * j]);
    assert Ds(b)[2 * j] <= now;
  }

  /** With a sound list, a command takes a key's item away only if it is a PUT or DEL of that key, or a tick after its
      deadline; and only a PUT binds one. */
  lemma {:induction false} NeverEarly(b: Book, cmd: Command, b': Book, t: Trie, q: Key, item: DbItem)
    requires Sound(b) && Next(b, cmd, b')
    ensures BoundIn(b.h, t, q, item) && !BoundIn(b'.h, t, q, item) ==>
            About(cmd, t, q) || (q != [] && After(b, cmd, item))
    ensures BoundIn(b'.h, t, q, item) && !BoundIn(b.h, t, q, item) ==> cmd.Put? && About(cmd, t, q)
  {
    match cmd
    case Tick(now) =>
      TickBinds(b, now, t, q, item);
      if BoundIn(b.h, t, q, item) && !BoundIn(b'.h, t, q, item) {
        TickNeverEarly(b, now, t, q, item);
      }
    case Del(_, _) => DelBinds(b, cmd, t, q, item);
    case _ =>
  }

  // ---------------------------------------------------------------- runs

  ghost predicate Goes(bs: seq<Book>, cmds: seq<Command>, i: nat)
    requires |bs| == |cmds| + 1 && i < |cmds|
  {
    Next(bs[i], cmds[i], bs[i + 1])
  }

  /** A run of commands: what is recorded before each and after the last. */
  ghost predicate Trace(bs: seq<Book>, cmds: seq<Command>) {
    |bs| == |cmds| + 1 && forall i: nat {:trigger Goes(bs, cmds, i)} :: i < |cmds| ==> Goes(bs, cmds, i)
  }

  /** None of the first n commands spoils the list. */
  ghost predicate NoneSpoils(bs: seq<Book>, cmds: seq<Command>, n: nat)
    requires |bs| == |cmds| + 1 && n <= |cmds|
  {
    forall i :: 0 <= i < n ==> !Spoils(bs[i], cmds[i])
  }

  /** Nor is one of them a PUT with a ttl. */
  ghost predicate NonePutTimed(bs: seq<Book>, cmds: seq<Command>, n: nat)
    requires |bs| == |cmds| + 1 && n <= |cmds|
  {
    forall i :: 0 <= i < n ==> !PutTimed(bs[i], cmds[i])
  }

  /** In a run from a sound list, the list is sound after each of the first n commands exactly when none of these spoils
      it. */
  lemma {:induction false} RunSound(bs: seq<Book>, cmds: seq<Command>, n: nat)
    requires Trace(bs, cmds) && Sound(bs[0]) && n <= |cmds|
    ensures (forall i :: 0 <= i <= n ==> Sound(bs[i])) <==> NoneSpoils(bs, cmds, n)
  {
    if n > 0 {
      var i := n - 1;
      RunSound(bs, cmds, i);
      if NoneSpoils(bs, cmds, i) {
        assert Goes(bs, cmds, i);
        NextSound(bs[i], cmds[i], bs[n]);
      }
    }
  }

  ghost predicate ExactUpTo(bs: seq<Book>, n: nat)
    requires n < |bs|
  {
    forall i :: 0 <= i <= n ==> Exact(bs[i])
  }

  lemma ExactNext(bs: seq<Book>, i: nat, n: nat)
    requires n == i + 1 < |bs|
    ensures ExactUpTo(bs, n) <==> ExactUpTo(bs, i) && Exact(bs[n])
    ensures ExactUpTo(bs, i) ==> Exact(bs[i])
  {
  }

  lemma NoneNext(bs: seq<Book>, cmds: seq<Command>, i: nat, n: nat)
    requires |bs| == |cmds| + 1 && n == i + 1 <= |cmds|
    ensures NoneSpoils(bs, cmds, n) <==> NoneSpoils(bs, cmds, i) && !Spoils(bs[i], cmds[i])
    ensures NonePutTimed(bs, cmds, n) <==> NonePutTimed(bs, cmds, i) && !PutTimed(bs[i], cmds[i])
  {
  }

  /** In a run from an exact list, the list is exact after each of the first n commands exactly when none of these
      spoils it or is a PUT with a ttl. */
  lemma {:induction false} RunExact(bs: seq<Book>, cmds: seq<Command>, n: nat)
    requires Trace(bs, cmds) && Exact(bs[0]) && n <= |cmds|
    ensures ExactUpTo(bs, n) <==> NoneSpoils(bs, cmds, n) && NonePutTimed(bs, cmds, n)
  {
    if n > 0 {
      var i := n - 1;
      RunExact(bs, cmds, i);
      ExactNext(bs, i, n);
      NoneNext(bs, cmds, i, n);
      if ExactUpTo(bs, i) {
        assert Goes(bs, cmds, i);
        NextExact(bs[i], cmds[i], bs[n]);
      }
    }
  }

  /** Some tick among the first n commands came after the deadline of the item, or some PUT or DEL is about the key. */
  ghost predicate HadToGo(bs: seq<Book>, cmds: seq<Command>, n: nat, t: Trie, q: Key, item: DbItem)
    requires |bs| == |cmds| + 1 && n <= |cmds|
  {
    exists i :: 0 <= i < n && (About(cmds[i], t, q) || (q != [] && After(bs[i], cmds[i], item)))
  }

  ghost predicate PutAgain(cmds: seq<Command>, n: nat, t: Trie, q: Key)
    requires n <= |cmds|
  {
    exists i :: 0 <= i < n && cmds[i].Put? && About(cmds[i], t, q)
  }

  /** In a run from a sound list that no command spoils, a key's item goes only by a PUT or DEL of the key or by a tick
      after its deadline, and comes only by a PUT. */
  lemma {:induction false} RunNeverEarly(bs: seq<Book>, cmds: seq<Command>, n: nat, t: Trie, q: Key, item: DbItem)
    requires Trace(bs, cmds) && Sound(bs[0]) && n <= |cmds| && NoneSpoils(bs, cmds, n)
    ensures BoundIn(bs[0].h, t, q, item) && !BoundIn(bs[n].h, t, q, item) ==> HadToGo(bs, cmds, n, t, q, item)
    ensures BoundIn(bs[n].h, t, q, item) && !BoundIn(bs[0].h, t, q, item) ==> PutAgain(cmds, n, t, q)
  {
    if n > 0 {
      var i := n - 1;
      RunNeverEarly(bs, cmds, i, t, q, item);
      RunSound(bs, cmds, i);
      assert Goes(bs, cmds, i);
      NeverEarly(bs[i], cmds[i], bs[n], t, q, item);
    }
  }

  // ---------------------------------------------------------------- what enough ticks leave

  lemma {:induction false} ExpiredEntry(b: Book, now: int, t: Trie, q: Key, item: DbItem)
    requires Sound(b) && q != [] && BoundIn(b.h, t, q, item)
    ensures Expired(b.es, Ds(b), now, t, q) <==> HasEntry(b.es, t, q) && Deadline(b, item) <= now
    ensures HasEntry(b.es, t, q) ==> TtlOf(b, item) >= 0
  {
    forall j | 0 <= j < |b.es| && Names(b.es[j], t, q)
      ensures Ds(b)[j] == Deadline(b, item) && TtlOf(b, item) >= 0
    {
      assert Rightful(b, b.es[j]);
    }
  }

  /** With a sound list and fewer than 2^k expired entries, k ticks take away exactly the keys that have an entry and
      whose deadline has passed; so a key goes at its deadline exactly when it has an entry then. */
  lemma {:induction false} DrainedExactly(w: Start, b: Book, now: int, k: nat, t: Trie, q: Key, item: DbItem)
    requires Matched(w) && w.es == b.es && w.h == b.h && w.ds == Ds(b) && Sound(b)
    requires Due(w.ds, now) < Power2(k) && q != [] && BoundIn(b.h, t, q, item)
    ensures BoundIn(Later(w, now, k).h, t, q, item) <==> !(HasEntry(b.es, t, q) && Deadline(b, item) <= now)
    ensures var over := TtlOf(b, item) >= 0 && Deadline(b, item) <= now;
      (BoundIn(Later(w, now, k).h, t, q, item) <==> !over) <==> (over ==> HasEntry(b.es, t, q))
  {
    AllExpiredGone(w, now, k, t, q, item);
    ExpiredEntry(b, now, t, q, item);
  }

  /** With an exact list they leave bound exactly the keys without a ttl and those whose deadline is still to come. */
  lemma {:induction false} DrainedRight(w: Start, b: Book, now: int, k: nat, t: Trie, q: Key, item: DbItem)
    requires Matched(w) && w.es == b.es && w.h == b.h && w.ds == Ds(b) && Exact(b)
    requires Due(w.ds, now) < Power2(k) && q != []
    ensures BoundIn(Later(w, now, k).h, t, q, item) <==>
            BoundIn(b.h, t, q, item) && !(TtlOf(b, item) >= 0 && Deadline(b, item) <= now)
  {
    if BoundIn(b.h, t, q, item) {
      assert ListedIf(b, t, q);
      OwnEntry(b, t, q);
      DrainedExactly(w, b, now, k, t, q, item);
    } else {
      AllExpiredGone(w, now, k, t, q, item);
    }
  }

  /** A TTL command with a ttl from 0 to 32767 sets the deadline to that many seconds from now ... */
  lemma {:induction false} TtlDeadline(b: Book, cmd: Command, b': Book)
    requires cmd.Ttl? && Finds(b, cmd) && Next(b, cmd, b') && 0 <= cmd.ttl < 0x8000
    ensures Finds(b', cmd) && b'.h == b.h
    ensures var x := b.h[cmd.t][cmd.key]; TtlOf(b', x) == cmd.ttl && Deadline(b', x) == cmd.now + cmd.ttl
  {
    ShortIs(cmd.ttl, cmd.ttl);
  }

  /** ... and so does a PUT. */
  lemma {:induction false} PutDeadline(b: Book, cmd: Command, b': Book)
    requires cmd.Put? && cmd.t in b.h && Next(b, cmd, b') && 0 <= cmd.ttl < 0x8000
    ensures Finds(b', cmd)
    ensures var x := b'.h[cmd.t][cmd.key]; TtlOf(b', x) == cmd.ttl && Deadline(b', x) == cmd.now + cmd.ttl
  {
    ShortIs(cmd.ttl, cmd.ttl);
  }

  /** With an exact list, after a TTL command the ticks that come later leave the key bound exactly before the time of
      the command plus the ttl. */
  lemma {:induction false} LivesFor(b: Book, cmd: Command, b': Book, w: Start, later: int, k: nat)
    requires Exact(b) && cmd.Ttl? && Finds(b, cmd) && cmd.key != [] && Next(b, cmd, b') && 0 <= cmd.ttl < 0x8000
    requires Matched(w) && w.es == b'.es && w.h == b'.h && w.ds == Ds(b') && Due(w.ds, later) < Power2(k)
    ensures BoundIn(Later(w, later, k).h, cmd.t, cmd.key, b.h[cmd.t][cmd.key]) <==> later < cmd.now + cmd.ttl
  {
    TtlDeadline(b, cmd, b');
    ShortIs(cmd.ttl, cmd.ttl);
    NextExact(b, cmd, b');
    DrainedRight(w, b', later, k, cmd.t, cmd.key, b.h[cmd.t][cmd.key]);
  }

  // ---------------------------------------------------------------- what goes wrong

  /** The key is bound to an item with a ttl and has no entry. */
  ghost predicate Unlisted(b: Book, t: Trie, q: Key, item: DbItem) {
    BoundIn(b.h, t, q, item) && TtlOf(b, item) >= 0 && !HasEntry(b.es, t, q)
  }

  /** A PUT with a ttl of a key that has no entry. */
  lemma {:induction false} PutUnlisted(b: Book, cmd: Command, b': Book)
    requires Next(b, cmd, b') && PutTimed(b, cmd) && !HasEntry(b.es, cmd.t, cmd.key)
    ensures Unlisted(b', cmd.t, cmd.key, b'.h[cmd.t][cmd.key])
  {
  }

  /** Every item is recorded and one key's: whatever the commands, this stays so. */
  ghost predicate Regular(b: Book) {
    Complete(b) && Own(b.h)
  }

  lemma {:induction false} NextRegular(b: Book, cmd: Command, b': Book)
    requires Regular(b) && Next(b, cmd, b')
    ensures Regular(b')
  {
    match cmd
    case Tick(now) =>
      TickComplete(b, now);
      TickOwn(b, now);
    case Ttl(_, _, _, _) =>
      if Finds(b, cmd) {
        RenewedComplete(b, cmd, b');
      }
    case Put(t, _, _, _, _) =>
      if t in b.h {
        PutComplete(b, cmd, b');
        PutOwn(b, cmd, b');
      }
    case Del(_, _) => DelOwn(b, cmd);
  }

  /** The command is a PUT or DEL of the key, or gives it a negative ttl. */
  ghost predicate Frees(cmd: Command, t: Trie, q: Key) {
    About(cmd, t, q) || (cmd.Ttl? && cmd.t == t && cmd.key == q && Short(cmd.ttl) < 0)
  }

  lemma {:induction false} TickUnlisted(b: Book, now: int, t: Trie, q: Key, item: DbItem)
    requires Unlisted(b, t, q, item)
    ensures Unlisted(AfterTick(b, now), t, q, item)
  {
    var m, b' := Due(Ds(b), now), AfterTick(b, now);
    TickBinds(b, now, t, q, item);
    forall i | 0 <= i < |b'.es|
      ensures !Names(b'.es[i], t, q)
    {
      KeptMember(b.es, m, b'.es[i]);
      NoEntryOther(b.es, b'.es[i], t, q);
    }
  }

  lemma {:induction false} TtlUnlisted(b: Book, cmd: Command, b': Book, t: Trie, q: Key, item: DbItem)
    requires Regular(b) && cmd.Ttl? && Finds(b, cmd) && Renewed(b, cmd, b') && Unlisted(b, t, q, item)
    requires !Frees(cmd, t, q)
    ensures Unlisted(b', t, q, item)
  {
    var self := EntryFor(b, cmd.t, cmd.key);
    assert b.h[t][q] == b.h[cmd.t][cmd.key] ==> t == cmd.t && q == cmd.key;
    forall i | 0 <= i < |b'.es|
      ensures !Names(b'.es[i], t, q)
    {
      assert b'.es[i] in multiset(b'.es);
      if b'.es[i] in b.es {
        NoEntryOther(b.es, b'.es[i], t, q);
      } else {
        assert b'.es[i] !in multiset(b.es);
      }
    }
  }

  /** Such a key stays so under every other command: no tick takes it away and no TTL command gives it an entry. */
  lemma {:induction false} NextUnlisted(b: Book, cmd: Command, b': Book, t: Trie, q: Key, item: DbItem)
    requires Regular(b) && Next(b, cmd, b') && Unlisted(b, t, q, item) && !Frees(cmd, t, q)
    ensures Unlisted(b', t, q, item)
  {
    match cmd
    case Tick(now) => TickUnlisted(b, now, t, q, item);
    case Ttl(_, _, _, _) =>
      if Finds(b, cmd) {
        TtlUnlisted(b, cmd, b', t, q, item);
      }
    case Del(_, _) => DelBinds(b, cmd, t, q, item);
    case Put(_, _, _, _, _) =>
  }

  /** So a key put with a ttl is never taken away by the ticks of a run, however late they come. */
  lemma {:induction false} RunUnlisted(bs: seq<Book>, cmds: seq<Command>, n: nat, t: Trie, q: Key, item: DbItem)
    requires Trace(bs, cmds) && Regular(bs[0]) && n <= |cmds| && Unlisted(bs[0], t, q, item)
    requires forall i :: 0 <= i < n ==> !Frees(cmds[i], t, q)
    ensures Regular(bs[n]) && Unlisted(bs[n], t, q, item)
  {
    if n > 0 {
      var i := n - 1;
      RunUnlisted(bs, cmds, i, t, q, item);
      assert Goes(bs, cmds, i);
      NextRegular(bs[i], cmds[i], bs[n]);
      NextUnlisted(bs[i], cmds[i], bs[n], t, q, item);
    }
  }

  ghost function OneEntry(t: Trie, k: Key, x: DbItem): Book {
    Book([ExpiringKey(t, x, k)], map[t := map[k := x]], map[x := Times(5, 0)])
  }

  lemma {:induction false} OneEntryExact(t: Trie, k: Key, x: DbItem)
    ensures Exact(OneEntry(t, k, x))
  {
    var b := OneEntry(t, k, x);
    forall e | e in b.es && e.key != []
      ensures Rightful(b, e)
    {
      assert e == b.es[0];
    }
  }

  /** The key is put again, without a ttl. */
  ghost function PutOver(t: Trie, k: Key, x: DbItem, y: DbItem): Book {
    Book([ExpiringKey(t, x, k)], map[t := map[k := y]], map[x := Times(5, 0)][y := Times(-1, 1)])
  }

  lemma {:induction false} PutOverNext(t: Trie, k: Key, x: DbItem, y: DbItem, val: Key)
    requires k != [] && x != y
    ensures Next(OneEntry(t, k, x), Put(t, k, val, -1, 1), PutOver(t, k, x, y))
    ensures Spoils(OneEntry(t, k, x), Put(t, k, val, -1, 1))
  {
    var b := OneEntry(t, k, x);
    assert Names(b.es[0], t, k);
    assert b.h[t][k := y] == map[k := y];
    assert b.h[t := b.h[t][k := y]] == PutOver(t, k, x, y).h;
  }

  /** A command that spoils the list can make a tick come too early: after a key with an entry is put again, here
      without a ttl, a tick takes the new item away at the old deadline. */
  lemma {:induction false} PutGoesEarly(t: Trie, k: Key, x: DbItem, y: DbItem, val: Key)
    requires k != [] && x != y
    ensures Exact(OneEntry(t, k, x)) && Next(OneEntry(t, k, x), Put(t, k, val, -1, 1), PutOver(t, k, x, y))
    ensures Spoils(OneEntry(t, k, x), Put(t, k, val, -1, 1))
    ensures var b := PutOver(t, k, x, y);
      BoundIn(b.h, t, k, y) && TtlOf(b, y) < 0 && !BoundIn(AfterTick(b, 5).h, t, k, y)
  {
    OneEntryExact(t, k, x);
    PutOverNext(t, k, x, y, val);
    var b := PutOver(t, k, x, y);
    DueIs(Ds(b), 5, 1);
    assert Names(b.es[2 * 0], t, k);
    TickBinds(b, 5, t, k, y);
  }

  /** So can a DEL: the entry it leaves behind takes away what a later PUT binds. */
  lemma {:induction false} DelGoesEarly(t: Trie, k: Key, x: DbItem, y: DbItem, val: Key)
    requires k != [] && x != y
    ensures var b := AfterDel(OneEntry(t, k, x), Del(t, k));
      Spoils(OneEntry(t, k, x), Del(t, k)) && Next(b, Put(t, k, val, -1, 1), PutOver(t, k, x, y))
    ensures !BoundIn(AfterTick(PutOver(t, k, x, y), 5).h, t, k, y)
  {
    var b := AfterDel(OneEntry(t, k, x), Del(t, k));
    assert Names(b.es[0], t, k);
    assert b.h[t] == map[];
    assert b.h[t][k := y] == map[k := y];
    assert b.h[t := b.h[t][k := y]] == PutOver(t, k, x, y).h;
    PutGoesEarly(t, k, x, y, val);
  }
}
