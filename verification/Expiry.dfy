/** Keys with a time to live: the TTL command and the expiry tick (src/server.c). */
module Expiry {
  import opened Bytes
  import opened Items
  import opened Trie
  import V = Vector
  import Q = Quicksort

  // ---------------------------------------------------------------- what a tick does to a sequence

  /** The positions 1, 3, 5, ... below m, and everything from m on. */
  function Kept<T>(s: seq<T>, m: nat): (r: seq<T>)
    requires m <= |s|
    ensures |r| == |s| - (m + 1) / 2
  {
    Seconds(s, m / 2) + s[m..]
  }

  function Seconds<T>(s: seq<T>, n: nat): (r: seq<T>)
    requires 2 * n <= |s|
    ensures |r| == n
  {
    if n == 0 then [] else Seconds(s, n - 1) + [s[2 * n - 1]]
  }

  lemma {:induction false} SecondsAt<T>(s: seq<T>, n: nat)
    requires 2 * n <= |s|
    ensures forall i :: 0 <= i < n ==> Seconds(s, n)[i] == s[2 * i + 1]
  {
    if n > 0 {
      SecondsAt(s, n - 1);
    }
  }

  lemma {:induction false} KeptAt<T>(s: seq<T>, m: nat)
    requires m <= |s|
    ensures forall i :: 0 <= i < |Kept(s, m)| ==>
              Kept(s, m)[i] == if i < m / 2 then s[2 * i + 1] else s[i + (m + 1) / 2]
  {
    SecondsAt(s, m / 2);
  }

  ghost predicate InOrder(ds: seq<int>, i: nat, j: nat)
    requires i < j < |ds|
  {
    ds[i] <= ds[j]
  }

  ghost predicate Ascending(ds: seq<int>) {
    forall i: nat, j: nat {:trigger InOrder(ds, i, j)} :: i < j < |ds| ==> InOrder(ds, i, j)
  }

  /** How many leading deadlines have passed. */
  function Due(ds: seq<int>, now: int): (m: nat)
    ensures m <= |ds|
    ensures forall i :: 0 <= i < m ==> ds[i] <= now
    ensures m < |ds| ==> ds[m] > now
  {
    DueFrom(ds, now, 0)
  }

  function DueFrom(ds: seq<int>, now: int, i: nat): (m: nat)
    requires i <= |ds|
    ensures i <= m <= |ds|
    ensures forall j :: i <= j < m ==> ds[j] <= now
    ensures m < |ds| ==> ds[m] > now
    decreases |ds| - i
  {
    if i == |ds| || ds[i] > now then i else DueFrom(ds, now, i + 1)
  }

  lemma {:induction false} DueIs(ds: seq<int>, now: int, m: nat)
    requires m <= |ds| && (forall i :: 0 <= i < m ==> ds[i] <= now) && (m < |ds| ==> ds[m] > now)
    ensures Due(ds, now) == m
  {
  }

  /** In an ascending sequence the deadlines that have passed are exactly the leading ones. */
  lemma DueExactly(ds: seq<int>, now: int, i: nat)
    requires Ascending(ds) && i < |ds|
    ensures ds[i] <= now <==> i < Due(ds, now)
  {
    var m := Due(ds, now);
    if m < i {
      assert InOrder(ds, m, i);
    }
  }

  lemma KeptAscends(ds: seq<int>, m: nat)
    requires Ascending(ds) && m <= |ds|
    ensures Ascending(Kept(ds, m))
  {
    KeptAt(ds, m);
    forall i: nat, j: nat | i < j < |Kept(ds, m)|
      ensures InOrder(Kept(ds, m), i, j)
    {
      assert InOrder(ds, if i < m / 2 then 2 * i + 1 else i + (m + 1) / 2,
                     if j < m / 2 then 2 * j + 1 else j + (m + 1) / 2);
    }
  }

  lemma KeptHalves(ds: seq<int>, now: int)
    ensures Due(Kept(ds, Due(ds, now)), now) == Due(ds, now) / 2
  {
    var m := Due(ds, now);
    var r := Kept(ds, m);
    KeptAt(ds, m);
    assert m / 2 < |r| ==> r[m / 2] == ds[m];
    DueIs(r, now, m / 2);
  }

  /** A tick keeps the order and leaves half of the passed deadlines, rounded down. */
  lemma KeptDue(ds: seq<int>, now: int)
    requires Ascending(ds)
    ensures Ascending(Kept(ds, Due(ds, now)))
    ensures Due(Kept(ds, Due(ds, now)), now) == Due(ds, now) / 2
  {
    KeptAscends(ds, Due(ds, now));
    KeptHalves(ds, now);
  }

  /** The deadlines after k ticks at one time. */
  function AfterTicks(ds: seq<int>, now: int, k: nat): seq<int>
    decreases k
  {
    if k == 0 then ds else AfterTicks(Kept(ds, Due(ds, now)), now, k - 1)
  }

  function Power2(k: nat): (p: nat)
    ensures p >= 1
  {
    if k == 0 then 1 else 2 * Power2(k - 1)
  }

  lemma {:induction false} TickedAscends(ds: seq<int>, now: int, k: nat)
    requires Ascending(ds)
    ensures Ascending(AfterTicks(ds, now, k))
    decreases k
  {
    if k > 0 {
      KeptDue(ds, now);
      TickedAscends(Kept(ds, Due(ds, now)), now, k - 1);
    }
  }

  /** m passed deadlines are down to m / 2^k after k ticks ... */
  lemma {:induction false} TickedDue(ds: seq<int>, now: int, k: nat)
    ensures Due(AfterTicks(ds, now, k), now) == Due(ds, now) / Power2(k)
    decreases k
  {
    if k > 0 {
      var j, m := k - 1, Due(ds, now);
      KeptHalves(ds, now);
      TickedDue(Kept(ds, m), now, j);
      HalfDivides(m, Power2(j));
    }
  }

  /** ... so k ticks drain them exactly when m < 2^k. */
  lemma {:induction false} Drains(ds: seq<int>, now: int, k: nat)
    ensures Due(AfterTicks(ds, now, k), now) == 0 <==> Due(ds, now) < Power2(k)
  {
    TickedDue(ds, now, k);
    NoQuotient(Due(ds, now), Power2(k));
  }

  lemma NoQuotient(m: nat, p: nat)
    requires p >= 1
    ensures m / p == 0 <==> m < p
  {
  }

  lemma HalfDivides(m: nat, p: nat)
    requires p >= 1
    ensures m / 2 / p == m / (2 * p)
  {
    var q, r := m / 2 / p, m / 2 % p;
    assert m / 2 == q * p + r;
    var x := 2 * r + m % 2;
    assert m == q * (2 * p) + x && 0 <= x < 2 * p;
    Quotient(m, 2 * p, q, x);
  }

  lemma Quotient(m: nat, d: nat, q: nat, x: nat)
    requires m == q * d + x && x < d
    ensures m / d == q
  {
    var q', x' := m / d, m % d;
    assert m == q' * d + x';
    Steps(q', q, d);
    Steps(q, q', d);
  }

  lemma Steps(a: nat, b: nat, d: nat)
    ensures a < b ==> (a + 1) * d <= b * d
  {
    if a < b {
      assert (b - (a + 1)) * d >= 0;
    }
  }

  // ---------------------------------------------------------------- the entries and their tries

  /** struct expiring_key: which trie a key with a deadline lives in. */
  datatype ExpiringKey = ExpiringKey(trie: Trie, item: DbItem, key: Key)

  type Entry = Q.Cell<ExpiringKey>

  ghost function Deadlines(es: seq<ExpiringKey>): (ds: seq<int>)
    reads set i | 0 <= i < |es| :: es[i].item
    ensures |ds| == |es| && forall i :: 0 <= i < |ds| ==> ds[i] == es[i].item.ctime + es[i].item.ttl
  {
    seq(|es|, i requires 0 <= i < |es| reads set j | 0 <= j < |es| :: es[j].item =>
      es[i].item.ctime + es[i].item.ttl)
  }

  /** What each of some tries holds. */
  type Holdings = map<Trie, Bindings>

  ghost predicate Binds(t: Trie, m: Bindings)
    reads t, t.Repr
  {
    t.Valid() && t.Sized() && t.Contents() == m
  }

  /** The tries hold what h says and share no object; all they are made of is in fp. */
  ghost predicate Tries(h: Holdings, fp: set<object>)
    reads fp
  {
    && (forall t {:trigger Holds(t, h, fp)} :: t in h ==> Holds(t, h, fp))
    && forall t, u {:trigger Apart(t, u)} :: t in h && u in h && t in fp && u in fp ==> Apart(t, u)
  }

  ghost predicate Holds(t: Trie, h: Holdings, fp: set<object>)
    requires t in h
    reads fp
  {
    t in fp && t.Repr <= fp && Binds(t, h[t])
  }

  ghost predicate Apart(t: Trie, u: Trie)
    reads t, u
  {
    t != u ==> t.Repr !! u.Repr
  }

  /** The vector holds the cells, and neither it nor its array is one of the other objects. */
  ghost predicate Listed(v: V.Vector<Entry>, cells: seq<Entry>, others: set<object>)
    reads v, v.items
  {
    v.Valid() && v.Contents() == cells && v !in others && v.items !in others
  }

  /** What the tries hold once the key, unless it is empty, has been deleted from the trie u. */
  ghost function DropKey(h: Holdings, u: Trie, key: Key): Holdings {
    map t | t in h :: if t == u && key != [] then h[t] - {key} else h[t]
  }

  /** ... once the entry is gone. */
  ghost function DropEach(h: Holdings, e: ExpiringKey): Holdings {
    DropKey(h, e.trie, e.key)
  }

  datatype Held = Held(t: Trie, m: Bindings)

  /** A trie stays as it is while only others are changed. */
  twostate lemma Untouched(x: Held)
    requires old(Binds(x.t, x.m)) && unchanged(x.t, old(x.t.Repr))
    ensures Binds(x.t, x.m) && x.t.Repr == old(x.t.Repr)
  {
  }

  datatype Known = Known(h: Holdings, fp: set<object>)

  /** Changes outside the tries leave all of them as they are. */
  twostate lemma Elsewhere(w: Known)
    requires old(Tries(w.h, w.fp)) && unchanged(w.fp)
    ensures Tries(w.h, w.fp)
  {
    forall t | t in w.h
      ensures Holds(t, w.h, w.fp) && t.Repr == old(t.Repr)
    {
      assert old(Holds(t, w.h, w.fp));
      Untouched(Held(t, w.h[t]));
    }
    forall t, u | t in w.h && u in w.h && t in w.fp && u in w.fp
      ensures Apart(t, u)
    {
      assert old(Apart(t, u));
    }
  }

  /** trie_delete */
  method Unbind(u: Trie, key: Key, ghost h: Holdings, ghost fp: set<object>)
    requires Tries(h, fp) && u in h
    modifies u.Repr
    ensures Tries(DropKey(h, u, key), fp)
  {
    assert Holds(u, h, fp);
    var _ := u.Delete(key);
    forall t | t in h
      ensures Holds(t, DropKey(h, u, key), fp) && t.Repr == old(t.Repr)
    {
      assert old(Holds(t, h, fp)) && old(Apart(t, u));
      if t != u {
        Untouched(Held(t, h[t]));
      }
    }
    forall t, u | t in h && u in h && t in fp && u in fp
      ensures Apart(t, u)
    {
      assert old(Apart(t, u));
    }
  }

  datatype Row = Row(v: V.Vector<Entry>, cells: seq<Entry>, others: set<object>)

  twostate lemma StillListed(x: Row)
    requires old(Listed(x.v, x.cells, x.others)) && unchanged(x.v, old(x.v.items))
    ensures Listed(x.v, x.cells, x.others)
  {
  }

  lemma ReprInside(t: Trie, h: Holdings, fp: set<object>)
    requires Tries(h, fp) && t in h
    ensures t.Repr <= fp
  {
    assert Holds(t, h, fp);
  }

  method UnbindListed(e: ExpiringKey, ghost x: Row, ghost h: Holdings, ghost fp: set<object>)
    requires Tries(h, fp) && fp <= x.others && Listed(x.v, x.cells, x.others) && e.trie in h
    modifies e.trie.Repr
    ensures Tries(DropEach(h, e), fp) && Listed(x.v, x.cells, x.others)
    ensures x.v.items == old(x.v.items)
  {
    ReprInside(e.trie, h, fp);
    Unbind(e.trie, e.key, h, fp);
    StillListed(x);
  }

  method Unlist(v: V.Vector<Entry>, i: nat, ghost cells: seq<Entry>, ghost others: set<object>, ghost h: Holdings,
                ghost fp: set<object>)
    requires Tries(h, fp) && fp <= others && Listed(v, cells, others) && i < |cells|
    modifies v, v.items
    ensures Tries(h, fp) && Listed(v, cells[..i] + cells[i + 1..], others)
    ensures v.items == old(v.items) || fresh(v.items)
  {
    v.Delete(i);
    Elsewhere(Known(h, fp));
  }

  // ---------------------------------------------------------------- the tick

  function Min(a: nat, b: nat): nat {
    if a < b then a else b
  }

  lemma WithoutAt<T>(a: seq<T>, b: seq<T>, i: nat)
    requires i < |a| == |b| + 1 && forall j :: 0 <= j < |b| ==> b[j] == a[if j < i then j else j + 1]
    ensures a[..i] + a[i + 1..] == b
  {
  }

  /** Deleting at i what i deletions have left, with i moving on each time, takes the positions 0, 2, 4, ... */
  lemma KeptStep<T>(s: seq<T>, i: nat)
    requires 2 * i < |s|
    ensures Kept(s, 2 * i)[i] == s[2 * i]
    ensures Kept(s, 2 * i)[..i] + Kept(s, 2 * i)[i + 1..] == Kept(s, Min(2 * (i + 1), |s|))
  {
    var m := Min(2 * (i + 1), |s|);
    KeptAt(s, 2 * i);
    KeptAt(s, m);
    WithoutAt(Kept(s, 2 * i), Kept(s, m), i);
  }

  lemma KeptSame<T>(s: seq<T>, i: nat, m: nat)
    requires m <= |s| && (m == 2 * i || m + 1 == 2 * i)
    ensures Kept(s, Min(2 * i, |s|)) == Kept(s, m)
  {
    KeptAt(s, m);
    KeptAt(s, Min(2 * i, |s|));
  }

  /** How many of the positions 0, 2, 4, ... come before the first whose deadline has not passed. */
  function Rounds(ds: seq<int>, now: int, i: nat): (r: nat)
    ensures i <= r && (2 * i <= |ds| + 1 ==> 2 * r <= |ds| + 1)
    decreases |ds| - 2 * i
  {
    if 2 * i < |ds| && ds[2 * i] <= now then Rounds(ds, now, i + 1) else i
  }

  /** Only passed deadlines come before, and the next one has not passed. */
  lemma {:induction false} RoundsPassed(ds: seq<int>, now: int, i: nat)
    requires 2 * i <= |ds| + 1
    ensures var r := Rounds(ds, now, i);
      (forall j :: i <= j < r ==> ds[2 * j] <= now) && (2 * r < |ds| ==> ds[2 * r] > now)
    decreases |ds| - 2 * i
  {
    if 2 * i < |ds| && ds[2 * i] <= now {
      RoundsPassed(ds, now, i + 1);
    }
  }

  /** In an ascending sequence that is where the deadlines that have passed end. */
  lemma StopsAtDue(ds: seq<int>, now: int, i: nat)
    requires Ascending(ds) && 2 * i <= |ds| + 1
    requires i > 0 ==> ds[2 * (i - 1)] <= now
    requires 2 * i < |ds| ==> ds[2 * i] > now
    ensures Due(ds, now) == 2 * i || Due(ds, now) + 1 == 2 * i
  {
    if i > 0 {
      DueExactly(ds, now, 2 * (i - 1));
    }
    if 2 * i < |ds| {
      DueExactly(ds, now, 2 * i);
    }
  }

  /** What the tries hold after the entries at 0, 2, 4, ... have been dropped, k of them. */
  ghost function DropAll(h: Holdings, es: seq<ExpiringKey>, k: nat): Holdings
    requires 2 * k <= |es| + 1
  {
    if k == 0 then h else DropEach(DropAll(h, es, k - 1), es[2 * (k - 1)])
  }

  /** A key leaves a trie exactly when it is the non-empty key of a dropped entry of that trie. */
  lemma {:induction false} DroppedExactly(h: Holdings, t: Trie, es: seq<ExpiringKey>, k: nat, q: Key)
    requires 2 * k <= |es| + 1 && t in h
    ensures t in DropAll(h, es, k)
    ensures q in DropAll(h, es, k)[t] <==>
            q in h[t] && forall j :: 0 <= j < k && es[2 * j].trie == t && es[2 * j].key == q ==> q == []
    ensures q in DropAll(h, es, k)[t] ==> DropAll(h, es, k)[t][q] == h[t][q]
  {
    if k > 0 {
      DroppedExactly(h, t, es, k - 1, q);
    }
  }

  lemma DropAllKeys(h: Holdings, es: seq<ExpiringKey>, k: nat)
    requires 2 * k <= |es| + 1
    ensures DropAll(h, es, k).Keys == h.Keys
  {
  }

  /** What a tick starts from: the entries es in their cells, with their deadlines, what the tries hold and the objects
      they are made of; `keep` are the cells and the items. */
  datatype Start = Start(cells: seq<Entry>, es: seq<ExpiringKey>, ds: seq<int>, h: Holdings, fp: set<object>,
                         keep: set<object>)

  ghost predicate Matched(w: Start) {
    |w.cells| == |w.es| == |w.ds|
  }

  ghost predicate EntryAt(w: Start, j: nat)
    requires Matched(w) && j < |w.es|
    reads w.keep
  {
    && w.cells[j] in w.keep && w.es[j].item in w.keep && w.es[j].trie in w.h
    && w.cells[j].v == w.es[j] && w.es[j].item.ctime + w.es[j].item.ttl == w.ds[j]
  }

  /** The entries are as they were at the start. */
  ghost predicate Entries(w: Start)
    reads w.keep
  {
    Matched(w) && w.keep !! w.fp && forall j: nat {:trigger EntryAt(w, j)} :: j < |w.es| ==> EntryAt(w, j)
  }

  twostate lemma SameEntries(w: Start)
    requires old(Entries(w)) && unchanged(w.keep)
    ensures Entries(w)
  {
    forall j: nat | j < |w.es|
      ensures EntryAt(w, j)
    {
      assert old(EntryAt(w, j));
    }
  }

  /** The vector and the tries after i rounds. */
  ghost predicate Standing(v: V.Vector<Entry>, w: Start, i: nat)
    reads v, v.items, w.fp
  {
    && Matched(w) && 2 * i <= |w.cells| + 1
    && Listed(v, Kept(w.cells, Min(2 * i, |w.cells|)), w.fp + w.keep) && Tries(DropAll(w.h, w.es, i), w.fp)
  }

  /** The entry the loop has come to. */
  lemma Reached(v: V.Vector<Entry>, i: nat, w: Start)
    requires Entries(w) && Standing(v, w, i) && i < v.size
    ensures 2 * i < |w.cells| && v.Get(i) == w.cells[2 * i] && EntryAt(w, 2 * i)
  {
    KeptStep(w.cells, i);
    assert EntryAt(w, 2 * i);
  }

  /** The key of the entry leaves its trie and the entry, at i, the list. */
  method Remove(v: V.Vector<Entry>, i: nat, e: ExpiringKey, ghost cells: seq<Entry>, ghost others: set<object>,
                ghost h: Holdings, ghost fp: set<object>)
    requires Tries(h, fp) && fp <= others && Listed(v, cells, others) && i < |cells| && e.trie in h
    modifies v, v.items, e.trie.Repr
    ensures Tries(DropEach(h, e), fp) && Listed(v, cells[..i] + cells[i + 1..], others)
    ensures v.items == old(v.items) || fresh(v.items)
  {
    UnbindListed(e, Row(v, cells, others), h, fp);
    Unlist(v, i, cells, others, DropEach(h, e), fp);
  }

  /** The body of the loop of expire_keys. */
  method Act(v: V.Vector<Entry>, i: nat, e: ExpiringKey, ghost next: nat, ghost w: Start)
    requires Entries(w) && 2 * i < |w.cells| && Standing(v, w, i) && e == w.es[2 * i] && e.trie.Repr <= w.fp
    requires next == i + 1
    modifies v, v.items, e.trie.Repr
    ensures Standing(v, w, next) && (v.items == old(v.items) || fresh(v.items))
  {
    DropAllKeys(w.h, w.es, i);
    KeptStep(w.cells, i);
    assert EntryAt(w, 2 * i);
    ghost var h, cells := DropAll(w.h, w.es, i), Kept(w.cells, 2 * i);
    Remove(v, i, e, cells, w.fp + w.keep, h, w.fp);
    RoundDone(v, w, i, next, cells, h);
  }

  method Round(v: V.Vector<Entry>, i: nat, ghost next: nat, e: ExpiringKey, ghost w: Start)
    requires next == i + 1 && Entries(w) && 2 * i < |w.cells| && Standing(v, w, i) && e == w.es[2 * i]
    modifies v, v.items, w.fp
    ensures Entries(w) && Standing(v, w, next) && (v.items == old(v.items) || fresh(v.items))
  {
    assert EntryAt(w, 2 * i);
    DropAllKeys(w.h, w.es, i);
    ReprInside(e.trie, DropAll(w.h, w.es, i), w.fp);
    Act(v, i, e, next, w);
    SameEntries(w);
  }

  lemma RoundDone(v: V.Vector<Entry>, w: Start, i: nat, next: nat, cells: seq<Entry>, h: Holdings)
    requires Matched(w) && 2 * i < |w.cells| && cells == Kept(w.cells, 2 * i) && h == DropAll(w.h, w.es, i)
    requires Listed(v, cells[..i] + cells[i + 1..], w.fp + w.keep) && h.Keys == w.h.Keys
    requires Tries(DropEach(h, w.es[2 * i]), w.fp) && next == i + 1
    ensures Standing(v, w, next)
  {
    KeptStep(w.cells, i);
    DropAllKeys(w.h, w.es, i + 1);
    var after := Kept(w.cells, Min(2 * (i + 1), |w.cells|));
    assert cells[..i] + cells[i + 1..] == after;
    assert Listed(v, after, w.fp + w.keep);
  }

  /** Of the first m entries those at 0, 2, 4, ... have left the list, and their keys have left the tries. */
  ghost predicate Ticked(v: V.Vector<Entry>, w: Start, m: nat)
    reads v, v.items, w.fp
  {
    && Matched(w) && m <= |w.cells|
    && Listed(v, Kept(w.cells, m), w.fp + w.keep) && Tries(DropAll(w.h, w.es, (m + 1) / 2), w.fp)
  }

  /** With the entries in the order of their deadlines, a tick reaches all whose deadline has passed. */
  lemma Ends(v: V.Vector<Entry>, w: Start, now: int)
    requires Ascending(w.ds) && Standing(v, w, Rounds(w.ds, now, 0))
    ensures Ticked(v, w, Due(w.ds, now))
  {
    var m, i := Due(w.ds, now), Rounds(w.ds, now, 0);
    RoundsPassed(w.ds, now, 0);
    StopsAtDue(w.ds, now, i);
    KeptSame(w.cells, i, m);
    assert (m + 1) / 2 == i;
  }

  /** One turn of the loop of expire_keys: an entry whose deadline has not passed ends it. */
  method Turn(v: V.Vector<Entry>, now: int, i: nat, ghost w: Start) returns (stop: bool, next: nat)
    requires Entries(w) && Standing(v, w, i) && i < v.size
    modifies v, v.items, w.fp
    ensures Entries(w) && (v.items == old(v.items) || fresh(v.items)) && 2 * i < |w.cells|
    ensures stop <==> w.ds[2 * i] > now
    ensures next == (if stop then i else i + 1) && Standing(v, w, next)
    ensures Rounds(w.ds, now, i) == if stop then i else Rounds(w.ds, now, next)
  {
    Reached(v, i, w);
    var e := v.Get(i).v;
    stop, next := e.item.ctime + e.item.ttl - now > 0, i;
    if !stop {
      next := i + 1;
      Round(v, i, next, e, w);
    }
  }

  lemma RoundsDone(v: V.Vector<Entry>, now: int, i: nat, w: Start, stop: bool)
    requires stop || v.size <= i
    requires stop ==> Rounds(w.ds, now, i) == i
    requires Rounds(w.ds, now, 0) == Rounds(w.ds, now, i)
    ensures Standing(v, w, i) ==> Standing(v, w, Rounds(w.ds, now, 0))
  {
  }

  /** expire_keys at the time `now`: the entries at 0, 2, 4, ... up to the first of these whose deadline has not passed
      leave the list and their keys leave the tries; nothing else changes. */
  method ExpireKeys(v: V.Vector<Entry>, now: int, ghost w: Start)
    requires Entries(w) && Standing(v, w, 0)
    modifies v, v.items, w.fp
    ensures Entries(w) && (v.items == old(v.items) || fresh(v.items))
    ensures Standing(v, w, Rounds(w.ds, now, 0))
  {
    var i: nat, stop := 0, false;
    while i < v.size && !stop
      invariant Rounds(w.ds, now, 0) == Rounds(w.ds, now, i) && (stop ==> Rounds(w.ds, now, i) == i)
      invariant Entries(w) && Standing(v, w, i) && (v.items == old(v.items) || fresh(v.items))
      decreases |w.cells| - 2 * i, !stop
    {
      stop, i := Turn(v, now, i, w);
    }
    RoundsDone(v, now, i, w, stop);
  }

  /** What the next tick starts from. */
  ghost function Restart(w: Start, m: nat): Start
    requires Matched(w) && m <= |w.cells|
  {
    Start(Kept(w.cells, m), Kept(w.es, m), Kept(w.ds, m), DropAll(w.h, w.es, (m + 1) / 2), w.fp, w.keep)
  }

  lemma KeptEntries(w: Start, m: nat)
    requires Entries(w) && m <= |w.cells|
    ensures Entries(Restart(w, m))
  {
    DropAllKeys(w.h, w.es, (m + 1) / 2);
    forall j: nat | j < |Kept(w.es, m)|
      ensures EntryAt(Restart(w, m), j)
    {
      KeptEntry(w, m, j);
    }
  }

  lemma KeptEntry(w: Start, m: nat, j: nat)
    requires Entries(w) && m <= |w.cells| && j < |Kept(w.es, m)|
    requires DropAll(w.h, w.es, (m + 1) / 2).Keys == w.h.Keys
    ensures EntryAt(Restart(w, m), j)
  {
    KeptAt(w.cells, m);
    KeptAt(w.es, m);
    KeptAt(w.ds, m);
    assert EntryAt(w, if j < m / 2 then 2 * j + 1 else j + (m + 1) / 2);
  }

  lemma KeptAll<T>(s: seq<T>)
    ensures Kept(s, 0) == s
  {
  }

  lemma Restarts(v: V.Vector<Entry>, w: Start, m: nat)
    requires Ticked(v, w, m)
    ensures Standing(v, Restart(w, m), 0)
  {
    DropAllKeys(w.h, w.es, (m + 1) / 2);
    KeptAll(Kept(w.cells, m));
  }

  /** Where k ticks at one time lead. */
  ghost function Later(w: Start, now: int, k: nat): (w': Start)
    requires Matched(w)
    ensures Matched(w') && w'.fp == w.fp && w'.keep == w.keep
    decreases k
  {
    if k == 0 then w else Later(Restart(w, Due(w.ds, now)), now, k - 1)
  }

  lemma {:induction false} LaterDeadlines(w: Start, now: int, k: nat)
    requires Matched(w)
    ensures Later(w, now, k).ds == AfterTicks(w.ds, now, k)
    decreases k
  {
    if k > 0 {
      LaterDeadlines(Restart(w, Due(w.ds, now)), now, k - 1);
    }
  }

  /** The expired entry at j is removed by one of k ticks: by the first if j is even, otherwise it moves to j / 2. */
  ghost predicate Removed(j: nat, k: nat) {
    k > 0 && (j % 2 == 0 || Removed(j / 2, k - 1))
  }

  /** So the entries that k ticks leave are at the multiples of 2^k, counted from 1. */
  lemma {:induction false} RemovedExactly(j: nat, k: nat)
    ensures Removed(j, k) <==> (j + 1) % Power2(k) != 0
    decreases k
  {
    if k > 0 {
      RemovedExactly(j / 2, k - 1);
      HalfMod(j, j / 2, Power2(k - 1), Power2(k));
    }
  }

  /** Counted from 1, an odd position is no multiple of 2 p, and an even one is when half of it is one of p. */
  lemma HalfMod(j: nat, half: nat, p: nat, p2: nat)
    requires half == j / 2 && p >= 1 && p2 == 2 * p
    ensures (j + 1) % p2 == 0 <==> j % 2 == 1 && (half + 1) % p == 0
  {
    var n, n2 := half + 1, j + 1;
    if j % 2 == 1 {
      assert n2 == 2 * n;
      DoubleMod(n, n2, p, p2);
    } else {
      OddMod(n2, p, p2);
    }
  }

  lemma OddMod(n: nat, p: nat, p2: nat)
    requires n % 2 == 1 && p >= 1 && p2 == 2 * p
    ensures n % p2 != 0
  {
    var q := n / p2;
    assert n == q * p2 + n % p2;
    assert q * p2 == 2 * (q * p);
  }

  lemma DoubleMod(n: nat, n2: nat, p: nat, p2: nat)
    requires p >= 1 && p2 == 2 * p && n2 == 2 * n
    ensures n2 % p2 == 2 * (n % p)
  {
    var q, x := n / p, n % p;
    assert n2 == q * p2 + 2 * x;
    Quotient(n2, p2, q, 2 * x);
  }

  /** The entry at j stands for the key q of the trie t. */
  ghost predicate Names(e: ExpiringKey, t: Trie, q: Key) {
    e.trie == t && e.key == q
  }

  /** One of the first m entries that k ticks remove stands for the key q of the trie t. */
  ghost predicate Struck(es: seq<ExpiringKey>, m: nat, k: nat, t: Trie, q: Key)
    requires m <= |es|
  {
    exists j :: 0 <= j < m && Names(es[j], t, q) && Removed(j, k)
  }

  /** One of the entries at 0, 2, 4, ..., n of them, does. */
  ghost predicate StruckFirst(es: seq<ExpiringKey>, n: nat, t: Trie, q: Key)
    requires 2 * n <= |es| + 1
  {
    exists j :: 0 <= j < n && Names(es[2 * j], t, q)
  }

  lemma {:induction false} DropsStruck(h: Holdings, t: Trie, es: seq<ExpiringKey>, n: nat, q: Key)
    requires 2 * n <= |es| + 1 && t in h
    ensures t in DropAll(h, es, n)
    ensures q in DropAll(h, es, n)[t] <==> q in h[t] && (q == [] || !StruckFirst(es, n, t, q))
    ensures q in DropAll(h, es, n)[t] ==> DropAll(h, es, n)[t][q] == h[t][q]
  {
    DroppedExactly(h, t, es, n, q);
    if q in h[t] && q != [] && q !in DropAll(h, es, n)[t] {
      var j :| 0 <= j < n && es[2 * j].trie == t && es[2 * j].key == q;
      assert Names(es[2 * j], t, q);
    }
  }

  ghost predicate BoundIn(h: Holdings, t: Trie, q: Key, item: DbItem) {
    t in h && q in h[t] && h[t][q] == item
  }

  /** The key q of the trie t is bound, and if it is not empty, no expired entry that k ticks remove stands for it. */
  ghost predicate Stays(w: Start, now: int, k: nat, t: Trie, q: Key, item: DbItem) {
    Matched(w) && BoundIn(w.h, t, q, item) && (q == [] || !Struck(w.es, Due(w.ds, now), k, t, q))
  }

  lemma {:induction false} OneTick(w: Start, now: int, k: nat, t: Trie, q: Key, item: DbItem)
    requires Matched(w) && t in w.h && k > 0
    ensures Stays(w, now, k, t, q, item) <==> Stays(Restart(w, Due(w.ds, now)), now, k - 1, t, q, item)
  {
    var m := Due(w.ds, now);
    DropsStruck(w.h, t, w.es, (m + 1) / 2, q);
    KeptHalves(w.ds, now);
    HalvesCover(w.es, m, k, t, q);
  }

  ghost function Repeat<T>(f: T -> T, x: T, k: nat): T {
    if k == 0 then x else Repeat(f, f(x), k - 1)
  }

  ghost predicate Carries<T>(f: T -> T, p: (T, nat) -> bool, x: T, k: nat) {
    k > 0 ==> (p(x, k) <==> p(f(x), k - 1))
  }

  /** What holds with k repetitions to go exactly when it holds after the next with k - 1 to go. */
  lemma {:induction false} Carried<T>(f: T -> T, p: (T, nat) -> bool, x: T, k: nat)
    requires forall y, j: nat :: Carries(f, p, y, j)
    ensures p(x, k) <==> p(Repeat(f, x, k), 0)
  {
    if k > 0 {
      assert Carries(f, p, x, k);
      Carried(f, p, f(x), k - 1);
    }
  }

  ghost function OnTick(now: int): Start -> Start {
    (w: Start) => if Matched(w) then Restart(w, Due(w.ds, now)) else w
  }

  lemma {:induction false} LaterNext(w: Start, w1: Start, now: int, k: nat, j: nat)
    requires Matched(w) && k == j + 1 && w1 == Restart(w, Due(w.ds, now))
    ensures Later(w, now, k) == Later(w1, now, j) && Repeat(OnTick(now), w, k) == Repeat(OnTick(now), w1, j)
  {
  }

  lemma {:induction false} LaterRepeats(w: Start, now: int, k: nat)
    requires Matched(w)
    ensures Later(w, now, k) == Repeat(OnTick(now), w, k)
    decreases k
  {
    if k > 0 {
      var j, w1 := k - 1, Restart(w, Due(w.ds, now));
      LaterRepeats(w1, now, j);
      LaterNext(w, w1, now, k, j);
    }
  }

  lemma {:induction false} StayingCarries(w: Start, now: int, k: nat, t: Trie, q: Key, item: DbItem)
    requires k > 0
    ensures Stays(w, now, k, t, q, item) <==> Stays(OnTick(now)(w), now, k - 1, t, q, item)
  {
    if Matched(w) {
      DropAllKeys(w.h, w.es, (Due(w.ds, now) + 1) / 2);
      if t in w.h {
        OneTick(w, now, k, t, q, item);
      }
    }
  }

  /** k ticks at one time unbind exactly the non-empty keys of the expired entries they remove, which are those whose
      position, counted from 1, is not a multiple of 2^k. */
  lemma {:induction false} LaterBinds(w: Start, now: int, k: nat, t: Trie, q: Key, item: DbItem)
    requires Matched(w)
    ensures BoundIn(Later(w, now, k).h, t, q, item) <==>
            BoundIn(w.h, t, q, item) && (q == [] || !Struck(w.es, Due(w.ds, now), k, t, q))
  {
    LaterRepeats(w, now, k);
    var p := (y: Start, j: nat) => Stays(y, now, j, t, q, item);
    forall y: Start, j: nat
      ensures Carries(OnTick(now), p, y, j)
    {
      if j > 0 {
        StayingCarries(y, now, j, t, q, item);
      }
    }
    Carried(OnTick(now), p, w, k);
  }

  /** What the first tick removes and what the others remove together. */
  lemma HalvesCover(es: seq<ExpiringKey>, m: nat, k: nat, t: Trie, q: Key)
    requires m <= |es| && k > 0
    ensures Struck(es, m, k, t, q) <==>
            StruckFirst(es, (m + 1) / 2, t, q) || Struck(Kept(es, m), m / 2, k - 1, t, q)
  {
    KeptAt(es, m);
    if j :| 0 <= j < m && Names(es[j], t, q) && Removed(j, k) {
      if j % 2 == 0 {
        assert Names(es[2 * (j / 2)], t, q);
      } else {
        assert Names(Kept(es, m)[j / 2], t, q);
      }
    }
    if j :| 0 <= j < (m + 1) / 2 && Names(es[2 * j], t, q) {
      assert Removed(2 * j, k);
    }
    if j :| 0 <= j < m / 2 && Names(Kept(es, m)[j], t, q) && Removed(j, k - 1) {
      assert Names(es[2 * j + 1], t, q) && Removed(2 * j + 1, k);
    }
  }

  lemma SmallMod(n: nat, p: nat)
    requires n < p
    ensures n % p == n
  {
  }

  lemma {:induction false} SmallRemoved(j: nat, k: nat)
    requires j + 1 < Power2(k)
    ensures Removed(j, k)
  {
    RemovedExactly(j, k);
    SmallMod(j + 1, Power2(k));
  }

  /** An entry whose deadline has passed stands for the key q of the trie t. */
  ghost predicate Expired(es: seq<ExpiringKey>, ds: seq<int>, now: int, t: Trie, q: Key)
    requires |es| == |ds|
  {
    exists j :: 0 <= j < |es| && ds[j] <= now && Names(es[j], t, q)
  }

  lemma {:induction false} ExpiredStruck(es: seq<ExpiringKey>, ds: seq<int>, now: int, k: nat, t: Trie, q: Key)
    requires |es| == |ds| && Ascending(ds) && Due(ds, now) < Power2(k)
    ensures Struck(es, Due(ds, now), k, t, q) <==> Expired(es, ds, now, t, q)
  {
    if j :| 0 <= j < |es| && ds[j] <= now && Names(es[j], t, q) {
      DueExactly(ds, now, j);
      SmallRemoved(j, k);
    }
  }

  /** With fewer than 2^k expired entries, k ticks unbind exactly the non-empty keys of all of them. */
  lemma {:induction false} AllExpiredGone(w: Start, now: int, k: nat, t: Trie, q: Key, item: DbItem)
    requires Matched(w) && Ascending(w.ds) && Due(w.ds, now) < Power2(k)
    ensures BoundIn(Later(w, now, k).h, t, q, item) <==>
            BoundIn(w.h, t, q, item) && (q == [] || !Expired(w.es, w.ds, now, t, q))
  {
    LaterBinds(w, now, k, t, q, item);
    ExpiredStruck(w.es, w.ds, now, k, t, q);
  }

  /** Between ticks: the list and the tries are as w says, in the order of the deadlines. */
  ghost predicate Rests(v: V.Vector<Entry>, w: Start)
    reads v, v.items, w.fp, w.keep
  {
    Entries(w) && Standing(v, w, 0) && Ascending(w.ds)
  }

  ghost function Ticking(w: Start, now: int): Start
    requires Matched(w)
  {
    Restart(w, Due(w.ds, now))
  }

  lemma {:induction false} Advances(v: V.Vector<Entry>, now: int, w: Start)
    requires Entries(w) && Ascending(w.ds) && Standing(v, w, Rounds(w.ds, now, 0))
    ensures Rests(v, Ticking(w, now))
  {
    var m := Due(w.ds, now);
    Ends(v, w, now);
    Restarts(v, w, m);
    KeptEntries(w, m);
    KeptDue(w.ds, now);
  }

  lemma {:induction false} Leads(v: V.Vector<Entry>, w: Start, w1: Start, now: int, k: nat, j: nat)
    requires Matched(w) && k == j + 1 && w1 == Ticking(w, now)
    ensures Rests(v, Later(w1, now, j)) ==> Rests(v, Later(w, now, k))
  {
  }

  lemma {:induction false} LaterDrains(w: Start, now: int, k: nat)
    requires Matched(w)
    ensures Due(Later(w, now, k).ds, now) == 0 <==> Due(w.ds, now) < Power2(k)
  {
    LaterDeadlines(w, now, k);
    Drains(w.ds, now, k);
  }

  /** A tick on a list in the order of the deadlines. */
  method TickSorted(v: V.Vector<Entry>, now: int, ghost w: Start)
    requires Rests(v, w)
    modifies v, v.items, w.fp
    ensures Rests(v, Ticking(w, now)) && (v.items == old(v.items) || fresh(v.items))
  {
    ExpireKeys(v, now, w);
    Advances(v, now, w);
  }

  /** k ticks at one time, on the list and the tries.  The deadlines that have passed are halved by each tick, so they
      are gone exactly when there were fewer than 2^k. */
  method Ticks(v: V.Vector<Entry>, now: int, k: nat, ghost w: Start)
    requires Rests(v, w)
    modifies v, v.items, w.fp
    ensures v.items == old(v.items) || fresh(v.items)
    ensures Rests(v, Later(w, now, k))
    ensures Due(Later(w, now, k).ds, now) == 0 <==> Due(w.ds, now) < Power2(k)
    decreases k
  {
    LaterDrains(w, now, k);
    if k > 0 {
      var j := k - 1;
      ghost var w1 := Ticking(w, now);
      TickSorted(v, now, w);
      Ticks(v, now, j, w1);
      Leads(v, w, w1, now, k, j);
    }
  }

  // ---------------------------------------------------------------- the TTL command

  /** An item's ttl is a `short`. */
  function Short(n: int): int {
    (n + 0x8000) % 0x1_0000 - 0x8000
  }

  /** Storing a number in a short gives the one 16-bit number that is the same modulo 2^16: the number itself if it is
      one. */
  lemma ShortIs(n: int, w: int)
    ensures Short(n) == w <==> -0x8000 <= w < 0x8000 && (w - n) % 0x1_0000 == 0
    ensures -0x8000 <= n < 0x8000 ==> Short(n) == n
  {
  }

  type Clock = map<DbItem, int>

  /** compare_ttl: the time left is compared, which the current time does not change the order of. */
  function Earlier(d: Clock): (ExpiringKey, ExpiringKey) -> bool {
    (a: ExpiringKey, b: ExpiringKey) => a.item in d && b.item in d ==> d[a.item] <= d[b.item]
  }

  lemma EarlierOrders(d: Clock, s: multiset<ExpiringKey>)
    requires forall e <- s :: e.item in d
    ensures Q.Orders(Earlier(d), s)
  {
  }

  /** The clock shows the deadlines of the entries. */
  ghost predicate Shows(d: Clock, es: seq<ExpiringKey>)
    reads set i | 0 <= i < |es| :: es[i].item
  {
    forall i :: 0 <= i < |es| ==> es[i].item in d && d[es[i].item] == es[i].item.ctime + es[i].item.ttl
  }

  method ReadClock(v: V.Vector<Entry>) returns (d: Clock)
    requires v.Valid()
    ensures Shows(d, Q.Vals(v.Contents()))
  {
    d := map[];
    ghost var es := Q.Vals(v.Contents());
    var i := 0;
    while i < v.size
      invariant 0 <= i <= v.size && Shows(d, es[..i])
    {
      var item := v.Get(i).v.item;
      assert item == es[i].item;
      d := d[item := item.ctime + item.ttl];
      i := i + 1;
    }
    assert es[..i] == es;
  }

  lemma ClockOrders(d: Clock, es: seq<ExpiringKey>)
    requires Shows(d, es)
    ensures Q.Orders(Earlier(d), multiset(es))
  {
    forall e: ExpiringKey | e in multiset(es)
      ensures e.item in d
    {
      var i :| 0 <= i < |es| && es[i] == e;
    }
    EarlierOrders(d, multiset(es));
  }

  /** Rearranging the entries by a clock that shows their deadlines puts the deadlines in order. */
  lemma SortedAscends(d: Clock, es: seq<ExpiringKey>, fs: seq<ExpiringKey>)
    requires Shows(d, es) && multiset(fs) == multiset(es) && Q.Sorted(Earlier(d), fs, 0, |fs|)
    ensures Ascending(Deadlines(fs))
  {
    forall i | 0 <= i < |fs|
      ensures fs[i].item in d && d[fs[i].item] == Deadlines(fs)[i]
    {
      assert fs[i] in multiset(es);
    }
    forall i: nat, j: nat | i < j < |fs|
      ensures InOrder(Deadlines(fs), i, j)
    {
    }
  }

  /** vector_qsort with compare_ttl. */
  method SortByDeadline(v: V.Vector<Entry>)
    requires v.Valid() && Q.Distinct(v.Contents())
    modifies v.Contents()
    ensures v.Valid() && v.Contents() == old(v.Contents())
    ensures multiset(Q.Vals(v.Contents())) == old(multiset(Q.Vals(v.Contents())))
    ensures Ascending(Deadlines(Q.Vals(v.Contents())))
  {
    var d := ReadClock(v);
    ghost var es := Q.Vals(v.Contents());
    ClockOrders(d, es);
    Q.SortVector(v, Earlier(d));
    SortedAscends(d, es, Q.Vals(v.Contents()));
  }

  ghost function Entered(s: multiset<ExpiringKey>, e: ExpiringKey, enters: bool): multiset<ExpiringKey> {
    if enters then s + multiset{e} else s
  }

  /** The cells of the list after an entry has been appended, if one was. */
  ghost predicate Extends(cells: seq<Entry>, after: seq<Entry>, enters: bool) {
    |after| == |cells| + (if enters then 1 else 0) && forall i :: 0 <= i < |cells| ==> after[i] == cells[i]
  }

  lemma PushedVals(a: seq<ExpiringKey>, b: seq<ExpiringKey>, e: ExpiringKey)
    requires |b| == |a| + 1 && (forall i :: 0 <= i < |a| ==> b[i] == a[i]) && b[|a|] == e
    ensures multiset(b) == Entered(multiset(a), e, true)
  {
    assert b == a + [e];
  }

  lemma AppendedDistinct(cells: seq<Entry>, c: Entry)
    requires Q.Distinct(cells) && c !in cells
    ensures Q.Distinct(cells + [c])
  {
    var after := cells + [c];
    forall i: nat, j: nat | i < |after| && j < |after| && i != j
      ensures Q.Differ(after, i, j)
    {
      assert i < |cells| && j < |cells| ==> Q.Differ(cells, i, j);
    }
  }

  /** vector_append of a new cell for the entry. */
  method Push(v: V.Vector<Entry>, e: ExpiringKey)
    requires v.Valid() && Q.Distinct(v.Contents())
    modifies v, v.items
    ensures v.Valid() && Q.Distinct(v.Contents()) && (v.items == old(v.items) || fresh(v.items))
    ensures Extends(old(v.Contents()), v.Contents(), true)
    ensures forall i :: old(v.size) <= i < v.size ==> fresh(v.Contents()[i])
    ensures multiset(Q.Vals(v.Contents())) == Entered(old(multiset(Q.Vals(v.Contents()))), e, true)
  {
    ghost var cells, a := v.Contents(), Q.Vals(v.Contents());
    var c := new Q.Cell(e);
    AppendedDistinct(cells, c);
    v.Append(c);
    PushedVals(a, Q.Vals(v.Contents()), e);
  }

  /** The entry is appended, if it enters the list at all, and the list is sorted. */
  method Enter(v: V.Vector<Entry>, e: ExpiringKey, enters: bool)
    requires v.Valid() && Q.Distinct(v.Contents())
    modifies v, v.items, v.Contents()
    ensures v.Valid() && Q.Distinct(v.Contents()) && (v.items == old(v.items) || fresh(v.items))
    ensures Extends(old(v.Contents()), v.Contents(), enters)
    ensures forall i :: old(v.size) <= i < v.size ==> fresh(v.Contents()[i])
    ensures multiset(Q.Vals(v.Contents())) == Entered(old(multiset(Q.Vals(v.Contents()))), e, enters)
    ensures Ascending(Deadlines(Q.Vals(v.Contents())))
  {
    if enters {
      Push(v, e);
    }
    SortByDeadline(v);
  }

  /** No object of the list and no item of the trie, which holds m, is part of the trie's own structure. */
  ghost predicate Clear(v: V.Vector<Entry>, t: Trie, m: Bindings)
    requires v.Valid()
    reads v, v.items, t
  {
    && v !in t.Repr && v.items !in t.Repr
    && (forall i :: 0 <= i < v.size ==> v.Contents()[i] !in t.Repr)
    && forall k <- m :: m[k] !in t.Repr
  }

  /** The item gets its new ttl, counted from now, and unless it had one before, the entry enters the list. */
  method Renew(v: V.Vector<Entry>, e: ExpiringKey, ttl: int, now: int) returns (ghost enters: bool)
    requires v.Valid() && Q.Distinct(v.Contents())
    modifies v, v.items, v.Contents(), e.item
    ensures enters == (old(e.item.ttl) < 0)
    ensures v.Valid() && Q.Distinct(v.Contents()) && (v.items == old(v.items) || fresh(v.items))
    ensures Extends(old(v.Contents()), v.Contents(), enters)
    ensures forall i :: old(v.size) <= i < v.size ==> fresh(v.Contents()[i])
    ensures e.item.Value() == old(e.item.Value()).(ttl := Short(ttl), ctime := now, lstime := now)
    ensures Ascending(Deadlines(Q.Vals(v.Contents())))
    ensures multiset(Q.Vals(v.Contents())) == Entered(old(multiset(Q.Vals(v.Contents()))), e, enters)
  {
    var hasTtl := e.item.ttl >= 0;
    enters := !hasTtl;
    ghost var cells, vals := v.Contents(), Q.Vals(v.Contents());
    e.item.ttl, e.item.ctime, e.item.lstime := Short(ttl), now, now;
    assert v.Contents() == cells && Q.Vals(cells) == vals;
    Enter(v, e, !hasTtl);
  }

  /** Renew keeps what the trie holds. */
  method RenewBound(v: V.Vector<Entry>, e: ExpiringKey, ttl: int, now: int, ghost m: Bindings)
    returns (ghost enters: bool)
    requires v.Valid() && Q.Distinct(v.Contents()) && Binds(e.trie, m) && Clear(v, e.trie, m)
    requires e.item !in e.trie.Repr
    modifies v, v.items, v.Contents(), e.item
    ensures enters == (old(e.item.ttl) < 0)
    ensures v.Valid() && Q.Distinct(v.Contents()) && (v.items == old(v.items) || fresh(v.items))
    ensures Extends(old(v.Contents()), v.Contents(), enters)
    ensures forall i :: old(v.size) <= i < v.size ==> fresh(v.Contents()[i])
    ensures Binds(e.trie, m) && Clear(v, e.trie, m)
    ensures e.item.Value() == old(e.item.Value()).(ttl := Short(ttl), ctime := now, lstime := now)
    ensures Ascending(Deadlines(Q.Vals(v.Contents())))
    ensures multiset(Q.Vals(v.Contents())) == Entered(old(multiset(Q.Vals(v.Contents()))), e, enters)
  {
    enters := Renew(v, e, ttl, now);
    Untouched(Held(e.trie, m));
  }

  /** ttl_handler: a bound key gets a new ttl counted from now and, unless it had one before, an entry in the list;
      the list is in the order of the deadlines afterwards.  The trie holds m. */
  method TtlHandler(v: V.Vector<Entry>, t: Trie, key: Key, ttl: int, now: int, ghost m: Bindings)
    returns (ok: bool, ghost enters: bool)
    requires v.Valid() && Q.Distinct(v.Contents()) && Binds(t, m) && Clear(v, t, m)
    modifies v, v.items, v.Contents(), if key in m then {m[key]} else {}
    ensures ok <==> key in m
    ensures enters == (ok && old(m[key].ttl) < 0)
    ensures v.Valid() && Q.Distinct(v.Contents()) && (v.items == old(v.items) || fresh(v.items))
    ensures Extends(old(v.Contents()), v.Contents(), enters)
    ensures forall i :: old(v.size) <= i < v.size ==> fresh(v.Contents()[i])
    ensures Binds(t, m) && Clear(v, t, m)
    ensures !ok ==> Q.Vals(v.Contents()) == old(Q.Vals(v.Contents()))
    ensures ok ==> m[key].Value() == old(m[key].Value()).(ttl := Short(ttl), ctime := now, lstime := now)
    ensures ok && -0x8000 <= ttl < 0x8000 ==> m[key].ttl == ttl
    ensures ok ==> Ascending(Deadlines(Q.Vals(v.Contents())))
    ensures ok ==> multiset(Q.Vals(v.Contents())) ==
                   Entered(old(multiset(Q.Vals(v.Contents()))), ExpiringKey(t, m[key], key), enters)
  {
    ShortIs(ttl, ttl);
    var item := t.Find(key);
    if item == null {
      return false, false;
    }
    enters := RenewBound(v, ExpiringKey(t, item, key), ttl, now, m);
    ok := true;
  }
}
