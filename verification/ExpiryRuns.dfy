/** The code of the PUT, DEL and TTL commands and of the expiry tick, one after the other in any order (src/server.c,
    src/db.c), on the list, the tries and the items. */
module ExpiryRuns {
  import opened Bytes
  import opened Items
  import opened Trie
  import opened Expiry
  import opened ExpiryBook
  import V = Vector
  import Q = Quicksort

  /** The items have the recorded times. */
  ghost predicate Timed(keep: set<object>, times: map<DbItem, Times>)
    reads keep
  {
    forall x <- times :: x in keep && x.ttl == times[x].ttl && x.ctime == times[x].ctime
  }

  ghost predicate Recorded(w: Start, b: Book)
    reads w.keep
  {
    Complete(b) && Timed(w.keep, b.times)
  }

  /** The list, the tries and the items are as the book says. */
  ghost predicate At(v: V.Vector<Entry>, w: Start, b: Book)
    reads v, v.items, w.fp, w.keep
  {
    Rests(v, w) && Q.Distinct(w.cells) && w.es == b.es && w.h == b.h && Recorded(w, b)
  }

  lemma RecordedDeadlines(w: Start, b: Book)
    requires Entries(w) && w.es == b.es && Recorded(w, b)
    ensures w.ds == Ds(b)
  {
    forall i: nat | i < |w.es|
      ensures w.ds[i] == Ds(b)[i]
    {
      assert EntryAt(w, i);
    }
  }

  lemma KeptDistinct(cells: seq<Entry>, m: nat)
    requires Q.Distinct(cells) && m <= |cells|
    ensures Q.Distinct(Kept(cells, m))
  {
    KeptAt(cells, m);
    forall i: nat, j: nat | i < |Kept(cells, m)| && j < |Kept(cells, m)| && i != j
      ensures Q.Differ(Kept(cells, m), i, j)
    {
      assert Q.Differ(cells, if i < m / 2 then 2 * i + 1 else i + (m + 1) / 2,
                      if j < m / 2 then 2 * j + 1 else j + (m + 1) / 2);
    }
  }

  datatype Page = Page(w: Start, b: Book)

  twostate lemma SameRecord(p: Page)
    requires old(Recorded(p.w, p.b)) && unchanged(p.w.keep)
    ensures Recorded(p.w, p.b)
  {
  }

  lemma {:induction false} Turned(v: V.Vector<Entry>, w: Start, b: Book, now: int)
    requires Matched(w) && w.es == b.es && w.h == b.h && w.ds == Ds(b) && Q.Distinct(w.cells) && Recorded(w, b)
    ensures Rests(v, Ticking(w, now)) ==> At(v, Ticking(w, now), AfterTick(b, now))
  {
    var m := Due(w.ds, now);
    KeptDistinct(w.cells, m);
    TickComplete(b, now);
    assert Ticking(w, now).cells == Kept(w.cells, m);
    assert AfterTick(b, now).es == Kept(w.es, m) && AfterTick(b, now).h == Ticking(w, now).h;
  }

  /** A tick. */
  method DoTick(v: V.Vector<Entry>, now: int, ghost w: Start, ghost b: Book)
    requires At(v, w, b)
    modifies v, v.items, w.fp
    ensures At(v, Ticking(w, now), AfterTick(b, now)) && (v.items == old(v.items) || fresh(v.items))
  {
    RecordedDeadlines(w, b);
    TickSorted(v, now, w);
    SameRecord(Page(w, b));
    Turned(v, w, b, now);
  }

  // ---------------------------------------------------------------- TTL

  ghost function Item(b: Book, cmd: Command): set<object> {
    if Finds(b, cmd) then {b.h[cmd.t][cmd.key]} else {}
  }

  lemma {:induction false} CellsKept(w: Start)
    requires Entries(w)
    ensures Q.Vals(w.cells) == w.es && forall c <- w.cells :: c in w.keep && c !in w.fp
  {
    forall i: nat | i < |w.cells|
      ensures w.cells[i] in w.keep && w.cells[i].v == w.es[i]
    {
      assert EntryAt(w, i);
    }
  }

  /** What the handler needs of the state. */
  ghost predicate Ready(v: V.Vector<Entry>, w: Start, b: Book, cmd: Command)
    reads v, v.items, w.fp, w.cells, Item(b, cmd)
  {
    && cmd.Ttl? && cmd.t in b.h && cmd.t in w.fp && cmd.t.Repr <= w.fp
    && v.Valid() && v.Contents() == w.cells && Q.Distinct(w.cells) && Q.Vals(w.cells) == b.es
    && Binds(cmd.t, b.h[cmd.t]) && Clear(v, cmd.t, b.h[cmd.t]) && Tries(b.h, w.fp)
    && v !in w.fp && v.items !in w.fp && Item(b, cmd) !! w.fp && (forall c <- w.cells :: c !in w.fp)
    && (Finds(b, cmd) ==> b.h[cmd.t][cmd.key] in b.times && b.h[cmd.t][cmd.key].ttl == TtlOf(b, b.h[cmd.t][cmd.key]))
  }

  lemma {:induction false} Prepared(v: V.Vector<Entry>, w: Start, b: Book, cmd: Command)
    requires At(v, w, b) && cmd.Ttl? && cmd.t in w.h
    ensures Ready(v, w, b, cmd)
  {
    KeptAll(w.cells);
    CellsKept(w);
    assert Holds(cmd.t, w.h, w.fp);
  }

  /** The entries after a TTL command. */
  ghost predicate Reordered(b: Book, cmd: Command, es: seq<ExpiringKey>, enters: bool) {
    if Finds(b, cmd) then multiset(es) == Entered(multiset(b.es), EntryFor(b, cmd.t, cmd.key), enters)
    else es == b.es && !enters
  }

  /** What a TTL command records. */
  ghost function NewTimes(b: Book, cmd: Command): map<DbItem, Times>
    requires cmd.Ttl?
  {
    if Finds(b, cmd) then b.times[b.h[cmd.t][cmd.key] := Times(Short(cmd.ttl), cmd.now)] else b.times
  }

  ghost function Booked(b: Book, cmd: Command, es: seq<ExpiringKey>): Book
    requires cmd.Ttl?
  {
    Book(es, b.h, NewTimes(b, cmd))
  }

  /** What the handler answers, and the list and the tries after it. */
  ghost predicate Handled(v: V.Vector<Entry>, w: Start, b: Book, cmd: Command, ok: bool, enters: bool)
    reads *
  {
    && ok == Finds(b, cmd) && enters == (ok && TtlOf(b, b.h[cmd.t][cmd.key]) < 0)
    && v.Valid() && Q.Distinct(v.Contents()) && Extends(w.cells, v.Contents(), enters) && Tries(b.h, w.fp)
    && Reordered(b, cmd, Q.Vals(v.Contents()), enters)
    && (ok ==> Ascending(Deadlines(Q.Vals(v.Contents()))))
  }

  method Handle(v: V.Vector<Entry>, cmd: Command, ghost w: Start, ghost b: Book) returns (ok: bool, ghost enters: bool)
    requires Ready(v, w, b, cmd)
    modifies v, v.items, w.cells, Item(b, cmd)
    ensures Handled(v, w, b, cmd, ok, enters) && (v.items == old(v.items) || fresh(v.items))
    ensures forall i :: |w.cells| <= i < v.size ==> fresh(v.Contents()[i])
    ensures ok ==> var x := b.h[cmd.t][cmd.key]; x.ttl == Short(cmd.ttl) && x.ctime == cmd.now
  {
    ok, enters := TtlHandler(v, cmd.t, cmd.key, cmd.ttl, cmd.now, b.h[cmd.t]);
    Elsewhere(Known(b.h, w.fp));
  }

  method HandleTimed(v: V.Vector<Entry>, cmd: Command, ghost w: Start, ghost b: Book)
    returns (ok: bool, ghost enters: bool)
    requires Ready(v, w, b, cmd) && Timed(w.keep, b.times)
    modifies v, v.items, w.cells, Item(b, cmd)
    ensures Handled(v, w, b, cmd, ok, enters) && (v.items == old(v.items) || fresh(v.items))
    ensures forall i :: |w.cells| <= i < v.size ==> fresh(v.Contents()[i])
    ensures Timed(w.keep, NewTimes(b, cmd))
  {
    ghost var rest := OtherItems(v, w, b, cmd);
    ok, enters := HandleApart(v, cmd, w, b, rest);
    Retimed(Change(w.keep, b, cmd, rest));
  }

  /** The handler leaves everything else as it is. */
  method HandleApart(v: V.Vector<Entry>, cmd: Command, ghost w: Start, ghost b: Book, ghost rest: set<object>)
    returns (ok: bool, ghost enters: bool)
    requires Ready(v, w, b, cmd)
    requires v !in rest && v.items !in rest && (forall c <- w.cells :: c !in rest) && rest !! Item(b, cmd)
    modifies v, v.items, w.cells, Item(b, cmd)
    ensures Handled(v, w, b, cmd, ok, enters) && (v.items == old(v.items) || fresh(v.items)) && unchanged(rest)
    ensures forall i :: |w.cells| <= i < v.size ==> fresh(v.Contents()[i])
    ensures ok ==> var x := b.h[cmd.t][cmd.key]; x.ttl == Short(cmd.ttl) && x.ctime == cmd.now
  {
    ok, enters := Handle(v, cmd, w, b);
  }

  /** The items the command does not touch are neither part of the list nor cells. */
  lemma {:induction false} OtherItems(v: V.Vector<Entry>, w: Start, b: Book, cmd: Command) returns (rest: set<object>)
    ensures rest == b.times.Keys - Item(b, cmd)
    ensures v !in rest && v.items !in rest && (forall c <- w.cells :: c !in rest) && rest !! Item(b, cmd)
  {
    rest := b.times.Keys - Item(b, cmd);
  }

  datatype Change = Change(keep: set<object>, b: Book, cmd: Command, rest: set<object>)

  twostate lemma Retimed(c: Change)
    requires c.cmd.Ttl? && old(Timed(c.keep, c.b.times)) && c.rest == c.b.times.Keys - Item(c.b, c.cmd)
    requires unchanged(c.rest)
    requires Finds(c.b, c.cmd) ==>
      var x := c.b.h[c.cmd.t][c.cmd.key]; x in c.b.times && x.ttl == Short(c.cmd.ttl) && x.ctime == c.cmd.now
    ensures Timed(c.keep, NewTimes(c.b, c.cmd))
  {
  }

  /** The deadlines of the items are the recorded ones. */
  lemma {:induction false} TimedDeadlines(keep: set<object>, b: Book)
    requires Complete(b) && Timed(keep, b.times)
    ensures Deadlines(b.es) == Ds(b)
  {
    forall i | 0 <= i < |b.es|
      ensures Deadlines(b.es)[i] == Ds(b)[i]
    {
      assert b.es[i] in b.es;
    }
  }

  lemma {:induction false} BookedComplete(b: Book, cmd: Command, es: seq<ExpiringKey>, enters: bool)
    requires cmd.Ttl? && Complete(b) && Reordered(b, cmd, es, enters)
    ensures Complete(Booked(b, cmd, es))
  {
    forall e | e in es
      ensures e.item in b.times && e.trie in b.h
    {
      assert e in multiset(es);
      if !(Finds(b, cmd) && e == EntryFor(b, cmd.t, cmd.key)) {
        assert e in multiset(b.es);
      }
    }
  }

  lemma {:induction false} BookedNext(b: Book, cmd: Command, es: seq<ExpiringKey>, enters: bool, keep: set<object>)
    requires cmd.Ttl? && Complete(b) && Reordered(b, cmd, es, enters) && Ascending(Ds(b))
    requires Timed(keep, NewTimes(b, cmd))
    requires Finds(b, cmd) ==> enters == (TtlOf(b, b.h[cmd.t][cmd.key]) < 0) && Ascending(Deadlines(es))
    ensures Complete(Booked(b, cmd, es)) && Next(b, cmd, Booked(b, cmd, es)) && Ascending(Ds(Booked(b, cmd, es)))
  {
    var b' := Booked(b, cmd, es);
    BookedComplete(b, cmd, es, enters);
    TimedDeadlines(keep, b');
  }

  ghost function Current(v: V.Vector<Entry>, w: Start, b: Book): Start
    requires v.Valid()
    reads v, v.items
  {
    Start(v.Contents(), b.es, Ds(b), b.h, w.fp, w.keep + set c <- v.Contents())
  }

  lemma {:induction false} Settled(v: V.Vector<Entry>, w: Start, b: Book)
    requires v.Valid() && Q.Distinct(v.Contents()) && Q.Vals(v.Contents()) == b.es && Tries(b.h, w.fp)
    requires Complete(b) && Timed(w.keep, b.times) && Ascending(Ds(b))
    requires v !in w.fp + w.keep && v.items !in w.fp + w.keep && w.keep !! w.fp
    requires forall i :: 0 <= i < v.size ==> v.Contents()[i] !in w.fp
    ensures At(v, Current(v, w, b), b)
  {
    var w' := Current(v, w, b);
    KeptAll(w'.cells);
    forall j: nat | j < |w'.es|
      ensures EntryAt(w', j)
    {
      SettledAt(v, w, b, j);
    }
  }

  lemma {:induction false} SettledAt(v: V.Vector<Entry>, w: Start, b: Book, j: nat)
    requires v.Valid() && Q.Vals(v.Contents()) == b.es && Complete(b) && Timed(w.keep, b.times) && j < |b.es|
    ensures EntryAt(Current(v, w, b), j)
  {
    assert b.es[j] in b.es;
    assert v.Contents()[j] in v.Contents();
  }

  method Rebook(v: V.Vector<Entry>, cmd: Command, ghost w: Start, ghost b: Book) returns (ok: bool, ghost b': Book)
    requires Ready(v, w, b, cmd) && Complete(b) && Timed(w.keep, b.times) && Ascending(Ds(b))
    modifies v, v.items, w.cells, Item(b, cmd)
    ensures ok == Finds(b, cmd) && Next(b, cmd, b') && Complete(b') && Timed(w.keep, b'.times) && Ascending(Ds(b'))
    ensures v.Valid() && Q.Distinct(v.Contents()) && Q.Vals(v.Contents()) == b'.es && Tries(b'.h, w.fp) && b'.h == b.h
    ensures v.items == old(v.items) || fresh(v.items)
    ensures forall i :: 0 <= i < v.size ==> v.Contents()[i] in w.cells || fresh(v.Contents()[i])
  {
    ghost var enters;
    ok, enters := HandleTimed(v, cmd, w, b);
    b' := Booked(b, cmd, Q.Vals(v.Contents()));
    BookedNext(b, cmd, b'.es, enters, w.keep);
  }

  /** A TTL command. */
  method DoTtl(v: V.Vector<Entry>, cmd: Command, ghost w: Start, ghost b: Book)
    returns (ok: bool, ghost w': Start, ghost b': Book)
    requires cmd.Ttl? && cmd.t in w.h && At(v, w, b)
    modifies v, v.items, w.keep
    ensures ok == Finds(b, cmd) && Next(b, cmd, b') && At(v, w', b') && (v.items == old(v.items) || fresh(v.items))
    ensures w'.h == w.h && w'.fp == w.fp && w.keep <= w'.keep && (forall x <- w'.keep :: x in w.keep || fresh(x))
  {
    Prepared(v, w, b, cmd);
    CellsKept(w);
    RecordedDeadlines(w, b);
    ok, b' := Rebook(v, cmd, w, b);
    Settled(v, w, b');
    w' := Current(v, w, b');
  }

  // ---------------------------------------------------------------- DEL

  lemma {:induction false} DelSettled(v: V.Vector<Entry>, w: Start, b: Book, t: Trie, key: Key)
    requires Entries(w) && Ascending(w.ds) && Q.Distinct(w.cells) && w.es == b.es && w.h == b.h && Recorded(w, b)
    requires Listed(v, w.cells, w.fp + w.keep) && Tries(DropKey(w.h, t, key), w.fp)
    ensures At(v, w.(h := DropKey(w.h, t, key)), AfterDel(b, Del(t, key)))
  {
    var w' := w.(h := DropKey(w.h, t, key));
    KeptAll(w.cells);
    forall j: nat | j < |w'.es|
      ensures EntryAt(w', j)
    {
      assert EntryAt(w, j);
    }
  }

  lemma {:induction false} Lists(v: V.Vector<Entry>, w: Start)
    requires Standing(v, w, 0)
    ensures Listed(v, w.cells, w.fp + w.keep) && Tries(w.h, w.fp)
  {
    KeptAll(w.cells);
  }

  /** database_remove */
  method DoDel(v: V.Vector<Entry>, t: Trie, key: Key, ghost w: Start, ghost b: Book)
    requires At(v, w, b) && t in w.h
    modifies w.fp
    ensures At(v, w.(h := DropKey(w.h, t, key)), AfterDel(b, Del(t, key))) && v.items == old(v.items)
  {
    Lists(v, w);
    ReprInside(t, w.h, w.fp);
    Unbind(t, key, w.h, w.fp);
    SameEntries(w);
    SameRecord(Page(w, b));
    StillListed(Row(v, w.cells, w.fp + w.keep));
    DelSettled(v, w, b, t, key);
  }

  // ---------------------------------------------------------------- PUT

  /** trie_insert */
  method BindNew(t: Trie, key: Key, item: DbItem, ghost h: Holdings, ghost fp: set<object>)
    requires Tries(h, fp) && t in h
    modifies t.Repr
    ensures Tries(h[t := h[t][key := item]], fp + t.Repr) && fresh(t.Repr - old(t.Repr))
  {
    assert Holds(t, h, fp);
    t.Insert(key, item);
    ghost var h', fp' := h[t := h[t][key := item]], fp + t.Repr;
    forall u | u in h'
      ensures Holds(u, h', fp') && (u != t ==> u.Repr == old(u.Repr))
    {
      assert old(Holds(u, h, fp)) && old(Apart(u, t));
      if u != t {
        Untouched(Held(u, h[u]));
      }
    }
    forall u, x | u in h' && x in h' && u in fp' && x in fp'
      ensures Apart(u, x)
    {
      assert old(Holds(u, h, fp)) && old(Holds(x, h, fp)) && old(Apart(u, x));
    }
  }

  /** The state after a PUT command. */
  ghost function PutStart(w: Start, t: Trie, key: Key, item: DbItem): Start
    requires t in w.h
    reads t
  {
    Start(w.cells, w.es, w.ds, w.h[t := w.h[t][key := item]], w.fp + t.Repr, w.keep + {item})
  }

  ghost function PutBook(b: Book, cmd: Command, item: DbItem): Book
    requires cmd.Put? && cmd.t in b.h
  {
    Book(b.es, b.h[cmd.t := b.h[cmd.t][cmd.key := item]], b.times[item := Times(Short(cmd.ttl), cmd.now)])
  }

  lemma {:induction false} PutNext(b: Book, cmd: Command, item: DbItem)
    requires cmd.Put? && cmd.t in b.h && item !in b.times
    ensures Next(b, cmd, PutBook(b, cmd, item))
  {
  }

  lemma {:induction false} PutSettled(v: V.Vector<Entry>, w: Start, b: Book, cmd: Command, item: DbItem)
    requires cmd.Put? && cmd.t in b.h && item !in b.times && w.es == b.es && w.h == b.h && Ascending(w.ds)
    requires Entries(w) && Q.Distinct(w.cells) && Recorded(w, b)
    requires item !in w.fp + cmd.t.Repr && w.keep !! cmd.t.Repr
    requires item.ttl == Short(cmd.ttl) && item.ctime == cmd.now
    requires Listed(v, w.cells, w.fp + w.keep) && v !in cmd.t.Repr && v.items !in cmd.t.Repr
    requires Tries(w.h[cmd.t := w.h[cmd.t][cmd.key := item]], w.fp + cmd.t.Repr)
    ensures At(v, PutStart(w, cmd.t, cmd.key, item), PutBook(b, cmd, item))
  {
    var w', b' := PutStart(w, cmd.t, cmd.key, item), PutBook(b, cmd, item);
    KeptAll(w.cells);
    forall j: nat | j < |w'.es|
      ensures EntryAt(w', j)
    {
      assert EntryAt(w, j);
    }
    PutNext(b, cmd, item);
    PutComplete(b, cmd, b');
  }

  /** database_insert */
  method DoPut(v: V.Vector<Entry>, cmd: Command, ghost w: Start, ghost b: Book)
    returns (ghost w': Start, ghost b': Book)
    requires cmd.Put? && cmd.t in w.h && At(v, w, b)
    modifies w.fp
    ensures Next(b, cmd, b') && At(v, w', b') && v.items == old(v.items) && w'.h.Keys == w.h.Keys
    ensures var x := b'.h[cmd.t][cmd.key]; fresh(x) && x.data == cmd.val && x.lstime == x.ctime == cmd.now
    ensures -0x8000 <= cmd.ttl < 0x8000 ==> b'.h[cmd.t][cmd.key].ttl == cmd.ttl
    ensures w.fp <= w'.fp && (forall x <- w'.fp :: x in w.fp || fresh(x))
    ensures w.keep <= w'.keep && (forall x <- w'.keep :: x in w.keep || fresh(x))
  {
    var item := new DbItem(cmd.val, Short(cmd.ttl), cmd.now);
    Lists(v, w);
    ReprInside(cmd.t, w.h, w.fp);
    BindNew(cmd.t, cmd.key, item, w.h, w.fp);
    SameEntries(w);
    SameRecord(Page(w, b));
    StillListed(Row(v, w.cells, w.fp + w.keep));
    PutSettled(v, w, b, cmd, item);
    PutNext(b, cmd, item);
    w', b' := PutStart(w, cmd.t, cmd.key, item), PutBook(b, cmd, item);
  }

  // ---------------------------------------------------------------- runs

  lemma {:induction false} TickKeys(w: Start, now: int)
    requires Matched(w)
    ensures Ticking(w, now).h.Keys == w.h.Keys
  {
    DropAllKeys(w.h, w.es, (Due(w.ds, now) + 1) / 2);
  }

  /** A command. */
  method Do(v: V.Vector<Entry>, cmd: Command, ghost w: Start, ghost b: Book) returns (ghost w': Start, ghost b': Book)
    requires At(v, w, b) && (!cmd.Tick? ==> cmd.t in w.h)
    modifies v, v.items, w.fp, w.keep
    ensures Next(b, cmd, b') && At(v, w', b') && (v.items == old(v.items) || fresh(v.items)) && w'.h.Keys == w.h.Keys
    ensures w.fp <= w'.fp && (forall x <- w'.fp :: x in w.fp || fresh(x))
    ensures w.keep <= w'.keep && (forall x <- w'.keep :: x in w.keep || fresh(x))
  {
    match cmd
    case Tick(now) =>
      w', b' := Ticking(w, now), AfterTick(b, now);
      TickKeys(w, now);
      DoTick(v, now, w, b);
    case Ttl(_, _, _, _) =>
      var _, w1, b1 := DoTtl(v, cmd, w, b);
      w', b' := w1, b1;
    case Put(_, _, _, _, _) =>
      w', b' := DoPut(v, cmd, w, b);
    case Del(t, key) =>
      w', b' := w.(h := DropKey(w.h, t, key)), AfterDel(b, cmd);
      DoDel(v, t, key, w, b);
  }

  /** The run so far: n of the commands. */
  ghost predicate SoFar(bs: seq<Book>, cmds: seq<Command>, n: nat, first: Book, last: Book) {
    n <= |cmds| && Trace(bs, cmds[..n]) && bs[0] == first && bs[n] == last
  }

  lemma {:induction false} TraceGrows(bs: seq<Book>, cmds: seq<Command>, n: nat, n1: nat, first: Book, last: Book,
                                      next: Book)
    requires SoFar(bs, cmds, n, first, last) && n < |cmds| && n1 == n + 1 && Next(last, cmds[n], next)
    ensures SoFar(bs + [next], cmds, n1, first, next)
  {
    assert cmds[..n1] == cmds[..n] + [cmds[n]];
    forall i: nat | i < n1
      ensures Goes(bs + [next], cmds[..n1], i)
    {
      assert i < n ==> Goes(bs, cmds[..n], i);
    }
  }

  /** Any sequence of commands and ticks. */
  method Run(v: V.Vector<Entry>, cmds: seq<Command>, ghost w: Start, ghost b: Book)
    returns (ghost w': Start, ghost bs: seq<Book>)
    requires At(v, w, b) && forall c <- cmds :: !c.Tick? ==> c.t in w.h
    modifies v, v.items, w.fp, w.keep
    ensures Trace(bs, cmds) && bs[0] == b && At(v, w', bs[|cmds|]) && (v.items == old(v.items) || fresh(v.items))
    ensures w'.h.Keys == w.h.Keys && w.keep <= w'.keep && (forall x <- w'.keep :: x in w.keep || fresh(x))
    ensures w.fp <= w'.fp && (forall x <- w'.fp :: x in w.fp || fresh(x))
  {
    w', bs := w, [b];
    var n := 0;
    ghost var last := b;
    while n < |cmds|
      invariant 0 <= n && SoFar(bs, cmds, n, b, last) && At(v, w', last)
      invariant w'.h.Keys == w.h.Keys && w.keep <= w'.keep && (forall x <- w'.keep :: x in w.keep || fresh(x))
      invariant w.fp <= w'.fp && (forall x <- w'.fp :: x in w.fp || fresh(x))
      invariant v.items == old(v.items) || fresh(v.items)
    {
      var n1 := n + 1;
      ghost var next;
      w', next := Do(v, cmds[n], w', last);
      TraceGrows(bs, cmds, n, n1, b, last, next);
      bs, last, n := bs + [next], next, n1;
    }
    assert cmds[..n] == cmds;
  }
}
