/** The consistent-hash ring (src/cluster.c): a linked list of points kept sorted by upper bound. */
module Cluster {
  import opened Decimal
  import opened Bytes
  import L = List

  const RING_SIZE: nat := 4096

  /** struct cluster_node: a point of the ring and the server it stands for. */
  datatype Point = Point(self: bool, vnode: bool, fd: int, bound: nat, host: Key, port: Key)

  type Ring = seq<Point>

  /** compare_upper_bound */
  function Compare(p: Point, q: Point): int {
    if p.bound == q.bound then 0 else if p.bound < q.bound then -1 else 1
  }

  ghost predicate Sorted(r: Ring) {
    forall i, j | 0 <= i < j < |r| :: r[i].bound <= r[j].bound
  }

  lemma CompareOrders(s: multiset<Point>)
    ensures L.Orders(Compare, s)
  {
  }

  /** Where a new point goes: before the first point at or above its bound. */
  function Inserted(r: Ring, p: Point): Ring {
    if r == [] || p.bound <= r[0].bound then [p] + r else [r[0]] + Inserted(r[1..], p)
  }

  lemma {:induction false} InsertedSorted(r: Ring, p: Point)
    requires Sorted(r)
    ensures Sorted(Inserted(r, p)) && multiset(Inserted(r, p)) == multiset([p] + r)
    ensures Inserted(r, p)[0] == p || (r != [] && Inserted(r, p)[0] == r[0] && r[0].bound < p.bound)
  {
    if r != [] && p.bound > r[0].bound {
      InsertedSorted(r[1..], p);
      HeadFirst(r, p);
      HeadLow(r, p, Inserted(r[1..], p));
    } else {
      assert Inserted(r, p) == [p] + r;
    }
  }

  lemma HeadFirst(r: Ring, p: Point)
    requires r != []
    ensures multiset([r[0]]) + multiset([p] + r[1..]) == multiset([p] + r)
  {
    assert r == [r[0]] + r[1..];
    assert [p] + r == [p] + [r[0]] + r[1..];
  }

  lemma HeadLow(r: Ring, p: Point, t: Ring)
    requires r != [] && Sorted(r) && r[0].bound < p.bound && Sorted(t) && multiset(t) == multiset([p] + r[1..])
    ensures Sorted([r[0]] + t)
  {
    forall i | 0 <= i < |t|
      ensures r[0].bound <= t[i].bound
    {
      assert t[i] in multiset(t);
      assert t[i] in multiset([p] + r[1..]);
    }
  }

  lemma {:induction false} InsertedTies(r: Ring, p: Point, x: Point)
    requires Sorted(r)
    ensures L.Ties(Inserted(r, p), x, Compare) == L.Ties([p] + r, x, Compare)
  {
    if r != [] && p.bound > r[0].bound {
      InsertedTies(r[1..], p, x);
      assert ([r[0]] + Inserted(r[1..], p))[1..] == Inserted(r[1..], p);
      assert ([p] + r)[1..] == r && ([p] + r[1..])[1..] == r[1..];
    }
  }

  lemma SameWithin(a: Ring, b: Ring)
    requires multiset(a) == multiset(b)
    ensures L.Within(a, multiset(b))
  {
    forall i | 0 <= i < |a|
      ensures a[i] in multiset(b)
    {
      assert a[i] in multiset(a);
    }
  }

  lemma PushedTies(r: Ring, p: Point, x: Point)
    requires Sorted(r) && x in multiset([p] + r)
    ensures L.SameTies(L.Sort([p] + r, Compare), Inserted(r, p), x, Compare)
  {
    CompareOrders(multiset([p] + r));
    L.SortStable([p] + r, x, Compare);
    InsertedTies(r, p, x);
  }

  lemma PushedSorted(r: Ring, p: Point)
    ensures L.Sorted(L.Sort([p] + r, Compare), Compare) && L.Within(L.Sort([p] + r, Compare), multiset([p] + r))
  {
    CompareOrders(multiset([p] + r));
    L.SortSorts([p] + r, Compare);
    L.SortPermutes([p] + r, Compare);
    SameWithin(L.Sort([p] + r, Compare), [p] + r);
  }

  lemma InsertedInOrder(r: Ring, p: Point)
    requires Sorted(r)
    ensures L.Sorted(Inserted(r, p), Compare) && L.Within(Inserted(r, p), multiset([p] + r))
  {
    InsertedSorted(r, p);
    SameWithin(Inserted(r, p), [p] + r);
  }

  /** Pushing a point onto a sorted ring and merge-sorting it inserts the point, ahead of its ties. */
  lemma PushAndSort(r: Ring, p: Point)
    requires Sorted(r)
    ensures L.Sort([p] + r, Compare) == Inserted(r, p)
  {
    var all := multiset([p] + r);
    CompareOrders(all);
    PushedSorted(r, p);
    InsertedInOrder(r, p);
    forall x | x in all
      ensures L.SameTies(L.Sort([p] + r, Compare), Inserted(r, p), x, Compare)
    {
      PushedTies(r, p, x);
    }
    L.StableSortUnique(L.Sort([p] + r, Compare), Inserted(r, p), Compare, all);
  }

  /** cluster_get_node, as promised: the first point at or above the hash, the head of the ring if none is. */
  function Owner(r: Ring, h: nat): Point
    requires r != []
  {
    if AtOrAbove(r, h) < |r| then r[AtOrAbove(r, h)] else r[0]
  }

  function AtOrAbove(r: Ring, h: nat): (i: nat)
    ensures i <= |r| && (forall j | 0 <= j < i :: r[j].bound < h) && (i < |r| ==> r[i].bound >= h)
  {
    AtOrAboveFrom(r, h, 0)
  }

  function AtOrAboveFrom(r: Ring, h: nat, k: nat): (i: nat)
    requires k <= |r|
    ensures k <= i <= |r| && (forall j | k <= j < i :: r[j].bound < h) && (i < |r| ==> r[i].bound >= h)
    decreases |r| - k
  {
    if k == |r| || r[k].bound >= h then k else AtOrAboveFrom(r, h, k + 1)
  }

  /** How far clockwise from `h` a point lies; hashes and bounds are 16-bit. */
  function Distance(h: nat, p: Point): int {
    if p.bound >= h then p.bound - h else p.bound + 0x1_0000 - h
  }

  /** The owner of a hash is the nearest point clockwise ... */
  lemma OwnerNearest(r: Ring, h: nat, i: nat)
    requires Sorted(r) && i < |r| && h < 0x1_0000 && forall j | 0 <= j < |r| :: r[j].bound < 0x1_0000
    ensures Distance(h, Owner(r, h)) <= Distance(h, r[i])
  {
  }

  /** ... and inserting a point takes over exactly the hashes it is at least as near to as their owner. */
  lemma {:induction false} OwnerAfterInsert(r: Ring, p: Point, h: nat)
    requires Sorted(r) && r != [] && h < 0x1_0000
    requires p.bound < 0x1_0000 && forall j | 0 <= j < |r| :: r[j].bound < 0x1_0000
    ensures Inserted(r, p) != []
    ensures Owner(Inserted(r, p), h) == if Distance(h, p) <= Distance(h, Owner(r, h)) then p else Owner(r, h)
  {
    FirstAfterInsert(r, p, h);
    OwnerShifts(r, Inserted(r, p), p, h, AtOrAbove(r, p.bound), AtOrAbove(r, h));
  }

  /** The owner before and after, with p at k and the search in the old ring stopping at i. */
  lemma OwnerShifts(r: Ring, s: Ring, p: Point, h: nat, k: nat, i: nat)
    requires r != [] && |s| == |r| + 1 && k <= |r| && i <= |r| && h < 0x1_0000 && p.bound < 0x1_0000
    requires (forall j | 0 <= j < |r| :: r[j].bound < 0x1_0000) && s[k] == p && (k > 0 ==> s[0] == r[0])
    requires (forall j | 0 <= j < k :: r[j].bound < p.bound) && (k < |r| ==> p.bound <= r[k].bound)
    requires (forall j | 0 <= j < i :: r[j].bound < h) && (i < |r| ==> h <= r[i].bound)
    requires if h > p.bound then i >= k && (i < |r| ==> s[i + 1] == r[i]) else i < k ==> s[i] == r[i]
    requires k <= i < |r| ==> p.bound <= r[i].bound
    ensures var i', o := if h > p.bound then i + 1 else if i < k then i else k, if i < |r| then r[i] else r[0];
      (if i' < |s| then s[i'] else s[0]) == if Distance(h, p) <= Distance(h, o) then p else o
  {
  }

  lemma PointsAfter(r: Ring, p: Point, k: nat)
    requires k <= |r|
    ensures var s := r[..k] + [p] + r[k..];
      && |s| == |r| + 1 && s[k] == p
      && (forall j | 0 <= j < k :: s[j] == r[j]) && forall j | k <= j < |r| :: s[j + 1] == r[j]
  {
  }

  /** Where the search in the ring stops once p is inserted at k. */
  lemma {:induction false} FirstAfterInsert(r: Ring, p: Point, h: nat)
    requires Sorted(r)
    ensures var k, i, s := AtOrAbove(r, p.bound), AtOrAbove(r, h), Inserted(r, p);
      && |s| == |r| + 1 && s[k] == p && (k > 0 ==> s[0] == r[0])
      && AtOrAbove(s, h) == (if h > p.bound then i + 1 else if i < k then i else k)
      && (if h > p.bound then i >= k && (i < |r| ==> s[i + 1] == r[i]) else i < k ==> s[i] == r[i])
  {
    InsertedAt(r, p);
    var k, i, s := AtOrAbove(r, p.bound), AtOrAbove(r, h), Inserted(r, p);
    PointsAfter(r, p, k);
    var first := if h > p.bound then i + 1 else if i < k then i else k;
    if h > p.bound {
      assert i >= k;
    }
    FirstIndex(s, h, first);
  }

  lemma FirstIndex(r: Ring, h: nat, i: nat)
    requires i <= |r| && (forall j | 0 <= j < i :: r[j].bound < h) && (i < |r| ==> r[i].bound >= h)
    ensures AtOrAbove(r, h) == i
  {
  }

  lemma IndexAfter(r: Ring, h: nat, i: nat)
    requires i < |r| && (forall j | 0 <= j < i :: r[j].bound <= r[i].bound) && r[i].bound < h
    requires i + 1 < |r| ==> r[i + 1].bound >= h
    ensures AtOrAbove(r, h) == i + 1
  {
    FirstIndex(r, h, i + 1);
  }

  /** Insertion splits the ring at the first point not below the new one. */
  lemma {:induction false} InsertedAt(r: Ring, p: Point)
    ensures var k := AtOrAbove(r, p.bound); Inserted(r, p) == r[..k] + [p] + r[k..]
  {
    if r != [] && p.bound > r[0].bound {
      InsertedAt(r[1..], p);
      var k := AtOrAbove(r[1..], p.bound);
      assert r[1..][..k] == r[1..k + 1] && r[1..][k..] == r[k + 1..];
    }
  }

  /** A server joining the ring, as cluster_add_new_node is called. */
  datatype Server = Server(fd: int, addr: Key, port: Key, self: bool)

  /** The ring positions: an uninterpreted hash of text, reduced to the ring. */
  type Hash = Key -> nat

  /** Point number `i` of a server: 0 is the server itself, hashed by address and port; the virtual points
      after it are hashed with their replica number, counting down, in front. */
  function PointOf(hash: Hash, replicas: nat, s: Server, i: nat): Point
    requires i <= replicas
  {
    var text := if i == 0 then s.addr + s.port else Digits(replicas - i) + s.addr + s.port;
    Point(s.self, i > 0, s.fd, hash(text) % RING_SIZE, s.addr, s.port)
  }

  function Points(hash: Hash, replicas: nat, s: Server): (ps: seq<Point>)
    ensures |ps| == 1 + replicas
  {
    seq(1 + replicas, i requires 0 <= i < 1 + replicas => PointOf(hash, replicas, s, i))
  }

  /** Replica r of a server, hashed with the replica's number in front. */
  function Replica(hash: Hash, s: Server, r: nat): Point {
    Point(s.self, true, s.fd, hash(Digits(r) + s.addr + s.port) % 4096, s.addr, s.port)
  }

  function Replicas(hash: Hash, n: nat, s: Server): (ps: seq<Point>)
    ensures |ps| == n && forall r :: 0 <= r < n ==> ps[r] == Replica(hash, s, r)
  {
    seq(n, r requires 0 <= r < n => Replica(hash, s, r))
  }

  lemma {:induction false} Backwards<T>(a: seq<T>, b: seq<T>)
    requires |a| == |b| && forall i :: 0 <= i < |a| ==> a[i] == b[|a| - 1 - i]
    ensures multiset(a) == multiset(b)
  {
    if a != [] {
      var n := |a| - 1;
      assert a == [a[0]] + a[1..] && b == b[..n] + [b[n]];
      Backwards(a[1..], b[..n]);
    }
  }

  /** The points of a server are its real point and its replicas 0 to replicas - 1, each once. */
  lemma {:induction false} PointsAre(hash: Hash, replicas: nat, s: Server)
    ensures multiset(Points(hash, replicas, s)) ==
            multiset{Point(s.self, false, s.fd, hash(s.addr + s.port) % 4096, s.addr, s.port)}
            + multiset(seq(replicas, r requires 0 <= r < replicas =>
                Point(s.self, true, s.fd, hash(Digits(r) + s.addr + s.port) % 4096, s.addr, s.port)))
  {
    var ps, qs := Points(hash, replicas, s), Replicas(hash, replicas, s);
    assert ps == [ps[0]] + ps[1..];
    Backwards(ps[1..], qs);
    assert qs == seq(replicas, r requires 0 <= r < replicas =>
        Point(s.self, true, s.fd, hash(Digits(r) + s.addr + s.port) % 4096, s.addr, s.port));
  }

  /** The texts hashed for the points of a server are pairwise different. */
  lemma {:induction false} TextsDiffer(s: Server, r: nat, q: nat)
    ensures Digits(r) + s.addr + s.port != s.addr + s.port
    ensures r != q ==> Digits(r) + s.addr + s.port != Digits(q) + s.addr + s.port
  {
    var rest := s.addr + s.port;
    assert Digits(r) + s.addr + s.port == Digits(r) + rest && Digits(q) + s.addr + s.port == Digits(q) + rest;
    assert |Digits(r) + rest| > |rest|;
    if Digits(r) + rest == Digits(q) + rest {
      assert |Digits(r)| == |Digits(q)|;
      assert Digits(r) == (Digits(r) + rest)[..|Digits(r)|] == Digits(q);
      DigitsRead(r);
      DigitsRead(q);
    }
  }

  /** The ring after pushing and sorting in each of the points. */
  function InsertedAll(r: Ring, ps: seq<Point>): Ring {
    if ps == [] then r else Inserted(InsertedAll(r, ps[..|ps| - 1]), ps[|ps| - 1])
  }

  lemma InsertedNext(r: Ring, ps: seq<Point>, k: nat)
    requires k < |ps|
    ensures InsertedAll(r, ps[..k + 1]) == Inserted(InsertedAll(r, ps[..k]), ps[k])
    ensures InsertedAll(r, ps[..0]) == r
  {
    assert ps[..k + 1][..k] == ps[..k];
  }

  ghost predicate InRange(r: Ring) {
    forall i | 0 <= i < |r| :: r[i].bound < RING_SIZE
  }

  lemma {:induction false} InsertedAllSorted(r: Ring, ps: seq<Point>)
    requires Sorted(r)
    ensures Sorted(InsertedAll(r, ps)) && multiset(InsertedAll(r, ps)) == multiset(r) + multiset(ps)
    ensures |InsertedAll(r, ps)| == |r| + |ps|
  {
    if ps != [] {
      var q := InsertedAll(r, ps[..|ps| - 1]);
      InsertedAllSorted(r, ps[..|ps| - 1]);
      InsertedSorted(q, ps[|ps| - 1]);
      LastApart(ps);
    }
    assert |InsertedAll(r, ps)| == |multiset(InsertedAll(r, ps))|;
  }

  lemma LastApart(ps: seq<Point>)
    requires ps != []
    ensures multiset(ps) == multiset(ps[..|ps| - 1]) + multiset{ps[|ps| - 1]}
  {
    assert ps == ps[..|ps| - 1] + [ps[|ps| - 1]];
  }

  /** One of the points is at least as near to `h` as `o`. */
  ghost predicate Takes(ps: seq<Point>, h: nat, o: Point) {
    exists i :: 0 <= i < |ps| && Distance(h, ps[i]) <= Distance(h, o)
  }

  lemma TakesStep(ps: seq<Point>, p: Point, h: nat, o: Point, o': Point)
    requires (if Takes(ps, h, o) then o' in ps else o' == o) && Distance(h, o') <= Distance(h, o)
    ensures var o'' := if Distance(h, p) <= Distance(h, o') then p else o';
            (if Takes(ps + [p], h, o) then o'' in ps + [p] else o'' == o) && Distance(h, o'') <= Distance(h, o)
  {
    assert (ps + [p])[|ps|] == p;
    if Takes(ps, h, o) {
      var i :| 0 <= i < |ps| && Distance(h, ps[i]) <= Distance(h, o);
      assert (ps + [p])[i] == ps[i];
    }
  }

  /** Consistent hashing.  Adding points changes the owner of a hash only to one of the points added, and
      does so exactly when one of them is at least as near as the owner. */
  lemma {:induction false} OwnerAfterAll(r: Ring, ps: seq<Point>, h: nat)
    requires Sorted(r) && r != [] && InRange(r) && InRange(ps) && h < 0x1_0000
    ensures InsertedAll(r, ps) != []
    ensures var o, o' := Owner(r, h), Owner(InsertedAll(r, ps), h);
            (if Takes(ps, h, o) then o' in ps else o' == o) && Distance(h, o') <= Distance(h, o)
  {
    if ps != [] {
      var qs, p := ps[..|ps| - 1], ps[|ps| - 1];
      assert ps == qs + [p];
      var q := InsertedAll(r, qs);
      OwnerAfterAll(r, qs, h);
      RingKept(r, qs);
      OwnerAfterInsert(q, p, h);
      TakesStep(qs, p, h, Owner(r, h), Owner(q, h));
    }
  }

  lemma RingKept(r: Ring, ps: seq<Point>)
    requires Sorted(r) && InRange(r) && InRange(ps)
    ensures Sorted(InsertedAll(r, ps)) && InRange(InsertedAll(r, ps)) && |InsertedAll(r, ps)| == |r| + |ps|
  {
    InsertedAllSorted(r, ps);
    InRangeAll(r, ps, InsertedAll(r, ps));
  }

  lemma InRangeAll(r: Ring, ps: seq<Point>, q: Ring)
    requires InRange(r) && InRange(ps) && multiset(q) == multiset(r) + multiset(ps)
    ensures InRange(q)
  {
    forall i | 0 <= i < |q|
      ensures q[i].bound < RING_SIZE
    {
      assert q[i] in multiset(q);
      assert q[i] in multiset(r) || q[i] in multiset(ps);
    }
  }

  /** The ring after a run of cluster_add_new_node calls. */
  function RingOf(hash: Hash, replicas: nat, servers: seq<Server>): Ring {
    if servers == [] then [] else
    InsertedAll(RingOf(hash, replicas, servers[..|servers| - 1]), Points(hash, replicas, servers[|servers| - 1]))
  }

  lemma {:induction false} RingOfSorted(hash: Hash, replicas: nat, servers: seq<Server>)
    ensures var r := RingOf(hash, replicas, servers);
            Sorted(r) && InRange(r) && |r| == (1 + replicas) * |servers|
  {
    if servers != [] {
      assert (1 + replicas) * |servers| == (1 + replicas) * (|servers| - 1) + (1 + replicas);
      var r, ps := RingOf(hash, replicas, servers[..|servers| - 1]), Points(hash, replicas, servers[|servers| - 1]);
      RingOfSorted(hash, replicas, servers[..|servers| - 1]);
      RingKept(r, ps);
    }
  }

  lemma {:induction false} LastJoin(hash: Hash, replicas: nat, servers: seq<Server>, h: nat)
    requires |servers| >= 2 && h < 0x1_0000
    ensures var m := |servers| - 1;
      && RingOf(hash, replicas, servers) != [] && RingOf(hash, replicas, servers[..m]) != []
      && var o, o' := Owner(RingOf(hash, replicas, servers[..m]), h), Owner(RingOf(hash, replicas, servers), h);
         o' == o || o' in Points(hash, replicas, servers[m])
  {
    var m := |servers| - 1;
    RingOfSorted(hash, replicas, servers[..m]);
    OwnerAfterAll(RingOf(hash, replicas, servers[..m]), Points(hash, replicas, servers[m]), h);
  }

  /** Over a whole run, a hash only ever moves to a server that joined in between. */
  lemma {:induction false} OwnerOverRun(hash: Hash, replicas: nat, servers: seq<Server>, n: nat, h: nat)
    requires 0 < n <= |servers| && h < 0x1_0000
    ensures RingOf(hash, replicas, servers) != [] && RingOf(hash, replicas, servers[..n]) != []
    ensures var o, o' := Owner(RingOf(hash, replicas, servers[..n]), h), Owner(RingOf(hash, replicas, servers), h);
            o' == o || exists k :: n <= k < |servers| && o' in Points(hash, replicas, servers[k])
  {
    RingOfSorted(hash, replicas, servers);
    RingOfSorted(hash, replicas, servers[..n]);
    if n < |servers| {
      var m := |servers| - 1;
      assert servers[..m][..n] == servers[..n];
      OwnerOverRun(hash, replicas, servers[..m], n, h);
      LastJoin(hash, replicas, servers, h);
    } else {
      assert servers[..n] == servers;
    }
  }

  /** The list after list_push and list_merge_sort holds the ring with the new point inserted. */
  lemma Pushed(n: L.Node<Point>, nodes: seq<L.Node<Point>>, p: Point)
    requires n.data == p && Sorted(L.Data(nodes)) && InRange(L.Data(nodes)) && p.bound < RING_SIZE
    ensures var sorted := L.Sort([n] + nodes, L.OnData(Compare));
            && L.Data(sorted) == Inserted(L.Data(nodes), p) && |sorted| == |nodes| + 1
            && Sorted(L.Data(sorted)) && InRange(L.Data(sorted))
            && forall i | 0 <= i < |sorted| :: sorted[i] in [n] + nodes
  {
    var pushed := [n] + nodes;
    assert L.Data(pushed) == [p] + L.Data(nodes);
    L.SortData(pushed, Compare);
    L.SortSameElements(pushed, L.OnData(Compare));
    PushAndSort(L.Data(nodes), p);
    InsertedSorted(L.Data(nodes), p);
    InRangeAll(L.Data(nodes), [p], Inserted(L.Data(nodes), p));
    assert |multiset(L.Data(pushed))| == |multiset(Inserted(L.Data(nodes), p))|;
  }

  /** list_push followed by list_merge_sort */
  method PushAndResort(head: L.Node?<Point>, p: Point, ghost nodes: seq<L.Node<Point>>)
    returns (head': L.Node?<Point>, ghost nodes': seq<L.Node<Point>>)
    requires L.IsList(head, nodes) && Sorted(L.Data(nodes)) && InRange(L.Data(nodes)) && p.bound < RING_SIZE
    modifies nodes
    ensures L.IsList(head', nodes') && L.Data(nodes') == Inserted(L.Data(nodes), p) && |nodes'| == |nodes| + 1
    ensures Sorted(L.Data(nodes')) && InRange(L.Data(nodes'))
    ensures forall i | 0 <= i < |nodes'| :: nodes'[i] in nodes || fresh(nodes'[i])
  {
    var n := new L.Node(p, head);
    Pushed(n, nodes, p);
    L.Pushed(n, head, nodes);
    nodes' := L.Sort([n] + nodes, L.OnData(Compare));
    head' := L.MergeSort(n, Compare, [n] + nodes);
  }

  class Cluster {
    const hash: Hash
    const replicas: nat
    var size: nat
    var head: L.Node?<Point>
    var len: nat
    ghost var nodes: seq<L.Node<Point>>

    ghost predicate Valid()
      reads this, nodes
    {
      L.IsList(head, nodes) && len == |nodes| && Sorted(L.Data(nodes)) && InRange(L.Data(nodes))
    }

    ghost function Ring(): Ring
      reads this
    {
      L.Data(nodes)
    }

    constructor (hash: Hash, replicas: nat)
      ensures Valid() && Ring() == [] && size == 0 && this.hash == hash && this.replicas == replicas
    {
      this.hash, this.replicas := hash, replicas;
      size, head, len, nodes := 0, null, 0, [];
    }

    /** insert_node, with the list_push it starts from */
    method InsertNode(p: Point)
      requires Valid() && p.bound < RING_SIZE
      modifies this, nodes
      ensures Valid() && Ring() == Inserted(old(Ring()), p) && len == old(len) + 1
      ensures size == old(size) + if p.vnode then 0 else 1
      ensures forall i | 0 <= i < |nodes| :: nodes[i] in old(nodes) || fresh(nodes[i])
    {
      ghost var sorted;
      head, sorted := PushAndResort(head, p, nodes);
      nodes := sorted;
      len := len + 1;
      if !p.vnode {
        size := size + 1;
      }
    }

    /** Point number k of a server joins the ring. */
    method InsertNext(s: Server, k: nat, ghost next: nat, ghost r: Ring, ghost ps: seq<Point>)
      requires Valid() && k <= replicas && ps == Points(hash, replicas, s) && Ring() == InsertedAll(r, ps[..k])
      requires next == k + 1
      modifies this, nodes
      ensures Valid() && Ring() == InsertedAll(r, ps[..next]) && len == old(len) + 1
      ensures size == old(size) + if k == 0 then 1 else 0
      ensures forall i | 0 <= i < |nodes| :: nodes[i] in old(nodes) || fresh(nodes[i])
    {
      InsertedNext(r, ps, k);
      InsertNode(PointOf(hash, replicas, s, k));
    }

    /** The real point and then the replicas, counted down. */
    method AddPoints(s: Server)
      requires Valid()
      modifies this, nodes
      ensures Valid() && Ring() == InsertedAll(old(Ring()), Points(hash, replicas, s))
      ensures size == old(size) + 1 && len == old(len) + 1 + replicas
      ensures forall i | 0 <= i < |nodes| :: nodes[i] in old(nodes) || fresh(nodes[i])
    {
      ghost var r, ps := Ring(), Points(hash, replicas, s);
      InsertedNext(r, ps, 0);
      var left, k := replicas, 1;
      InsertNext(s, 0, k, r, ps);
      while left > 0
        invariant 0 <= left && left + k == replicas + 1 && Valid() && Ring() == InsertedAll(r, ps[..k])
        invariant size == old(size) + 1 && len == old(len) + k
        invariant forall i | 0 <= i < |nodes| :: nodes[i] in old(nodes) || fresh(nodes[i])
      {
        var next := k + 1;
        InsertNext(s, k, next, r, ps);
        left, k := left - 1, next;
      }
      assert ps[..k] == ps;
    }

    /** cluster_add_new_node: the ring gains one real point and one point for every replica. */
    method AddNode(s: Server)
      requires Valid()
      modifies this, nodes
      ensures Valid() && Ring() == InsertedAll(old(Ring()), Points(hash, replicas, s))
      ensures multiset(Ring()) == multiset(old(Ring()))
                + multiset{Point(s.self, false, s.fd, hash(s.addr + s.port) % 4096, s.addr, s.port)}
                + multiset(seq(replicas, r requires 0 <= r < replicas =>
                    Point(s.self, true, s.fd, hash(Digits(r) + s.addr + s.port) % 4096, s.addr, s.port)))
      ensures size == old(size) + 1 && len == old(len) + 1 + replicas
      ensures forall i | 0 <= i < |nodes| :: nodes[i] in old(nodes) || fresh(nodes[i])
    {
      ghost var r := Ring();
      InsertedAllSorted(r, Points(hash, replicas, s));
      PointsAre(hash, replicas, s);
      AddPoints(s);
    }

    /** cluster_get_node */
    method GetNode(h: nat) returns (p: Point)
      requires Valid() && nodes != []
      ensures p == Owner(Ring(), h)
    {
      if len == 1 {
        return head.data;
      }
      var cur: L.Node<Point> := head;
      ghost var i := 0;
      while cur.next != null && cur.next.data.bound < h
        invariant 0 <= i < |nodes| && cur == nodes[i]
        invariant forall j | 0 < j <= i :: nodes[j].data.bound < h
        decreases |nodes| - i
      {
        assert nodes[i].next == nodes[i + 1];
        cur, i := cur.next, i + 1;
      }
      ghost var r := Ring();
      assert r[i] == cur.data && forall j | 0 <= j < i :: r[j].bound <= r[i].bound;
      if cur.next == null && cur.data.bound < h {
        IndexAfter(r, h, i);
        return head.data;
      }
      if h > cur.data.bound {
        IndexAfter(r, h, i);
        p := cur.next.data;
      } else {
        FirstIndex(r, h, i);
        p := cur.data;
      }
    }
  }

  lemma {:induction false} LastPoints(hash: Hash, replicas: nat, servers: seq<Server>, last: Server, p: Point)
    requires servers != [] && last == servers[|servers| - 1]
    ensures p in RingOf(hash, replicas, servers) <==>
            p in RingOf(hash, replicas, servers[..|servers| - 1]) || p in Points(hash, replicas, last)
  {
    var r, ps := RingOf(hash, replicas, servers[..|servers| - 1]), Points(hash, replicas, last);
    RingOfSorted(hash, replicas, servers[..|servers| - 1]);
    InsertedAllSorted(r, ps);
    assert p in multiset(InsertedAll(r, ps)) <==> p in multiset(r) || p in multiset(ps);
  }

  /** The ring of a run holds the points of its servers ... */
  lemma {:induction false} RingHolds(hash: Hash, replicas: nat, servers: seq<Server>, k: nat, s: Server, p: Point)
    requires k < |servers| && s == servers[k] && p in Points(hash, replicas, s)
    ensures p in RingOf(hash, replicas, servers)
  {
    var m := |servers| - 1;
    LastPoints(hash, replicas, servers, servers[m], p);
    if k < m {
      RingHolds(hash, replicas, servers[..m], k, s, p);
    }
  }

  /** ... and no others. */
  lemma {:induction false} RingFrom(hash: Hash, replicas: nat, servers: seq<Server>, p: Point) returns (k: nat)
    requires p in RingOf(hash, replicas, servers)
    ensures k < |servers| && p in Points(hash, replicas, servers[k])
  {
    var m := |servers| - 1;
    LastPoints(hash, replicas, servers, servers[m], p);
    if p in Points(hash, replicas, servers[m]) {
      k := m;
    } else {
      k := RingFrom(hash, replicas, servers[..m], p);
    }
  }

  /** One of the points of a server: the real one, or one of its replicas. */
  ghost predicate PointFor(hash: Hash, replicas: nat, s: Server, p: Point) {
    && p.host == s.addr && p.port == s.port && p.fd == s.fd && p.self == s.self
    && if p.vnode then exists r: nat :: r < replicas && p.bound == hash(Digits(r) + s.addr + s.port) % 4096
       else p.bound == hash(s.addr + s.port) % 4096
  }

  lemma {:induction false} PointForIs(hash: Hash, replicas: nat, s: Server, p: Point)
    ensures PointFor(hash, replicas, s, p) <==> p in Points(hash, replicas, s)
  {
    var ps := Points(hash, replicas, s);
    if PointFor(hash, replicas, s, p) {
      if p.vnode {
        var r: nat :| r < replicas && p.bound == hash(Digits(r) + s.addr + s.port) % 4096;
        assert p == ps[replicas - r];
      } else {
        assert p == ps[0];
      }
    }
    if p in ps {
      var i :| 0 <= i < |ps| && ps[i] == p;
      if i > 0 {
        var r: nat := replicas - i;
        assert p.bound == hash(Digits(r) + s.addr + s.port) % 4096;
      }
    }
  }

  /** The points of the ring are exactly those of its servers. */
  lemma {:induction false} RingOfServers(hash: Hash, replicas: nat, servers: seq<Server>, p: Point)
    ensures p in RingOf(hash, replicas, servers) <==>
            exists k :: 0 <= k < |servers| && PointFor(hash, replicas, servers[k], p)
  {
    if p in RingOf(hash, replicas, servers) {
      var k := RingFrom(hash, replicas, servers, p);
      PointForIs(hash, replicas, servers[k], p);
    }
    if k :| 0 <= k < |servers| && PointFor(hash, replicas, servers[k], p) {
      PointForIs(hash, replicas, servers[k], p);
      RingHolds(hash, replicas, servers, k, servers[k], p);
    }
  }

  /** A run of cluster_add_new_node calls on an empty ring. */
  method Build(hash: Hash, replicas: nat, servers: seq<Server>) returns (c: Cluster)
    ensures c.Valid() && c.Ring() == RingOf(hash, replicas, servers)
    ensures c.size == |servers| && c.len == (1 + replicas) * |servers|
    ensures forall p :: p in c.Ring() <==> exists k :: 0 <= k < |servers| && PointFor(hash, replicas, servers[k], p)
  {
    c := new Cluster(hash, replicas);
    for k := 0 to |servers|
      invariant c.Valid() && fresh(c) && (forall i | 0 <= i < |c.nodes| :: fresh(c.nodes[i]))
      invariant c.hash == hash && c.replicas == replicas && c.size == k
      invariant c.Ring() == RingOf(hash, replicas, servers[..k])
    {
      assert servers[..k + 1][..k] == servers[..k];
      c.AddNode(servers[k]);
    }
    assert servers[..|servers|] == servers;
    RingOfSorted(hash, replicas, servers);
    forall p
      ensures p in c.Ring() <==> exists k :: 0 <= k < |servers| && PointFor(hash, replicas, servers[k], p)
    {
      RingOfServers(hash, replicas, servers, p);
    }
  }
}
