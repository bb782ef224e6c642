/** The singly linked list and its in-place merge sort (src/list.c). */
module List {

  class Node<T(0)> {
    const data: T
    var next: Node?<T>

    constructor (data: T, next: Node?<T>)
      ensures this.data == data && this.next == next
    {
      this.data, this.next := data, next;
    }

    /** The dummy head of merge_list, whose data is never read. */
    constructor Dummy()
      ensures next == null
    {
      next := null;
    }
  }

  /** Consecutive nodes of `s` are linked, and no node occurs twice. */
  ghost predicate Chain<T(0)>(s: seq<Node<T>>)
    reads s
  {
    forall i | 0 <= i < |s| - 1 :: s[i].next == s[i + 1]
  }

  ghost predicate Distinct<T>(s: seq<T>) {
    forall i, j | 0 <= i < j < |s| :: s[i] != s[j]
  }

  /** The null-terminated list at `head` consists of the nodes `s`. */
  ghost predicate IsList<T(0)>(head: Node?<T>, s: seq<Node<T>>)
    reads s
  {
    && Chain(s) && Distinct(s)
    && (if s == [] then head == null else head == s[0] && s[|s| - 1].next == null)
  }

  /** list_push: a new node in front. */
  lemma Pushed<T(0)>(n: Node<T>, head: Node?<T>, s: seq<Node<T>>)
    requires IsList(head, s) && n.next == head && n !in s
    ensures IsList(n, [n] + s)
  {
    assert forall i | 0 <= i < |s| :: ([n] + s)[i + 1] == s[i];
  }

  /** bisect_list: cuts a list of two or more nodes after its first half. */
  method Bisect<T(0)>(head: Node<T>, ghost s: seq<Node<T>>) returns (mid: Node<T>)
    requires IsList(head, s) && |s| >= 2
    modifies s
    ensures IsList(head, s[..|s| / 2]) && IsList(mid, s[|s| / 2..])
  {
    var fast: Node?<T>, slow: Node<T>, prev: Node?<T> := head, head, null;
    ghost var i := 0;
    while fast != null && fast.next != null
      invariant 0 <= 2 * i <= |s| && i < |s|
      invariant slow == s[i] && (if 2 * i < |s| then fast == s[2 * i] else fast == null)
      invariant if i == 0 then prev == null else prev == s[i - 1]
      invariant 2 * i + 1 < |s| ==> s[2 * i].next == s[2 * i + 1]
      decreases |s| - i
    {
      assert s[2 * i].next == s[2 * i + 1] && s[i].next == s[i + 1];
      assert 2 * i + 2 < |s| ==> s[2 * i + 1].next == s[2 * i + 2];
      fast := fast.next.next;
      prev := slow;
      slow := slow.next;
      i := i + 1;
    }
    assert i == |s| / 2;
    if prev != null {
      prev.next := null;
    }
    mid := slow;
  }

  /** merge_list on the sequence of elements: on a tie the first list goes first. */
  function Merge<T>(a: seq<T>, b: seq<T>, cmp: (T, T) -> int): seq<T> {
    if a == [] then b
    else if b == [] then a
    else if cmp(a[0], b[0]) <= 0 then [a[0]] + Merge(a[1..], b, cmp)
    else [b[0]] + Merge(a, b[1..], cmp)
  }

  /** list_merge_sort on the sequence of elements. */
  function Sort<T>(s: seq<T>, cmp: (T, T) -> int): seq<T> {
    if |s| < 2 then s else Merge(Sort(s[..|s| / 2], cmp), Sort(s[|s| / 2..], cmp), cmp)
  }

  /** Comparing nodes by their data. */
  function OnData<T(0)>(cmp: (T, T) -> int): (Node<T>, Node<T>) -> int {
    (m: Node<T>, n: Node<T>) => cmp(m.data, n.data)
  }

  ghost predicate Disjoint<T>(a: seq<T>, b: seq<T>) {
    forall i, j | 0 <= i < |a| && 0 <= j < |b| :: a[i] != b[j]
  }

  lemma ListTail<T(0)>(head: Node<T>, s: seq<Node<T>>)
    requires IsList(head, s)
    ensures s != [] && head == s[0] && IsList(head.next, s[1..])
  {
    if |s| > 1 {
      assert s[0].next == s[1];
    }
    forall i | 0 <= i < |s[1..]| - 1
      ensures s[1..][i].next == s[1..][i + 1]
    {
      assert s[i + 1].next == s[i + 2];
    }
  }

  /** Inside merge_list: `done`, headed by the dummy, is linked up to `tail`; `a` and `b` are still to be
      merged. */
  ghost predicate Merging<T(0)>(done: seq<Node<T>>, tail: Node<T>, list1: Node?<T>, a: seq<Node<T>>,
                                list2: Node?<T>, b: seq<Node<T>>)
    reads done, a, b
  {
    && done != [] && tail == done[|done| - 1] && Chain(done) && Distinct(done)
    && IsList(list1, a) && IsList(list2, b)
    && Disjoint(done, a) && Disjoint(done, b) && Disjoint(a, b)
  }

  /** One round of merge_list that takes the head of the first list. */
  method Take<T(0)>(tail: Node<T>, list1: Node<T>, list2: Node?<T>, ghost done: seq<Node<T>>, ghost a: seq<Node<T>>,
                    ghost b: seq<Node<T>>)
    requires Merging(done, tail, list1, a, list2, b)
    modifies tail
    ensures a != [] && list1 == a[0] && Merging(done + [list1], list1, list1.next, a[1..], list2, b)
  {
    ListTail(list1, a);
    tail.next := list1;
    assert IsList(list2, b) && IsList(list1.next, a[1..]);
  }

  lemma DropFirst<T>(a: seq<T>, b: seq<T>)
    requires a != []
    ensures (a + b)[1..] == a[1..] + b
  {
  }

  lemma MergeStep<T>(done: seq<T>, a: seq<T>, b: seq<T>, cmp: (T, T) -> int)
    requires done != [] && a != [] && b != []
    ensures cmp(a[0], b[0]) <= 0 ==> done[1..] + Merge(a, b, cmp) == (done + [a[0]])[1..] + Merge(a[1..], b, cmp)
    ensures cmp(a[0], b[0]) > 0 ==> done[1..] + Merge(a, b, cmp) == (done + [b[0]])[1..] + Merge(a, b[1..], cmp)
  {
  }

  /** One round of merge_list: the smaller head, the first one on a tie, is spliced behind `tail`. */
  method Round<T(0)>(tail: Node<T>, list1: Node<T>, list2: Node<T>, cmp: (T, T) -> int, ghost m: Pending<T>)
    returns (list1': Node?<T>, list2': Node?<T>, tail': Node<T>, ghost m': Pending<T>)
    requires Merging(m.done, tail, list1, m.a, list2, m.b)
    modifies tail
    ensures Merging(m'.done, tail', list1', m'.a, list2', m'.b) && Advanced(m, m', OnData(cmp))
  {
    ListTail(list1, m.a);
    ListTail(list2, m.b);
    MergeStep(m.done, m.a, m.b, OnData(cmp));
    if cmp(list1.data, list2.data) <= 0 {
      Take(tail, list1, list2, m.done, m.a, m.b);
      list1', list2', tail', m' := list1.next, list2, list1, Pending(m.done + [list1], m.a[1..], m.b);
    } else {
      Take(tail, list2, list1, m.done, m.b, m.a);
      list1', list2', tail', m' := list1, list2.next, list2, Pending(m.done + [list2], m.a, m.b[1..]);
    }
  }

  /** The nodes merged so far, behind the dummy, and those still to come. */
  datatype Pending<T(0)> = Pending(done: seq<Node<T>>, a: seq<Node<T>>, b: seq<Node<T>>)

  ghost predicate Advanced<T(0)>(m: Pending<T>, m': Pending<T>, cmp: (Node<T>, Node<T>) -> int) {
    && m.done != [] && m'.done != [] && m'.done[0] == m.done[0]
    && m.done[1..] + Merge(m.a, m.b, cmp) == m'.done[1..] + Merge(m'.a, m'.b, cmp)
    && |m'.a| + |m'.b| < |m.a| + |m.b|
    && (m'.done[|m'.done| - 1] in m.a || m'.done[|m'.done| - 1] in m.b)
    && (forall n | n in m'.a :: n in m.a) && (forall n | n in m'.b :: n in m.b)
  }

  /** The loop of merge_list, until one of the lists is used up. */
  method Splice<T(0)>(dummy: Node<T>, head1: Node?<T>, head2: Node?<T>, cmp: (T, T) -> int, ghost s1: seq<Node<T>>,
                      ghost s2: seq<Node<T>>)
    returns (tail: Node<T>, list: Node?<T>, ghost done: seq<Node<T>>, ghost rest: seq<Node<T>>)
    requires Merging([dummy], dummy, head1, s1, head2, s2)
    modifies s1, s2, dummy
    ensures tail == dummy || tail in s1 || tail in s2
    ensures done != [] && done[0] == dummy && tail == done[|done| - 1] && Chain(done) && Distinct(done)
    ensures IsList(list, rest) && Disjoint(done, rest)
    ensures done[1..] + rest == Merge(s1, s2, OnData(cmp))
  {
    var list1, list2 := head1, head2;
    tail := dummy;
    ghost var m: Pending<T> := Pending([dummy], s1, s2);
    while list1 != null && list2 != null
      invariant Merging(m.done, tail, list1, m.a, list2, m.b) && m.done[0] == dummy
      invariant Merge(s1, s2, OnData(cmp)) == m.done[1..] + Merge(m.a, m.b, OnData(cmp))
      invariant tail == dummy || tail in s1 || tail in s2
      invariant (forall n | n in m.a :: n in s1) && (forall n | n in m.b :: n in s2)
      decreases |m.a| + |m.b|
    {
      list1, list2, tail, m := Round(tail, list1, list2, cmp, m);
    }
    done := m.done;
    if list1 != null {
      return tail, list1, done, m.a;
    } else {
      return tail, list2, done, m.b;
    }
  }

  /** merge_list */
  method MergeLists<T(0)>(head1: Node?<T>, head2: Node?<T>, cmp: (T, T) -> int, ghost s1: seq<Node<T>>,
                          ghost s2: seq<Node<T>>)
    returns (r: Node?<T>)
    requires IsList(head1, s1) && IsList(head2, s2) && Disjoint(s1, s2)
    modifies s1, s2
    ensures IsList(r, Merge(s1, s2, OnData(cmp)))
  {
    var dummy := new Node<T>.Dummy();
    var tail, list;
    ghost var done, rest;
    tail, list, done, rest := Splice(dummy, head1, head2, cmp, s1, s2);
    Finish(tail, list, done, rest);
    ListTail(dummy, done + rest);
    DropFirst(done, rest);
    r := dummy.next;
  }

  method Finish<T(0)>(tail: Node<T>, list: Node?<T>, ghost done: seq<Node<T>>, ghost rest: seq<Node<T>>)
    requires done != [] && tail == done[|done| - 1] && Chain(done) && Distinct(done)
    requires IsList(list, rest) && Disjoint(done, rest)
    modifies tail
    ensures IsList(done[0], done + rest)
  {
    tail.next := list;
    assert IsList(list, rest);
  }

  lemma {:induction false} MergePermutes<T>(a: seq<T>, b: seq<T>, cmp: (T, T) -> int)
    ensures multiset(Merge(a, b, cmp)) == multiset(a) + multiset(b)
  {
    if a != [] && b != [] {
      assert a == [a[0]] + a[1..] && b == [b[0]] + b[1..];
      if cmp(a[0], b[0]) <= 0 {
        MergePermutes(a[1..], b, cmp);
      } else {
        MergePermutes(a, b[1..], cmp);
      }
    }
  }

  lemma {:induction false} SortPermutes<T>(s: seq<T>, cmp: (T, T) -> int)
    ensures multiset(Sort(s, cmp)) == multiset(s)
  {
    if |s| >= 2 {
      var h := |s| / 2;
      SortPermutes(s[..h], cmp);
      SortPermutes(s[h..], cmp);
      MergePermutes(Sort(s[..h], cmp), Sort(s[h..], cmp), cmp);
      HalvesSum(s, h);
    }
  }

  lemma HalvesSum<T>(s: seq<T>, h: nat)
    requires h <= |s|
    ensures multiset(s[..h]) + multiset(s[h..]) == multiset(s)
  {
    assert s == s[..h] + s[h..];
  }

  lemma SortSameElements<T>(a: seq<T>, cmp: (T, T) -> int)
    ensures forall i | 0 <= i < |Sort(a, cmp)| :: Sort(a, cmp)[i] in a
  {
    SortPermutes(a, cmp);
    forall i | 0 <= i < |Sort(a, cmp)|
      ensures Sort(a, cmp)[i] in a
    {
      assert Sort(a, cmp)[i] in multiset(Sort(a, cmp));
    }
  }

  /** Sorting the second half does not disturb the sorted first half. */
  lemma HalvesApart<T>(s: seq<T>, h: nat, cmp: (T, T) -> int)
    requires Distinct(s) && h <= |s|
    ensures Disjoint(s[..h], s[h..]) && Disjoint(Sort(s[..h], cmp), s[h..])
    ensures Disjoint(Sort(s[..h], cmp), Sort(s[h..], cmp))
    ensures forall i | 0 <= i < |Sort(s[..h], cmp)| :: Sort(s[..h], cmp)[i] in s
    ensures forall i | 0 <= i < |Sort(s[h..], cmp)| :: Sort(s[h..], cmp)[i] in s
  {
    SortSameElements(s[..h], cmp);
    SortSameElements(s[h..], cmp);
  }

  /** list_merge_sort: relinks exactly the given nodes into their sorted order. */
  method MergeSort<T(0)>(head: Node?<T>, cmp: (T, T) -> int, ghost s: seq<Node<T>>) returns (r: Node?<T>)
    requires IsList(head, s)
    modifies s
    decreases |s|
    ensures IsList(r, Sort(s, OnData(cmp)))
  {
    assert |s| >= 2 ==> s[0].next == s[1];
    if head == null || head.next == null {
      return head;
    }
    ghost var h := |s| / 2;
    HalvesApart(s, h, OnData(cmp));
    var mid := Bisect(head, s);
    var list1 := MergeSort(head, cmp, s[..h]);
    var list2 := MergeSort(mid, cmp, s[h..]);
    r := MergeLists(list1, list2, cmp, Sort(s[..h], OnData(cmp)), Sort(s[h..], OnData(cmp)));
  }

  /** `cmp` orders the elements of `s`: it is total and transitive there. */
  ghost predicate Orders<T>(cmp: (T, T) -> int, s: multiset<T>) {
    forall x, y, z {:trigger Compares(cmp, x, y, z)} | x in s && y in s && z in s :: Compares(cmp, x, y, z)
  }

  ghost predicate Compares<T>(cmp: (T, T) -> int, x: T, y: T, z: T) {
    && (cmp(x, y) <= 0 || cmp(y, x) <= 0)
    && (cmp(x, y) <= 0 && cmp(y, z) <= 0 ==> cmp(x, z) <= 0)
  }

  ghost predicate Sorted<T>(s: seq<T>, cmp: (T, T) -> int) {
    forall i, j | 0 <= i < j < |s| :: cmp(s[i], s[j]) <= 0
  }

  /** The elements of `s` that compare equal to `x`, in order. */
  ghost function Ties<T>(s: seq<T>, x: T, cmp: (T, T) -> int): seq<T> {
    if s == [] then []
    else if cmp(s[0], x) <= 0 && cmp(x, s[0]) <= 0 then [s[0]] + Ties(s[1..], x, cmp)
    else Ties(s[1..], x, cmp)
  }

  lemma ConsSorted<T>(x: T, s: seq<T>, cmp: (T, T) -> int)
    requires Sorted(s, cmp) && forall i | 0 <= i < |s| :: cmp(x, s[i]) <= 0
    ensures Sorted([x] + s, cmp)
  {
  }

  ghost predicate Within<T>(s: seq<T>, all: multiset<T>) {
    forall i | 0 <= i < |s| :: s[i] in all
  }

  /** The smaller head of two sorted lists is below everything that remains. */
  lemma HeadLeast<T>(x: T, a: seq<T>, b: seq<T>, m: seq<T>, cmp: (T, T) -> int, all: multiset<T>)
    requires Orders(cmp, all) && x in all && Within(b, all)
    requires multiset(m) == multiset(a) + multiset(b) && b != []
    requires Sorted(b, cmp) && cmp(x, b[0]) <= 0 && forall i | 0 <= i < |a| :: cmp(x, a[i]) <= 0
    ensures forall i | 0 <= i < |m| :: cmp(x, m[i]) <= 0
  {
    forall i | 0 <= i < |m|
      ensures cmp(x, m[i]) <= 0
    {
      assert m[i] in multiset(m);
      if m[i] in multiset(b) {
        var j :| 0 <= j < |b| && b[j] == m[i];
        assert Compares(cmp, x, b[0], b[j]);
      }
    }
  }

  /** Putting the smaller head in front of the sorted merge of what remains. */
  lemma FrontSorted<T>(x: T, a: seq<T>, b: seq<T>, m: seq<T>, cmp: (T, T) -> int, all: multiset<T>)
    requires Orders(cmp, all) && x in all && Within(b, all)
    requires Sorted([x] + a, cmp) && Sorted(b, cmp) && b != [] && cmp(x, b[0]) <= 0
    requires Sorted(m, cmp) && multiset(m) == multiset(a) + multiset(b)
    ensures Sorted([x] + m, cmp)
  {
    forall i | 0 <= i < |a|
      ensures cmp(x, a[i]) <= 0
    {
      assert ([x] + a)[0] == x && ([x] + a)[i + 1] == a[i];
    }
    HeadLeast(x, a, b, m, cmp, all);
    ConsSorted(x, m, cmp);
  }

  lemma {:induction false} MergeSorts<T>(a: seq<T>, b: seq<T>, cmp: (T, T) -> int, all: multiset<T>)
    requires Orders(cmp, all) && Within(a, all) && Within(b, all) && Sorted(a, cmp) && Sorted(b, cmp)
    ensures Sorted(Merge(a, b, cmp), cmp)
  {
    if a != [] && b != [] {
      assert a == [a[0]] + a[1..] && b == [b[0]] + b[1..];
      assert Compares(cmp, a[0], b[0], b[0]);
      if cmp(a[0], b[0]) <= 0 {
        MergeSorts(a[1..], b, cmp, all);
        MergePermutes(a[1..], b, cmp);
        FrontSorted(a[0], a[1..], b, Merge(a[1..], b, cmp), cmp, all);
      } else {
        MergeSorts(a, b[1..], cmp, all);
        MergePermutes(a, b[1..], cmp);
        FrontSorted(b[0], b[1..], a, Merge(a, b[1..], cmp), cmp, all);
      }
    }
  }

  /** list_merge_sort sorts. */
  lemma SortSorts<T>(s: seq<T>, cmp: (T, T) -> int)
    requires Orders(cmp, multiset(s))
    ensures Sorted(Sort(s, cmp), cmp)
  {
    SortSortsFor(s, cmp, multiset(s));
  }

  lemma {:induction false} SortSortsFor<T>(s: seq<T>, cmp: (T, T) -> int, all: multiset<T>)
    requires Orders(cmp, all) && Within(s, all)
    ensures Sorted(Sort(s, cmp), cmp)
  {
    if |s| >= 2 {
      var h := |s| / 2;
      SortSortsFor(s[..h], cmp, all);
      SortSortsFor(s[h..], cmp, all);
      SortSameElements(s[..h], cmp);
      SortSameElements(s[h..], cmp);
      MergeSorts(Sort(s[..h], cmp), Sort(s[h..], cmp), cmp, all);
    }
  }

  lemma {:induction false} TiesConcat<T>(a: seq<T>, b: seq<T>, x: T, cmp: (T, T) -> int)
    ensures Ties(a + b, x, cmp) == Ties(a, x, cmp) + Ties(b, x, cmp)
  {
    if a == [] {
      assert a + b == b;
    } else {
      assert (a + b)[1..] == a[1..] + b;
      TiesConcat(a[1..], b, x, cmp);
    }
  }

  /** A sorted list holds no tie of `x` behind an element above `x`. */
  lemma {:induction false} NoTies<T>(a: seq<T>, x: T, cmp: (T, T) -> int)
    requires forall i | 0 <= i < |a| :: cmp(a[i], x) > 0 || cmp(x, a[i]) > 0
    ensures Ties(a, x, cmp) == []
  {
    if a != [] {
      NoTies(a[1..], x, cmp);
    }
  }

  /** Merging keeps ties in order, those of the first list first. */
  lemma {:induction false} MergeStable<T>(a: seq<T>, b: seq<T>, x: T, cmp: (T, T) -> int, all: multiset<T>)
    requires Orders(cmp, all) && Within(a, all) && Within(b, all) && x in all && Sorted(a, cmp)
    ensures Ties(Merge(a, b, cmp), x, cmp) == Ties(a, x, cmp) + Ties(b, x, cmp)
  {
    if a != [] && b != [] {
      if cmp(a[0], b[0]) <= 0 {
        MergeStable(a[1..], b, x, cmp, all);
        assert ([a[0]] + Merge(a[1..], b, cmp))[1..] == Merge(a[1..], b, cmp);
      } else {
        MergeStable(a, b[1..], x, cmp, all);
        assert ([b[0]] + Merge(a, b[1..], cmp))[1..] == Merge(a, b[1..], cmp);
        if cmp(b[0], x) <= 0 && cmp(x, b[0]) <= 0 {
          forall i | 0 <= i < |a|
            ensures cmp(a[i], x) > 0 || cmp(x, a[i]) > 0
          {
            assert Compares(cmp, a[0], a[i], b[0]) && Compares(cmp, a[i], x, b[0]) && Compares(cmp, a[0], a[0], a[0]);
          }
          NoTies(a, x, cmp);
        }
      }
    }
  }

  /** list_merge_sort is stable: elements that compare equal keep their order. */
  lemma SortStable<T>(s: seq<T>, x: T, cmp: (T, T) -> int)
    requires Orders(cmp, multiset(s)) && x in s
    ensures Ties(Sort(s, cmp), x, cmp) == Ties(s, x, cmp)
  {
    SortStableFor(s, x, cmp, multiset(s));
  }

  lemma {:induction false} SortStableFor<T>(s: seq<T>, x: T, cmp: (T, T) -> int, all: multiset<T>)
    requires Orders(cmp, all) && Within(s, all) && x in all
    ensures Ties(Sort(s, cmp), x, cmp) == Ties(s, x, cmp)
  {
    if |s| >= 2 {
      var h := |s| / 2;
      assert s == s[..h] + s[h..];
      SortStableFor(s[..h], x, cmp, all);
      SortStableFor(s[h..], x, cmp, all);
      TiesConcat(s[..h], s[h..], x, cmp);
      SortSameElements(s[..h], cmp);
      SortSameElements(s[h..], cmp);
      SortSortsFor(s[..h], cmp, all);
      MergeStable(Sort(s[..h], cmp), Sort(s[h..], cmp), x, cmp, all);
    }
  }

  lemma {:induction false} TiesMember<T>(s: seq<T>, x: T, cmp: (T, T) -> int)
    ensures forall i | 0 <= i < |Ties(s, x, cmp)| :: Ties(s, x, cmp)[i] in s
  {
    if s != [] {
      TiesMember(s[1..], x, cmp);
    }
  }

  /** The head of a sorted list is below each of its elements. */
  lemma HeadBelow<T>(s: seq<T>, x: T, cmp: (T, T) -> int, all: multiset<T>)
    requires Orders(cmp, all) && Within(s, all) && Sorted(s, cmp) && x in s
    ensures cmp(s[0], x) <= 0
  {
    assert Compares(cmp, s[0], s[0], s[0]);
  }

  ghost predicate SameTies<T>(a: seq<T>, b: seq<T>, x: T, cmp: (T, T) -> int) {
    Ties(a, x, cmp) == Ties(b, x, cmp)
  }

  /** Sorted arrangements with the same ties of their two heads start with the same element. */
  lemma SameHead<T>(a: seq<T>, b: seq<T>, cmp: (T, T) -> int, all: multiset<T>)
    requires Orders(cmp, all) && Within(a, all) && Within(b, all) && Sorted(a, cmp) && Sorted(b, cmp)
    requires a != [] && b != [] && SameTies(a, b, a[0], cmp) && SameTies(a, b, b[0], cmp)
    ensures a[0] == b[0]
  {
    var x, y := a[0], b[0];
    assert Compares(cmp, x, x, x) && Compares(cmp, y, y, y);
    assert Ties(a, x, cmp)[0] == x && Ties(b, y, cmp)[0] == y;
    TiesMember(b, x, cmp);
    TiesMember(a, y, cmp);
    HeadBelow(b, x, cmp, all);
    HeadBelow(a, y, cmp, all);
    assert Ties(b, x, cmp)[0] == y;
  }

  lemma HeadTies<T>(a: seq<T>, b: seq<T>, cmp: (T, T) -> int, all: multiset<T>)
    requires Orders(cmp, all) && Within(a, all) && a != [] && SameTies(a, b, a[0], cmp)
    ensures b != []
  {
    assert Compares(cmp, a[0], a[0], a[0]);
  }

  /** A sorted arrangement is determined by the order of its ties: there is only one stable sort. */
  lemma {:induction false} StableSortUnique<T>(a: seq<T>, b: seq<T>, cmp: (T, T) -> int, all: multiset<T>)
    requires Orders(cmp, all) && Within(a, all) && Within(b, all) && Sorted(a, cmp) && Sorted(b, cmp)
    requires forall x {:trigger SameTies(a, b, x, cmp)} | x in all :: SameTies(a, b, x, cmp)
    ensures a == b
  {
    if a != [] || b != [] {
      if a != [] {
        assert SameTies(a, b, a[0], cmp);
        HeadTies(a, b, cmp, all);
      }
      assert SameTies(a, b, b[0], cmp);
      HeadTies(b, a, cmp, all);
      SameHead(a, b, cmp, all);
      forall x | x in all
        ensures SameTies(a[1..], b[1..], x, cmp)
      {
        assert SameTies(a, b, x, cmp);
        if cmp(a[0], x) <= 0 && cmp(x, a[0]) <= 0 {
          assert Ties(a[1..], x, cmp) == Ties(a, x, cmp)[1..] && Ties(b[1..], x, cmp) == Ties(b, x, cmp)[1..];
        }
      }
      StableSortUnique(a[1..], b[1..], cmp, all);
      assert a == [a[0]] + a[1..] && b == [b[0]] + b[1..];
    }
  }

  /** The data of a sequence of nodes. */
  ghost function Data<T(0)>(s: seq<Node<T>>): (d: seq<T>)
    ensures |d| == |s|
  {
    seq(|s|, i requires 0 <= i < |s| => s[i].data)
  }

  /** Sorting nodes by their data sorts the data. */
  lemma {:induction false} SortData<T(0)>(s: seq<Node<T>>, cmp: (T, T) -> int)
    ensures Data(Sort(s, OnData(cmp))) == Sort(Data(s), cmp)
  {
    if |s| >= 2 {
      var h := |s| / 2;
      SortData(s[..h], cmp);
      SortData(s[h..], cmp);
      assert Data(s[..h]) == Data(s)[..h] && Data(s[h..]) == Data(s)[h..];
      MergeData(Sort(s[..h], OnData(cmp)), Sort(s[h..], OnData(cmp)), cmp);
    }
  }

  lemma {:induction false} MergeData<T(0)>(a: seq<Node<T>>, b: seq<Node<T>>, cmp: (T, T) -> int)
    ensures Data(Merge(a, b, OnData(cmp))) == Merge(Data(a), Data(b), cmp)
  {
    if a != [] && b != [] {
      assert Data(a)[1..] == Data(a[1..]) && Data(b)[1..] == Data(b[1..]);
      if cmp(a[0].data, b[0].data) <= 0 {
        MergeData(a[1..], b, cmp);
        assert Data([a[0]] + Merge(a[1..], b, OnData(cmp))) == [a[0].data] + Data(Merge(a[1..], b, OnData(cmp)));
      } else {
        MergeData(a, b[1..], cmp);
        assert Data([b[0]] + Merge(a, b[1..], OnData(cmp))) == [b[0].data] + Data(Merge(a, b[1..], OnData(cmp)));
      }
    }
  }
}
