/** The in-place quicksort of src/vector.c.  It never moves the pointers held by the vector: it swaps the
    contents of the cells they point to. */
module Quicksort {
  import opened Vector

  /** A heap record a vector slot points to. */
  class Cell<T> {
    var v: T

    constructor (v: T)
      ensures this.v == v
    {
      this.v := v;
    }
  }

  ghost predicate Differ<T>(cells: seq<Cell<T>>, i: nat, j: nat)
    requires i < |cells| && j < |cells|
  {
    cells[i] != cells[j]
  }

  ghost predicate Distinct<T>(cells: seq<Cell<T>>) {
    forall i: nat, j: nat {:trigger Differ(cells, i, j)} | i < |cells| && j < |cells| && i != j :: Differ(cells, i, j)
  }

  ghost function Vals<T>(cells: seq<Cell<T>>): (s: seq<T>)
    reads cells
    ensures |s| == |cells| && forall i | 0 <= i < |s| :: s[i] == cells[i].v
  {
    seq(|cells|, i requires 0 <= i < |cells| reads cells => cells[i].v)
  }

  /** `le` is total and transitive on the values `s`. */
  ghost predicate Orders<T>(le: (T, T) -> bool, s: multiset<T>) {
    && (forall a, b {:trigger le(a, b)} | a in s && b in s :: le(a, b) || le(b, a))
    && (forall a, b, c {:trigger le(a, b), le(b, c)} | a in s && b in s && c in s :: le(a, b) && le(b, c) ==> le(a, c))
  }

  ghost predicate Sorted<T>(le: (T, T) -> bool, s: seq<T>, lo: nat, hi: nat)
    requires lo <= hi <= |s|
  {
    forall i, j | lo <= i < j < hi :: le(s[i], s[j])
  }

  /** `b` rearranges `a`, moving only values from lo..hi to lo..hi. */
  ghost predicate Shuffled<T>(a: seq<T>, b: seq<T>, lo: nat, hi: nat) {
    && |a| == |b| && hi <= |a| && multiset(a) == multiset(b)
    && (forall k | 0 <= k < |a| && !(lo <= k < hi) :: b[k] == a[k])
    && (forall k | lo <= k < hi :: Comes(a, b[k], lo, hi))
  }

  /** `x` is one of the values at lo..hi. */
  ghost predicate Comes<T>(a: seq<T>, x: T, lo: nat, hi: nat)
    requires hi <= |a|
  {
    exists j :: lo <= j < hi && a[j] == x
  }

  /** swap: exchanges the contents of two cells, which may be the same one. */
  method Swap<T>(cells: seq<Cell<T>>, i: nat, j: nat)
    requires i < |cells| && j < |cells| && Distinct(cells)
    modifies cells[i], cells[j]
    ensures Vals(cells) == old(Vals(cells))[i := old(Vals(cells))[j]][j := old(Vals(cells))[i]]
  {
    forall k: nat | k < |cells| && k != i && k != j
      ensures cells[k] != cells[i] && cells[k] != cells[j]
    {
      assert Differ(cells, k, i) && Differ(cells, k, j);
    }
    assert i != j ==> Differ(cells, i, j);
    cells[i].v, cells[j].v := cells[j].v, cells[i].v;
  }

  lemma SwapShuffles<T>(a: seq<T>, b: seq<T>, i: nat, j: nat, lo: nat, hi: nat)
    requires lo <= i <= j < hi <= |b| && Shuffled(a, b, lo, hi)
    ensures Shuffled(a, b[i := b[j]][j := b[i]], lo, hi)
  {
  }

  /** The values `s` while the loop of quicksort stands at `i`, the pivot value being `pv`. */
  ghost predicate Partitioning<T>(le: (T, T) -> bool, s: seq<T>, left: nat, count: nat, i: nat, right: nat, pv: T) {
    && left <= count <= i <= right + 1 <= |s|
    && (forall k | left <= k < count :: le(s[k], pv))
    && (forall k | count <= k < i :: !le(s[k], pv))
    && (if i <= right then s[right] == pv else left < count && s[count - 1] == pv)
  }

  lemma PartitionStep<T>(le: (T, T) -> bool, s: seq<T>, left: nat, count: nat, i: nat, right: nat, pv: T)
    requires Partitioning(le, s, left, count, i, right, pv) && i <= right && le(pv, pv)
    ensures le(s[i], pv) ==> Partitioning(le, s[count := s[i]][i := s[count]], left, count + 1, i + 1, right, pv)
    ensures !le(s[i], pv) ==> Partitioning(le, s, left, count, i + 1, right, pv)
  {
  }

  /** The state of the loop of quicksort, the values having been `before` at the start. */
  ghost predicate Standing<T>(le: (T, T) -> bool, before: seq<T>, s: seq<T>, left: nat, count: nat, i: nat,
                              right: nat,
                              pv: T)
  {
    Partitioning(le, s, left, count, i, right, pv) && Shuffled(before, s, left, right + 1)
  }

  /** One round of the loop of quicksort: a value not above the pivot moves down to `count`. */
  method Round<T>(cells: seq<Cell<T>>, left: nat, count: nat, i: nat, right: nat, le: (T, T) -> bool,
                  ghost before: seq<T>, ghost pv: T)
    returns (next: nat)
    requires Distinct(cells) && i <= right && le(pv, pv)
    requires Standing(le, before, Vals(cells), left, count, i, right, pv)
    modifies cells
    ensures Standing(le, before, Vals(cells), left, next, i + 1, right, pv)
  {
    ghost var s := Vals(cells);
    PartitionStep(le, s, left, count, i, right, pv);
    next := count;
    if le(cells[i].v, cells[right].v) {
      SwapShuffles(before, s, count, i, left, right + 1);
      Swap(cells, count, i);
      next := count + 1;
    }
  }

  /** The loop of quicksort.  The pivot is read through its cell, so its value must not change before the
      last round; in that round it is compared with itself and lands at count - 1. */
  method Partition<T>(cells: seq<Cell<T>>, left: nat, right: nat, le: (T, T) -> bool) returns (count: nat)
    requires left < right < |cells| && Distinct(cells) && le(cells[right].v, cells[right].v)
    modifies cells
    ensures Shuffled(old(Vals(cells)), Vals(cells), left, right + 1)
    ensures left < count && Partitioning(le, Vals(cells), left, count, right + 1, right, old(cells[right].v))
  {
    ghost var before, pv := Vals(cells), cells[right].v;
    count := left;
    var i := left;
    while i <= right
      invariant left <= i <= right + 1 && Standing(le, before, Vals(cells), left, count, i, right, pv)
    {
      count := Round(cells, left, count, i, right, le, before, pv);
      i := i + 1;
    }
  }

  /** quicksort: sorts the positions left..right (inclusive) and touches no other. */
  method Sort<T>(cells: seq<Cell<T>>, left: nat, right: int, le: (T, T) -> bool)
    requires left <= right + 1 <= |cells| && Distinct(cells) && Orders(le, multiset(Vals(cells)))
    modifies cells
    decreases right - left
    ensures Shuffled(old(Vals(cells)), Vals(cells), left, right + 1) && Sorted(le, Vals(cells), left, right + 1)
  {
    if left >= right {
      return;
    }
    ghost var a := Vals(cells);
    assert a[right] in multiset(a) && le(a[right], a[right]);
    var count: int := Partition(cells, left, right, le);
    ghost var b := Vals(cells);
    Sort(cells, left, count - 2, le);
    ghost var c := Vals(cells);
    Sort(cells, count, right, le);
    ghost var d := Vals(cells);
    Conclude(le, a, b, c, d, left, count, right);
  }

  lemma ShuffledTwice<T>(a: seq<T>, b: seq<T>, c: seq<T>, lo: nat, hi: nat, lo': nat, hi': nat)
    requires lo <= lo' <= hi' <= hi && Shuffled(a, b, lo, hi) && Shuffled(b, c, lo', hi')
    ensures Shuffled(a, c, lo, hi)
  {
    forall k | lo <= k < hi
      ensures Comes(a, c[k], lo, hi)
    {
      if lo' <= k < hi' {
        var j :| lo' <= j < hi' && b[j] == c[k];
        assert Comes(a, b[j], lo, hi);
      } else {
        assert Comes(a, b[k], lo, hi);
      }
    }
  }

  lemma Conclude<T>(le: (T, T) -> bool, a: seq<T>, b: seq<T>, c: seq<T>, d: seq<T>, left: nat, count: nat, right: nat)
    requires left < count <= right + 1 <= |b| && Orders(le, multiset(b)) && Shuffled(a, b, left, right + 1)
    requires Partitioning(le, b, left, count, right + 1, right, b[count - 1])
    requires Shuffled(b, c, left, count - 1) && Sorted(le, c, left, count - 1)
    requires Shuffled(c, d, count, right + 1) && Sorted(le, d, count, right + 1)
    ensures Shuffled(a, d, left, right + 1) && Sorted(le, d, left, right + 1)
  {
    ShuffledTwice(a, b, c, left, right + 1, left, count - 1);
    ShuffledTwice(a, c, d, left, right + 1, count, right + 1);
    Joined(le, b, c, d, left, count, right);
  }

  /** Sorting the two sides of a partitioned range sorts the range. */
  lemma Joined<T>(le: (T, T) -> bool, b: seq<T>, c: seq<T>, d: seq<T>, left: nat, count: nat, right: nat)
    requires left < count <= right + 1 <= |b| && Orders(le, multiset(b))
    requires Partitioning(le, b, left, count, right + 1, right, b[count - 1])
    requires Shuffled(b, c, left, count - 1) && Sorted(le, c, left, count - 1)
    requires Shuffled(c, d, count, right + 1) && Sorted(le, d, count, right + 1)
    ensures Sorted(le, d, left, right + 1)
  {
    forall i, j | left <= i < j < right + 1
      ensures le(d[i], d[j])
    {
      if j < count - 1 {
        assert d[i] == c[i] && d[j] == c[j];
      } else if i < count {
        Sides(le, b, c, d, left, count, right, i);
        Sides(le, b, c, d, left, count, right, j);
        assert b[count - 1] in multiset(b);
        Across(le, multiset(b), d[i], b[count - 1], d[j]);
      }
    }
  }

  lemma Across<T>(le: (T, T) -> bool, s: multiset<T>, x: T, p: T, y: T)
    requires Orders(le, s) && x in s && p in s && y in s
    requires le(x, p) && (!le(y, p) || y == p)
    ensures le(x, y)
  {
    assert le(y, p) || le(p, y);
  }

  /** Sorting the two sides keeps every value on its side of the pivot. */
  lemma Sides<T>(le: (T, T) -> bool, b: seq<T>, c: seq<T>, d: seq<T>, left: nat, count: nat, right: nat, k: nat)
    requires left < count <= right + 1 <= |b| && left <= k <= right
    requires Partitioning(le, b, left, count, right + 1, right, b[count - 1])
    requires Shuffled(b, c, left, count - 1) && Shuffled(c, d, count, right + 1)
    ensures if k < count then le(d[k], b[count - 1]) else !le(d[k], b[count - 1])
    ensures d[k] in multiset(b) && (k == count - 1 ==> d[k] == b[k])
  {
    if k < count - 1 {
      assert Comes(b, c[k], left, count - 1);
    } else if k >= count {
      assert Comes(c, d[k], count, right + 1);
    }
  }

  /** vector_qsort: the pointers stay where they are, the records they point to come out sorted. */
  method SortVector<T>(v: Vector<Cell<T>>, le: (T, T) -> bool)
    requires v.Valid() && Distinct(v.Contents()) && Orders(le, multiset(Vals(v.Contents())))
    modifies v.Contents()
    ensures v.Valid() && v.Contents() == old(v.Contents())
    ensures multiset(Vals(v.Contents())) == old(multiset(Vals(v.Contents())))
    ensures Sorted(le, Vals(v.Contents()), 0, v.size)
  {
    if v.size < 2 {
      return;
    }
    Sort(v.Contents(), 0, v.size - 1, le);
  }
}
