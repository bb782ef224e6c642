/** The growing and shrinking array (src/vector.c). */
module Vector {

  datatype Slot<T> = Null | Item(item: T)

  const INITIAL_CAPACITY: nat := 4

  ghost predicate PowerOfTwo(n: nat) {
    n == 1 || (n > 1 && n % 2 == 0 && PowerOfTwo(n / 2))
  }

  /** `ops` counts the appends and deletes so far and `moved` the elements their resizes carried over. */
  class Vector<T> {
    var items: array<Slot<T>>
    var size: nat
    ghost var ops: nat
    ghost var moved: nat

    ghost predicate Valid()
      reads this, items
    {
      && 2 <= items.Length && PowerOfTwo(items.Length) && size <= items.Length
      && (forall i | 0 <= i < size :: items[i].Item?)
      && moved + Slack(size, items.Length) <= 2 * ops + 2
    }

    /** What the operations since the last resize have saved up for the next one: a resize leaves the
        vector half full, so a growth is paid by appends at two each and a shrinking by deletes at one each. */
    static ghost function Slack(size: nat, maxsize: nat): nat {
      if 2 * size >= maxsize then 2 * size - maxsize else maxsize / 2 - size
    }

    function Contents(): seq<T>
      requires Valid()
      reads this, items
    {
      seq(size, i requires 0 <= i < size && Valid() reads this, items => items[i].item)
    }

    /** vector_new */
    constructor ()
      ensures Valid() && Contents() == [] && fresh(items) && items.Length == 4 && ops == 0 && moved == 0
    {
      items := new Slot<T>[INITIAL_CAPACITY](_ => Null);
      size, ops, moved := 0, 0, 0;
      new;
      assert PowerOfTwo(1) && PowerOfTwo(2);
    }

    /** vector_resize: trealloc keeps the leading slots. */
    method Resize(newsize: nat)
      requires size <= newsize && size <= items.Length
      modifies `items, `moved
      ensures fresh(items) && items.Length == newsize && moved == old(moved) + size
      ensures forall i | 0 <= i < size :: items[i] == old(items[i])
    {
      var a := new Slot<T>[newsize](_ => Null);
      forall i | 0 <= i < size {
        a[i] := items[i];
      }
      items, moved := a, moved + size;
    }

    /** vector_append */
    method Append(x: T)
      requires Valid()
      modifies this, items
      ensures Valid() && (items == old(items) || fresh(items))
      ensures Contents() == old(Contents()) + [x] && ops == old(ops) + 1
      ensures items.Length == if old(size) == old(items.Length) then 2 * old(items.Length) else old(items.Length)
    {
      ghost var before := Contents();
      if items.Length == size {
        Resize(items.Length * 2);
      }
      assert forall i | 0 <= i < size :: items[i] == Item(before[i]);
      items[size] := Item(x);
      size, ops := size + 1, ops + 1;
    }

    /** vector_get */
    function Get(index: nat): (x: T)
      requires Valid() && index < size
      reads this, items
      ensures x == Contents()[index]
    {
      items[index].item
    }

    /** vector_set */
    method Set(index: int, x: T)
      requires Valid()
      modifies items
      ensures Valid()
      ensures Contents() == if 0 <= index < size then old(Contents())[index := x] else old(Contents())
    {
      if 0 <= index < size {
        items[index] := Item(x);
      }
    }

    /** vector_delete */
    method Delete(index: int)
      requires Valid()
      modifies this, items
      ensures Valid() && (items == old(items) || fresh(items)) && ops == old(ops) + 1
      ensures 0 <= index < old(size) ==> Contents() == old(Contents())[..index] + old(Contents())[index + 1..]
      ensures !(0 <= index < old(size)) ==> Contents() == old(Contents())
      ensures var n := old(items.Length);
        items.Length == if 0 < size < old(size) && size == n / 4 then n / 2 else n
    {
      if index < 0 || index >= size {
        ops := ops + 1;
        return;
      }
      ghost var after := Contents()[..index] + Contents()[index + 1..];
      assert Holds(Contents());
      SlackPays(size, items.Length, moved, ops);
      Drop(index, Contents());
      if size > 0 && size == items.Length / 4 {
        Resize(items.Length / 2);
      }
      assert Holds(after);
    }

    /** The first `size` slots hold the elements of s. */
    ghost predicate Holds(s: seq<T>)
      reads this, items
    {
      |s| == size <= items.Length && forall j | 0 <= j < size :: items[j] == Item(s[j])
    }

    method Drop(index: nat, ghost s: seq<T>)
      requires Holds(s) && index < size
      modifies `size, `ops, items
      ensures size == old(size) - 1 && ops == old(ops) + 1 && Holds(s[..index] + s[index + 1..])
    {
      CloseGap(index);
      size, ops := size - 1, ops + 1;
    }

    /** The account stays balanced over a delete, whether or not it shrinks the array. */
    static lemma SlackPays(size: nat, maxsize: nat, moved: nat, ops: nat)
      requires 0 < size <= maxsize && 2 <= maxsize && PowerOfTwo(maxsize)
      requires moved + Slack(size, maxsize) <= 2 * ops + 2
      ensures moved + Slack(size - 1, maxsize) <= 2 * (ops + 1) + 2
      ensures size - 1 > 0 && size - 1 == maxsize / 4 ==>
                && 2 <= maxsize / 2 && PowerOfTwo(maxsize / 2)
                && moved + (size - 1) + Slack(size - 1, maxsize / 2) <= 2 * (ops + 1) + 2
    {
    }

    /** The loop of vector_delete: every later element moves down one slot. */
    method CloseGap(index: nat)
      requires index < size <= items.Length && forall i | 0 <= i < size :: items[i].Item?
      modifies items
      ensures forall j | 0 <= j < index :: items[j] == old(items[j])
      ensures forall j | index <= j < size - 1 :: items[j] == old(items[j + 1])
      ensures items[size - 1] == Null
    {
      items[index] := Null;
      var i := index;
      while i < size - 1
        invariant index <= i <= size - 1 && items[i] == Null
        invariant forall j | 0 <= j < index :: items[j] == old(items[j])
        invariant forall j | index <= j < i :: items[j] == old(items[j + 1])
        invariant forall j | i < j < size :: items[j] == old(items[j])
      {
        items[i] := items[i + 1];
        items[i + 1] := Null;
        i := i + 1;
      }
    }
  }

  datatype Op<T> = Append(x: T) | Delete(index: int)

  /** The sequence after one operation; deleting outside it changes nothing. */
  function After<T>(s: seq<T>, op: Op<T>): seq<T> {
    match op
    case Append(x) => s + [x]
    case Delete(i) => if 0 <= i < |s| then s[..i] + s[i + 1..] else s
  }

  function AfterAll<T>(s: seq<T>, ops: seq<Op<T>>): seq<T> {
    if ops == [] then s else After(AfterAll(s, ops[..|ops| - 1]), ops[|ops| - 1])
  }

  /** Any n appends and deletes on a new vector: it holds the sequence they describe, its array stays a power of two
      of at least two slots, and its resizes have moved at most 2 n + 2 elements. */
  method Run<T>(ops: seq<Op<T>>) returns (v: Vector<T>)
    ensures fresh(v) && fresh(v.items) && v.Valid() && v.Contents() == AfterAll([], ops)
    ensures PowerOfTwo(v.items.Length) && v.items.Length >= 2 && v.size <= v.items.Length
    ensures v.moved <= 2 * |ops| + 2
  {
    v := new Vector<T>();
    var i := 0;
    while i < |ops|
      invariant 0 <= i <= |ops| && fresh(v) && fresh(v.items) && v.Valid() && v.ops == i
      invariant v.Contents() == AfterAll([], ops[..i])
    {
      match ops[i] {
        case Append(x) => v.Append(x);
        case Delete(index) => v.Delete(index);
      }
      assert ops[..i + 1][..i] == ops[..i];
      i := i + 1;
    }
    assert ops[..i] == ops;
  }
}
