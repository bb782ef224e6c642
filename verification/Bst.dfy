/** The per-node children tree of the trie (src/bst.c): a binary search tree keyed by bytes.

    The source means it to be an AVL tree, but `1 + MAX(a, b)` expands to `(1 + a) > b ? a : b`, so every
    stored height stays 1, every balance stays within -1..1 and no rotation branch of `bst_insert` is ever
    taken.  What does hold, and is proved here, is the order of the keys and the contents.

    Nodes live on the heap.  A `Shape` is the ghost description of which node hangs where; since a node's key
    and data never change, order and contents are properties of the shape alone. */
module Bst {
  import opened Bytes

  class Node<T> {
    const key: Byte
    const data: T
    var height: int
    var left: Node?<T>
    var right: Node?<T>

    /** bst_new */
    constructor (key: Byte, data: T)
      ensures this.key == key && this.data == data && height == 1 && left == null && right == null
    {
      this.key, this.data := key, data;
      height, left, right := 1, null, null;
    }
  }

  datatype Shape<T> = Empty | Branch(node: Node<T>, left: Shape<T>, right: Shape<T>)

  ghost function Nodes<T>(s: Shape<T>): set<Node<T>> {
    match s
    case Empty => {}
    case Branch(n, l, r) => {n} + Nodes(l) + Nodes(r)
  }

  /** No node hangs in two places. */
  ghost predicate Distinct<T>(s: Shape<T>) {
    match s
    case Empty => true
    case Branch(n, l, r) =>
      n !in Nodes(l) && n !in Nodes(r) && Nodes(l) !! Nodes(r) && Distinct(l) && Distinct(r)
  }

  /** The keys of the tree with the data they carry. */
  ghost function Map<T>(s: Shape<T>): map<Byte, T> {
    match s
    case Empty => map[]
    case Branch(n, l, r) => (Map(l) + Map(r))[n.key := n.data]
  }

  ghost predicate Ordered<T>(s: Shape<T>) {
    match s
    case Empty => true
    case Branch(n, l, r) =>
      && (forall k <- Map(l) :: k < n.key) && (forall k <- Map(r) :: n.key < k)
      && Ordered(l) && Ordered(r)
  }

  /** The heap tree at `t` has shape `s`, and every stored height is 1. */
  ghost predicate Linked<T>(t: Node?<T>, s: Shape<T>)
    reads Nodes(s)
    decreases s
  {
    match s
    case Empty => t == null
    case Branch(n, l, r) => t == n && n.height == 1 && Linked(n.left, l) && Linked(n.right, r)
  }

  ghost predicate Valid<T>(t: Node?<T>, s: Shape<T>)
    reads Nodes(s)
  {
    Distinct(s) && Ordered(s) && Linked(t, s)
  }

  /** The value of `1 + MAX((a), (b))` as the preprocessor leaves it. */
  function OnePlusMax(a: int, b: int): int {
    if 1 + a > b then a else b
  }

  function Height<T>(t: Node?<T>): int
    reads t
  {
    if t == null then 0 else t.height
  }

  function Balance<T>(t: Node?<T>): int
    reads t, if t == null then {} else {t.left, t.right}
  {
    if t == null then 0 else Height(t.left) - Height(t.right)
  }

  lemma {:induction false} NodesAllocated<T>(t: Node?<T>, s: Shape<T>)
    requires Linked(t, s)
    ensures forall n <- Nodes(s) :: allocated(n)
  {
    if s.Branch? {
      NodesAllocated(t.left, s.left);
      NodesAllocated(t.right, s.right);
    }
  }

  /** The shape `bst_insert` leaves, `n` being the node it allocates when it reaches an empty place. */
  ghost function Inserted<T>(s: Shape<T>, key: Byte, n: Node<T>): Shape<T> {
    match s
    case Empty => Branch(n, Empty, Empty)
    case Branch(m, l, r) =>
      if key < m.key then Branch(m, Inserted(l, key, n), r)
      else if key > m.key then Branch(m, l, Inserted(r, key, n))
      else s
  }

  lemma BindBelow<T>(l: map<Byte, T>, r: map<Byte, T>, root: Byte, rootData: T, key: Byte, data: T)
    requires key != root
    ensures key !in r ==> (l[key := data] + r)[root := rootData] == (l + r)[root := rootData][key := data]
    ensures (l + r[key := data])[root := rootData] == (l + r)[root := rootData][key := data]
  {
  }

  /** Inserting an absent key binds exactly that key to the new data ... */
  lemma {:induction false} InsertBinds<T>(s: Shape<T>, key: Byte, n: Node<T>)
    requires Ordered(s) && n.key == key && key !in Map(s)
    ensures Map(Inserted(s, key, n)) == Map(s)[key := n.data]
  {
    match s
    case Empty =>
    case Branch(m, l, r) =>
      BindBelow(Map(l), Map(r), m.key, m.data, key, n.data);
      assert key !in Map(l) && key !in Map(r);
      if key < m.key {
        InsertBinds(l, key, n);
      } else {
        InsertBinds(r, key, n);
      }
  }

  /** ... keeps the tree ordered ... */
  lemma {:induction false} InsertOrdered<T>(s: Shape<T>, key: Byte, n: Node<T>)
    requires Ordered(s) && n.key == key && key !in Map(s)
    ensures Ordered(Inserted(s, key, n))
  {
    match s
    case Empty =>
    case Branch(m, l, r) =>
      if key < m.key {
        InsertBinds(l, key, n);
        InsertOrdered(l, key, n);
      } else {
        InsertBinds(r, key, n);
        InsertOrdered(r, key, n);
      }
  }

  /** ... and adds exactly the new node. */
  lemma {:induction false} InsertDistinct<T>(s: Shape<T>, key: Byte, n: Node<T>)
    requires Distinct(s) && Ordered(s) && n !in Nodes(s) && key !in Map(s)
    ensures Distinct(Inserted(s, key, n)) && Nodes(Inserted(s, key, n)) == Nodes(s) + {n}
  {
    match s
    case Empty =>
    case Branch(m, l, r) =>
      if key < m.key {
        InsertDistinct(l, key, n);
      } else {
        InsertDistinct(r, key, n);
      }
  }

  /** Inserting a present key changes nothing: the old data stays bound. */
  lemma {:induction false} InsertKeeps<T>(s: Shape<T>, key: Byte, n: Node<T>)
    requires Ordered(s) && key in Map(s)
    ensures Inserted(s, key, n) == s
  {
    match s
    case Empty =>
    case Branch(m, l, r) =>
      if key < m.key {
        InsertKeeps(l, key, n);
      } else if key > m.key {
        InsertKeeps(r, key, n);
      }
  }

  /** Below a node with another key, a key is bound on its own side or nowhere. */
  lemma SideBinds<T>(s: Shape<T>, key: Byte)
    requires s.Branch? && Ordered(s) && key != s.node.key
    ensures key in Map(s) <==> key in Map(if key < s.node.key then s.left else s.right)
  {
  }

  lemma {:induction false} NodesInserted<T>(s: Shape<T>, key: Byte, n: Node<T>)
    ensures Nodes(Inserted(s, key, n)) <= Nodes(s) + {n}
  {
    if s.Branch? {
      NodesInserted(s.left, key, n);
      NodesInserted(s.right, key, n);
    }
  }

  /** The end of `bst_insert`: the height, and a balance within the bounds beyond which the source rotates. */
  method Rise<T>(t: Node<T>, ghost l: Shape<T>, ghost r: Shape<T>)
    requires Linked(t.left, l) && Linked(t.right, r) && t !in Nodes(l) + Nodes(r) && (t.left != null || t.right != null)
    modifies t`height
    ensures Linked(t, Branch(t, l, r)) && -1 <= Balance(t) <= 1
  {
    t.height := OnePlusMax(Height(t.left), Height(t.right));
  }

  /** The shape after an insertion that allocated n, or nothing. */
  ghost function AfterInsert<T>(s: Shape<T>, key: Byte, n: Node?<T>): Shape<T> {
    if n == null then s else Inserted(s, key, n)
  }

  /** `bst_insert`: a node is allocated exactly when the key is absent, and no balance goes beyond the bounds at which
      the source rotates. */
  method Insert<T>(t: Node?<T>, key: Byte, data: T, ghost s: Shape<T>) returns (r: Node<T>, ghost n: Node?<T>)
    requires Valid(t, s)
    modifies Nodes(s)
    decreases s, 1
    ensures n == null <==> key in Map(s)
    ensures n != null ==> fresh(n) && n.key == key && n.data == data
    ensures Linked(r, AfterInsert(s, key, n)) && -1 <= Balance(r) <= 1
  {
    if t == null {
      r := new Node(key, data);
      return r, r;
    }
    NodesAllocated(t, s);
    r := t;
    if key < t.key {
      n := InsertLeft(t, key, data, s);
    } else if key > t.key {
      n := InsertRight(t, key, data, s);
    } else {
      n := null;
      HeightsStayOne(t, s, t);
    }
  }

  method InsertLeft<T>(t: Node<T>, key: Byte, data: T, ghost s: Shape<T>) returns (ghost n: Node?<T>)
    requires Valid(t, s) && key < t.key
    modifies Nodes(s)
    decreases s, 0
    ensures n == null <==> key in Map(s)
    ensures n != null ==> fresh(n) && n.key == key && n.data == data
    ensures Linked(t, AfterInsert(s, key, n)) && -1 <= Balance(t) <= 1
  {
    NodesAllocated(t, s);
    SideBinds(s, key);
    t.left, n := Insert(t.left, key, data, s.left);
    if n != null {
      NodesInserted(s.left, key, n);
    }
    Rise(t, AfterInsert(s.left, key, n), s.right);
  }

  method InsertRight<T>(t: Node<T>, key: Byte, data: T, ghost s: Shape<T>) returns (ghost n: Node?<T>)
    requires Valid(t, s) && key > t.key
    modifies Nodes(s)
    decreases s, 0
    ensures n == null <==> key in Map(s)
    ensures n != null ==> fresh(n) && n.key == key && n.data == data
    ensures Linked(t, AfterInsert(s, key, n)) && -1 <= Balance(t) <= 1
  {
    NodesAllocated(t, s);
    SideBinds(s, key);
    t.right, n := Insert(t.right, key, data, s.right);
    if n != null {
      NodesInserted(s.right, key, n);
    }
    Rise(t, s.left, AfterInsert(s.right, key, n));
  }

  /** `bst_search`: the node holding `key`, or null when the key is not in the tree. */
  function Search<T>(t: Node?<T>, key: Byte, ghost s: Shape<T>): (r: Node?<T>)
    requires Valid(t, s)
    reads Nodes(s)
    decreases s
    ensures r == null <==> key !in Map(s)
    ensures r != null ==> r in Nodes(s) && r.key == key && r.data == Map(s)[key]
  {
    if t == null then null
    else if key == t.key then t
    else if key < t.key then Search(t.left, key, s.left)
    else Search(t.right, key, s.right)
  }

  /** Every node of a linked tree has height 1 and a balance for which no rotation runs. */
  lemma {:induction false} HeightsStayOne<T>(t: Node?<T>, s: Shape<T>, n: Node<T>)
    requires Linked(t, s) && n in Nodes(s)
    ensures n.height == 1 && -1 <= Balance(n) <= 1
  {
    if n in Nodes(s.left) {
      HeightsStayOne(t.left, s.left, n);
    } else if n in Nodes(s.right) {
      HeightsStayOne(t.right, s.right, n);
    }
  }

  datatype Pair<T> = Pair(key: Byte, data: T)

  /** The first data given for each key. */
  ghost function FirstOf<T>(ps: seq<Pair<T>>): map<Byte, T> {
    if ps == [] then map[]
    else var m, p := FirstOf(ps[..|ps| - 1]), ps[|ps| - 1]; if p.key in m then m else m[p.key := p.data]
  }

  lemma {:induction false} FirstOfGrows<T>(ps: seq<Pair<T>>, i: nat)
    requires i < |ps|
    ensures var m, p := FirstOf(ps[..i]), ps[i];
      FirstOf(ps[..i + 1]) == if p.key in m then m else m[p.key := p.data]
  {
    assert ps[..i + 1][..i] == ps[..i];
  }

  /** One insertion into a tree that holds m. */
  method InsertNext<T>(t: Node?<T>, p: Pair<T>, ghost s: Shape<T>) returns (r: Node<T>, ghost s': Shape<T>)
    requires Valid(t, s)
    modifies Nodes(s)
    ensures Valid(r, s') && forall x <- Nodes(s') :: x in Nodes(s) || fresh(x)
    ensures Map(s') == if p.key in Map(s) then Map(s) else Map(s)[p.key := p.data]
  {
    ghost var n;
    NodesAllocated(t, s);
    r, n := Insert(t, p.key, p.data, s);
    s' := s;
    if n != null {
      InsertBinds(s, p.key, n);
      InsertOrdered(s, p.key, n);
      InsertDistinct(s, p.key, n);
      s' := Inserted(s, p.key, n);
    }
  }

  /** Any number of insertions from the empty tree: the tree is ordered, holds the first data of every key, and all its
      heights are 1, so that no rotation ever ran. */
  method InsertAll<T>(ps: seq<Pair<T>>) returns (t: Node?<T>, ghost s: Shape<T>)
    ensures Valid(t, s) && (forall n <- Nodes(s) :: fresh(n)) && Map(s) == FirstOf(ps)
    ensures forall n <- Nodes(s) :: n.height == 1 && -1 <= Balance(n) <= 1
  {
    t, s := null, Empty;
    for i := 0 to |ps|
      invariant Valid(t, s) && (forall n <- Nodes(s) :: fresh(n)) && Map(s) == FirstOf(ps[..i])
    {
      FirstOfGrows(ps, i);
      t, s := InsertNext(t, ps[i], s);
    }
    assert ps[..|ps|] == ps;
    forall n | n in Nodes(s)
      ensures n.height == 1 && -1 <= Balance(n) <= 1
    {
      HeightsStayOne(t, s, n);
    }
  }
}
