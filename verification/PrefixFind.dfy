/** trie_prefix_find (src/trie.c): collecting the keys below a prefix with one character buffer that every
    recursive call overwrites in place. */
module PrefixFind {
  import opened Bytes
  import opened Items
  import opened Trie
  import Bst

  /** struct kv_obj */
  datatype Kv = Kv(key: Key, data: DbItem)

  /** `out` lists each key of `ks` exactly once, with the data it is bound to. */
  ghost predicate Lists(out: seq<Kv>, ks: set<Key>, m: map<Key, DbItem>) {
    && multiset(Keys(out)) == multiset(ks)
    && forall i | 0 <= i < |out| :: out[i].key in m && out[i].data == m[out[i].key]
  }

  ghost function Keys(out: seq<Kv>): (ks: seq<Key>)
    ensures |ks| == |out|
  {
    seq(|out|, i requires 0 <= i < |out| => out[i].key)
  }

  lemma ListsConcat(a: seq<Kv>, b: seq<Kv>, ks: set<Key>, ls: set<Key>, m: map<Key, DbItem>)
    requires Lists(a, ks, m) && Lists(b, ls, m) && ks !! ls
    ensures Lists(a + b, ks + ls, m)
  {
    assert Keys(a + b) == Keys(a) + Keys(b);
    assert multiset(ks + ls) == multiset(ks) + multiset(ls);
  }

  lemma ListsCons(k: Key, b: seq<Kv>, ks: set<Key>, m: map<Key, DbItem>)
    requires k in m && k !in ks && Lists(b, ks, m)
    ensures Lists([Kv(k, m[k])] + b, {k} + ks, m)
  {
    assert Keys([Kv(k, m[k])]) == [k];
    ListsConcat([Kv(k, m[k])], b, {k}, ks, m);
  }

  /** What trie_node_prefix_find appends for the node of `p`, in its order: the node, then its children. */
  ghost function NodeList(t: Trie, p: Key): seq<Kv>
    requires t.Valid() && p in t.tree.nodes
    reads t, t.Repr
    decreases t.tree.Under(p), 1
  {
    t.WalkNode(p);
    Own(t.tree.nodes[p], p) + KidsList(t, t.tree.nodes[p].children, p, t.tree.kids[p])
  }

  ghost function Own(n: TrieNode, p: Key): seq<Kv>
    reads n
  {
    if n.data != null then [Kv(p, n.data)] else []
  }

  ghost function KidsList(t: Trie, b: Bst.Node?<TrieNode>, p: Key, s: Kids): seq<Kv>
    requires t.Valid() && t.Walking(b, p, s)
    reads t, t.Repr
    decreases t.tree.Under(p), 0, s
  {
    if b == null then []
    else
      t.WalkBranch(b, p, s);
      NodeList(t, Ext(p, b.key)) + KidsList(t, b.left, p, s.left) + KidsList(t, b.right, p, s.right)
  }

  /** The walk lists exactly the bound keys below `p`, each once. */
  lemma {:induction false} NodeListLists(t: Trie, p: Key)
    requires t.Valid() && p in t.tree.nodes
    decreases t.tree.Under(p), 1
    ensures Lists(NodeList(t, p), Bound(t.Contents(), t.tree.Under(p)), t.Contents())
  {
    t.WalkNode(p);
    var n, m := t.tree.nodes[p], t.Contents();
    var rest, ks := KidsList(t, n.children, p, t.tree.kids[p]), Bound(m, t.tree.UnderKids(p, t.tree.kids[p]));
    KidsListLists(t, n.children, p, t.tree.kids[p]);
    if n.data != null {
      ListsCons(p, rest, ks, m);
    } else {
      assert NodeList(t, p) == rest;
    }
  }

  lemma {:induction false} KidsListLists(t: Trie, b: Bst.Node?<TrieNode>, p: Key, s: Kids)
    requires t.Valid() && t.Walking(b, p, s)
    decreases t.tree.Under(p), 0, s
    ensures Lists(KidsList(t, b, p, s), Bound(t.Contents(), t.tree.UnderKids(p, s)), t.Contents())
  {
    var m := t.Contents();
    if b == null {
      assert Bound(m, t.tree.UnderKids(p, s)) == {};
      assert Keys([]) == [];
    } else {
      t.WalkBranch(b, p, s);
      var k := Ext(p, b.key);
      var kx, ky, kz :=
        Bound(m, t.tree.Under(k)), Bound(m, t.tree.UnderKids(p, s.left)), Bound(m, t.tree.UnderKids(p, s.right));
      var x, y, z := NodeList(t, k), KidsList(t, b.left, p, s.left), KidsList(t, b.right, p, s.right);
      NodeListLists(t, k);
      KidsListLists(t, b.left, p, s.left);
      KidsListLists(t, b.right, p, s.right);
      ListsConcat(x, y, kx, ky, m);
      ListsConcat(x + y, z, kx + ky, kz, m);
    }
  }

  /** tstrdup: the characters up to the first NUL. */
  function Dup(s: seq<Byte>): Key {
    if s == [] || s[0] == 0 then [] else [s[0]] + Dup(s[1..])
  }

  lemma {:induction false} DupIsKey(s: seq<Byte>, k: Key)
    requires |k| < |s| && s[..|k|] == k && s[|k|] == 0
    ensures Dup(s) == k
  {
    if k != [] {
      assert s[1..][..|k| - 1] == k[1..];
      assert s[0] == s[..|k|][0] == k[0];
      DupIsKey(s[1..], k[1..]);
    }
  }

  lemma NodeChr(t: Tree, p: Key)
    requires t.Valid() && p in t.nodes && p != []
    ensures t.nodes[p].chr == p[|p| - 1]
  {
    assert Parent(p) in t.nodes;
    assert Ext(Parent(p), p[|p| - 1]) == p;
    assert t.Edge(Parent(p), p[|p| - 1]);
  }

  /** Every prefix below `p` fits the buffer, and every bound key leaves room for its terminator. */
  ghost predicate Fits(t: Trie, ks: set<Key>, cap: nat)
    requires t.Valid()
    reads t, t.Repr
  {
    forall q <- ks :: |q| <= cap && (q in t.Contents() ==> |q| < cap)
  }

  /** The own part of trie_node_prefix_find: put the node's character into the buffer and, if the node
      carries data, terminate the buffer and append a copy of it.  The buffer is never reallocated here: a
      prefix that fits never reaches its end. */
  method Record(t: Trie, n: TrieNode, str: array<Byte>, level: nat, keys: seq<Kv>,
                ghost p: Key) returns (keys': seq<Kv>)
    requires t.Valid() && str !in t.Repr && p in t.tree.nodes && t.tree.nodes[p] == n
    requires |p| == level + 1 && Fits(t, {p}, str.Length) && str[..level] == p[..level]
    modifies str
    ensures str[..level + 1] == p
    ensures keys' == keys + old(Own(n, p))
  {
    NodeChr(t.tree, p);
    t.WalkNode(p);
    ghost var bound := n.data != null;
    assert bound ==> p in t.Contents();
    keys' := keys;
    str[level] := n.chr;
    assert str[..level + 1] == p;
    if n.data != null {
      str[level + 1] := 0;
      DupIsKey(str[..], p);
      keys' := keys + [Kv(Dup(str[..]), n.data)];
    }
  }

  /** trie_node_prefix_find */
  method NodeFind(t: Trie, n: TrieNode, str: array<Byte>, level: nat, keys: seq<Kv>,
                  ghost p: Key) returns (keys': seq<Kv>)
    requires t.Valid() && str !in t.Repr && p in t.tree.nodes && t.tree.nodes[p] == n
    requires |p| == level + 1 && Fits(t, t.tree.Under(p), str.Length) && str[..level] == p[..level]
    modifies str
    decreases t.tree.Under(p), 1
    ensures str[..level] == p[..level]
    ensures keys' == keys + old(NodeList(t, p))
  {
    t.WalkNode(p);
    t.tree.UnderNode(p);
    Regroup(keys, Own(n, p), KidsList(t, n.children, p, t.tree.kids[p]), []);
    keys' := Record(t, n, str, level, keys, p);
    Still(Place(t, n.children, p, t.tree.kids[p]));
    keys' := KidsFind(t, n.children, str, level + 1, keys', p, t.tree.kids[p]);
    assert str[..level] == str[..level + 1][..level];
  }

  lemma Regroup<T>(a: seq<T>, x: seq<T>, y: seq<T>, z: seq<T>)
    ensures a + x + y + z == a + (x + y + z) && a + x + y == a + (x + y)
  {
  }

  /** children_prefix_find */
  method KidsFind(t: Trie, b: Bst.Node?<TrieNode>, str: array<Byte>, level: nat, keys: seq<Kv>, ghost p: Key,
                  ghost s: Kids)
    returns (keys': seq<Kv>)
    requires t.Valid() && str !in t.Repr && t.Walking(b, p, s)
    requires |p| == level && Fits(t, t.tree.UnderKids(p, s), str.Length) && level <= str.Length && str[..level] == p
    modifies str
    decreases t.tree.Under(p), 0, s, 1
    ensures str[..level] == p
    ensures keys' == keys + old(KidsList(t, b, p, s))
  {
    if b == null {
      return keys;
    }
    t.WalkBranch(b, p, s);
    t.tree.UnderBranch(p, s);
    Regroup(keys, NodeList(t, Ext(p, b.key)), KidsList(t, b.left, p, s.left), KidsList(t, b.right, p, s.right));
    keys' := NodeFind(t, b.data, str, level, keys, Ext(p, b.key));
    Still(Place(t, b.left, p, s.left));
    Still(Place(t, b.right, p, s.right));
    keys' := SidesFind(t, b, str, level, keys', p, s);
  }

  /** The two recursive calls at the end of children_prefix_find. */
  method SidesFind(t: Trie, b: Bst.Node<TrieNode>, str: array<Byte>, level: nat, keys: seq<Kv>, ghost p: Key,
                   ghost s: Kids)
    returns (keys': seq<Kv>)
    requires t.Valid() && str !in t.Repr && s.Branch? && t.Walking(b.left, p, s.left) && t.Walking(b.right, p, s.right)
    requires |p| == level <= str.Length && str[..level] == p
    requires Fits(t, t.tree.UnderKids(p, s.left), str.Length) && Fits(t, t.tree.UnderKids(p, s.right), str.Length)
    modifies str
    decreases t.tree.Under(p), 0, s, 0
    ensures str[..level] == p
    ensures keys' == keys + old(KidsList(t, b.left, p, s.left)) + old(KidsList(t, b.right, p, s.right))
  {
    keys' := KidsFind(t, b.left, str, level, keys, p, s.left);
    Still(Place(t, b.right, p, s.right));
    keys' := KidsFind(t, b.right, str, level, keys', p, s.right);
  }

  /** A place the walk still has to visit. */
  datatype Place = Place(t: Trie, b: Bst.Node?<TrieNode>, p: Key, s: Kids)

  /** Writing the buffer leaves the walk over the trie as it was. */
  twostate lemma Still(w: Place)
    requires old(w.t.Valid()) && unchanged(w.t, old(w.t.Repr)) && old(w.t.Walking(w.b, w.p, w.s))
    ensures w.t.Valid() && w.t.Contents() == old(w.t.Contents()) && w.t.Walking(w.b, w.p, w.s)
    ensures KidsList(w.t, w.b, w.p, w.s) == old(KidsList(w.t, w.b, w.p, w.s))
  {
  }

  const BUFFER_SIZE: nat := 32

  /** trie_prefix_find: none when no key extends `prefix`, otherwise every bound key extending it, exactly
      once and with its data. */
  method PrefixFind(t: Trie, prefix: Key) returns (keys: Option<seq<Kv>>)
    requires t.Valid() && prefix != [] && (prefix in t.tree.nodes ==> |prefix| < BUFFER_SIZE)
    requires Fits(t, t.tree.Under(prefix), BUFFER_SIZE)
    ensures keys.None? <==> prefix !in t.tree.nodes
    ensures keys.Some? ==> Lists(keys.value, Extending(t.Contents(), prefix), t.Contents())
    ensures keys.Some? ==> |keys.value| == |Extending(t.Contents(), prefix)|
  {
    var n := t.FindNode(prefix);
    if n == null {
      return None;
    }
    PrefixListed(t, prefix);
    var found := Walk(t, n, prefix);
    keys := Some(found);
  }

  /** The walk from the node of the prefix, which the buffer starts with, lists exactly the keys extending it. */
  lemma PrefixListed(t: Trie, prefix: Key)
    requires t.Valid() && prefix in t.tree.nodes
    ensures Lists(NodeList(t, prefix), Extending(t.Contents(), prefix), t.Contents())
    ensures |NodeList(t, prefix)| == |Extending(t.Contents(), prefix)|
  {
    ExtendingIsUnder(t, prefix);
    NodeListLists(t, prefix);
    ListsSize(NodeList(t, prefix), Extending(t.Contents(), prefix), t.Contents());
  }

  method Walk(t: Trie, n: TrieNode, prefix: Key) returns (found: seq<Kv>)
    requires t.Valid() && prefix != [] && |prefix| < BUFFER_SIZE && prefix in t.tree.nodes && n == t.tree.nodes[prefix]
    requires Fits(t, t.tree.Under(prefix), BUFFER_SIZE)
    ensures found == NodeList(t, prefix)
  {
    ghost var out := NodeList(t, prefix);
    var str := NewBuffer(prefix);
    assert str[..|prefix| - 1] == prefix[..|prefix| - 1];
    found := NodeFind(t, n, str, |prefix| - 1, [], prefix);
    assert found == out;
  }

  method NewBuffer(prefix: Key) returns (str: array<Byte>)
    requires |prefix| < BUFFER_SIZE
    ensures fresh(str) && str.Length == BUFFER_SIZE && str[..|prefix|] == prefix && str[|prefix|] == 0
  {
    str := new Byte[BUFFER_SIZE];
    var i := 0;
    while i < |prefix|
      invariant i <= |prefix| && str[..i] == prefix[..i]
    {
      str[i] := prefix[i];
      i := i + 1;
    }
    str[|prefix|] := 0;
  }

  lemma ListsSize(out: seq<Kv>, ks: set<Key>, m: map<Key, DbItem>)
    requires Lists(out, ks, m)
    ensures |out| == |ks|
  {
    assert |multiset(Keys(out))| == |Keys(out)|;
    assert |multiset(ks)| == |ks|;
  }

  /** trie_prefix_count */
  method PrefixCount(t: Trie, prefix: Key) returns (count: nat)
    requires t.Valid()
    ensures count == |Extending(t.Contents(), prefix)|
  {
    var n := t.FindNode(prefix);
    ExtendingIsUnder(t, prefix);
    if n == null {
      return 0;
    }
    count := t.NodeCount(n, prefix);
  }

  /** The bound keys that extend `prefix`, itself included. */
  ghost function Extending<T>(m: map<Key, T>, prefix: Key): set<Key> {
    set q | q in m && prefix <= q
  }

  lemma ExtendingIsUnder(t: Trie, p: Key)
    requires t.Valid()
    ensures Extending(t.Contents(), p) == Bound(t.Contents(), t.tree.Under(p))
    ensures p !in t.tree.nodes ==> Extending(t.Contents(), p) == {}
  {
    forall q | q in Extending(t.Contents(), p)
      ensures p in t.tree.nodes
    {
      assert q[..|p|] == p;
      t.tree.PrefixHasNode(q, |p|);
    }
  }
}
