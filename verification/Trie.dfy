/** The trie (src/trie.c): one heap node per key prefix, its children held in a binary search tree. */
module Trie {
  import opened Bytes
  import opened Items
  import Bst

  class TrieNode {
    const chr: Byte
    var children: Bst.Node?<TrieNode>
    var data: DbItem?

    /** trie_create_node */
    constructor (c: Byte)
      ensures chr == c && children == null && data == null
    {
      chr, children, data := c, null, null;
    }
  }

  type Kids = Bst.Shape<TrieNode>

  function Ext(p: Key, c: Chr): Key {
    p + [c]
  }

  /** The prefixes of the key up to length n. */
  ghost function Prefixes(key: Key, n: nat): set<Key>
    requires n <= |key|
  {
    if n == 0 then {[]} else Prefixes(key, n - 1) + {key[..n]}
  }

  lemma PrefixesNext(key: Key, i: nat, next: nat)
    requires i < |key| && next == i + 1
    ensures key[..next] == Ext(key[..i], key[i]) && Prefixes(key, next) == Prefixes(key, i) + {Ext(key[..i], key[i])}
  {
  }

  lemma PrefixesAll(key: Key, i: nat)
    requires i == |key|
    ensures key[..i] == key && Prefixes(key, i) == Prefixes(key, |key|)
  {
  }

  function Parent(p: Key): Key
    requires p != []
  {
    p[..|p| - 1]
  }

  /** Which node stands for which prefix, and how its children tree is shaped.  Heap-free: only the links
      between the nodes and their data live on the heap. */
  datatype Tree = Tree(nodes: map<Key, TrieNode>, kids: map<Key, Kids>) {

    ghost predicate Valid() {
      Rooted() && Parents() && Shapes() && Unshared() && Edges()
    }

    ghost predicate Rooted() {
      [] in nodes && kids.Keys == nodes.Keys
    }

    ghost predicate Parents() {
      forall p {:trigger Parent(p)} :: p in nodes && p != [] ==> Parent(p) in nodes
    }

    ghost predicate Shapes()
      requires Rooted()
    {
      forall p {:trigger ShapeAt(p)} :: p in nodes ==> ShapeAt(p)
    }

    ghost predicate ShapeAt(p: Key)
      requires Rooted() && p in nodes
    {
      Bst.Distinct(kids[p]) && Bst.Ordered(kids[p]) && 0 !in Bst.Map(kids[p])
    }

    ghost predicate Unshared()
      requires Rooted()
    {
      forall p, q {:trigger Apart(p, q)} :: p in nodes && q in nodes && p != q ==> Apart(p, q)
    }

    /** The nodes for `p` and `q` share nothing. */
    ghost predicate Apart(p: Key, q: Key)
      requires Rooted() && p in nodes && q in nodes
    {
      nodes[p] != nodes[q] && Bst.Nodes(kids[p]) !! Bst.Nodes(kids[q])
    }

    /** The children tree at `p` binds a character exactly when `p` extended by it has a node: that node. */
    ghost predicate Edges()
      requires Rooted()
    {
      forall p, c: Chr {:trigger Edge(p, c)} :: p in nodes ==> Edge(p, c)
    }

    ghost predicate Edge(p: Key, c: Chr)
      requires Rooted() && p in nodes
    {
      && (c in Bst.Map(kids[p]) <==> Ext(p, c) in nodes)
      && (c in Bst.Map(kids[p]) ==> Bst.Map(kids[p])[c] == nodes[Ext(p, c)] && nodes[Ext(p, c)].chr == c)
    }

    /** The tree with a node for `Ext(p, c)` hung below `p`. */
    ghost function Grown(p: Key, c: Chr, n: TrieNode, bn: Bst.Node<TrieNode>): Tree
      requires Rooted() && p in nodes
    {
      Tree(nodes[Ext(p, c) := n], kids[p := Bst.Inserted(kids[p], c, bn)][Ext(p, c) := Bst.Empty])
    }

    lemma GrownParents(p: Key, c: Chr, n: TrieNode, bn: Bst.Node<TrieNode>)
      requires Rooted() && Parents() && p in nodes
      ensures Grown(p, c, n, bn).Parents()
    {
      var t := Grown(p, c, n, bn);
      forall q | q in t.nodes && q != []
        ensures Parent(q) in t.nodes
      {
        assert q == Ext(p, c) ==> Parent(q) == p;
      }
    }

    lemma GrownShapes(p: Key, c: Chr, n: TrieNode, bn: Bst.Node<TrieNode>)
      requires Valid() && p in nodes && Ext(p, c) !in nodes && bn.key == c && bn.data == n
      requires bn !in Bst.Nodes(kids[p])
      ensures Grown(p, c, n, bn).Rooted() && Grown(p, c, n, bn).Shapes()
    {
      var t := Grown(p, c, n, bn);
      assert Edge(p, c) && ShapeAt(p);
      Bst.InsertBinds(kids[p], c, bn);
      Bst.InsertOrdered(kids[p], c, bn);
      Bst.InsertDistinct(kids[p], c, bn);
      forall q | q in t.nodes
        ensures t.ShapeAt(q)
      {
        assert q != Ext(p, c) ==> ShapeAt(q);
      }
    }

    lemma GrownUnshared(p: Key, c: Chr, n: TrieNode, bn: Bst.Node<TrieNode>)
      requires Rooted() && Unshared() && p in nodes && Ext(p, c) !in nodes && n !in nodes.Values
      requires forall q <- nodes :: bn !in Bst.Nodes(kids[q])
      requires Bst.Nodes(Bst.Inserted(kids[p], c, bn)) == Bst.Nodes(kids[p]) + {bn}
      ensures Grown(p, c, n, bn).Rooted() && Grown(p, c, n, bn).Unshared()
    {
      var t := Grown(p, c, n, bn);
      forall q, r | q in t.nodes && r in t.nodes && q != r
        ensures t.Apart(q, r)
      {
        assert q != Ext(p, c) && r != Ext(p, c) ==> Apart(q, r);
      }
    }

    lemma GrownEdges(p: Key, c: Chr, n: TrieNode, bn: Bst.Node<TrieNode>)
      requires Rooted() && Parents() && Edges() && p in nodes && Ext(p, c) !in nodes && n.chr == c
      requires Bst.Map(Bst.Inserted(kids[p], c, bn)) == Bst.Map(kids[p])[c := n]
      ensures Grown(p, c, n, bn).Rooted() && Grown(p, c, n, bn).Edges()
    {
      var t := Grown(p, c, n, bn);
      forall q, d: Chr | q in t.nodes
        ensures t.Edge(q, d)
      {
        if q == Ext(p, c) {
          NoNodeBelow(q, d);
        } else {
          ExtInjective(p, c, q, d);
          assert Edge(q, d);
        }
      }
    }

    lemma GrownValid(p: Key, c: Chr, n: TrieNode, bn: Bst.Node<TrieNode>)
      requires Valid() && p in nodes && Ext(p, c) !in nodes
      requires n !in nodes.Values && n.chr == c && bn.key == c && bn.data == n
      requires forall q <- nodes :: bn !in Bst.Nodes(kids[q])
      ensures Grown(p, c, n, bn).Valid()
      ensures Bst.Nodes(Bst.Inserted(kids[p], c, bn)) == Bst.Nodes(kids[p]) + {bn}
    {
      assert Edge(p, c) && ShapeAt(p);
      Bst.InsertBinds(kids[p], c, bn);
      Bst.InsertDistinct(kids[p], c, bn);
      GrownParents(p, c, n, bn);
      GrownShapes(p, c, n, bn);
      GrownUnshared(p, c, n, bn);
      GrownEdges(p, c, n, bn);
    }

    lemma {:induction false} PrefixHasNode(key: Key, i: nat)
      requires Parents() && key in nodes && i <= |key|
      ensures key[..i] in nodes
      decreases |key|
    {
      if i < |key| {
        assert Parent(key) in nodes;
        assert Parent(key)[..i] == key[..i];
        PrefixHasNode(Parent(key), i);
      } else {
        assert key[..i] == key;
      }
    }

    /** The prefixes with a node that extend `p`. */
    ghost function Under(p: Key): set<Key> {
      set q | q in nodes && p <= q
    }

    /** Those that continue `p` with a character of the children tree `s`. */
    ghost function UnderKids(p: Key, s: Kids): set<Key> {
      set q | q in nodes && p < q && q[|p|] in Bst.Map(s)
    }

    /** `s` is part of the children tree of `p`. */
    ghost predicate Part(p: Key, s: Kids) {
      && Rooted() && p in nodes && Bst.Ordered(s) && 0 !in Bst.Map(s)
      && forall c <- Bst.Map(s) :: c in Bst.Map(kids[p]) && Bst.Map(kids[p])[c] == Bst.Map(s)[c]
    }

    lemma PartBranch(p: Key, s: Kids)
      requires Valid() && Part(p, s) && s.Branch?
      ensures Part(p, s.left) && Part(p, s.right) && s.node.key != 0
      ensures Ext(p, s.node.key) in nodes && nodes[Ext(p, s.node.key)] == s.node.data && s.node.data.chr == s.node.key
    {
      assert s.node.key in Bst.Map(s);
      assert Edge(p, s.node.key);
    }

    /** What hangs below `p` is `p` itself and what its children tree leads to. */
    lemma UnderNode(p: Key)
      requires Valid() && p in nodes
      ensures Part(p, kids[p])
      ensures Under(p) == {p} + UnderKids(p, kids[p]) && p !in UnderKids(p, kids[p])
    {
      assert ShapeAt(p);
      forall q | q in Under(p) && q != p
        ensures q in UnderKids(p, kids[p])
      {
        PrefixHasNode(q, |p| + 1);
        assert q[..|p| + 1] == Ext(p, q[|p|]);
        assert Edge(p, q[|p|]);
      }
    }

    /** The root of a children tree, its left and its right part lead to disjoint sets of prefixes. */
    lemma UnderBranch(p: Key, s: Kids)
      requires Valid() && Part(p, s) && s.Branch?
      requires s.node.key != 0
      ensures var below := Under(Ext(p, s.node.key));
              && UnderKids(p, s) == below + UnderKids(p, s.left) + UnderKids(p, s.right)
              && below !! UnderKids(p, s.left) && below !! UnderKids(p, s.right)
              && UnderKids(p, s.left) !! UnderKids(p, s.right)
              && below < Under(p)
    {
      var c: Chr := s.node.key;
      forall q: Key
        ensures Ext(p, c) <= q <==> p < q && q[|p|] == c
      {
        if p < q && q[|p|] == c {
          assert q[..|p| + 1] == Ext(p, c);
        }
        if Ext(p, c) <= q {
          assert p == Ext(p, c)[..|p|] == q[..|p|];
        }
      }
      assert p in Under(p) && p !in Under(Ext(p, c));
    }

    /** The tree once everything strictly below `p` is gone. */
    ghost function Pruned(p: Key): Tree
      requires Rooted()
    {
      Tree(map q | q in nodes && !(p < q) :: nodes[q],
           map q | q in nodes && !(p < q) :: if q == p then Bst.Empty else kids[q])
    }

    lemma PrunedValid(p: Key)
      requires Valid() && p in nodes
      ensures Pruned(p).Valid()
    {
      var t := Pruned(p);
      forall q | q in t.nodes && q != []
        ensures Parent(q) in t.nodes
      {
        assert Parent(q) in nodes;
        assert p < Parent(q) ==> p < q;
      }
      forall q | q in t.nodes
        ensures t.ShapeAt(q)
      {
        assert ShapeAt(q);
      }
      forall q, r | q in t.nodes && r in t.nodes && q != r
        ensures t.Apart(q, r)
      {
        assert Apart(q, r);
      }
      forall q, d: Chr | q in t.nodes
        ensures t.Edge(q, d)
      {
        assert Edge(q, d);
        assert p < Ext(q, d) <==> p <= q;
      }
    }

    lemma NoNodeBelow(q: Key, d: Chr)
      requires Parents() && q !in nodes
      ensures Ext(q, d) !in nodes
      ensures Ext(q, d) != q
    {
      assert Parent(Ext(q, d)) == q;
    }
  }

  /** The trie holds the map `Contents()`; a key is bound when its node carries data. */
  class Trie {
    const root: TrieNode
    const destructor: bool        // whether the server's trie_node_destructor is installed
    var size: nat

    ghost var tree: Tree
    ghost var Repr: set<object>
    ghost var leaked: nat         // keys unbound without `size` being decremented

    ghost predicate Valid()
      reads this, Repr
    {
      && this in Repr
      && tree.Valid() && tree.nodes[[]] == root
      && Owned()
      && forall p {:trigger Linked(p)} :: p in tree.nodes ==> Linked(p)
    }

    ghost predicate Owned()
      requires tree.Rooted()
      reads this
    {
      forall p <- tree.nodes :: tree.nodes[p] in Repr && Bst.Nodes(tree.kids[p]) <= Repr
    }

    ghost predicate Linked(p: Key)
      requires tree.Rooted() && Owned() && p in tree.nodes
      reads this, Repr
    {
      Bst.Linked(tree.nodes[p].children, tree.kids[p])
    }

    ghost function Contents(): Bindings
      requires Valid()
      reads this, Repr
    {
      map p | p in tree.nodes && tree.nodes[p].data != null :: tree.nodes[p].data
    }

    /** trie_size against the number of bound keys.  With the server's destructor installed, keys destroyed
        below a deleted prefix never leave the count. */
    ghost predicate Sized()
      requires Valid()
      reads this, Repr
    {
      size == |Contents()| + leaked && (!destructor ==> leaked == 0)
    }

    /** trie_init */
    constructor (destructor: bool)
      ensures Valid() && fresh(Repr) && this.destructor == destructor
      ensures Contents() == map[] && Sized() && leaked == 0
    {
      root := new TrieNode(0);
      this.destructor := destructor;
      size, leaked := 0, 0;
      new;
      tree := Tree(map[[] := root], map[[] := Bst.Empty]);
      Repr := {this, root};
    }

    /** The node and its place in the children tree of the cursor. */
    method NewChild(cursor: TrieNode, c: Chr, ghost p: Key) returns (n: TrieNode, ghost bn: Bst.Node<TrieNode>)
      requires Valid() && p in tree.nodes && tree.nodes[p] == cursor && Ext(p, c) !in tree.nodes
      modifies cursor`children, Bst.Nodes(tree.kids[p])
      ensures fresh(n) && n.chr == c && n.data == null && n.children == null
      ensures fresh(bn) && bn.key == c && bn.data == n
      ensures Bst.Linked(cursor.children, Bst.Inserted(tree.kids[p], c, bn))
    {
      n := new TrieNode(c);
      assert tree.Edge(p, c) && tree.ShapeAt(p) && Linked(p);
      cursor.children, bn := Bst.Insert(cursor.children, c, n, tree.kids[p]);
    }

    /** The step of trie_node_insert that creates a missing child. */
    method AddChild(cursor: TrieNode, c: Chr, ghost p: Key) returns (n: TrieNode)
      requires Valid() && p in tree.nodes && tree.nodes[p] == cursor && Ext(p, c) !in tree.nodes
      modifies cursor`children, Bst.Nodes(tree.kids[p]), `tree, `Repr
      ensures Valid() && fresh(Repr - old(Repr)) && old(Repr) <= Repr
      ensures fresh(n) && n.data == null && tree.nodes == old(tree.nodes)[Ext(p, c) := n]
      ensures tree.nodes.Keys == old(tree.nodes.Keys) + {Ext(p, c)}
    {
      ghost var bn;
      n, bn := NewChild(cursor, c, p);
      tree.GrownValid(p, c, n, bn);
      tree := tree.Grown(p, c, n, bn);
      Repr := Repr + {n, bn};
      LinksAfterGrowth(cursor, p, c, n, bn);
    }

    twostate lemma LinksAfterGrowth(cursor: TrieNode, new p: Key, new c: Chr, new n: TrieNode,
                                    new bn: Bst.Node<TrieNode>)
      requires old(Valid()) && p in old(tree.nodes) && old(tree.nodes[p]) == cursor
      requires tree == old(tree).Grown(p, c, n, bn) && n.children == null
      requires Repr == old(Repr) + {n, bn}
      requires Bst.Nodes(tree.kids[p]) == Bst.Nodes(old(tree.kids[p])) + {bn}
      requires Bst.Linked(cursor.children, tree.kids[p])
      requires unchanged(old(Repr) - {cursor, this} - Bst.Nodes(old(tree.kids[p])))
      ensures tree.Rooted() && Owned()
      ensures forall q | q in tree.nodes :: Linked(q)
    {
      assert Owned();
      forall q | q in tree.nodes
        ensures Linked(q)
      {
        if q != p && q != Ext(p, c) {
          assert old(Linked(q) && tree.Apart(p, q));
        }
      }
    }

    /** trie_node_find: the node at the end of `key`, or null when there is none. */
    method FindNode(key: Key) returns (r: TrieNode?)
      requires Valid()
      ensures r == null <==> key !in tree.nodes
      ensures r != null ==> r == tree.nodes[key]
    {
      var i := 0;
      r := root;
      while i < |key|
        invariant 0 <= i <= |key| && key[..i] in tree.nodes && r == tree.nodes[key[..i]]
      {
        ghost var p := key[..i];
        assert key[..i + 1] == Ext(p, key[i]);
        assert tree.Edge(p, key[i]) && tree.ShapeAt(p) && Linked(p);
        var child := Bst.Search(r.children, key[i], tree.kids[p]);
        if child == null {
          if key in tree.nodes {
            tree.PrefixHasNode(key, i + 1);
          }
          return null;
        }
        r, i := child.data, i + 1;
      }
      assert key[..|key|] == key;
    }

    /** One round of the loop of trie_node_insert: the child for `c`, created when missing. */
    method Descend(cursor: TrieNode, c: Chr, ghost p: Key) returns (n: TrieNode)
      requires Valid() && p in tree.nodes && tree.nodes[p] == cursor
      modifies cursor`children, Bst.Nodes(tree.kids[p]), `tree, `Repr
      ensures Valid() && fresh(Repr - old(Repr)) && old(Repr) <= Repr
      ensures tree.nodes.Keys == old(tree.nodes.Keys) + {Ext(p, c)}
      ensures Ext(p, c) in tree.nodes && n == tree.nodes[Ext(p, c)]
      ensures Contents() == old(Contents())
    {
      assert tree.Edge(p, c) && tree.ShapeAt(p) && Linked(p);
      var child := Bst.Search(cursor.children, c, tree.kids[p]);
      if child == null {
        n := AddChild(cursor, c, p);
        GrowthKeepsContents(n, Ext(p, c));
      } else {
        n := child.data;
        assert tree.nodes.Keys == tree.nodes.Keys + {Ext(p, c)};
      }
    }

    twostate lemma GrowthKeepsContents(new n: TrieNode, k: Key)
      requires old(Valid()) && Valid() && tree.nodes == old(tree.nodes)[k := n] && k !in old(tree.nodes)
      requires n.data == null && forall q <- old(tree.nodes) :: tree.nodes[q].data == old(tree.nodes[q].data)
      ensures Contents() == old(Contents())
    {
    }

    /** The cursor stands at the node of the first i characters. */
    ghost predicate Reached(key: Key, i: nat, cursor: TrieNode)
      reads this
    {
      i <= |key| && key[..i] in tree.nodes && cursor == tree.nodes[key[..i]]
    }

    method Move(cursor: TrieNode, key: Key, i: nat, next: nat, ghost keys: set<Key>) returns (n: TrieNode)
      requires Valid() && i < |key| && next == i + 1 && Reached(key, i, cursor)
      requires tree.nodes.Keys == keys + Prefixes(key, i)
      modifies Repr
      ensures Valid() && fresh(Repr - old(Repr)) && Reached(key, next, n)
      ensures tree.nodes.Keys == keys + Prefixes(key, next)
      ensures Contents() == old(Contents()) && size == old(size) && leaked == old(leaked)
    {
      PrefixesNext(key, i, next);
      n := Descend(cursor, key[i], key[..i]);
    }

    /** The loop of trie_node_insert: walks to the node of `key`, creating the nodes that are missing. */
    method Reach(key: Key) returns (cursor: TrieNode)
      requires Valid()
      modifies Repr
      ensures Valid() && fresh(Repr - old(Repr))
      ensures tree.nodes.Keys == old(tree.nodes.Keys) + Prefixes(key, |key|)
      ensures key in tree.nodes && cursor == tree.nodes[key]
      ensures Contents() == old(Contents()) && size == old(size) && leaked == old(leaked)
    {
      ghost var keys := tree.nodes.Keys;
      var i := 0;
      cursor := root;
      while i < |key|
        invariant 0 <= i && Valid() && fresh(Repr - old(Repr)) && Reached(key, i, cursor)
        invariant tree.nodes.Keys == keys + Prefixes(key, i)
        invariant Contents() == old(Contents()) && size == old(size) && leaked == old(leaked)
      {
        var next := i + 1;
        cursor := Move(cursor, key, i, next, keys);
        i := next;
      }
      PrefixesAll(key, i);
    }

    /** trie_node_insert, trie_insert */
    method Insert(key: Key, item: DbItem)
      requires Valid() && Sized()
      modifies Repr
      ensures Valid() && Sized() && fresh(Repr - old(Repr))
      ensures Contents() == old(Contents())[key := item]
      ensures tree.nodes.Keys == old(tree.nodes.Keys) + Prefixes(key, |key|) && leaked == old(leaked)
    {
      var cursor := Reach(key);
      Set(cursor, item, key);
    }

    /** The end of trie_node_insert: the data, and the count if there was none. */
    method Set(n: TrieNode, item: DbItem, ghost key: Key)
      requires Valid() && Sized() && key in tree.nodes && n == tree.nodes[key]
      modifies n`data, `size
      ensures Valid() && Sized() && Contents() == old(Contents())[key := item]
    {
      ghost var m := Contents();
      SizeWith(m, key, item);
      Store(n, item, if n.data == null then size + 1 else size, key);
      assert Contents() == m[key := item];
    }

    /** Overwriting the data pointer of one node, and `size`, touches no link. */
    method Store(n: TrieNode, item: DbItem?, newSize: nat, ghost p: Key)
      requires Valid() && p in tree.nodes && tree.nodes[p] == n
      modifies n`data, `size
      ensures Valid() && size == newSize
      ensures Contents() == if item != null then old(Contents())[p := item] else old(Contents()) - {p}
    {
      size := newSize;
      n.data := item;
      LinksKept(n);
      DataSet(n, p);
    }

    twostate lemma LinksKept(n: TrieNode)
      requires old(Valid()) && tree == old(tree) && Repr == old(Repr)
      requires n.children == old(n.children) && unchanged(Repr - {this, n})
      ensures Valid()
    {
      forall q | q in tree.nodes
        ensures Linked(q)
      {
        assert old(Linked(q));
      }
    }

    twostate lemma DataSet(n: TrieNode, new p: Key)
      requires old(Valid()) && Valid() && tree == old(tree) && p in tree.nodes && tree.nodes[p] == n
      requires unchanged(old(Repr) - {this, n})
      ensures Contents() == if n.data != null then old(Contents())[p := n.data] else old(Contents()) - {p}
    {
      OthersKept(n, p);
      MapSet(old(Contents()), Contents(), p, n.data);
    }

    twostate lemma OthersKept(n: TrieNode, new p: Key)
      requires old(Valid()) && Valid() && tree == old(tree) && p in tree.nodes && tree.nodes[p] == n
      requires unchanged(old(Repr) - {this, n})
      ensures forall q | q in tree.nodes && q != p :: tree.nodes[q].data == old(tree.nodes[q].data)
    {
      forall q | q in tree.nodes && q != p
        ensures tree.nodes[q].data == old(tree.nodes[q].data)
      {
        assert tree.Apart(p, q);
      }
    }

    /** `t` is the heap tree of a part `s` of the children of `p`. */
    ghost predicate Walking(t: Bst.Node?<TrieNode>, p: Key, s: Kids)
      requires Valid()
      reads this, Repr
    {
      tree.Part(p, s) && Bst.Nodes(s) <= Repr && Bst.Linked(t, s)
    }

    /** Where the walk over a children tree goes next, and how the bound keys divide. */
    lemma WalkBranch(t: Bst.Node<TrieNode>, p: Key, s: Kids)
      requires Valid() && Walking(t, p, s)
      ensures s.Branch? && s.node == t && Walking(t.left, p, s.left) && Walking(t.right, p, s.right)
      ensures t.key != 0 && Ext(p, t.key) in tree.nodes && tree.nodes[Ext(p, t.key)] == t.data && t.data in Repr
      ensures t.data.chr == t.key && tree.Under(Ext(p, t.key)) < tree.Under(p)
      ensures var below, l, r :=
                Bound(Contents(), tree.Under(Ext(p, t.key))), Bound(Contents(), tree.UnderKids(p, s.left)),
                Bound(Contents(), tree.UnderKids(p, s.right));
              && Bound(Contents(), tree.UnderKids(p, s)) == below + l + r && below !! l && below !! r && l !! r
              && |Bound(Contents(), tree.UnderKids(p, s))| == |below| + |l| + |r|
    {
      tree.PartBranch(p, s);
      tree.UnderBranch(p, s);
    }

    lemma WalkNode(p: Key)
      requires Valid() && p in tree.nodes
      ensures tree.nodes[p] in Repr && Walking(tree.nodes[p].children, p, tree.kids[p])
      ensures var below := Bound(Contents(), tree.UnderKids(p, tree.kids[p]));
              && p !in below
              && Bound(Contents(), tree.Under(p)) == if tree.nodes[p].data != null then {p} + below else below
    {
      assert Linked(p);
      tree.UnderNode(p);
    }

    /** trie_node_count: the number of bound keys that extend `p`. */
    function NodeCount(n: TrieNode, ghost p: Key): (count: nat)
      requires Valid() && p in tree.nodes && tree.nodes[p] == n
      reads this, Repr
      decreases tree.Under(p), 1
      ensures count == |Bound(Contents(), tree.Under(p))|
    {
      WalkNode(p);
      if n.data != null then 1 + ChildrenCount(n.children, p, tree.kids[p])
      else ChildrenCount(n.children, p, tree.kids[p])
    }

    /** trie_children_count */
    function ChildrenCount(t: Bst.Node?<TrieNode>, ghost p: Key, ghost s: Kids): (count: nat)
      requires Valid() && Walking(t, p, s)
      reads this, Repr
      decreases tree.Under(p), 0, s
      ensures count == |Bound(Contents(), tree.UnderKids(p, s))|
    {
      if t == null then
        assert Bound(Contents(), tree.UnderKids(p, s)) == {};
        0
      else
        WalkBranch(t, p, s);
        NodeCount(t.data, Ext(p, t.key)) + ChildrenCount(t.left, p, s.left) + ChildrenCount(t.right, p, s.right)
    }

    /** trie_find */
    method Find(key: Key) returns (item: DbItem?)
      requires Valid()
      ensures item != null <==> key in Contents()
      ensures item != null ==> item == Contents()[key]
    {
      var n := FindNode(key);
      item := if n == null then null else n.data;
    }

    /** Taking the data of a bound key from its node. */
    method Unset(n: TrieNode, ghost key: Key)
      requires Valid() && Sized() && key in Contents() && n == tree.nodes[key]
      modifies n`data, `size
      ensures Valid() && Sized() && Contents() == old(Contents()) - {key}
    {
      ghost var m := Contents();
      SizeWithout(m, key);
      Store(n, null, size - 1, key);
      assert Contents() == m - {key};
    }

    /** trie_delete at the node of the key, if there is one. */
    method DeleteAt(n: TrieNode?, ghost key: Key) returns (ret: bool)
      requires Valid() && Sized() && (n == null <==> key !in tree.nodes) && (n != null ==> n == tree.nodes[key])
      modifies Repr
      ensures Valid() && Sized() && Repr == old(Repr) && tree == old(tree) && leaked == old(leaked)
      ensures Contents() == old(Contents()) - {key}
      ensures ret <==> if destructor then key in old(Contents()) else key in tree.nodes
    {
      ret := n != null && (n.data != null || !destructor);
      Unbound(Contents(), key);
      if n != null && n.data != null {
        Unset(n, key);
      }
    }

    /** trie_delete of a key that is not empty. */
    method DeleteFrom(key: Key) returns (ret: bool)
      requires Valid() && Sized()
      modifies Repr
      ensures Valid() && Sized() && Repr == old(Repr) && tree == old(tree) && leaked == old(leaked)
      ensures Contents() == old(Contents()) - {key}
      ensures ret <==> if destructor then key in old(Contents()) else key in tree.nodes
    {
      ghost var m := Contents();
      var n := FindNode(key);
      assert Contents() == m;
      ret := DeleteAt(n, key);
    }

    /** trie_delete */
    method Delete(key: Key) returns (ret: bool)
      requires Valid() && Sized()
      modifies Repr
      ensures Valid() && Sized() && Repr == old(Repr) && tree == old(tree) && leaked == old(leaked)
      ensures key == [] ==> Contents() == old(Contents())
      ensures key != [] ==> Contents() == old(Contents()) - {key}
      ensures ret <==> key != [] && (if destructor then key in old(Contents()) else key in old(tree.nodes))
    {
      if |key| == 0 {
        return false;
      }
      ret := DeleteFrom(key);
    }

    static lemma Unbound(m: Bindings, key: Key)
      ensures key !in m ==> m - {key} == m
    {
    }

    static lemma MapSet(m: Bindings, m': Bindings, p: Key, d: DbItem?)
      requires forall q :: q != p ==> (q in m' <==> q in m) && (q in m ==> m'[q] == m[q])
      requires (p in m' <==> d != null) && (d != null ==> m'[p] == d)
      ensures m' == if d != null then m[p := d] else m - {p}
    {
    }

    static lemma SizeWithout(m: Bindings, key: Key)
      requires key in m
      ensures |m - {key}| == |m| - 1
    {
      assert (m - {key}).Keys == m.Keys - {key};
    }

    static lemma SizeWith(m: Bindings, key: Key, item: DbItem)
      ensures |m[key := item]| == if key in m then |m| else |m| + 1
    {
      assert m[key := item].Keys == m.Keys + {key};
    }

    /** trie_node_destroy, as far as the count it is handed goes; the nodes are dropped by the caller. */
    function NodeDestroy(n: TrieNode, count: nat, ghost p: Key): (left: nat)
      requires Valid() && p in tree.nodes && tree.nodes[p] == n
      reads this, Repr
      decreases tree.Under(p), 1
      ensures left == if destructor then count else Drop(count, |Bound(Contents(), tree.Under(p))|)
    {
      WalkNode(p);
      var c := ChildrenDestroy(n.children, count, p, tree.kids[p]);
      if !destructor && n.data != null && c > 0 then c - 1 else c
    }

    /** children_destroy */
    function ChildrenDestroy(t: Bst.Node?<TrieNode>, count: nat, ghost p: Key, ghost s: Kids): (left: nat)
      requires Valid() && Walking(t, p, s)
      reads this, Repr
      decreases tree.Under(p), 0, s
      ensures left == if destructor then count else Drop(count, |Bound(Contents(), tree.UnderKids(p, s))|)
    {
      if t == null then
        assert Bound(Contents(), tree.UnderKids(p, s)) == {};
        count
      else
        WalkBranch(t, p, s);
        var c := NodeDestroy(t.data, count, Ext(p, t.key));
        var c' := ChildrenDestroy(t.left, c, p, s.left);
        DropTwice(count, |Bound(Contents(), tree.Under(Ext(p, t.key)))|, |Bound(Contents(), tree.UnderKids(p, s.left))|,
                  |Bound(Contents(), tree.UnderKids(p, s.right))|);
        ChildrenDestroy(t.right, c', p, s.right)
    }

    /** trie_prefix_delete */
    method PrefixDelete(prefix: Key)
      requires Valid() && Sized()
      modifies Repr
      ensures Valid() && Sized() && Repr == old(Repr)
      ensures Contents() == PrefixRemoved(old(Contents()), prefix)
      ensures tree.nodes.Keys == NotBelow(old(tree.nodes.Keys), prefix)
      ensures leaked == old(leaked) + if destructor then |Below(old(Contents()), prefix)| else 0
    {
      ghost var m := Contents();
      var cursor := FindNode(prefix);
      assert Contents() == m;
      BelowIsUnder(prefix);
      PrefixRemovedSplit(m, prefix);
      NoneBelow(prefix);
      if cursor == null {
        return;
      }
      if cursor.children == null {
        assert Linked(prefix);
        var _ := Delete(prefix);
        return;
      }
      Prune(cursor, prefix);
      var _ := Delete(prefix);
    }

    /** Nothing hangs below a prefix without a node or without children. */
    lemma NoneBelow(p: Key)
      requires Valid()
      ensures p !in tree.nodes || tree.kids[p].Empty? ==> tree.nodes.Keys == NotBelow(tree.nodes.Keys, p)
    {
      if p !in tree.nodes {
        forall q | q in tree.nodes
          ensures !(p < q)
        {
          if p < q {
            assert q[..|p|] == p;
            tree.PrefixHasNode(q, |p|);
          }
        }
      } else if tree.kids[p].Empty? {
        tree.UnderNode(p);
        assert forall q :: q in tree.nodes && p < q ==> q in tree.Under(p);
      }
    }

    /** The keys bound strictly below `p` are those its children tree leads to; without a node there are none. */
    lemma BelowIsUnder(p: Key)
      requires Valid()
      ensures p !in tree.nodes ==> Below(Contents(), p) == {} && p !in Contents()
      ensures p in tree.nodes ==> Below(Contents(), p) == Bound(Contents(), tree.UnderKids(p, tree.kids[p]))
      ensures p in tree.nodes && tree.kids[p].Empty? ==> Below(Contents(), p) == {}
    {
      if p in tree.nodes {
        tree.UnderNode(p);
        forall q | q in Below(Contents(), p)
          ensures q in tree.UnderKids(p, tree.kids[p])
        {
          assert q in tree.Under(p) && q != p;
        }
      } else {
        forall q | q in Contents()
          ensures !(p < q)
        {
          if p < q {
            assert q[..|p|] == p;
            tree.PrefixHasNode(q, |p|);
          }
        }
      }
    }

    /** What the destruction of the children leaves of the count. */
    lemma DestroyedCount(p: Key)
      requires Valid() && Sized() && p in tree.nodes
      ensures Walking(tree.nodes[p].children, p, tree.kids[p]) && tree.nodes[p] in Repr
      ensures ChildrenDestroy(tree.nodes[p].children, size, p, tree.kids[p]) ==
              |Without(Contents(), p)| + leaked + if destructor then |Below(Contents(), p)| else 0
    {
      WalkNode(p);
      BelowIsUnder(p);
      WithoutSize(Contents(), p);
    }

    /** The part of trie_prefix_delete that destroys the children of the node found. */
    method Prune(cursor: TrieNode, ghost p: Key)
      requires Valid() && Sized() && p in tree.nodes && cursor == tree.nodes[p]
      modifies Repr
      ensures Valid() && Sized() && Repr == old(Repr) && tree.nodes.Keys == NotBelow(old(tree.nodes.Keys), p)
      ensures Contents() == Without(old(Contents()), p)
      ensures leaked == old(leaked) + if destructor then |Below(old(Contents()), p)| else 0
    {
      DestroyedCount(p);
      ghost var m := Contents();
      ghost var lost := if destructor then |Below(m, p)| else 0;
      var left := ChildrenDestroy(cursor.children, size, p, tree.kids[p]);
      Cut(cursor, left, p, lost);
      assert Contents() == Without(m, p);
    }

    method Cut(cursor: TrieNode, newSize: nat, ghost p: Key, ghost lost: nat)
      requires Valid() && p in tree.nodes && cursor == tree.nodes[p]
      modifies cursor`children, `size, `tree, `leaked
      ensures Valid() && Contents() == Without(old(Contents()), p)
      ensures size == newSize && leaked == old(leaked) + lost
      ensures tree.nodes.Keys == NotBelow(old(tree.nodes.Keys), p)
    {
      tree.PrunedValid(p);
      size, leaked := newSize, leaked + lost;
      cursor.children := null;
      tree := tree.Pruned(p);
      LinksAfterPrune(cursor, p);
      ContentsAfterPrune(p);
    }

    twostate lemma LinksAfterPrune(cursor: TrieNode, new p: Key)
      requires old(Valid()) && p in old(tree.nodes) && old(tree.nodes[p]) == cursor
      requires tree == old(tree).Pruned(p) && tree.Valid() && Repr == old(Repr)
      requires cursor.children == null && unchanged(Repr - {this, cursor})
      ensures Valid()
    {
      forall q | q in tree.nodes
        ensures Linked(q)
      {
        if q != p {
          assert old(Linked(q) && tree.Apart(p, q));
        }
      }
    }

    twostate lemma ContentsAfterPrune(p: Key)
      requires old(Valid()) && Valid() && tree == old(tree).Pruned(p)
      requires forall q <- tree.nodes :: tree.nodes[q].data == old(tree.nodes[q].data)
      ensures Contents() == Without(old(Contents()), p)
    {
    }
  }

  /** The bound keys among `ks`. */
  ghost function Bound<T>(m: map<Key, T>, ks: set<Key>): set<Key> {
    set q | q in ks && q in m
  }

  ghost function NotBelow(ks: set<Key>, p: Key): set<Key> {
    set q | q in ks && !(p < q)
  }

  /** The bindings left when everything strictly below `p` is gone ... */
  ghost function Without<T>(m: map<Key, T>, p: Key): map<Key, T> {
    map q | q in m && !(p < q) :: m[q]
  }

  /** ... and the keys that went. */
  ghost function Below<T>(m: map<Key, T>, p: Key): set<Key> {
    set q | q in m && p < q
  }

  /** What trie_prefix_delete leaves: the keys extending `prefix` are gone, but the empty key never goes. */
  ghost function PrefixRemoved<T>(m: map<Key, T>, prefix: Key): map<Key, T> {
    map q | q in m && !(prefix <= q && q != []) :: m[q]
  }

  lemma PrefixRemovedSplit<T>(m: map<Key, T>, p: Key)
    ensures PrefixRemoved(m, p) == if p == [] then Without(m, p) else Without(m, p) - {p}
    ensures Below(m, p) == {} ==> Without(m, p) == m
  {
    forall q | q in m
      ensures p <= q <==> p < q || p == q
      ensures p < q <==> q in Below(m, p)
    {
      if p <= q && |p| == |q| {
        assert p == q;
      }
    }
  }

  lemma WithoutSize<T>(m: map<Key, T>, p: Key)
    ensures |Without(m, p)| == |m| - |Below(m, p)|
  {
    assert Without(m, p).Keys == m.Keys - Below(m, p);
    assert Below(m, p) <= m.Keys;
  }

  /** What is left of a count after `k` guarded decrements. */
  function Drop(n: nat, k: nat): nat {
    if n <= k then 0 else n - k
  }

  lemma DropTwice(n: nat, a: nat, b: nat, c: nat)
    ensures Drop(Drop(Drop(n, a), b), c) == Drop(n, a + b + c)
  {
  }

  lemma ExtInjective(p: Key, c: Chr, q: Key, d: Chr)
    ensures Ext(p, c) == Ext(q, d) <==> p == q && c == d
  {
    if Ext(p, c) == Ext(q, d) {
      assert p == Ext(p, c)[..|p|] == Ext(q, d)[..|q|] == q;
      assert c == Ext(p, c)[|p|] == d;
    }
  }
}
