/** The database commands over the trie (src/db.c): a map from keys to records, updated in place. */
module Database {
  import opened Bytes
  import opened Decimal
  import opened Items
  import opened Trie
  import Bst
  import opened PrefixFind

  /** Every insertion allocates its own item. */
  ghost predicate Injective(m: Bindings) {
    forall k, l | k in m && l in m && k != l :: m[k] != m[l]
  }

  /** No item is part of the trie's own structure. */
  ghost predicate Outside(m: Bindings, repr: set<object>) {
    forall k <- m :: m[k] !in repr
  }

  ghost function ItemsAt(m: Bindings, ks: set<Key>): set<DbItem> {
    set k | k in ks && k in m :: m[k]
  }

  lemma ItemsSplit(m: Bindings, a: set<Key>, b: set<Key>)
    requires Injective(m) && a !! b
    ensures ItemsAt(m, a + b) == ItemsAt(m, a) + ItemsAt(m, b) && ItemsAt(m, a) !! ItemsAt(m, b)
  {
  }

  /** What a walk over the trie needs: the trie holds `m`, whose items are apart from it and from each other. */
  ghost predicate Holds(t: Trie, m: Bindings)
    reads t, t.Repr
  {
    t.Valid() && t.Contents() == m && Injective(m) && Outside(m, t.Repr)
  }

  ghost function OwnItem(n: TrieNode): set<DbItem>
    reads n
  {
    if n.data == null then {} else {n.data}
  }

  /** The items below a node are its own and those its children tree leads to. */
  lemma NodeItems(t: Trie, p: Key, m: Bindings)
    requires Holds(t, m) && p in t.tree.nodes
    ensures t.tree.nodes[p] in t.Repr && t.Walking(t.tree.nodes[p].children, p, t.tree.kids[p])
    ensures var own, below := OwnItem(t.tree.nodes[p]), ItemsAt(m, t.tree.UnderKids(p, t.tree.kids[p]));
      ItemsAt(m, t.tree.Under(p)) == own + below && own !! below && own !! t.Repr
  {
    t.WalkNode(p);
    t.tree.UnderNode(p);
    ItemsSplit(m, {p}, t.tree.UnderKids(p, t.tree.kids[p]));
    assert ItemsAt(m, {p}) == OwnItem(t.tree.nodes[p]);
  }

  /** trie_node_integer_mod: the node, then its children. */
  method NodeModify(t: Trie, n: TrieNode, u: Update, now: int, ghost p: Key, ghost m: Bindings)
    requires Holds(t, m) && p in t.tree.nodes && t.tree.nodes[p] == n
    modifies ItemsAt(m, t.tree.Under(p))
    decreases t.tree.Under(p), 2
    ensures forall i <- ItemsAt(m, t.tree.Under(p)) :: i.Value() == Applied(u, old(i.Value()), now)
  {
    NodeItems(t, p, m);
    if n.data != null {
      n.data.Touch(u, now);
      Still(Place(t, n.children, p, t.tree.kids[p]));
    }
    KidsUpdate(t, n.children, u, now, p, t.tree.kids[p], m);
  }

  /** trie_node_prefix_set and trie_node_prefix_ttl: the children, then the node. */
  method NodeAssign(t: Trie, n: TrieNode, u: Update, now: int, ghost p: Key, ghost m: Bindings)
    requires Holds(t, m) && p in t.tree.nodes && t.tree.nodes[p] == n
    modifies ItemsAt(m, t.tree.Under(p))
    decreases t.tree.Under(p), 2
    ensures forall i <- ItemsAt(m, t.tree.Under(p)) :: i.Value() == Applied(u, old(i.Value()), now)
  {
    NodeItems(t, p, m);
    KidsUpdate(t, n.children, u, now, p, t.tree.kids[p], m);
    if n.data != null {
      n.data.Touch(u, now);
    }
  }

  method NodeUpdate(t: Trie, n: TrieNode, u: Update, now: int, ghost p: Key, ghost m: Bindings)
    requires Holds(t, m) && p in t.tree.nodes && t.tree.nodes[p] == n
    modifies ItemsAt(m, t.tree.Under(p))
    decreases t.tree.Under(p), 3
    ensures forall i <- ItemsAt(m, t.tree.Under(p)) :: i.Value() == Applied(u, old(i.Value()), now)
  {
    if u.Inc? || u.Dec? {
      NodeModify(t, n, u, now, p, m);
    } else {
      NodeAssign(t, n, u, now, p, m);
    }
  }

  /** bst_node_integer_mod, bst_node_prefix_set and bst_node_prefix_ttl: left, right, then the node's trie node. */
  method KidsUpdate(t: Trie, b: Bst.Node?<TrieNode>, u: Update, now: int, ghost p: Key, ghost s: Kids,
                    ghost m: Bindings)
    requires Holds(t, m) && t.Walking(b, p, s)
    modifies ItemsAt(m, t.tree.UnderKids(p, s))
    decreases t.tree.Under(p), 1, s, 1
    ensures forall i <- ItemsAt(m, t.tree.UnderKids(p, s)) :: i.Value() == Applied(u, old(i.Value()), now)
  {
    if b == null {
      return;
    }
    BranchItems(t, b, p, s, m);
    SidesUpdate(t, b, u, now, p, s, m);
    Still(Place(t, b, p, s));
    NodeUpdate(t, b.data, u, now, Ext(p, b.key), m);
  }

  /** The items a children tree leads to, divided as the walk divides them. */
  lemma BranchItems(t: Trie, b: Bst.Node<TrieNode>, p: Key, s: Kids, m: Bindings)
    requires Holds(t, m) && t.Walking(b, p, s)
    ensures s.Branch? && t.Walking(b.left, p, s.left) && t.Walking(b.right, p, s.right)
    ensures b.key != 0 && Ext(p, b.key) in t.tree.nodes && t.tree.nodes[Ext(p, b.key)] == b.data
    ensures t.tree.Under(Ext(p, b.key)) < t.tree.Under(p)
    ensures var k, l, r := t.tree.Under(Ext(p, b.key)), t.tree.UnderKids(p, s.left), t.tree.UnderKids(p, s.right);
            && l !! r && ItemsAt(m, t.tree.UnderKids(p, s)) == ItemsAt(m, l + r) + ItemsAt(m, k)
            && ItemsAt(m, l + r) !! ItemsAt(m, k)
  {
    t.WalkBranch(b, p, s);
    t.tree.UnderBranch(p, s);
    var k, l, r := t.tree.Under(Ext(p, b.key)), t.tree.UnderKids(p, s.left), t.tree.UnderKids(p, s.right);
    ItemsSplit(m, l + r, k);
    assert t.tree.UnderKids(p, s) == l + r + k;
  }

  method SidesUpdate(t: Trie, b: Bst.Node<TrieNode>, u: Update, now: int, ghost p: Key, ghost s: Kids,
                     ghost m: Bindings)
    requires Holds(t, m) && s.Branch? && t.Walking(b.left, p, s.left) && t.Walking(b.right, p, s.right)
    requires t.tree.UnderKids(p, s.left) !! t.tree.UnderKids(p, s.right)
    modifies ItemsAt(m, t.tree.UnderKids(p, s.left) + t.tree.UnderKids(p, s.right))
    decreases t.tree.Under(p), 1, s, 0
    ensures forall i <- ItemsAt(m, t.tree.UnderKids(p, s.left) + t.tree.UnderKids(p, s.right)) ::
              i.Value() == Applied(u, old(i.Value()), now)
  {
    ItemsSplit(m, t.tree.UnderKids(p, s.left), t.tree.UnderKids(p, s.right));
    KidsUpdate(t, b.left, u, now, p, s.left, m);
    Still(Place(t, b.right, p, s.right));
    KidsUpdate(t, b.right, u, now, p, s.right, m);
  }

  ghost function Values(m: Bindings): map<Key, Record>
    reads m.Values
  {
    map k | k in m :: m[k].Value()
  }

  twostate lemma ValuesKept(m: Bindings)
    requires unchanged(m.Values)
    ensures Values(m) == old(Values(m))
  {
  }

  lemma ValuesChange(m: Bindings, key: Key, item: DbItem)
    ensures Values(m[key := item]) == Values(m)[key := item.Value()]
  {
  }

  lemma InjectiveWith(m: Bindings, key: Key, item: DbItem)
    requires Injective(m) && item !in m.Values
    ensures Injective(m[key := item])
  {
  }

  lemma ValuesDrop(m: Bindings, key: Key)
    ensures Values(m - {key}) == Values(m) - {key}
  {
  }

  twostate lemma ItemsUpdated(m: Bindings, new prefix: Key, new u: Update, new now: int)
    requires Injective(m)
    requires forall k <- Extending(m, prefix) :: m[k].Value() == Applied(u, old(m[k].Value()), now)
    requires unchanged(m.Values - ItemsAt(m, Extending(m, prefix)))
    ensures Values(m) == Updated(old(Values(m)), prefix, u, now)
  {
    forall k | k in m && !(prefix <= k)
      ensures m[k].Value() == old(m[k].Value())
    {
      assert m[k] !in ItemsAt(m, Extending(m, prefix));
    }
  }

  /** What a prefix command does to the database: exactly the records whose key extends the prefix change. */
  ghost function Updated(m: map<Key, Record>, prefix: Key, u: Update, now: int): map<Key, Record> {
    map k | k in m :: if prefix <= k then Applied(u, m[k], now) else m[k]
  }

  /** Exactly the records whose key extends the prefix change, each as the command says. */
  ghost predicate Reached(m: map<Key, Record>, m': map<Key, Record>, prefix: Key, u: Update, now: int) {
    && m'.Keys == m.Keys
    && forall k <- m :: if prefix <= k then Meets(u, m[k], m'[k], now) else m'[k] == m[k]
  }

  lemma UpdatedReached(m: map<Key, Record>, prefix: Key, u: Update, now: int)
    ensures Reached(m, Updated(m, prefix, u, now), prefix, u, now)
  {
    forall k | k in m
      ensures Meets(u, m[k], Applied(u, m[k], now), now)
    {
      AppliedMeets(u, m[k], now);
    }
  }

  /** struct database: a named keyspace, seen as a map from keys to records. */
  class Database {
    const data: Trie

    ghost predicate Valid()
      reads data, data.Repr
    {
      data.Valid() && data.Sized() && Injective(data.Contents()) && Outside(data.Contents(), data.Repr)
    }

    ghost function State(): map<Key, Record>
      requires data.Valid()
      reads data, data.Repr, data.Contents().Values
    {
      Values(data.Contents())
    }

    /** database_init */
    constructor (destructor: bool)
      ensures Valid() && fresh(data.Repr) && State() == map[]
    {
      data := new Trie(destructor);
    }

    /** database_insert */
    method Insert(key: Key, val: Key, ttl: int, now: int)
      requires Valid()
      modifies data.Repr
      ensures Valid() && fresh(data.Repr - old(data.Repr))
      ensures State() == old(State())[key := Record(ttl, val, now, now)]
    {
      var item := new DbItem(val, ttl, now);
      Bind(key, item);
    }

    /** database_insert, once the item has been made. */
    method Bind(key: Key, item: DbItem)
      requires Valid() && item !in data.Contents().Values && item !in data.Repr
      modifies data.Repr
      ensures Valid() && fresh(data.Repr - old(data.Repr)) && State() == old(State())[key := item.Value()]
      ensures item.Value() == old(item.Value())
    {
      ghost var m := data.Contents();
      InjectiveWith(m, key, item);
      data.Insert(key, item);
      assert data.Contents() == m[key := item];
      ValuesKept(m);
      ValuesChange(m, key, item);
    }

    /** database_search: a bound key whose ttl has run out is reported missing. */
    method Search(key: Key, now: int) returns (item: DbItem?)
      requires Valid()
      ensures item != null <==>
              key in State() && !(State()[key].ttl > -1 && State()[key].ttl <= now - State()[key].ctime)
      ensures item != null ==> item == data.Contents()[key]
    {
      item := data.Find(key);
      if item != null && item.ttl > -1 && item.ttl <= now - item.ctime {
        item := null;
      }
    }

    /** database_remove */
    method Remove(key: Key) returns (found: bool)
      requires Valid()
      modifies data.Repr
      ensures Valid() && State() == if key == [] then old(State()) else old(State()) - {key}
      ensures data.destructor ==> (found <==> key != [] && key in old(State()))
      ensures data.Repr == old(data.Repr)
    {
      ghost var m := data.Contents();
      found := data.Delete(key);
      ValuesKept(m);
      ValuesDrop(m, key);
    }

    /** database_prefix_remove */
    method PrefixRemove(prefix: Key)
      requires Valid()
      modifies data.Repr
      ensures Valid() && State() == PrefixRemoved(old(State()), prefix) && data.Repr == old(data.Repr)
    {
      data.PrefixDelete(prefix);
    }

    /** The walk to the prefix and below it. */
    method UpdateBelow(prefix: Key, u: Update, now: int)
      requires Valid()
      modifies data.Contents().Values
      ensures Valid() && data.Contents() == old(data.Contents()) && data.size == old(data.size)
      ensures data.Repr == old(data.Repr) && State() == Updated(old(State()), prefix, u, now)
    {
      ghost var m := data.Contents();
      var n := data.FindNode(prefix);
      assert data.Contents() == m;
      ExtendingIsUnder(data, prefix);
      if n != null {
        NodeUpdate(data, n, u, now, prefix, m);
      }
      ItemsUpdated(m, prefix, u, now);
    }

    /** database_prefix_inc, database_prefix_dec, database_prefix_set and database_prefix_ttl */
    method PrefixUpdate(prefix: Key, u: Update, now: int)
      requires Valid()
      modifies data.Contents().Values
      ensures Valid() && data.Contents() == old(data.Contents()) && data.size == old(data.size)
      ensures data.Repr == old(data.Repr) && State() == Updated(old(State()), prefix, u, now)
      ensures Reached(old(State()), State(), prefix, u, now)
    {
      ghost var was := State();
      UpdateBelow(prefix, u, now);
      UpdatedReached(was, prefix, u, now);
    }
  }

  /** A prefix DEC after a prefix INC: which keys are bound, their ttl and creation time never change, and a
      value comes back exactly when its key lies outside the prefix, or it is not all digits, or it is a
      canonical decimal below INT_MAX. */
  lemma IncThenDecRestores(m: map<Key, Record>, prefix: Key, t1: int, t2: int, k: Key)
    requires k in m
    ensures var m' := Updated(Updated(m, prefix, Inc, t1), prefix, Dec, t2);
            && m'.Keys == m.Keys
            && m'[k].ttl == m[k].ttl && m'[k].ctime == m[k].ctime
            && (m'[k].data == m[k].data <==> !(prefix <= k) || !IsInteger(m[k].data) || Counts(m[k].data))
  {
    IncThenDec(m[k].data);
  }
}
