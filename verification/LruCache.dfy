/** The least-recently-used cache against its specification: a sequence of items, most recently used first. */
module LruCache {
  import opened Prelude
  import opened NodeRing

  // ----- The specification -----

  type Items<K, V> = seq<(K, V)>

  ghost predicate UniqueKeys<K, V>(s: Items<K, V>) {
    forall i, j :: 0 <= i < j < |s| ==> s[i].0 != s[j].0
  }

  ghost predicate HasKey<K, V>(s: Items<K, V>, k: K) {
    exists i :: 0 <= i < |s| && s[i].0 == k
  }

  ghost function IndexOf<K, V>(s: Items<K, V>, k: K): (i: nat)
    requires HasKey(s, k)
    ensures i < |s| && s[i].0 == k
  {
    var i :| 0 <= i < |s| && s[i].0 == k;
    i
  }

  ghost function Lookup<K, V>(s: Items<K, V>, k: K): Option<V> {
    if HasKey(s, k) then Some(s[IndexOf(s, k)].1) else None
  }

  /** `s` without the item of `k`, if there is one. */
  ghost function Drop<K, V>(s: Items<K, V>, k: K): Items<K, V> {
    if HasKey(s, k) then Without(s, IndexOf(s, k)) else s
  }

  /** What a cache of size `n` keeps: the most recently used items. */
  ghost function Trimmed<K, V>(s: Items<K, V>, n: nat): Items<K, V> {
    if |s| <= n then s else s[..n]
  }

  /** What it lets go. */
  ghost function Cut<K, V>(s: Items<K, V>, n: nat): Items<K, V> {
    if |s| <= n then [] else s[n..]
  }

  /** `k` becomes the most recently used key. */
  ghost function Touched<K, V>(s: Items<K, V>, k: K, v: V): Items<K, V> {
    [(k, v)] + Drop(s, k)
  }

  /** The dictionary behind a write-back cache, and the keys whose cached value it does not have yet. */
  datatype Backing<K, V> = Backing(store: map<K, V>, dirty: set<K>)

  function Ejected<K, V>(b: Backing<K, V>, item: (K, V)): Backing<K, V> {
    if item.0 in b.dirty then Backing(b.store[item.0 := item.1], b.dirty - {item.0}) else b
  }

  /** Ejection of several items, the least recently used one first. */
  function EjectedAll<K, V>(b: Backing<K, V>, s: Items<K, V>): Backing<K, V>
    decreases |s|
  {
    if s == [] then b else EjectedAll(Ejected(b, s[|s| - 1]), s[..|s| - 1])
  }

  lemma {:induction false} EjectedFirst<K, V>(b: Backing<K, V>, item: (K, V), s: Items<K, V>)
    ensures EjectedAll(b, [item] + s) == Ejected(EjectedAll(b, s), item)
    decreases |s|
  {
    if s == [] {
      assert EjectedAll(Ejected(b, item), ([item] + s)[..0]) == Ejected(b, item);
    } else {
      assert ([item] + s)[..|s|] == [item] + s[..|s| - 1];
      EjectedFirst(Ejected(b, s[|s| - 1]), item, s[..|s| - 1]);
    }
  }

  /** Shrinking by one more ejects the next item. */
  lemma CutMore<K, V>(b: Backing<K, V>, s: Items<K, V>, n: nat)
    requires n > 0
    ensures Trimmed(Trimmed(s, n), n - 1) == Trimmed(s, n - 1)
    ensures EjectedAll(b, Cut(s, n - 1)) == if |s| < n then b else Ejected(EjectedAll(b, Cut(s, n)), s[n - 1])
  {
    if |s| >= n {
      EjectedFirst(b, s[n - 1], Cut(s, n));
      assert Cut(s, n - 1) == [s[n - 1]] + Cut(s, n);
    }
  }

  lemma {:induction false} CountKeys<K, V>(s: Items<K, V>, keys: set<K>)
    requires UniqueKeys(s)
    requires forall k :: k in keys ==> HasKey(s, k)
    requires forall i :: 0 <= i < |s| ==> s[i].0 in keys
    ensures |keys| == |s|
  {
    if s == [] {
      assert keys == {};
    } else {
      var init, last := s[..|s| - 1], s[|s| - 1].0;
      forall k | k in keys - {last} ensures HasKey(init, k) {
        assert init[IndexOf(s, k)].0 == k;
      }
      CountKeys(init, keys - {last});
    }
  }

  // ----- Items in slots: non-empty nodes are a prefix of the circle -----

  ghost function Padded<K, V>(s: Items<K, V>, n: nat): seq<Slot<K, V>> {
    seq(n, i => if 0 <= i < |s| then Some(s[i]) else None)
  }

  lemma PaddedMoved<K, V>(s: Items<K, V>, n: nat, i: nat)
    requires i < |s| <= n
    ensures [Padded(s, n)[i]] + Without(Padded(s, n), i) == Padded([s[i]] + Without(s, i), n)
  {
  }

  lemma PaddedUpdated<K, V>(s: Items<K, V>, n: nat, i: nat, item: (K, V))
    requires i < |s| <= n
    ensures Padded(s, n)[i := Some(item)] == Padded(s[i := item], n)
  {
  }

  lemma PaddedRemoved<K, V>(s: Items<K, V>, n: nat, i: nat)
    requires i < |s| <= n
    ensures var slots := Padded(s, n)[i := None];
            Without(slots, i) + [slots[i]] == Padded(Without(s, i), n)
  {
  }

  lemma PaddedPushed<K, V>(s: Items<K, V>, n: nat, item: (K, V))
    requires |s| <= n && n > 0
    ensures [Some(item)] + Without(Padded(s, n), n - 1) == Padded(Trimmed([item] + s, n), n)
  {
  }

  lemma PaddedShrunk<K, V>(s: Items<K, V>, n: nat)
    requires |s| <= n && n > 0
    ensures Padded(s, n)[..n - 1] == Padded(Trimmed(s, n - 1), n - 1)
  {
  }

  lemma PaddedGrown<K, V>(s: Items<K, V>, n: nat)
    requires |s| <= n
    ensures Padded(s, n) + [None] == Padded(s, n + 1)
  {
  }

  // ----- The implementation -----

  /** The environment of the eviction callback of a write-back manager. */
  class Sink<K(==), V> {
    var store: map<K, V>
    var dirty: set<K>

    ghost function State(): Backing<K, V>
      reads this
    {
      Backing(store, dirty)
    }

    constructor (initial: map<K, V>)
      ensures store == initial && dirty == {}
    {
      store, dirty := initial, {};
    }

    method Callback(k: K, v: V)
      modifies this
      ensures State() == Ejected(old(State()), (k, v))
    {
      if k in dirty {
        store := store[k := v];
        dirty := dirty - {k};
      }
    }
  }

  class LruCache<K(==), V> {
    var table: map<K, Node<K, V>>
    var head: Node<K, V>
    var listSize: nat
    const callback: Sink?<K, V>

    ghost var nodes: set<Node<K, V>>
    ghost var ring: seq<Node<K, V>>
    ghost var items: Items<K, V>

    /** `Valid` but for the recorded size, which resizing updates last. */
    ghost predicate Sound()
      reads this, nodes
    {
      && Ring(nodes, ring) && ring[0] == head
      && |items| <= |ring| && Filled(nodes, ring, Padded(items, |ring|), table)
    }

    ghost predicate Valid()
      reads this, nodes
    {
      Sound() && listSize == |ring|
    }

    /** The callback, if there is one, has been given `ejected`, least recently used item first. */
    twostate predicate Told(ejected: Items<K, V>)
      reads callback
    {
      callback != null ==> callback.State() == EjectedAll(old(callback.State()), ejected)
    }

    lemma UniqueItems()
      requires Valid()
      ensures UniqueKeys(items)
      ensures forall i :: 0 <= i < |items| ==> items[i].0 in table
    {
      var slots := Padded(items, |ring|);
      AllDiffer(ring);
      forall i | 0 <= i < |items| ensures items[i].0 in table { assert FilledAt(nodes, ring, slots, table, i); }
      forall i, j | 0 <= i < j < |items| ensures items[i].0 != items[j].0 {
        assert FilledAt(nodes, ring, slots, table, i) && FilledAt(nodes, ring, slots, table, j);
      }
    }

    /** The table has exactly the keys of the items and leads to their nodes. */
    lemma TableKeys(k: K)
      requires Valid()
      ensures k in table <==> HasKey(items, k)
      ensures k in table ==> IndexOf(items, k) < |ring| && table[k] == ring[IndexOf(items, k)] && table[k] in nodes
      ensures k in table ==> Holds(table[k], Some(items[IndexOf(items, k)]))
    {
      var slots := Padded(items, |ring|);
      if HasKey(items, k) {
        assert FilledAt(nodes, ring, slots, table, IndexOf(items, k));
      }
      if k in table {
        var i :| KeyedAt(slots, k, i);
        assert items[i].0 == k;
      }
    }

    lemma TableSize()
      requires Valid()
      ensures |table| == |items|
    {
      UniqueItems();
      forall k | k in table.Keys ensures HasKey(items, k) { TableKeys(k); }
      CountKeys(items, table.Keys);
    }

    constructor (size: nat, callback: Sink?<K, V>)
      requires size > 0
      ensures Valid() && fresh(nodes) && |ring| == size && items == []
      ensures this.callback == callback
    {
      this.callback := callback;
      var node := new Node();
      table := map[];
      head := node;
      listSize := 1;
      nodes, ring, items := {node}, [node], [];
      new;
      head.next := head;
      head.prev := head;
      forall i ensures Linked(nodes, ring, i) && FilledAt(nodes, ring, Padded(items, 1), table, i) { }
      AddTailNode(size - 1);
    }

    method Contains(k: K) returns (r: bool)
      requires Valid()
      ensures r <==> HasKey(items, k)
    {
      TableKeys(k);
      r := k in table;
    }

    /** A lookup that leaves the order alone; `None` stands for a `KeyError`. */
    method Peek(k: K) returns (r: Option<V>)
      requires Valid()
      ensures r == Lookup(items, k)
    {
      TableKeys(k);
      r := if k in table then table[k].value else None;
    }

    method GetItem(k: K) returns (r: Option<V>)
      requires Valid()
      modifies this, nodes
      ensures Valid() && nodes == old(nodes) && |ring| == old(|ring|)
      ensures r == Lookup(old(items), k)
      ensures items == if r.Some? then Touched(old(items), k, r.value) else old(items)
    {
      TableKeys(k);
      if k !in table {
        return None;
      }
      var node := table[k];
      MoveToHead(node, IndexOf(items, k));
      return node.value;
    }

    /** `mtf(node); head = node` */
    method MoveToHead(node: Node<K, V>, ghost i: nat)
      requires Valid() && i < |items| && ring[i] == node
      modifies this, nodes`next, nodes`prev
      ensures Valid() && nodes == old(nodes) && table == old(table) && |ring| == old(|ring|)
      ensures items == [old(items)[i]] + Without(old(items), i)
    {
      PaddedMoved(items, |ring|, i);
      MoveFilled(head, node, table, nodes, ring, Padded(items, |ring|), i);
      head := node;
      ring, items := [node] + Without(ring, i), [items[i]] + Without(items, i);
    }

    method SetItem(k: K, v: V)
      requires Valid()
      modifies this, nodes, callback
      ensures Valid() && nodes == old(nodes) && |ring| == old(|ring|)
      ensures items == Trimmed(Touched(old(items), k, v), |ring|)
      ensures Told(Cut(Touched(old(items), k, v), |ring|))
    {
      TableKeys(k);
      if k in table {
        var node := table[k];
        ghost var i := IndexOf(items, k);
        ReplaceValue(node, i, v);
        MoveToHead(node, i);
      } else {
        PlaceAtTail(k, v);
      }
    }

    method ReplaceValue(node: Node<K, V>, ghost i: nat, v: V)
      requires Valid() && i < |items| && ring[i] == node && node in nodes
      modifies `table, `items, node`empty, node`key, node`value
      ensures Valid() && items == old(items)[i := (old(items)[i].0, v)]
    {
      ghost var slots := Padded(items, |ring|);
      assert FilledAt(nodes, ring, slots, table, i);
      table := WriteNode(node, Some((node.key.value, v)), table, nodes, ring, slots, i);
      PaddedUpdated(items, |ring|, i, (items[i].0, v));
      items := items[i := (items[i].0, v)];
    }

    /** Calls the callback on a node that is about to lose its item, if it has one. */
    method Announce(node: Node<K, V>, ghost slot: Slot<K, V>)
      requires Holds(node, slot)
      modifies callback
      ensures callback != null ==>
                callback.State() == if slot.Some? then Ejected(old(callback.State()),
                    slot.value) else old(callback.State())
    {
      if !node.empty && callback != null {
        callback.Callback(node.key.value, node.value.value);
      }
    }

    /** The node at the tail gives up its item, if any, takes the new one and becomes the head. */
    method PlaceAtTail(k: K, v: V)
      requires Valid() && k !in table
      modifies this, nodes, callback
      ensures Valid() && nodes == old(nodes) && |ring| == old(|ring|)
      ensures items == Trimmed([(k, v)] + old(items), |ring|)
      ensures Told(Cut([(k, v)] + old(items), |ring|))
    {
      ghost var slots, n := Padded(items, |ring|), |ring|;
      Neighbours(nodes, ring, 0);
      var node := head.prev;
      assert FilledAt(nodes, ring, slots, table, n - 1);
      Announce(node, slots[n - 1]);
      assert |items| == n ==> Cut([(k, v)] + items, n) == [items[n - 1]];
      PaddedPushed(items, n, (k, v));
      table := Occupy(node, (k, v), table, nodes, ring, slots);
      head := node;
      ring, items := [node] + Without(ring, n - 1), Trimmed([(k, v)] + items, n);
    }

    method DelItem(k: K) returns (found: bool)
      requires Valid()
      modifies this, nodes
      ensures Valid() && nodes == old(nodes) && |ring| == old(|ring|)
      ensures found <==> HasKey(old(items), k)
      ensures items == Drop(old(items), k)
    {
      TableKeys(k);
      if k !in table {
        return false;
      }
      var node := table[k];
      RemoveNode(node, IndexOf(items, k));
      return true;
    }

    method RemoveNode(node: Node<K, V>, ghost i: nat)
      requires Valid() && i < |items| && ring[i] == node && node in nodes
      modifies this, nodes
      ensures Valid() && nodes == old(nodes) && |ring| == old(|ring|)
      ensures items == Without(old(items), i)
    {
      ghost var slots := Padded(items, |ring|);
      table := WriteNode(node, None, table, nodes, ring, slots, i);
      PaddedRemoved(items, |ring|, i);
      MoveFilled(head, node, table, nodes, ring, slots[i := None], i);
      ring, items := Without(ring, i) + [node], Without(items, i);
      Neighbours(nodes, ring, |ring| - 1);
      head := node.next;
    }

    /** `pop`. Without a default, an absent key is a `KeyError`, for which `None` stands. */
    method Pop(k: K, default: Option<V>) returns (r: Option<V>)
      requires Valid()
      modifies this, nodes
      ensures Valid() && nodes == old(nodes) && |ring| == old(|ring|)
      ensures r == if Lookup(old(items), k).Some? then Lookup(old(items), k) else default
      ensures items == Drop(old(items), k)
    {
      var value := Peek(k);
      var found := DelItem(k);
      r := if found then value else default;
    }

    /** Removes the most recently used item; `None` stands for a `KeyError`. */
    method PopItem() returns (r: Option<(K, V)>)
      requires Valid()
      modifies this, nodes
      ensures Valid() && nodes == old(nodes) && |ring| == old(|ring|)
      ensures r == if old(items) == [] then None else Some(old(items)[0])
      ensures items == if old(items) == [] then [] else old(items)[1..]
    {
      TableSize();
      if |table| < 1 {
        return None;
      }
      assert FilledAt(nodes, ring, Padded(items, |ring|), table, 0);
      r := Some((head.key.value, head.value.value));
      UniqueItems();
      assert IndexOf(items, items[0].0) == 0;
      assert Without(items, 0) == items[1..];
      var found := DelItem(r.value.0);
    }

    method SetDefault(k: K, v: V) returns (r: V)
      requires Valid()
      modifies this, nodes, callback
      ensures Valid() && nodes == old(nodes) && |ring| == old(|ring|)
      ensures r == if HasKey(old(items), k) then Lookup(old(items), k).value else v
      ensures items == Trimmed(Touched(old(items), k, r), |ring|)
      ensures Told(Cut(Touched(old(items), k, r), |ring|))
    {
      TableKeys(k);
      if k in table {
        var hit := GetItem(k);
        return hit.value;
      }
      SetItem(k, v);
      return v;
    }

    /** Empties the nodes one by one, walking from the head. The callback is not told. */
    method Clear()
      requires Valid()
      modifies this, nodes
      ensures Valid() && nodes == old(nodes) && ring == old(ring) && items == []
    {
      TableSize();
      var count := |table|;
      forall j | 0 <= j < |ring| ensures ring[j] in nodes && (count <= j ==> ring[j].empty) {
        assert FilledAt(nodes, ring, Padded(items, |ring|), table, j);
      }
      var node := head;
      for i := 0 to count
        invariant Ring(nodes, ring) && unchanged(this)
        invariant i < count ==> node == ring[i]
        invariant forall j :: 0 <= j < i || count <= j < |ring| ==> ring[j].empty
      {
        Neighbours(nodes, ring, i);
        node.empty := true;
        node.key := None;
        node.value := None;
        node := node.next;
      }
      table := map[];
      items := [];
      forall j ensures FilledAt(nodes, ring, Padded(items, |ring|), table, j) { }
    }

    /** Resizes the cache, pushing out the least recently used items that no longer fit. */
    method Resize(size: nat)
      requires Valid() && size > 0
      modifies this, nodes, callback
      ensures Valid() && |ring| == size && fresh(nodes - old(nodes))
      ensures items == Trimmed(old(items), size)
      ensures Told(Cut(old(items), size))
    {
      if size > listSize {
        AddTailNode(size - listSize);
      } else if size < listSize {
        RemoveTailNode(listSize - size);
      }
    }

    /** Grows the circle by `n` empty nodes at its tail. */
    method AddTailNode(n: nat)
      requires Valid()
      modifies this, nodes
      ensures Valid() && |ring| == |old(ring)| + n && items == old(items)
      ensures old(nodes) <= nodes && fresh(nodes - old(nodes))
    {
      for j := 0 to n
        invariant Sound() && |ring| == |old(ring)| + j && items == old(items) && listSize == |old(ring)|
        invariant old(nodes) <= nodes && fresh(nodes - old(nodes))
      {
        AddOne();
      }
      listSize := listSize + n;
    }

    method AddOne()
      requires Sound()
      modifies this, nodes
      ensures Sound() && items == old(items) && listSize == old(listSize) && |ring| == |old(ring)| + 1
      ensures old(nodes) <= nodes && fresh(nodes - old(nodes))
    {
      Neighbours(nodes, ring, 0);
      Neighbours(nodes, ring, |ring| - 1);
      var node := new Node();
      node.next := head;
      node.prev := head.prev;
      LinkLast(node, nodes, ring);
      ghost var slots := Padded(items, |ring|);
      FilledExtended(nodes, ring, slots, table, node);
      PaddedGrown(items, |ring|);
      nodes, ring := nodes + {node}, ring + [node];
      assert Filled(nodes, ring, Padded(items, |ring|), table);
    }

    /** Shrinks the circle by `n` nodes from its tail. */
    method RemoveTailNode(n: nat)
      requires Valid() && n < listSize
      modifies this, nodes, callback
      ensures Valid() && nodes <= old(nodes) && |ring| == |old(ring)| - n
      ensures items == Trimmed(old(items), |ring|)
      ensures Told(Cut(old(items), |ring|))
    {
      for j := 0 to n
        invariant Sound() && nodes <= old(nodes) && |ring| == |old(ring)| - j && listSize == |old(ring)|
        invariant items == Trimmed(old(items), |ring|)
        invariant Told(Cut(old(items), |ring|))
      {
        if callback != null {
          CutMore(old(callback.State()), old(items), |ring|);
        }
        RemoveOne();
      }
      listSize := listSize - n;
    }

    method RemoveOne()
      requires Sound() && |ring| > 1
      modifies this, nodes, callback
      ensures Sound() && nodes <= old(nodes) && |ring| == |old(ring)| - 1 && listSize == old(listSize)
      ensures items == Trimmed(old(items), |ring|)
      ensures callback != null ==>
                callback.State() == if |old(items)| <= |ring| then old(callback.State())
                                    else Ejected(old(callback.State()), old(items)[|ring|])
    {
      ghost var m, slots := |ring| - 1, Padded(items, |ring|);
      Neighbours(nodes, ring, 0);
      var node := head.prev;
      assert FilledAt(nodes, ring, slots, table, m);
      Announce(node, slots[m]);
      PaddedShrunk(items, |ring|);
      table := Discard(node, table, nodes, ring, slots);
      nodes, ring, items := nodes - {node}, ring[..m], Trimmed(items, m);
    }
  }
}
