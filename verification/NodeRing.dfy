/** The circular doubly linked list under the least-recently-used cache, and what its nodes hold.

    A circle is described by the sequence of its nodes, read off from the head. The set `nodes` that goes
    with it is the footprint: it contains the circle and is all that the operations touch. */
module NodeRing {
  import opened Prelude

  /** `key` and `value` are `None` in an empty node. */
  class Node<K, V> {
    var empty: bool
    var next: Node?<K, V>
    var prev: Node?<K, V>
    var key: Option<K>
    var value: Option<V>

    constructor ()
      ensures empty && key == None && value == None
    {
      empty, next, prev, key, value := true, null, null, None, None;
    }
  }

  function Without<T>(s: seq<T>, i: nat): seq<T>
    requires i < |s|
  {
    s[..i] + s[i + 1..]
  }

  // ----- Sequences without repetition -----

  ghost predicate Differ<T>(s: seq<T>, i: int, j: int) {
    0 <= i < j < |s| ==> s[i] != s[j]
  }

  ghost predicate Distinct<T>(s: seq<T>) {
    forall i, j :: Differ(s, i, j)
  }

  lemma AllDiffer<T>(s: seq<T>)
    requires Distinct(s)
    ensures forall i, j :: 0 <= i < j < |s| ==> s[i] != s[j]
  {
    forall i, j | 0 <= i < j < |s| ensures s[i] != s[j] { assert Differ(s, i, j); }
  }

  lemma DistinctWithout<T>(s: seq<T>, i: nat)
    requires Distinct(s) && i < |s|
    ensures Distinct(Without(s, i)) && s[i] !in Without(s, i)
    ensures forall j :: 0 <= j < |s| && j != i ==> s[j] != s[i]
  {
    var t := Without(s, i);
    forall j, k ensures Differ(t, j, k) {
      assert Differ(s, if j < i then j else j + 1, if k < i then k else k + 1);
    }
    forall j | 0 <= j < |s| && j != i ensures s[j] != s[i] {
      assert Differ(s, i, j) && Differ(s, j, i);
    }
  }

  lemma DistinctExtended<T>(s: seq<T>, x: T)
    requires Distinct(s) && x !in s
    ensures Distinct(s + [x]) && Distinct([x] + s)
  {
    forall j, k ensures Differ(s + [x], j, k) && Differ([x] + s, j, k) {
      assert Differ(s, j, k) && Differ(s, j - 1, k - 1);
    }
  }

  // ----- The circle -----

  /** Node `i` and its successor on the circle point at each other. */
  ghost predicate Linked<K, V>(nodes: set<Node<K, V>>, s: seq<Node<K, V>>, i: int)
    reads nodes`next, nodes`prev
  {
    0 <= i < |s| ==>
      var j := if i == |s| - 1 then 0 else i + 1;
      s[i] in nodes && s[j] in nodes && s[i].next == s[j] && s[j].prev == s[i]
  }

  ghost predicate Ring<K, V>(nodes: set<Node<K, V>>, s: seq<Node<K, V>>)
    reads nodes`next, nodes`prev
  {
    s != [] && Distinct(s) && forall i :: Linked(nodes, s, i)
  }

  lemma Neighbours<K, V>(nodes: set<Node<K, V>>, s: seq<Node<K, V>>, i: nat)
    requires Ring(nodes, s) && i < |s|
    ensures s[i] in nodes
    ensures s[i].prev == s[if i == 0 then |s| - 1 else i - 1] && s[i].prev in nodes
    ensures s[i].next == s[if i == |s| - 1 then 0 else i + 1] && s[i].next in nodes
  {
    assert Linked(nodes, s, i) && Linked(nodes, s, if i == 0 then |s| - 1 else i - 1);
  }

  /** A circle may be read off from its last node. */
  lemma FrontOfRing<K, V>(nodes: set<Node<K, V>>, rest: seq<Node<K, V>>, node: Node<K, V>)
    requires Ring(nodes, rest + [node])
    ensures Ring(nodes, [node] + rest)
  {
    var s, t := rest + [node], [node] + rest;
    DistinctWithout(s, |rest|);
    assert Without(s, |rest|) == rest;
    DistinctExtended(rest, node);
    forall i ensures Linked(nodes, t, i) {
      assert Linked(nodes, s, if i == 0 then |rest| else i - 1);
    }
  }

  /** Splices `node` out of its circle; its own links stay as they were. */
  method Unlink<K, V>(node: Node<K, V>, ghost nodes: set<Node<K, V>>, ghost s: seq<Node<K, V>>, ghost i: nat)
    requires Ring(nodes, s) && i < |s| && s[i] == node
    modifies nodes`next, nodes`prev
    ensures |s| > 1 ==> Ring(nodes - {node}, Without(s, i)) && node.next == old(node.next) && node.prev == old(node.prev)
    ensures |s| == 1 ==> node.next == node && node.prev == node
    ensures node.prev == s[if i == 0 then |s| - 1 else i - 1]
  {
    ghost var t := Without(s, i);
    Neighbours(nodes, s, i);
    DistinctWithout(s, i);
    AllDiffer(s);
    node.prev.next := node.next;
    node.next.prev := node.prev;
    forall j ensures Linked(nodes - {node}, t, j) {
      if 0 <= j < |t| {
        ghost var k := if j < i then j else j + 1;
        assert t[j] == s[k] && old(Linked(nodes, s, k)) && old(Linked(nodes, s, i));
      }
    }
  }

  /** Closes the circle around `node`, whose links already point to the last and first node of `s`. */
  method LinkLast<K, V>(node: Node<K, V>, ghost nodes: set<Node<K, V>>, ghost s: seq<Node<K, V>>)
    requires node !in nodes
    requires s == [] ==> node.next == node && node.prev == node
    requires s != [] ==> Ring(nodes, s) && node.prev == s[|s| - 1] && node.next == s[0]
    modifies nodes`next, nodes`prev, node`next, node`prev
    ensures Ring(nodes + {node}, s + [node])
  {
    ghost var t := s + [node];
    forall j | 0 <= j < |s| ensures s[j] != node { assert Linked(nodes, s, j); }
    DistinctExtended(s, node);
    AllDiffer(t);
    assert forall j :: 0 <= j < |s| ==> t[j] == s[j];
    if s != [] { Neighbours(nodes, s, 0); Neighbours(nodes, s, |s| - 1); }
    node.next.prev := node;
    node.prev.next := node;
    forall j ensures Linked(nodes + {node}, t, j) {
      if 0 <= j < |s| - 1 {
        assert old(Linked(nodes, s, j));
      }
    }
  }

  /** Moves `node` so that it directly precedes the head of the circle. */
  method MoveBeforeHead<K, V>(head: Node<K, V>, node: Node<K, V>, ghost nodes: set<Node<K, V>>,
                              ghost s: seq<Node<K, V>>, ghost i: nat)
    requires Ring(nodes, s) && s[0] == head && i < |s| && s[i] == node
    modifies nodes`next, nodes`prev
    ensures Ring(nodes, Without(s, i) + [node]) && Ring(nodes, [node] + Without(s, i))
  {
    Neighbours(nodes, s, i);
    DistinctWithout(s, i);
    Unlink(node, nodes, s, i);
    ghost var rest, others := Without(s, i), nodes - {node};
    if |s| > 1 { Neighbours(others, rest, 0); Neighbours(others, rest, |rest| - 1); }
    node.prev := head.prev;
    node.next := head.prev.next;
    LinkLast(node, others, rest);
    assert others + {node} == nodes;
    FrontOfRing(nodes, rest, node);
  }

  // ----- The hash table and the circle -----

  /** What a node holds: an item, or nothing. */
  type Slot<K, V> = Option<(K, V)>

  ghost predicate Holds<K, V>(node: Node<K, V>, slot: Slot<K, V>)
    reads node`empty, node`key, node`value
  {
    if slot.None? then node.empty
    else !node.empty && node.key == Some(slot.value.0) && node.value == Some(slot.value.1)
  }

  /** Node `i` holds what it should, and the table finds it under its key. */
  ghost predicate FilledAt<K, V>(nodes: set<Node<K, V>>, ring: seq<Node<K, V>>, slots: seq<Slot<K, V>>,
                                 table: map<K, Node<K, V>>, i: int)
    reads nodes`empty, nodes`key, nodes`value
  {
    0 <= i < |ring| == |slots| ==>
      && ring[i] in nodes && Holds(ring[i], slots[i])
      && (slots[i].Some? ==> slots[i].value.0 in table && table[slots[i].value.0] == ring[i])
  }

  ghost predicate KeyedAt<K, V>(slots: seq<Slot<K, V>>, k: K, i: int) {
    0 <= i < |slots| && slots[i].Some? && slots[i].value.0 == k
  }

  ghost predicate Keyed<K, V>(slots: seq<Slot<K, V>>, k: K) {
    exists i :: KeyedAt(slots, k, i)
  }

  ghost predicate Filled<K, V>(nodes: set<Node<K, V>>, ring: seq<Node<K, V>>, slots: seq<Slot<K, V>>,
                               table: map<K, Node<K, V>>)
    reads nodes`empty, nodes`key, nodes`value
  {
    && |ring| == |slots|
    && (forall i :: FilledAt(nodes, ring, slots, table, i))
    && (forall k :: k in table ==> Keyed(slots, k))
  }

  /** Nodes and slots can be rearranged together. */
  lemma FilledRearranged<K, V>(nodes: set<Node<K, V>>, ring: seq<Node<K, V>>, slots: seq<Slot<K, V>>,
                               table: map<K, Node<K, V>>, i: nat)
    requires Filled(nodes, ring, slots, table) && i < |ring|
    ensures Filled(nodes, [ring[i]] + Without(ring, i), [slots[i]] + Without(slots, i), table)
    ensures Filled(nodes, Without(ring, i) + [ring[i]], Without(slots, i) + [slots[i]], table)
  {
    var r, s := [ring[i]] + Without(ring, i), [slots[i]] + Without(slots, i);
    var r', s' := Without(ring, i) + [ring[i]], Without(slots, i) + [slots[i]];
    forall j ensures FilledAt(nodes, r, s, table, j) && FilledAt(nodes, r', s', table, j) {
      assert FilledAt(nodes, ring, slots, table, if j == 0 then i else if j <= i then j - 1 else j);
      assert FilledAt(nodes, ring, slots, table, if j < i then j else if j < |r| - 1 then j + 1 else i);
    }
    forall k | k in table ensures Keyed(s, k) && Keyed(s', k) {
      var j :| KeyedAt(slots, k, j);
      assert KeyedAt(s, k, if j == i then 0 else if j < i then j + 1 else j);
      assert KeyedAt(s', k, if j == i then |s| - 1 else if j < i then j else j - 1);
    }
  }

  /** The table after `node` has changed from holding `was` to holding `now`. */
  function Retabled<K, V>(table: map<K, Node<K, V>>, node: Node<K, V>, was: Slot<K, V>, now: Slot<K, V>): map<K,
                          Node<K, V>> {
    var rest := if was.Some? then table - {was.value.0} else table;
    if now.Some? then rest[now.value.0 := node] else rest
  }

  /** Rewrites what a node holds, and the table along with it. */
  method WriteNode<K(==), V>(node: Node<K, V>, now: Slot<K, V>, table: map<K, Node<K, V>>,
                             ghost nodes: set<Node<K, V>>, ghost ring: seq<Node<K, V>>,
                             ghost slots: seq<Slot<K, V>>, ghost i: nat)
    returns (table': map<K, Node<K, V>>)
    requires Distinct(ring) && Filled(nodes, ring, slots, table) && i < |ring| && ring[i] == node
    requires now.Some? && (slots[i].Some? ==> now.value.0 != slots[i].value.0) ==> now.value.0 !in table
    modifies node`empty, node`key, node`value
    ensures Filled(nodes, ring, slots[i := now], table') && table' == Retabled(table, node, slots[i], now)
  {
    assert FilledAt(nodes, ring, slots, table, i);
    DistinctWithout(ring, i);
    table' := table;
    if !node.empty {
      table' := table' - {node.key.value};
    }
    match now {
      case None =>
        node.empty, node.key, node.value := true, None, None;
      case Some(item) =>
        node.empty, node.key, node.value := false, Some(item.0), Some(item.1);
        table' := table'[item.0 := node];
    }
    ghost var slots' := slots[i := now];
    forall j ensures FilledAt(nodes, ring, slots', table', j) {
      assert old(FilledAt(nodes, ring, slots, table, j));
    }
    forall k | k in table' ensures Keyed(slots', k) {
      if now.Some? && k == now.value.0 {
        assert KeyedAt(slots', k, i);
      } else {
        ghost var j :| KeyedAt(slots, k, j);
        assert KeyedAt(slots', k, j);
      }
    }
  }

  /** Moving a node before the head moves its slot along. */
  method MoveFilled<K, V>(head: Node<K, V>, node: Node<K, V>, ghost table: map<K, Node<K, V>>,
                          ghost nodes: set<Node<K, V>>, ghost ring: seq<Node<K, V>>,
                          ghost slots: seq<Slot<K, V>>, ghost i: nat)
    requires Ring(nodes, ring) && ring[0] == head && i < |ring| && ring[i] == node
    requires Filled(nodes, ring, slots, table)
    modifies nodes`next, nodes`prev
    ensures Ring(nodes, Without(ring, i) + [node]) && Ring(nodes, [node] + Without(ring, i))
    ensures Filled(nodes, [node] + Without(ring, i), [slots[i]] + Without(slots, i), table)
    ensures Filled(nodes, Without(ring, i) + [node], Without(slots, i) + [slots[i]], table)
  {
    MoveBeforeHead(head, node, nodes, ring, i);
    FilledRearranged(nodes, ring, slots, table, i);
  }

  /** The tail node takes a new item and becomes the head. */
  method Occupy<K(==), V>(node: Node<K, V>, item: (K, V), table: map<K, Node<K, V>>,
                          ghost nodes: set<Node<K, V>>, ghost ring: seq<Node<K, V>>, ghost slots: seq<Slot<K, V>>)
    returns (table': map<K, Node<K, V>>)
    requires Ring(nodes, ring) && Filled(nodes, ring, slots, table) && node == ring[|ring| - 1] && item.0 !in table
    modifies node`empty, node`key, node`value
    ensures Ring(nodes, [node] + Without(ring, |ring| - 1))
    ensures Filled(nodes, [node] + Without(ring, |ring| - 1), [Some(item)] + Without(slots, |ring| - 1), table')
  {
    ghost var i := |ring| - 1;
    table' := WriteNode(node, Some(item), table, nodes, ring, slots, i);
    FilledRearranged(nodes, ring, slots[i := Some(item)], table', i);
    assert Without(slots[i := Some(item)], i) == Without(slots, i);
    assert Without(ring, i) + [node] == ring;
    FrontOfRing(nodes, Without(ring, i), node);
  }

  /** A new empty node at the tail. */
  lemma FilledExtended<K, V>(nodes: set<Node<K, V>>, ring: seq<Node<K, V>>, slots: seq<Slot<K, V>>,
                             table: map<K, Node<K, V>>, node: Node<K, V>)
    requires Filled(nodes, ring, slots, table) && node.empty
    ensures Filled(nodes + {node}, ring + [node], slots + [None], table)
  {
    forall i ensures FilledAt(nodes + {node}, ring + [node], slots + [None], table, i) {
      assert FilledAt(nodes, ring, slots, table, i);
    }
    forall k | k in table ensures Keyed(slots + [None], k) {
      var i :| KeyedAt(slots, k, i);
      assert KeyedAt(slots + [None], k, i);
    }
  }

  /** Dropping an emptied tail node. */
  lemma FilledShrunk<K, V>(nodes: set<Node<K, V>>, ring: seq<Node<K, V>>, slots: seq<Slot<K, V>>,
                           table: map<K, Node<K, V>>)
    requires Filled(nodes, ring, slots, table) && Distinct(ring) && ring != [] && slots[|ring| - 1] == None
    ensures Filled(nodes - {ring[|ring| - 1]}, ring[..|ring| - 1], slots[..|ring| - 1], table)
  {
    var m := |ring| - 1;
    DistinctWithout(ring, m);
    forall i ensures FilledAt(nodes - {ring[m]}, ring[..m], slots[..m], table, i) {
      assert FilledAt(nodes, ring, slots, table, i);
    }
    forall k | k in table ensures Keyed(slots[..m], k) {
      var i :| KeyedAt(slots, k, i);
      assert KeyedAt(slots[..m], k, i);
    }
  }

  /** Takes the tail node out of the table and out of the circle. */
  method Discard<K(==), V>(node: Node<K, V>, table: map<K, Node<K, V>>,
                           ghost nodes: set<Node<K, V>>, ghost ring: seq<Node<K, V>>, ghost slots: seq<Slot<K, V>>)
    returns (table': map<K, Node<K, V>>)
    requires Ring(nodes, ring) && Filled(nodes, ring, slots, table) && |ring| > 1 && node == ring[|ring| - 1]
    modifies nodes
    ensures Ring(nodes - {node}, ring[..|ring| - 1])
    ensures Filled(nodes - {node}, ring[..|ring| - 1], slots[..|ring| - 1], table')
  {
    ghost var m := |ring| - 1;
    Neighbours(nodes, ring, m);
    table' := WriteNode(node, None, table, nodes, ring, slots, m);
    assert slots[m := None][..m] == slots[..m] && Without(ring, m) == ring[..m];
    FilledShrunk(nodes, ring, slots[m := None], table');
    Unlink(node, nodes, ring, m);
    node.prev := null;
    node.next := null;
  }
}
