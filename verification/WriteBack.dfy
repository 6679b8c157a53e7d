/** The write-back manager: a least-recently-used cache in front of a slower dictionary. Seen from outside it
    is a plain dictionary, whatever has been cached, pushed out or written back. */
module WriteBack {
  import opened Prelude
  import opened LruCache

  /** What the manager answers for `k`: the cached value if that one is ahead of the store. */
  ghost function ViewAt<K, V>(b: Backing<K, V>, s: Items<K, V>, k: K): Option<V> {
    if k in b.dirty then Lookup(s, k) else if k in b.store then Some(b.store[k]) else None
  }

  ghost function View<K, V>(b: Backing<K, V>, s: Items<K, V>): map<K, V> {
    map k | k in b.store.Keys + b.dirty && ViewAt(b, s, k).Some? :: ViewAt(b, s, k).value
  }

  /** Dirty keys are cached, and clean cached values are those of the store. */
  ghost predicate InStepAt<K, V>(b: Backing<K, V>, s: Items<K, V>, k: K) {
    && (k in b.dirty ==> HasKey(s, k))
    && (HasKey(s, k) && k !in b.dirty ==> k in b.store && b.store[k] == Lookup(s, k).value)
  }

  ghost predicate InStep<K(!new), V>(b: Backing<K, V>, s: Items<K, V>) {
    forall k :: InStepAt(b, s, k)
  }

  lemma ViewHas<K(!new), V>(b: Backing<K, V>, s: Items<K, V>, k: K)
    ensures ViewAt(b, s, k) == if k in View(b, s) then Some(View(b, s)[k]) else None
  {
  }

  lemma LookupAt<K, V>(s: Items<K, V>, i: nat)
    requires UniqueKeys(s) && i < |s|
    ensures HasKey(s, s[i].0) && IndexOf(s, s[i].0) == i && Lookup(s, s[i].0) == Some(s[i].1)
  {
  }

  /** How a lookup sees a sequence with one item more in front. */
  lemma LookupFront<K, V>(s: Items<K, V>, item: (K, V), k: K)
    requires UniqueKeys(s) && !HasKey(s, item.0)
    ensures UniqueKeys([item] + s)
    ensures Lookup([item] + s, k) == if k == item.0 then Some(item.1) else Lookup(s, k)
  {
    var t := [item] + s;
    if k == item.0 {
      LookupAt(t, 0);
    } else if HasKey(s, k) {
      LookupAt(t, IndexOf(s, k) + 1);
    } else {
      assert forall i :: 1 <= i < |t| ==> t[i] == s[i - 1];
    }
  }

  lemma LookupDrop<K, V>(s: Items<K, V>, k: K, j: K)
    requires UniqueKeys(s)
    ensures UniqueKeys(Drop(s, k))
    ensures Lookup(Drop(s, k), j) == if j == k then None else Lookup(s, j)
  {
    if HasKey(s, k) {
      var i, t := IndexOf(s, k), Drop(s, k);
      if HasKey(s, j) && j != k {
        var m := IndexOf(s, j);
        var m' := if m < i then m else m - 1;
        assert t[m'] == s[m];
        LookupAt(t, m');
      }
      if HasKey(t, j) {
        var m := IndexOf(t, j);
        var m' := if m < i then m else m + 1;
        assert t[m] == s[m'];
        LookupAt(s, m');
      }
    }
  }

  lemma LookupInit<K, V>(s: Items<K, V>, k: K)
    requires UniqueKeys(s) && s != []
    ensures UniqueKeys(s[..|s| - 1])
    ensures Lookup(s[..|s| - 1], k) == if k == s[|s| - 1].0 then None else Lookup(s, k)
  {
    var last := s[|s| - 1].0;
    LookupAt(s, |s| - 1);
    LookupDrop(s, last, k);
    assert Drop(s, last) == s[..|s| - 1];
  }

  /** Pushing an item out writes it back if that is needed, so nothing can be seen to change. */
  lemma EjectOne<K(!new), V>(b: Backing<K, V>, s: Items<K, V>)
    requires UniqueKeys(s) && s != [] && InStep(b, s)
    ensures var b' := Ejected(b, s[|s| - 1]);
            InStep(b', s[..|s| - 1]) && View(b', s[..|s| - 1]) == View(b, s)
  {
    var item, init := s[|s| - 1], s[..|s| - 1];
    var b' := Ejected(b, item);
    forall k ensures InStepAt(b', init, k) && ViewAt(b', init, k) == ViewAt(b, s, k) {
      assert InStepAt(b, s, k);
      LookupInit(s, k);
      LookupAt(s, |s| - 1);
    }
    SameView(b, s, b', init);
  }

  lemma SameView<K(!new), V>(b: Backing<K, V>, s: Items<K, V>, b': Backing<K, V>, s': Items<K, V>)
    requires forall k :: ViewAt(b', s', k) == ViewAt(b, s, k)
    ensures View(b', s') == View(b, s)
  {
    forall k ensures k in View(b', s') <==> k in View(b, s) { ViewHas(b, s, k); ViewHas(b', s', k); }
  }

  lemma {:induction false} EjectMany<K(!new), V>(b: Backing<K, V>, s: Items<K, V>, n: nat)
    requires UniqueKeys(s) && InStep(b, s)
    ensures InStep(EjectedAll(b, Cut(s, n)), Trimmed(s, n))
    ensures View(EjectedAll(b, Cut(s, n)), Trimmed(s, n)) == View(b, s)
    decreases |s|
  {
    if |s| > n {
      var b', init := Ejected(b, s[|s| - 1]), s[..|s| - 1];
      EjectOne(b, s);
      LookupInit(s, s[0].0);
      EjectMany(b', init, n);
      assert Trimmed(init, n) == Trimmed(s, n);
      assert Cut(s, n)[..|s| - n - 1] == Cut(init, n);
    }
  }

  /** Marking a key dirty commutes with ejecting other keys. */
  lemma {:induction false} DirtyCommutes<K, V>(b: Backing<K, V>, s: Items<K, V>, k: K)
    requires !HasKey(s, k)
    ensures EjectedAll(Backing(b.store, b.dirty + {k}), s) ==
            Backing(EjectedAll(b, s).store, EjectedAll(b, s).dirty + {k})
    decreases |s|
  {
    if s != [] {
      var item, init := s[|s| - 1], s[..|s| - 1];
      assert item.0 != k;
      var b' := Ejected(b, item);
      assert Ejected(Backing(b.store, b.dirty + {k}), item) == Backing(b'.store, b'.dirty + {k});
      assert forall i :: 0 <= i < |init| ==> init[i] == s[i];
      DirtyCommutes(b', init, k);
    }
  }

  /** A write: the item goes to the front, its key becomes dirty, and what falls off is ejected. */
  lemma WriteStep<K(!new), V>(b: Backing<K, V>, s: Items<K, V>, n: nat, k: K, v: V)
    requires UniqueKeys(s) && InStep(b, s) && n > 0
    ensures var t := Touched(s, k, v);
            var e := EjectedAll(b, Cut(t, n));
            var b' := Backing(e.store, e.dirty + {k});
            InStep(b', Trimmed(t, n)) && View(b', Trimmed(t, n)) == View(b, s)[k := v]
  {
    var t := Touched(s, k, v);
    var marked := Backing(b.store, b.dirty + {k});
    forall j
      ensures InStepAt(marked, t, j) && UniqueKeys(t)
      ensures ViewAt(marked, t, j) == if j == k then Some(v) else ViewAt(b, s, j)
    {
      assert InStepAt(b, s, j);
      LookupDrop(s, k, j);
      LookupDrop(s, k, k);
      LookupFront(Drop(s, k), (k, v), j);
    }
    assert View(marked, t) == View(b, s)[k := v] by {
      forall j ensures j in View(marked, t) <==> j in View(b, s)[k := v] { ViewHas(marked, t, j); ViewHas(b, s, j); }
    }
    assert UniqueKeys(t) by { assert InStepAt(marked, t, k); }
    EjectMany(marked, t, n);
    assert !HasKey(Cut(t, n), k) by {
      if HasKey(Cut(t, n), k) { LookupAt(t, 0); LookupAt(t, n + IndexOf(Cut(t, n), k)); }
    }
    DirtyCommutes(b, Cut(t, n), k);
  }

  /** A read of `v`, from the cache or from the store. */
  lemma ReadStep<K(!new), V>(b: Backing<K, V>, s: Items<K, V>, n: nat, k: K, v: V)
    requires UniqueKeys(s) && InStep(b, s) && ViewAt(b, s, k) == Some(v)
    ensures var t := Touched(s, k, v);
            var b' := EjectedAll(b, Cut(t, n));
            InStep(b', Trimmed(t, n)) && View(b', Trimmed(t, n)) == View(b, s)
  {
    var t := Touched(s, k, v);
    forall j ensures InStepAt(b, t, j) && ViewAt(b, t, j) == ViewAt(b, s, j) && UniqueKeys(t) {
      assert InStepAt(b, s, j) && InStepAt(b, s, k);
      LookupDrop(s, k, j);
      LookupDrop(s, k, k);
      LookupFront(Drop(s, k), (k, v), j);
    }
    SameView(b, s, b, t);
    assert UniqueKeys(t) by { assert InStepAt(b, t, k); }
    EjectMany(b, t, n);
  }

  lemma DeleteStep<K(!new), V>(b: Backing<K, V>, s: Items<K, V>, k: K)
    requires UniqueKeys(s) && InStep(b, s)
    ensures var b' := Backing(b.store - {k}, b.dirty - {k});
            InStep(b', Drop(s, k)) && View(b', Drop(s, k)) == View(b, s) - {k}
  {
    var b' := Backing(b.store - {k}, b.dirty - {k});
    forall j ensures InStepAt(b', Drop(s, k), j)
             ensures ViewAt(b', Drop(s, k), j) == if j == k then None else ViewAt(b, s, j)
    {
      assert InStepAt(b, s, j);
      LookupDrop(s, k, j);
    }
    forall j ensures j in View(b', Drop(s, k)) <==> j in View(b, s) - {k} {
      ViewHas(b', Drop(s, k), j);
      ViewHas(b, s, j);
    }
  }

  /** A key is present exactly when the cache or the store has it. */
  lemma PresentIffFound<K(!new), V>(b: Backing<K, V>, s: Items<K, V>, k: K)
    requires InStep(b, s)
    ensures k in View(b, s) <==> HasKey(s, k) || k in b.store
  {
    assert InStepAt(b, s, k);
    ViewHas(b, s, k);
  }

  /** Writing one dirty value back. */
  lemma SyncStep<K(!new), V>(b: Backing<K, V>, s: Items<K, V>, k: K)
    requires InStep(b, s) && k in b.dirty
    ensures HasKey(s, k)
    ensures var b' := Backing(b.store[k := Lookup(s, k).value], b.dirty - {k});
            InStep(b', s) && View(b', s) == View(b, s)
  {
    assert InStepAt(b, s, k);
    var b' := Backing(b.store[k := Lookup(s, k).value], b.dirty - {k});
    forall j ensures InStepAt(b', s, j) && ViewAt(b', s, j) == ViewAt(b, s, j) { assert InStepAt(b, s, j); }
    SameView(b, s, b', s);
  }

  class WriteBackCacheManager<K(==, !new), V> {
    const sink: Sink<K, V>
    const cache: LruCache<K, V>

    ghost predicate Valid()
      reads this, sink, cache, cache.nodes
    {
      cache.Valid() && cache.callback == sink && UniqueKeys(cache.items) && InStep(sink.State(), cache.items)
    }

    /** The dictionary that the manager stands for. */
    ghost function Contents(): map<K, V>
      reads this, sink, cache
    {
      View(sink.State(), cache.items)
    }

    constructor (store: map<K, V>, size: nat)
      requires size > 0
      ensures Valid() && Contents() == store && fresh(sink) && fresh(cache) && fresh(cache.nodes)
    {
      var s := new Sink(store);
      sink := s;
      cache := new LruCache(size, s);
      new;
      forall k ensures InStepAt(sink.State(), cache.items, k) { }
    }

    method Contains(k: K) returns (r: bool)
      requires Valid()
      ensures r <==> k in Contents()
    {
      PresentIffFound(sink.State(), cache.items, k);
      r := cache.Contains(k);
      if !r {
        r := k in sink.store;
      }
    }

    /** `None` stands for a `KeyError`. */
    method GetItem(k: K) returns (r: Option<V>)
      requires Valid()
      modifies sink, cache, cache.nodes
      ensures Valid() && cache.nodes == old(cache.nodes)
      ensures r == if k in old(Contents()) then Some(old(Contents())[k]) else None
      ensures Contents() == old(Contents())
    {
      ghost var b, s := sink.State(), cache.items;
      assert InStepAt(b, s, k);
      ViewHas(b, s, k);
      var hit := cache.Contains(k);
      if hit {
        r := cache.GetItem(k);
        assert |Touched(s, k, r.value)| == |s| <= |cache.ring|;
        ReadStep(b, s, |cache.ring|, k, r.value);
      } else if k in sink.store {
        var value := sink.store[k];
        ReadStep(b, s, |cache.ring|, k, value);
        cache.SetItem(k, value);
        r := Some(value);
      } else {
        r := None;
      }
      cache.UniqueItems();
    }

    method SetItem(k: K, v: V)
      requires Valid()
      modifies sink, cache, cache.nodes
      ensures Valid() && cache.nodes == old(cache.nodes)
      ensures Contents() == old(Contents())[k := v]
    {
      WriteStep(sink.State(), cache.items, |cache.ring|, k, v);
      cache.SetItem(k, v);
      sink.dirty := sink.dirty + {k};
      cache.UniqueItems();
    }

    /** `found` is false where the source raises a `KeyError`. */
    method DelItem(k: K) returns (found: bool)
      requires Valid()
      modifies sink, cache, cache.nodes
      ensures Valid() && cache.nodes == old(cache.nodes)
      ensures found <==> k in old(Contents())
      ensures Contents() == old(Contents()) - {k}
    {
      ghost var b := sink.State();
      DeleteStep(b, cache.items, k);
      PresentIffFound(b, cache.items, k);
      assert InStepAt(b, cache.items, k);
      found := cache.DelItem(k);
      if found {
        sink.dirty := sink.dirty - {k};
      }
      if k in sink.store {
        sink.store := sink.store - {k};
        found := true;
      }
      assert sink.State() == Backing(b.store - {k}, b.dirty - {k});
      cache.UniqueItems();
    }

    method Resize(size: nat)
      requires Valid() && size > 0
      modifies sink, cache, cache.nodes
      ensures Valid() && fresh(cache.nodes - old(cache.nodes))
      ensures Contents() == old(Contents())
    {
      EjectMany(sink.State(), cache.items, size);
      cache.Resize(size);
      cache.UniqueItems();
    }

    method Clear()
      requires Valid()
      modifies sink, cache, cache.nodes
      ensures Valid() && cache.nodes == old(cache.nodes)
      ensures Contents() == map[]
    {
      cache.Clear();
      sink.dirty := {};
      sink.store := map[];
      forall k ensures InStepAt(sink.State(), cache.items, k) { }
    }

    /** Writes every dirty value back, in whatever order the set is iterated. */
    method Sync()
      requires Valid()
      modifies sink
      ensures Valid() && Contents() == old(Contents())
      ensures sink.store == old(Contents()) && sink.dirty == {}
    {
      var rest := sink.dirty;
      ghost var b := sink.State();
      while rest != {}
        invariant cache.Valid() && cache.callback == sink && UniqueKeys(cache.items)
        invariant sink.dirty == old(sink.dirty) && rest <= sink.dirty
        invariant b == Backing(sink.store, rest)
        invariant InStep(b, cache.items) && View(b, cache.items) == old(Contents())
        decreases rest
      {
        var key :| key in rest;
        SyncStep(b, cache.items, key);
        var value := cache.Peek(key);
        sink.store := sink.store[key := value.value];
        rest := rest - {key};
        b := Backing(sink.store, rest);
      }
      sink.dirty := {};
      assert View(b, cache.items) == sink.store;
    }

    method Flush()
      requires Valid()
      modifies sink, cache, cache.nodes
      ensures Valid() && cache.nodes == old(cache.nodes)
      ensures Contents() == old(Contents()) && sink.store == old(Contents())
      ensures cache.items == [] && sink.dirty == {}
    {
      Sync();
      cache.Clear();
      forall k ensures InStepAt(sink.State(), cache.items, k) { }
      assert View(sink.State(), cache.items) == sink.store;
    }

    method Len() returns (n: nat)
      requires Valid()
      modifies sink
      ensures Valid() && Contents() == old(Contents()) && n == |Contents()|
    {
      Sync();
      n := |sink.store|;
    }
  }
}
