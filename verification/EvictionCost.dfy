/** The incremental eviction-cost engine: memo table, reverse index, interest counters, release cascade. */
module EvictionCost {
  import opened Prelude
  import opened CostGraph

  class DownloadCostSubsystem {
    var profileNames: map<Checksum, string>
    var manualCosts: map<Checksum, ExtReal>

    constructor ()
      ensures profileNames == map[] && manualCosts == map[]
    {
      profileNames, manualCosts := map[], map[];
    }

    method SetProfile(c: Checksum, profile: string)
      modifies this
      ensures profileNames == old(profileNames)[c := profile] && manualCosts == old(manualCosts)
    {
      profileNames := profileNames[c := profile];
    }

    method SetManualCost(c: Checksum, cost: ExtReal)
      modifies this
      ensures manualCosts == old(manualCosts)[c := ClampAtZero(cost)] && profileNames == old(profileNames)
    {
      manualCosts := manualCosts[c := ClampAtZero(cost)];
    }
  }

  class TransformationSubsystem {
    var cpuSeconds: map<Checksum, ExtReal>

    constructor ()
      ensures cpuSeconds == map[]
    {
      cpuSeconds := map[];
    }

    method Record(c: Checksum, seconds: Option<ExtReal>)
      modifies this
      ensures cpuSeconds == match seconds
                            case None => old(cpuSeconds) - {c}
                            case Some(s) => old(cpuSeconds)[c := ClampAtZero(s)]
    {
      match seconds
      case None => cpuSeconds := cpuSeconds - {c};
      case Some(s) => cpuSeconds := cpuSeconds[c := ClampAtZero(s)];
    }
  }

  /** `max(int(length), 0)` */
  function Normalized(length: int): nat {
    if length < 0 then 0 else length
  }

  /** The lengths after a notification; `None` carries no news. */
  function Noted(lengths: map<Checksum, nat>, c: Checksum, length: Option<int>): map<Checksum, nat> {
    if length.None? then lengths else lengths[c := Normalized(length.value)]
  }

  class BufferLengthSubsystem {
    var lengths: map<Checksum, nat>

    constructor ()
      ensures lengths == map[]
    {
      lengths := map[];
    }

    method NotifyLength(c: Checksum, length: Option<int>) returns (changed: bool)
      modifies this
      ensures lengths == Noted(old(lengths), c, length)
      ensures changed <==> lengths != old(lengths)
    {
      if length.None? {
        return false;
      }
      var normalized := Normalized(length.value);
      if c in lengths && lengths[c] == normalized {
        return false;
      }
      lengths := lengths[c := normalized];
      return true;
    }
  }

  /** A change of lengths, overrides, profiles or CPU times at `c` changes the own cost of `c` only. */
  lemma OwnCostsAreLocal(l: map<Checksum, nat>, m: map<Checksum, ExtReal>, p: map<Checksum, string>,
                         t: map<Checksum, ExtReal>,
                         l': map<Checksum, nat>, m': map<Checksum, ExtReal>, p': map<Checksum,
                             string>, t': map<Checksum, ExtReal>,
                         c: Checksum)
    requires l' - {c} == l - {c} && m' - {c} == m - {c} && p' - {c} == p - {c} && t' - {c} == t - {c}
    ensures OwnCosts(l', m', p', t') - {c} == OwnCosts(l, m, p, t) - {c}
  {
    var own, own' := OwnCosts(l, m, p, t), OwnCosts(l', m', p', t');
    forall x | x != c
      ensures x in own' <==> x in own
      ensures x in own ==> own'[x] == own[x]
    {
      OffC(l, l', c, x);
      if x in l { OwnCostAt(m, p, t, m', p', t', c, x, l[x]); }
    }
  }

  lemma OffC<V>(m: map<Checksum, V>, m': map<Checksum, V>, c: Checksum, x: Checksum)
    requires m' - {c} == m - {c} && x != c
    ensures (x in m' <==> x in m) && (x in m ==> m'[x] == m[x])
  {
    assert x in m' <==> x in m' - {c};
    if x in m { assert m'[x] == (m' - {c})[x] == m[x]; }
  }

  lemma OwnCostAt(m: map<Checksum, ExtReal>, p: map<Checksum, string>, t: map<Checksum, ExtReal>,
                  m': map<Checksum, ExtReal>, p': map<Checksum, string>, t': map<Checksum, ExtReal>,
                  c: Checksum, x: Checksum, length: nat)
    requires m' - {c} == m - {c} && p' - {c} == p - {c} && t' - {c} == t - {c} && x != c
    ensures DownloadCost(m', p', x, length) == DownloadCost(m, p, x, length)
    ensures TransformationCost(t', x) == TransformationCost(t, x)
  {
    OffC(m, m', c, x);
    OffC(p, p', c, x);
    OffC(t, t', c, x);
    assert GetOr(p', x, "read_buffer") == GetOr(p, x, "read_buffer");
  }

  // ----- The memo table against the graph -----

  // Each invariant below is a property of one checksum, quantified over all of them. Naming the pointwise
  // property keeps the quantifier quiet until a proof mentions the checksum it is about.

  /** The memoized cost of `k`, if any, is current, or `k` leads to `root`. */
  ghost predicate CoherentAt(g: Graph, cache: map<Checksum, ExtReal>, root: Option<Checksum>, k: Checksum) {
    k in cache ==> cache[k] == Cost(g, k) || (root.Some? && Reaches(g, k, root.value))
  }

  ghost predicate CoherentCache(g: Graph, cache: map<Checksum, ExtReal>, root: Option<Checksum>) {
    forall k :: CoherentAt(g, cache, root, k)
  }

  /** A change at `c` can only outdate what leads to `c`. */
  lemma ChangeAtRoot(g: Graph, h: Graph, c: Checksum, cache: map<Checksum, ExtReal>, root: Option<Checksum>)
    requires root == None || root == Some(c)
    requires CoherentCache(g, cache, root)
    requires forall x :: x != c ==> SameAt(g, h, x)
    ensures CoherentCache(h, cache, Some(c))
  {
    forall k ensures CoherentAt(h, cache, Some(c), k) {
      assert CoherentAt(g, cache, root, k);
      if !Reaches(h, k, c) {
        if n: nat :| Path(g, k, c, n) { PathIntoIsLocal(g, h, c, k, n); }
        CostIsLocal(g, h, c, k);
      }
    }
  }

  /** A change at a checksum nobody depends on, and that is not memoized itself, outdates nothing. */
  lemma ChangeAtOrphan(g: Graph, h: Graph, c: Checksum, cache: map<Checksum, ExtReal>, root: Option<Checksum>)
    requires CoherentCache(g, cache, root)
    requires forall x :: x != c ==> SameAt(g, h, x)
    requires forall x :: c !in Deps(g, x)
    requires c !in cache
    ensures CoherentCache(h, cache, root)
  {
    forall k ensures CoherentAt(h, cache, root, k) {
      assert CoherentAt(g, cache, root, k);
      if k in cache {
        if n: nat :| Path(g, k, c, n) { OnlyOrphanReachesOrphan(g, c, k, n); }
        CostIsLocal(g, h, c, k);
        if root.Some? {
          if n: nat :| Path(g, k, root.value, n) { PathAvoidsOrphan(g, h, c, k, root.value, n); }
        }
      }
    }
  }

  /** When nobody depends on the root and it is not memoized itself, nothing is outdated after all. */
  lemma OrphanRoot(g: Graph, c: Checksum, cache: map<Checksum, ExtReal>)
    requires CoherentCache(g, cache, Some(c))
    requires forall x :: c !in Deps(g, x)
    requires c !in cache
    ensures CoherentCache(g, cache, None)
    ensures forall k :: k in cache ==> !Reaches(g, k, c)
  {
    forall k ensures CoherentAt(g, cache, None, k) && (k in cache ==> !Reaches(g, k, c)) {
      assert CoherentAt(g, cache, Some(c), k);
      if n: nat :| Path(g, k, c, n) { OnlyOrphanReachesOrphan(g, c, k, n); }
    }
  }

  // ----- The bookkeeping as a value -----

  /** The dictionaries of the cost module. */
  datatype Books = Books(
    deps: map<Checksum, seq<Checksum>>,
    reverse: map<Checksum, set<Checksum>>,
    depInterest: map<Checksum, nat>,
    direct: map<Checksum, nat>,
    cache: map<Checksum, ExtReal>)

  function TotalInterest(b: Books, c: Checksum): nat {
    GetOr(b.direct, c, 0) + GetOr(b.depInterest, c, 0)
  }

  predicate Interesting(b: Books, c: Checksum) {
    TotalInterest(b, c) > 0
  }

  // The invariants. Their extra arguments describe work in progress and are empty between public calls.

  /** Dependency interest counts occurrences in dependency tuples, plus the decrements still owed. */
  ghost predicate CountedAt(b: Books, owed: multiset<Checksum>, d: Checksum) {
    && GetOr(b.depInterest, d, 0) == AllDeps(b.deps)[d] + owed[d]
    && (d in b.depInterest ==> b.depInterest[d] > 0)
    && (d in b.direct ==> b.direct[d] > 0)
  }

  ghost predicate Counted(b: Books, owed: multiset<Checksum>) {
    forall d :: CountedAt(b, owed, d)
  }

  predicate InIndex(b: Books, x: Checksum, d: Checksum) {
    d in b.reverse && x in b.reverse[d]
  }

  /** The reverse index is the inverse of the dependency relation, plus pairs still to be discarded. */
  ghost predicate IndexedAt(b: Books, stale: set<(Checksum, Checksum)>, x: Checksum, d: Checksum) {
    && (InIndex(b, x, d) <==> (x in b.deps && d in b.deps[x]) || (x, d) in stale)
    && ((x, d) in stale ==> x !in b.deps)
    && (d in b.reverse ==> b.reverse[d] != {})
    && (x in b.deps ==> b.deps[x] != [])
  }

  ghost predicate Indexed(b: Books, stale: set<(Checksum, Checksum)>) {
    forall x, d :: IndexedAt(b, stale, x, d)
  }

  /** Only checksums with interest are memoized, except for those in `lapsed`. */
  predicate InterestingAt(b: Books, lapsed: set<Checksum>, k: Checksum) {
    k in b.cache ==> k in lapsed || Interesting(b, k)
  }

  ghost predicate OnlyInteresting(b: Books, lapsed: set<Checksum>) {
    forall k :: InterestingAt(b, lapsed, k)
  }

  ghost predicate Consistent(b: Books, own: map<Checksum, Own>, owed: multiset<Checksum>,
                             stale: set<(Checksum, Checksum)>,
                             root: Option<Checksum>, lapsed: set<Checksum>)
  {
    && Counted(b, owed) && Indexed(b, stale) && OnlyInteresting(b, lapsed)
    && CoherentCache(Graph(b.deps, own), b.cache, root)
  }

  /** Each member of `kept` has direct interest or is a dependency of another member. */
  ghost predicate SupportedAt(deps: map<Checksum, seq<Checksum>>, direct: set<Checksum>, kept: set<Checksum>,
                              k: Checksum) {
    k in kept ==> k in direct || exists x :: x in kept && x in deps && k in deps[x]
  }

  ghost predicate Supported(deps: map<Checksum, seq<Checksum>>, direct: set<Checksum>, kept: set<Checksum>) {
    forall k :: SupportedAt(deps, direct, kept, k)
  }

  /** The effect of a release cascade: a tuple or a memoized cost goes exactly when its checksum loses
      its last interest; what stays is unchanged. Interest in `lapsing` has already ended. */
  predicate CascadeAt(b: Books, b': Books, lapsing: set<Checksum>, k: Checksum) {
    && (Interesting(b', k) ==> Interesting(b, k))
    && (k in b'.deps <==> k in b.deps && (k in lapsing || Interesting(b, k) ==> Interesting(b', k)))
    && (k in b'.deps ==> b'.deps[k] == b.deps[k])
    && (k in b'.cache <==> k in b.cache && Interesting(b', k))
    && (k in b'.cache ==> b'.cache[k] == b.cache[k])
  }

  ghost predicate Cascade(b: Books, b': Books, lapsing: set<Checksum>) {
    b'.direct == b.direct && forall k :: CascadeAt(b, b', lapsing, k)
  }

  lemma CascadeThen(a: Books, b: Books, c: Books, lapsing: set<Checksum>)
    requires Cascade(a, b, lapsing) && Cascade(b, c, {})
    ensures Cascade(a, c, lapsing)
  {
    forall k ensures CascadeAt(a, c, lapsing, k) {
      assert CascadeAt(a, b, lapsing, k) && CascadeAt(b, c, {}, k);
    }
  }

  lemma CascadeNothing(b: Books, lapsing: set<Checksum>)
    requires OnlyInteresting(b, {}) && forall k :: k in lapsing ==> Interesting(b, k)
    ensures Cascade(b, b, lapsing)
  {
    forall k ensures CascadeAt(b, b, lapsing, k) { assert InterestingAt(b, {}, k); }
  }

  lemma CascadeShrinks(b: Books, b': Books, lapsing: set<Checksum>)
    requires Cascade(b, b', lapsing)
    ensures b'.deps.Keys <= b.deps.Keys
  {
    forall k | k in b'.deps ensures k in b.deps { assert CascadeAt(b, b', lapsing, k); }
  }

  lemma NobodyNames(b: Books, c: Checksum, owed: multiset<Checksum>)
    requires Counted(b, owed) && !Interesting(b, c)
    ensures c !in b.direct
    ensures forall x :: x in b.deps ==> c !in b.deps[x]
  {
    assert CountedAt(b, owed, c);
    AllDepsNames(b.deps, c);
  }

  /** A checksum without interest is outside every set that supports itself. */
  lemma NotKept(b: Books, c: Checksum, owed: multiset<Checksum>, kept: set<Checksum>)
    requires Counted(b, owed) && !Interesting(b, c) && Supported(b.deps, b.direct.Keys, kept)
    ensures c !in kept
    ensures Supported(b.deps - {c}, b.direct.Keys, kept)
  {
    NobodyNames(b, c, owed);
    assert SupportedAt(b.deps, b.direct.Keys, kept, c);
    forall k ensures SupportedAt(b.deps - {c}, b.direct.Keys, kept, k) {
      assert SupportedAt(b.deps, b.direct.Keys, kept, k);
    }
  }

  /** The memo entry of a checksum without interest goes first. */
  lemma ForgetStep(b: Books, own: map<Checksum, Own>, c: Checksum, owed: multiset<Checksum>,
                   stale: set<(Checksum, Checksum)>, root: Option<Checksum>)
    requires Consistent(b, own, owed, stale, root, {c})
    ensures Consistent(b.(cache := b.cache - {c}), own, owed, stale, root, {})
  {
    var b' := b.(cache := b.cache - {c});
    forall d ensures CountedAt(b', owed, d) { assert CountedAt(b, owed, d); }
    forall x, d ensures IndexedAt(b', stale, x, d) {
      assert IndexedAt(b, stale, x, d);
      assert InIndex(b', x, d) == InIndex(b, x, d);
    }
    forall k ensures InterestingAt(b', {}, k) { assert InterestingAt(b, {c}, k); }
    forall k ensures CoherentAt(Graph(b'.deps, own), b'.cache, root, k) {
      assert CoherentAt(Graph(b.deps, own), b.cache, root, k);
    }
  }

  /** One decrement: the books balance again, but `c` may be memoized without interest. */
  function Decremented(b: Books, c: Checksum): Books
    requires c in b.depInterest
  {
    b.(depInterest := if b.depInterest[c] <= 1 then b.depInterest - {c} else b.depInterest[c := b.depInterest[c] - 1])
  }

  lemma DecrementStep(b: Books, own: map<Checksum, Own>, c: Checksum, owed: multiset<Checksum>,
                      stale: set<(Checksum, Checksum)>, root: Option<Checksum>)
    requires Consistent(b, own, owed + multiset{c}, stale, root, {})
    ensures c in b.depInterest && b.depInterest[c] > 0
    ensures Consistent(Decremented(b, c), own, owed, stale, root, {c})
  {
    assert CountedAt(b, owed + multiset{c}, c);
    var b' := Decremented(b, c);
    forall d ensures CountedAt(b', owed, d) { assert CountedAt(b, owed + multiset{c}, d); }
    forall x, d ensures IndexedAt(b', stale, x, d) {
      assert IndexedAt(b, stale, x, d);
      assert InIndex(b', x, d) == InIndex(b, x, d);
    }
    forall k ensures InterestingAt(b', {c}, k) { assert InterestingAt(b, {}, k); }
  }

  lemma ReleaseThen(b: Books, c: Checksum, b': Books)
    requires !Interesting(b, c)
    requires Cascade(b.(deps := b.deps - {c}, cache := b.cache - {c}), b', {})
    ensures Cascade(b, b', {c})
  {
    var b1 := b.(deps := b.deps - {c}, cache := b.cache - {c});
    forall k ensures CascadeAt(b, b', {c}, k) { assert CascadeAt(b1, b', {}, k); }
  }

  /** A change of direct interest at `c`, after which `c` is still interesting or counted as lapsed. */
  lemma DirectStep(b: Books, own: map<Checksum, Own>, c: Checksum, direct: map<Checksum, nat>, lapsed: set<Checksum>)
    requires Consistent(b, own, multiset{}, {}, None, {})
    requires forall k :: k != c ==> (k in direct <==> k in b.direct) && (k in direct ==> direct[k] == b.direct[k])
    requires c in direct ==> direct[c] > 0
    requires c in lapsed || c in direct
    ensures Consistent(b.(direct := direct), own, multiset{}, {}, None, lapsed)
  {
    var b' := b.(direct := direct);
    forall d ensures CountedAt(b', multiset{}, d) { assert CountedAt(b, multiset{}, d); }
    forall x, d ensures IndexedAt(b', {}, x, d) {
      assert IndexedAt(b, {}, x, d);
      assert InIndex(b', x, d) == InIndex(b, x, d);
    }
    forall k ensures InterestingAt(b', lapsed, k) { assert InterestingAt(b, {}, k); }
  }

  lemma StillInteresting(b: Books, own: map<Checksum, Own>, c: Checksum, owed: multiset<Checksum>,
                         stale: set<(Checksum, Checksum)>, root: Option<Checksum>)
    requires Consistent(b, own, owed, stale, root, {c}) && Interesting(b, c)
    ensures Consistent(b, own, owed, stale, root, {})
    ensures Cascade(b, b, {c})
  {
    forall k ensures InterestingAt(b, {}, k) { assert InterestingAt(b, {c}, k); }
    CascadeNothing(b, {c});
  }

  lemma DecrementThen(b: Books, c: Checksum, b': Books)
    requires c in b.depInterest && b.depInterest[c] > 0
    requires Cascade(Decremented(b, c), b', {c})
    ensures Cascade(b, b', {})
  {
    forall k ensures CascadeAt(b, b', {}, k) { assert CascadeAt(Decremented(b, c), b', {c}, k); }
  }

  /** The index pairs of a detached tuple that are still to be discarded after `i` steps. */
  ghost function StalePairs(c: Checksum, ds: seq<Checksum>, i: nat): set<(Checksum, Checksum)>
    requires i <= |ds|
  {
    set d | d in ds && d !in ds[..i] :: (c, d)
  }

  /** Popping a tuple moves its dependencies to the owed decrements and its index pairs to the stale ones. */
  lemma PopStep(b: Books, own: map<Checksum, Own>, c: Checksum, owed: multiset<Checksum>,
                stale: set<(Checksum, Checksum)>, root: Option<Checksum>)
    requires Consistent(b, own, owed, stale, root, {})
    requires root == Some(c) || !Interesting(b, c)
    requires c in b.deps
    ensures Consistent(b.(deps := b.deps - {c}), own, owed + multiset(b.deps[c]),
      stale + StalePairs(c, b.deps[c], 0), root, {})
  {
    var ds := b.deps[c];
    var b' := b.(deps := b.deps - {c});
    var g, h := Graph(b.deps, own), Graph(b'.deps, own);
    forall x | x != c ensures SameAt(g, h, x) { }
    if root == Some(c) {
      ChangeAtRoot(g, h, c, b.cache, root);
    } else {
      NobodyNames(b, c, owed);
      assert InterestingAt(b, {}, c);
      ChangeAtOrphan(g, h, c, b.cache, root);
    }
    AllDepsWithout(b.deps, c);
    forall d ensures CountedAt(b', owed + multiset(ds), d) { assert CountedAt(b, owed, d); }
    forall x, d ensures IndexedAt(b', stale + StalePairs(c, ds, 0), x, d) {
      assert IndexedAt(b, stale, x, d);
      assert InIndex(b', x, d) == InIndex(b, x, d);
    }
    forall k ensures InterestingAt(b', {}, k) { assert InterestingAt(b, {}, k); }
  }

  function Discarded(b: Books, c: Checksum, d: Checksum): Books {
    if d !in b.reverse then b
    else
      var rev := b.reverse[d] - {c};
      b.(reverse := if rev == {} then b.reverse - {d} else b.reverse[d := rev])
  }

  lemma DiscardStep(b: Books, own: map<Checksum, Own>, c: Checksum, ds: seq<Checksum>, i: nat, owed: multiset<Checksum>,
                    stale: set<(Checksum, Checksum)>, root: Option<Checksum>)
    requires i < |ds| && c !in b.deps
    requires Consistent(b, own, owed + multiset(ds[i..]), stale + StalePairs(c, ds, i), root, {})
    requires forall p :: p in stale ==> p.0 != c
    ensures Consistent(Discarded(b, c, ds[i]), own, owed + multiset(ds[i + 1..]) + multiset{ds[i]},
                       stale + StalePairs(c, ds, i + 1), root, {})
  {
    var b' := Discarded(b, c, ds[i]);
    assert owed + multiset(ds[i..]) == owed + multiset(ds[i + 1..]) + multiset{ds[i]} by {
      assert ds[i..] == [ds[i]] + ds[i + 1..];
    }
    forall d ensures CountedAt(b', owed + multiset(ds[i..]), d) {
      assert CountedAt(b, owed + multiset(ds[i..]), d);
    }
    var stale' := stale + StalePairs(c, ds, i + 1);
    forall x, d ensures IndexedAt(b', stale', x, d) {
      assert IndexedAt(b, stale + StalePairs(c, ds, i), x, d);
      DiscardedIndex(b, c, ds[i], x, d);
      assert d in ds[..i + 1] <==> d in ds[..i] || d == ds[i];
    }
    forall k ensures InterestingAt(b', {}, k) { assert InterestingAt(b, {}, k); }
  }

  lemma DiscardKeepsCascade(a: Books, b: Books, c: Checksum, d: Checksum)
    requires Cascade(a, b, {})
    ensures Cascade(a, Discarded(b, c, d), {})
  {
    forall k ensures CascadeAt(a, Discarded(b, c, d), {}, k) { assert CascadeAt(a, b, {}, k); }
  }

  lemma DiscardedIndex(b: Books, c: Checksum, e: Checksum, x: Checksum, d: Checksum)
    ensures InIndex(Discarded(b, c, e), x, d) <==> InIndex(b, x, d) && !(x == c && d == e)
    ensures (d in b.reverse ==> b.reverse[d] != {}) ==>
              (d in Discarded(b, c, e).reverse ==> Discarded(b, c, e).reverse[d] != {})
  {
    if d == e && d in b.reverse { assert x in b.reverse[d] - {c} <==> x in b.reverse[d] && x != c; }
  }

  // ----- Attaching a tuple, dirtying, memoizing -----

  function Attached(b: Books, c: Checksum, d: Checksum): Books {
    b.(reverse := b.reverse[d := GetOr(b.reverse, d, {}) + {c}],
        depInterest := b.depInterest[d := GetOr(b.depInterest, d, 0) + 1])
  }

  ghost function TuplePairs(c: Checksum, ds: seq<Checksum>): set<(Checksum, Checksum)> {
    set d | d in ds :: (c, d)
  }

  /** Counting in one more dependency of a tuple that is not yet in the table. */
  lemma AttachStep(b: Books, own: map<Checksum, Own>, c: Checksum, ds: seq<Checksum>, i: nat, root: Option<Checksum>)
    requires i < |ds| && c !in b.deps
    requires Consistent(b, own, multiset(ds[..i]), TuplePairs(c, ds[..i]), root, {})
    ensures Consistent(Attached(b, c, ds[i]), own, multiset(ds[..i + 1]), TuplePairs(c, ds[..i + 1]), root, {})
  {
    var b' := Attached(b, c, ds[i]);
    var owed, owed' := multiset(ds[..i]), multiset(ds[..i + 1]);
    var stale, stale' := TuplePairs(c, ds[..i]), TuplePairs(c, ds[..i + 1]);
    assert owed' == owed + multiset{ds[i]} && stale' == stale + {(c, ds[i])} by {
      assert ds[..i + 1] == ds[..i] + [ds[i]];
    }
    forall d ensures CountedAt(b', owed', d) { assert CountedAt(b, owed, d); }
    forall x, d ensures IndexedAt(b', stale', x, d) {
      assert IndexedAt(b, stale, x, d);
      AttachedIndex(b, c, ds[i], x, d);
    }
    forall k ensures InterestingAt(b', {}, k) { assert InterestingAt(b, {}, k); }
  }

  lemma AttachedIndex(b: Books, c: Checksum, e: Checksum, x: Checksum, d: Checksum)
    ensures InIndex(Attached(b, c, e), x, d) <==> InIndex(b, x, d) || (x == c && d == e)
    ensures (d in b.reverse ==> b.reverse[d] != {}) ==>
              (d in Attached(b, c, e).reverse ==> Attached(b, c, e).reverse[d] != {})
  {
    if d == e { assert c in Attached(b, c, e).reverse[d]; }
  }

  /** Entering the tuple itself settles the accounts. */
  lemma PushStep(b: Books, own: map<Checksum, Own>, c: Checksum, ds: seq<Checksum>)
    requires ds != [] && c !in b.deps
    requires Consistent(b, own, multiset(ds), TuplePairs(c, ds), Some(c), {})
    ensures Consistent(b.(deps := b.deps[c := ds]), own, multiset{}, {}, Some(c), {})
  {
    var b' := b.(deps := b.deps[c := ds]);
    AllDepsWithout(b'.deps, c);
    assert b'.deps - {c} == b.deps;
    forall d ensures CountedAt(b', multiset{}, d) { assert CountedAt(b, multiset(ds), d); }
    forall x, d ensures IndexedAt(b', {}, x, d) {
      assert IndexedAt(b, TuplePairs(c, ds), x, d);
      assert InIndex(b', x, d) == InIndex(b, x, d);
    }
    forall k ensures InterestingAt(b', {}, k) { assert InterestingAt(b, {}, k); }
    forall x | x != c ensures SameAt(Graph(b.deps, own), Graph(b'.deps, own), x) { }
    ChangeAtRoot(Graph(b.deps, own), Graph(b'.deps, own), c, b.cache, Some(c));
  }

  /** `k` stays memoized through a dirtying of `c` unless it leads to `c`. */
  ghost predicate DirtiedAt(g: Graph, cache: map<Checksum, ExtReal>, cache': map<Checksum, ExtReal>, c: Checksum,
                            k: Checksum) {
    && (k in cache' <==> k in cache && !Reaches(g, k, c))
    && (k in cache' ==> cache'[k] == cache[k])
  }

  /** `c` and everything that leads to it, and nothing else, is forgotten. */
  ghost predicate Dirtied(g: Graph, cache: map<Checksum, ExtReal>, cache': map<Checksum, ExtReal>, c: Checksum) {
    forall k :: DirtiedAt(g, cache, cache', c, k)
  }

  lemma DirtyStep(b: Books, own: map<Checksum, Own>, c: Checksum, cache': map<Checksum, ExtReal>)
    requires Consistent(b, own, multiset{}, {}, Some(c), {})
    requires Dirtied(Graph(b.deps, own), b.cache, cache', c)
    ensures Consistent(b.(cache := cache'), own, multiset{}, {}, None, {})
  {
    var b' := b.(cache := cache');
    var g := Graph(b.deps, own);
    forall d ensures CountedAt(b', multiset{}, d) { assert CountedAt(b, multiset{}, d); }
    forall x, d ensures IndexedAt(b', {}, x, d) {
      assert IndexedAt(b, {}, x, d);
      assert InIndex(b', x, d) == InIndex(b, x, d);
    }
    forall k ensures InterestingAt(b', {}, k) {
      assert InterestingAt(b, {}, k) && DirtiedAt(g, b.cache, cache', c, k);
    }
    forall k ensures CoherentAt(g, cache', None, k) {
      assert CoherentAt(g, b.cache, Some(c), k) && DirtiedAt(g, b.cache, cache', c, k);
    }
  }

  lemma SuspectRoot(b: Books, own: map<Checksum, Own>, c: Checksum)
    requires Consistent(b, own, multiset{}, {}, None, {})
    ensures Consistent(b, own, multiset{}, {}, Some(c), {})
  {
    var g := Graph(b.deps, own);
    forall k ensures CoherentAt(g, b.cache, Some(c), k) { assert CoherentAt(g, b.cache, None, k); }
  }

  /** A change of the own cost of `c` alone. */
  lemma OwnStep(b: Books, own: map<Checksum, Own>, own': map<Checksum, Own>, c: Checksum)
    requires Consistent(b, own, multiset{}, {}, None, {})
    requires own' - {c} == own - {c}
    ensures Consistent(b, own', multiset{}, {}, Some(c), {})
  {
    forall x | x != c ensures SameAt(Graph(b.deps, own), Graph(b.deps, own'), x) {
      assert x in own' <==> x in own' - {c};
      if x in own { assert own'[x] == (own' - {c})[x] == own[x]; }
    }
    ChangeAtRoot(Graph(b.deps, own), Graph(b.deps, own'), c, b.cache, None);
  }

  /** Without interest in `c`, nothing that is memoized leads to `c`. */
  lemma UninterestingRoot(b: Books, own: map<Checksum, Own>, c: Checksum)
    requires Consistent(b, own, multiset{}, {}, Some(c), {}) && !Interesting(b, c)
    ensures Consistent(b, own, multiset{}, {}, None, {})
    ensures Dirtied(Graph(b.deps, own), b.cache, b.cache, c)
  {
    var g := Graph(b.deps, own);
    NobodyNames(b, c, multiset{});
    assert InterestingAt(b, {}, c);
    OrphanRoot(g, c, b.cache);
    forall k ensures DirtiedAt(g, b.cache, b.cache, c, k) { }
  }

  lemma DependencyIsInteresting(b: Books, c: Checksum, d: Checksum)
    requires Counted(b, multiset{}) && d in GetOr(b.deps, c, [])
    ensures Interesting(b, d)
  {
    assert CountedAt(b, multiset{}, d);
    AllDepsNames(b.deps, d);
  }

  lemma MemoStep(b: Books, own: map<Checksum, Own>, c: Checksum)
    requires Consistent(b, own, multiset{}, {}, None, {}) && Interesting(b, c)
    ensures Consistent(b.(cache := b.cache[c := Cost(Graph(b.deps, own), c)]), own, multiset{}, {}, None, {})
  {
    var g := Graph(b.deps, own);
    var b' := b.(cache := b.cache[c := Cost(g, c)]);
    forall d ensures CountedAt(b', multiset{}, d) { assert CountedAt(b, multiset{}, d); }
    forall x, d ensures IndexedAt(b', {}, x, d) {
      assert IndexedAt(b, {}, x, d);
      assert InIndex(b', x, d) == InIndex(b, x, d);
    }
    forall k ensures InterestingAt(b', {}, k) { assert InterestingAt(b, {}, k); }
    forall k ensures CoherentAt(g, b'.cache, None, k) { assert CoherentAt(g, b.cache, None, k); }
  }

  // The worklist walk: `seen` is done, `pending` is still to be visited.

  ghost predicate FrontierAt(g: Graph, c: Checksum, seen: set<Checksum>, pending: seq<Checksum>, x: Checksum,
                             p: Checksum) {
    && (x in seen || x in pending ==> Reaches(g, x, c))
    && (x in seen && x in Deps(g, p) ==> p in seen || p in pending)
  }

  ghost predicate Frontier(g: Graph, c: Checksum, seen: set<Checksum>, pending: seq<Checksum>) {
    (c in seen || c in pending) && forall x, p :: FrontierAt(g, c, seen, pending, x, p)
  }

  /** Visiting `current`: either it was done already, or its parents join the worklist. */
  lemma FrontierStep(g: Graph, c: Checksum, seen: set<Checksum>, rest: seq<Checksum>, current: Checksum,
                     pending: seq<Checksum>)
    requires Frontier(g, c, seen, rest + [current])
    requires forall x :: x in pending <==> x in rest || (current !in seen && current in Deps(g, x))
    ensures Frontier(g, c, seen + {current}, pending)
  {
    var seen' := seen + {current};
    forall x, p ensures FrontierAt(g, c, seen', pending, x, p) {
      assert FrontierAt(g, c, seen, rest + [current], x, p) && FrontierAt(g, c, seen, rest + [current], current, p);
      if current in Deps(g, x) { ReachesStep(g, x, current, c); }
    }
  }

  /** Visiting `current` for the first time. */
  lemma WalkStep(b: Books, own: map<Checksum, Own>, c: Checksum, seen: set<Checksum>, rest: seq<Checksum>,
                 current: Checksum, pending: seq<Checksum>)
    requires Indexed(b, {}) && current !in seen && Frontier(Graph(b.deps, own), c, seen, rest + [current])
    requires forall x :: x in pending <==> x in rest || x in GetOr(b.reverse, current, {})
    ensures Frontier(Graph(b.deps, own), c, seen + {current}, pending)
    ensures forall x :: x in pending ==> x in rest || x in b.deps.Keys
  {
    ParentsInIndex(b, current);
    FrontierStep(Graph(b.deps, own), c, seen, rest, current, pending);
  }

  /** When the worklist is empty, `seen` is exactly what leads to `c`. */
  lemma {:induction false} SeenAll(g: Graph, seen: set<Checksum>, c: Checksum, k: Checksum, n: nat)
    requires Frontier(g, c, seen, []) && Path(g, k, c, n)
    ensures k in seen
    decreases n
  {
    if n > 0 {
      var z :| z in Deps(g, k) && Path(g, z, c, n - 1);
      SeenAll(g, seen, c, z, n - 1);
      assert FrontierAt(g, c, seen, [], z, k);
    }
  }

  /** When nothing is pending any more, what has been seen is exactly what leads to `c`. */
  lemma SeenIsDirtied(g: Graph, c: Checksum, seen: set<Checksum>, cache: map<Checksum, ExtReal>)
    requires Frontier(g, c, seen, [])
    ensures Dirtied(g, cache, cache - seen, c)
  {
    var cache' := cache - seen;
    forall k ensures DirtiedAt(g, cache, cache', c, k) {
      assert FrontierAt(g, c, seen, [], k, k);
      if n: nat :| Path(g, k, c, n) { SeenAll(g, seen, c, k, n); }
    }
  }

  /** Interest in `k` that does not come from the dependencies of `c`. */
  ghost predicate HeldWithout(b: Books, k: Checksum, c: Checksum) {
    k in b.direct || exists x :: x != c && x in b.deps && k in b.deps[x]
  }

  /** What a registration at `c` does to the tuple and the memoized cost of `k`. The old tuple of `c` is
      detached before the new one counts, so a dependency that both tuples name can lose its own tuple. */
  ghost predicate RegisteredAt(b: Books, b': Books, own: map<Checksum, Own>, c: Checksum, ds: seq<Checksum>,
                               k: Checksum) {
    && (k == c ==> GetOr(b'.deps, k, []) == ds)
    && (k != c ==>
      && (k in b'.deps <==> k in b.deps && (Interesting(b, k) ==> HeldWithout(b', k, c)))
      && (k in b'.deps ==> b'.deps[k] == b.deps[k]))
    && (k in b'.cache <==> k in b.cache && HeldWithout(b', k, c) && !Reaches(Graph(b'.deps, own), k, c))
    && (k in b'.cache ==> b'.cache[k] == b.cache[k])
  }

  ghost predicate Registered(b: Books, b': Books, own: map<Checksum, Own>, c: Checksum, ds: seq<Checksum>) {
    b'.direct == b.direct && forall k :: RegisteredAt(b, b', own, c, ds, k)
  }

  /** From the two halves of a registration to its overall effect. */
  lemma RegisterEffect(b: Books, mid: Books, b': Books, own: map<Checksum, Own>, c: Checksum, ds: seq<Checksum>)
    requires Cascade(b.(deps := b.deps - {c}), mid, {})
    requires Counted(mid, multiset{})
    requires c !in mid.deps && b'.direct == mid.direct
    requires b'.deps == if ds == [] then mid.deps else mid.deps[c := ds]
    requires Dirtied(Graph(b'.deps, own), mid.cache, b'.cache, c)
    ensures Registered(b, b', own, c, ds)
  {
    forall k ensures RegisteredAt(b, b', own, c, ds, k) {
      assert CascadeAt(b.(deps := b.deps - {c}), mid, {}, k);
      assert DirtiedAt(Graph(b'.deps, own), mid.cache, b'.cache, c, k);
      assert Interesting(mid, k) <==> HeldWithout(b', k, c) by {
        assert CountedAt(mid, multiset{}, k);
        AllDepsNames(mid.deps, k);
        forall x | x != c ensures x in b'.deps && k in b'.deps[x] <==> x in mid.deps && k in mid.deps[x] { }
        if x :| x in mid.deps && k in mid.deps[x] { assert x != c && x in b'.deps && k in b'.deps[x]; }
      }
    }
  }

  class CostModule {
    const download: DownloadCostSubsystem
    const transformations: TransformationSubsystem
    const bufferLengths: BufferLengthSubsystem
    var dependencies: map<Checksum, seq<Checksum>>
    var reverseDependencies: map<Checksum, set<Checksum>>
    var dependencyInterest: map<Checksum, nat>
    var directInterest: map<Checksum, nat>
    var costCache: map<Checksum, ExtReal>
    var computing: set<Checksum>

    ghost function B(): Books
      reads this
    {
      Books(dependencies, reverseDependencies, dependencyInterest, directInterest, costCache)
    }

    ghost function OwnNow(): map<Checksum, Own>
      reads this, download, transformations, bufferLengths
    {
      OwnCosts(bufferLengths.lengths, download.manualCosts, download.profileNames, transformations.cpuSeconds)
    }

    /** The graph that costs are read from. */
    ghost function G(): Graph
      reads this, download, transformations, bufferLengths
    {
      Graph(dependencies, OwnNow())
    }

    /** What holds between any two public calls. */
    ghost predicate Valid()
      reads this, download, transformations, bufferLengths
    {
      Consistent(B(), OwnNow(), multiset{}, {}, None, {}) && computing == {}
    }

    constructor ()
      ensures Valid() && fresh(download) && fresh(transformations) && fresh(bufferLengths)
      ensures dependencies == map[] && directInterest == map[] && bufferLengths.lengths == map[]
    {
      download := new DownloadCostSubsystem();
      transformations := new TransformationSubsystem();
      bufferLengths := new BufferLengthSubsystem();
      dependencies, reverseDependencies := map[], map[];
      dependencyInterest, directInterest := map[], map[];
      costCache, computing := map[], {};
    }

    // ----- Interest -----

    predicate IsInteresting(c: Checksum)
      reads this
      ensures IsInteresting(c) == Interesting(B(), c)
    {
      GetOr(directInterest, c, 0) + GetOr(dependencyInterest, c, 0) > 0
    }

    method AddInterest(c: Checksum)
      requires Valid()
      modifies this
      ensures Valid()
      ensures B() == old(B()).(direct := old(directInterest)[c := GetOr(old(directInterest), c, 0) + 1])
    {
      ghost var b := B();
      directInterest := directInterest[c := GetOr(directInterest, c, 0) + 1];
      DirectStep(b, OwnNow(), c, B().direct, {});
    }

    method RemoveInterest(c: Checksum, ghost kept: set<Checksum>)
      requires Valid()
      requires Supported(dependencies, Fewer(directInterest, c).Keys, kept)
      modifies this
      ensures Valid()
      ensures Cascade(old(B()).(direct := Fewer(old(directInterest), c)), B(),
        if c in old(directInterest) && c !in directInterest then {c} else {})
      ensures Supported(dependencies, directInterest.Keys, kept)
    {
      ghost var b, own := B(), OwnNow();
      if c in directInterest {
        var count := directInterest[c];
        assert count > 0 by { assert CountedAt(b, multiset{}, c); }
        if count <= 1 {
          directInterest := directInterest - {c};
          DirectStep(b, own, c, directInterest, {c});
          MaybeRelease(c, multiset{}, {}, None, kept);
        } else {
          directInterest := directInterest[c := count - 1];
          DirectStep(b, own, c, directInterest, {});
          CascadeNothing(B(), {});
        }
      } else {
        CascadeNothing(b, {});
      }
    }

    method DecrementDependencyInterest(c: Checksum, ghost owed: multiset<Checksum>,
                                       ghost stale: set<(Checksum, Checksum)>,
                                       ghost root: Option<Checksum>, ghost kept: set<Checksum>)
      requires Consistent(B(), OwnNow(), owed + multiset{c}, stale, root, {})
      requires Supported(dependencies, directInterest.Keys, kept)
      modifies `dependencies, `reverseDependencies, `dependencyInterest, `costCache
      ensures Consistent(B(), OwnNow(), owed, stale, root, {})
      ensures Supported(dependencies, directInterest.Keys, kept)
      ensures Cascade(old(B()), B(), {})
      decreases dependencies.Keys, 2
    {
      ghost var b := B();
      DecrementStep(b, OwnNow(), c, owed, stale, root);
      if c in dependencyInterest {
        if dependencyInterest[c] <= 1 {
          dependencyInterest := dependencyInterest - {c};
          assert B() == Decremented(b, c);
          MaybeRelease(c, owed, stale, root, kept);
        } else {
          dependencyInterest := dependencyInterest[c := dependencyInterest[c] - 1];
          assert B() == Decremented(b, c);
          StillInteresting(B(), OwnNow(), c, owed, stale, root);
        }
        DecrementThen(b, c, B());
      }
    }

    method MaybeRelease(c: Checksum, ghost owed: multiset<Checksum>, ghost stale: set<(Checksum, Checksum)>,
                        ghost root: Option<Checksum>, ghost kept: set<Checksum>)
      requires Consistent(B(), OwnNow(), owed, stale, root, {c})
      requires Supported(dependencies, directInterest.Keys, kept)
      modifies `dependencies, `reverseDependencies, `dependencyInterest, `costCache
      ensures Consistent(B(), OwnNow(), owed, stale, root, {})
      ensures Supported(dependencies, directInterest.Keys, kept)
      ensures Cascade(old(B()), B(), {c})
      decreases dependencies.Keys, 1
    {
      ghost var b := B();
      if !IsInteresting(c) {
        ForgetStep(b, OwnNow(), c, owed, stale, root);
        NotKept(b, c, owed, kept);
        costCache := costCache - {c};
        DetachDependencies(c, owed, stale, root, kept);
        ReleaseThen(b, c, B());
      } else {
        StillInteresting(b, OwnNow(), c, owed, stale, root);
      }
    }

    /** `rev.discard(checksum)`, dropping the entry when it becomes empty. */
    method DiscardReverse(c: Checksum, dep: Checksum)
      modifies `reverseDependencies
      ensures B() == Discarded(old(B()), c, dep)
    {
      if dep in reverseDependencies {
        var rev := reverseDependencies[dep] - {c};
        reverseDependencies := if rev == {} then reverseDependencies - {dep} else reverseDependencies[dep := rev];
      }
    }

    method DetachDependencies(c: Checksum, ghost owed: multiset<Checksum>, ghost stale: set<(Checksum, Checksum)>,
                              ghost root: Option<Checksum>, ghost kept: set<Checksum>)
      requires Consistent(B(), OwnNow(), owed, stale, root, {})
      requires root == Some(c) || !Interesting(B(), c)
      requires Supported(dependencies - {c}, directInterest.Keys, kept)
      modifies `dependencies, `reverseDependencies, `dependencyInterest, `costCache
      ensures Consistent(B(), OwnNow(), owed, stale, root, {})
      ensures Supported(dependencies, directInterest.Keys, kept)
      ensures Cascade(old(B()).(deps := old(dependencies) - {c}), B(), {})
      decreases dependencies.Keys, 0
    {
      ghost var b, own := B(), OwnNow();
      var oldDeps := GetOr(dependencies, c, []);
      assert oldDeps == [] ==> c !in dependencies by { assert IndexedAt(b, stale, c, c); }
      if oldDeps == [] {
        assert dependencies - {c} == dependencies;
        CascadeNothing(b, {});
        return;
      }
      assert forall p :: p in stale ==> p.0 != c by {
        forall p | p in stale ensures p.0 != c { assert IndexedAt(b, stale, p.0, p.1); }
      }
      PopStep(b, own, c, owed, stale, root);
      dependencies := dependencies - {c};
      ghost var popped := B();
      CascadeNothing(popped, {});
      var i := 0;
      assert oldDeps[0..] == oldDeps;
      while i < |oldDeps|
        invariant 0 <= i <= |oldDeps|
        invariant Consistent(B(), own, owed + multiset(oldDeps[i..]), stale + StalePairs(c, oldDeps, i), root, {})
        invariant Supported(dependencies, directInterest.Keys, kept)
        invariant Cascade(popped, B(), {})
      {
        CascadeShrinks(popped, B(), {});
        var dep := oldDeps[i];
        DiscardStep(B(), own, c, oldDeps, i, owed, stale, root);
        ghost var b' := B();
        ghost var discarded := Discarded(b', c, dep);
        DiscardReverse(c, dep);
        DecrementDependencyInterest(dep, owed + multiset(oldDeps[i + 1..]), stale + StalePairs(c, oldDeps, i + 1),
            root, kept);
        DiscardKeepsCascade(popped, b', c, dep);
        CascadeThen(popped, discarded, B(), {});
        i := i + 1;
      }
      assert owed + multiset(oldDeps[i..]) == owed;
      assert stale + StalePairs(c, oldDeps, i) == stale;
    }

    // ----- Dependencies and dirtying -----

    /** The loop that enters `c` as a dependent of each of `ds`, for a tuple that has just been stored. */
    method AttachAll(c: Checksum, ds: seq<Checksum>, ghost mid: Books)
      requires B() == mid.(deps := mid.deps[c := ds]) && c !in mid.deps && ds != []
      requires Consistent(mid, OwnNow(), multiset{}, {}, Some(c), {})
      modifies `reverseDependencies, `dependencyInterest
      ensures Consistent(B(), OwnNow(), multiset{}, {}, Some(c), {})
    {
      ghost var own, books := OwnNow(), mid;
      var i := 0;
      assert ds[..0] == [] && TuplePairs(c, []) == {};
      while i < |ds|
        invariant 0 <= i <= |ds|
        invariant books == B().(deps := mid.deps) && books.cache == mid.cache
        invariant Consistent(books, own, multiset(ds[..i]), TuplePairs(c, ds[..i]), Some(c), {})
      {
        AttachStep(books, own, c, ds, i, Some(c));
        books := Attached(books, c, ds[i]);
        reverseDependencies := reverseDependencies[ds[i] := GetOr(reverseDependencies, ds[i], {}) + {c}];
        IncrementDependencyInterest(ds[i]);
        i := i + 1;
      }
      assert ds[..i] == ds;
      PushStep(books, own, c, ds);
    }

    method RegisterDependencies(c: Checksum, ds: seq<Checksum>, ghost kept: set<Checksum>)
      requires Valid()
      requires Supported(dependencies - {c}, directInterest.Keys, kept)
      modifies `dependencies, `reverseDependencies, `dependencyInterest, `costCache
      ensures Valid()
      ensures Registered(old(B()), B(), OwnNow(), c, ds)
      ensures Supported(dependencies - {c}, directInterest.Keys, kept)
    {
      ghost var b, own := B(), OwnNow();
      SuspectRoot(b, own, c);
      DetachDependencies(c, multiset{}, {}, Some(c), kept);
      assert c !in dependencies by { assert CascadeAt(b.(deps := b.deps - {c}), B(), {}, c); }
      ghost var mid := B();
      if ds != [] {
        dependencies := dependencies[c := ds];
        AttachAll(c, ds, mid);
      } else {
        dependencies := dependencies - {c};
        assert dependencies == mid.deps;
      }
      assert dependencies - {c} == mid.deps;
      ghost var pushed := B();
      if IsInteresting(c) {
        MarkDirtyFrom(c);
        DirtyStep(pushed, own, c, costCache);
      } else {
        UninterestingRoot(pushed, own, c);
      }
      RegisterEffect(b, mid, B(), own, c, ds);
    }

    method IncrementDependencyInterest(c: Checksum)
      modifies `dependencyInterest
      ensures dependencyInterest == old(dependencyInterest)[c := GetOr(old(dependencyInterest), c, 0) + 1]
    {
      dependencyInterest := dependencyInterest[c := GetOr(dependencyInterest, c, 0) + 1];
    }

    /** The public `mark_dirty`. */
    method MarkDirty(c: Checksum)
      requires Valid()
      modifies `costCache
      ensures Valid()
      ensures Dirtied(G(), old(costCache), costCache, c)
    {
      ghost var b := B();
      SuspectRoot(b, OwnNow(), c);
      MarkDirtyFrom(c);
      DirtyStep(b, OwnNow(), c, costCache);
    }

    /** The worklist walk up the reverse index. */
    method MarkDirtyFrom(c: Checksum)
      requires Indexed(B(), {})
      modifies `costCache
      ensures Dirtied(G(), old(costCache), costCache, c)
    {
      ghost var g, b := G(), B();
      ghost var universe := {c} + dependencies.Keys;
      var pending := [c];
      var seen: set<Checksum> := {};
      assert Reaches(g, c, c) by { assert Path(g, c, c, 0); }
      assert Frontier(g, c, seen, pending) by {
        forall x, p ensures FrontierAt(g, c, seen, pending, x, p) { }
      }
      while pending != []
        invariant costCache == b.cache - seen
        invariant seen <= universe && forall x :: x in pending ==> x in universe
        invariant Frontier(g, c, seen, pending)
        decreases universe - seen, |pending|
      {
        var current, rest := pending[|pending| - 1], pending[..|pending| - 1];
        assert pending == rest + [current];
        pending := rest;
        if current in seen {
          FrontierStep(g, c, seen, rest, current, pending);
          assert seen + {current} == seen;
        } else {
          var parents := GetOr(reverseDependencies, current, {});
          pending := PushAll(rest, parents);
          WalkStep(b, OwnNow(), c, seen, rest, current, pending);
          assert current in universe - seen;
          seen := seen + {current};
          costCache := costCache - {current};
        }
      }
      SeenIsDirtied(g, c, seen, b.cache);
    }

    // ----- Lengths, profiles, CPU times -----

    method RegisterBufferLength(c: Checksum, length: Option<int>)
      requires Valid()
      modifies `costCache, bufferLengths
      ensures Valid()
      ensures bufferLengths.lengths == Noted(old(bufferLengths.lengths), c, length)
      ensures bufferLengths.lengths == old(bufferLengths.lengths) ==> costCache == old(costCache)
      ensures bufferLengths.lengths != old(bufferLengths.lengths) ==> Dirtied(G(), old(costCache), costCache, c)
    {
      ghost var b, own, lengths := B(), OwnNow(), bufferLengths.lengths;
      var changed := bufferLengths.NotifyLength(c, length);
      if changed {
        OwnCostsAreLocal(lengths, download.manualCosts, download.profileNames, transformations.cpuSeconds,
            bufferLengths.lengths, download.manualCosts, download.profileNames, transformations.cpuSeconds, c);
        OwnStep(b, own, OwnNow(), c);
        if IsInteresting(c) {
          MarkDirtyFrom(c);
          DirtyStep(b, OwnNow(), c, costCache);
        } else {
          UninterestingRoot(b, OwnNow(), c);
        }
      }
    }

    method SetDownloadProfile(c: Checksum, profile: string)
      requires Valid()
      modifies `costCache, download
      ensures Valid()
      ensures download.profileNames == old(download.profileNames)[c := profile]
      ensures download.manualCosts == old(download.manualCosts)
      ensures Dirtied(G(), old(costCache), costCache, c)
    {
      ghost var b, own, was := B(), OwnNow(), download.profileNames;
      download.SetProfile(c, profile);
      OwnCostsAreLocal(bufferLengths.lengths, download.manualCosts, was, transformations.cpuSeconds,
          bufferLengths.lengths, download.manualCosts, download.profileNames, transformations.cpuSeconds, c);
      OwnStep(b, own, OwnNow(), c);
      MarkDirtyFrom(c);
      DirtyStep(b, OwnNow(), c, costCache);
    }

    method OverrideDownloadCost(c: Checksum, cost: ExtReal)
      requires Valid()
      modifies `costCache, download
      ensures Valid()
      ensures download.manualCosts == old(download.manualCosts)[c := ClampAtZero(cost)]
      ensures download.profileNames == old(download.profileNames)
      ensures Dirtied(G(), old(costCache), costCache, c)
    {
      ghost var b, own, was := B(), OwnNow(), download.manualCosts;
      download.SetManualCost(c, cost);
      OwnCostsAreLocal(bufferLengths.lengths, was, download.profileNames, transformations.cpuSeconds,
          bufferLengths.lengths, download.manualCosts, download.profileNames, transformations.cpuSeconds, c);
      OwnStep(b, own, OwnNow(), c);
      MarkDirtyFrom(c);
      DirtyStep(b, OwnNow(), c, costCache);
    }

    method RecordTransformationCost(c: Checksum, seconds: Option<ExtReal>)
      requires Valid()
      modifies `costCache, transformations
      ensures Valid()
      ensures transformations.cpuSeconds == match seconds
                                            case None => old(transformations.cpuSeconds) - {c}
                                            case Some(s) => old(transformations.cpuSeconds)[c := ClampAtZero(s)]
      ensures Dirtied(G(), old(costCache), costCache, c)
    {
      ghost var b, own, was := B(), OwnNow(), transformations.cpuSeconds;
      transformations.Record(c, seconds);
      OwnCostsAreLocal(bufferLengths.lengths, download.manualCosts, download.profileNames, was,
          bufferLengths.lengths, download.manualCosts, download.profileNames, transformations.cpuSeconds, c);
      OwnStep(b, own, OwnNow(), c);
      MarkDirtyFrom(c);
      DirtyStep(b, OwnNow(), c, costCache);
    }

    // ----- Cost computation -----

    /** The public `get_cost`: current after any history, whatever is memoized. */
    method GetCost(c: Checksum, length: Option<int>) returns (r: ExtReal)
      requires Valid()
      modifies `costCache, `computing, bufferLengths
      ensures Valid()
      ensures bufferLengths.lengths == Noted(old(bufferLengths.lengths), c, length)
      ensures r == if IsInteresting(c) then FromScratch(G(), c, {}) else Infinite
      ensures IsInteresting(c) ==> r == Cost(G(), c)
      ensures IsInteresting(c) ==> (r.Infinite? <==> Doomed(G(), c))
    {
      if length.Some? {
        RegisterBufferLength(c, length);
      }
      if !IsInteresting(c) {
        return Infinite;
      }
      r := EnsureCost(c);
      FromScratchIsCost(G(), c, {});
      InfiniteIffDoomed(G(), c);
    }

    /** Memoized evaluation. While it runs, `computing` holds the checksums on the stack, all of which
        lead to `c`; their costs may already be memoized (as infinite) before their own turn ends. */
    method EnsureCost(c: Checksum) returns (r: ExtReal)
      requires Consistent(B(), OwnNow(), multiset{}, {}, None, {}) && Interesting(B(), c)
      requires forall x :: x in computing ==> StrictlyReaches(G(), x, c)
      modifies `costCache, `computing
      ensures Consistent(B(), OwnNow(), multiset{}, {}, None, {}) && computing == old(computing)
      ensures r == Cost(G(), c)
      decreases dependencies.Keys - computing, 1
    {
      if c in costCache {
        assert CoherentAt(G(), costCache, None, c);
        return costCache[c];
      }
      r := ComputeCost(c);
      MemoStep(B(), OwnNow(), c);
      costCache := costCache[c := r];
    }

    method ComputeCost(c: Checksum) returns (r: ExtReal)
      requires Consistent(B(), OwnNow(), multiset{}, {}, None, {}) && Interesting(B(), c)
      requires forall x :: x in computing ==> StrictlyReaches(G(), x, c)
      modifies `costCache, `computing
      ensures Consistent(B(), OwnNow(), multiset{}, {}, None, {}) && computing == old(computing)
      ensures r == Cost(G(), c)
      decreases dependencies.Keys - computing, 0
    {
      if c in computing {
        CycleIsInfinite(G(), c);
        return Infinite;
      }
      ghost var g := G();
      CostEquation(g, c);
      computing := computing + {c};
      if c !in bufferLengths.lengths {
        computing := computing - {c};
        return Infinite;
      }
      var downloadCost := DownloadCost(download.manualCosts, download.profileNames, c, bufferLengths.lengths[c]);
      var transformationCost := TransformationCost(transformations.cpuSeconds, c);
      var deps := GetOr(dependencies, c, []);
      if deps == [] {
        computing := computing - {c};
        return Plus(downloadCost, transformationCost);
      }
      forall x, d | x in computing && d in deps ensures StrictlyReaches(g, x, d) {
        assert Reaches(g, x, c) by { assert Path(g, c, c, 0); }
        ReachesSnoc(g, x, c, d);
      }
      var dependencyCost := Finite(0.0);
      var i := 0;
      while i < |deps| && dependencyCost.Finite?
        invariant 0 <= i <= |deps|
        invariant Consistent(B(), OwnNow(), multiset{}, {}, None, {})
        invariant computing == old(computing) + {c} && G() == g
        invariant dependencyCost == Sum(g, deps[..i])
      {
        DependencyIsInteresting(B(), c, deps[i]);
        var depCost := EnsureCost(deps[i]);
        assert deps[..i + 1][..i] == deps[..i];
        dependencyCost := Plus(dependencyCost, depCost);
        i := i + 1;
      }
      SumPrefix(g, deps, i);
      computing := computing - {c};
      return Plus(Max(downloadCost, dependencyCost), transformationCost);
    }
  }

  /** Adding up can stop at the first infinite prefix. */
  lemma {:induction false} SumPrefix(g: Graph, ds: seq<Checksum>, i: nat)
    requires i <= |ds|
    requires i == |ds| || Sum(g, ds[..i]).Infinite?
    ensures Sum(g, ds[..i]) == Sum(g, ds)
  {
    if i == |ds| {
      assert ds[..i] == ds;
    } else {
      var init := ds[..|ds| - 1];
      assert init[..i] == ds[..i];
      SumPrefix(g, init, i);
    }
  }

  lemma ParentsInIndex(b: Books, d: Checksum)
    requires Indexed(b, {})
    ensures forall p :: p in GetOr(b.reverse, d, {}) <==> p in b.deps && d in b.deps[p]
  {
    forall p ensures p in GetOr(b.reverse, d, {}) <==> p in b.deps && d in b.deps[p] {
      assert IndexedAt(b, {}, p, d);
    }
  }

  /** Pushes the members of a set, in whatever order the set is iterated. */
  method PushAll(stack: seq<Checksum>, s: set<Checksum>) returns (r: seq<Checksum>)
    ensures forall x :: x in r <==> x in stack || x in s
  {
    r := stack;
    var rest := s;
    while rest != {}
      invariant rest <= s
      invariant forall x :: x in r <==> x in stack || x in s - rest
      decreases rest
    {
      var x :| x in rest;
      r := r + [x];
      rest := rest - {x};
    }
  }
}
