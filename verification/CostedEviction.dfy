/** An eviction pass with the costs that the engine gives for the remaining entries (`run_eviction_once` together with
    `caching/eviction_cost.py`). */
module CostedEviction {
  import opened BufferCache
  import opened BufferEntries
  import opened CostGraph
  import opened EvictionCost
  import opened EvictionPass
  import opened Prelude

  /** The engine knows the lengths and the direct interest that the cache has told it of. */
  ghost predicate Agree(cache: BufferCache, costs: CostModule)
    reads cache, costs, costs.bufferLengths
  {
    costs.directInterest == cache.interest && costs.bufferLengths.lengths == cache.lengths
  }

  ghost predicate KeptAt(deps: map<Checksum, seq<Checksum>>, before: map<Checksum, seq<Checksum>>, k: Checksum) {
    k in deps ==> k in before && deps[k] == before[k]
  }

  method TellOne(costs: CostModule, c: Checksum, ghost keys: set<Checksum>)
    requires costs.Valid() && costs.directInterest == Ones(keys) && c in keys
    modifies costs
    ensures costs.Valid() && costs.directInterest == Ones(keys - {c}) && costs.OwnNow() == old(costs.OwnNow())
    ensures forall k :: KeptAt(costs.dependencies, old(costs.dependencies), k)
  {
    ghost var books := costs.B();
    OneLess(keys, c);
    costs.RemoveInterest(c, {});
    forall k ensures KeptAt(costs.dependencies, old(costs.dependencies), k) {
      assert CascadeAt(books.(direct := Fewer(books.direct, c)), costs.B(), {c}, k);
    }
  }

  /** `remove_interest` for every entry that has left the cache since the engine was last told. No cost is asked for
      in between, so telling it later makes no difference. */
  method TellDropped(costs: CostModule, dropped: set<Checksum>, ghost remaining: set<Checksum>)
    requires costs.Valid() && costs.directInterest == Ones(remaining + dropped) && remaining !! dropped
    modifies costs
    ensures costs.Valid() && costs.directInterest == Ones(remaining) && costs.OwnNow() == old(costs.OwnNow())
    ensures forall k :: KeptAt(costs.dependencies, old(costs.dependencies), k)
  {
    var rest := dropped;
    while rest != {}
      invariant costs.Valid() && costs.OwnNow() == old(costs.OwnNow())
      invariant rest <= dropped && costs.directInterest == Ones(remaining + rest)
      invariant forall k :: KeptAt(costs.dependencies, old(costs.dependencies), k)
      decreases rest
    {
      var c :| c in rest;
      ghost var before := costs.dependencies;
      TellOne(costs, c, remaining + rest);
      forall k ensures KeptAt(costs.dependencies, old(costs.dependencies), k) {
        assert KeptAt(before, old(costs.dependencies), k) && KeptAt(costs.dependencies, before, k);
      }
      assert remaining + (rest - {c}) == remaining + rest - {c};
      rest := rest - {c};
    }
    assert remaining + {} == remaining;
  }

  /** Asking for a cost with the length that the engine knows changes no cost. */
  method AskOne(costs: CostModule, c: Checksum, size: nat) returns (cost: ExtReal)
    requires costs.Valid() && c in costs.bufferLengths.lengths && costs.bufferLengths.lengths[c] == size
    requires c in costs.directInterest && costs.directInterest[c] > 0
    modifies costs`costCache, costs`computing, costs.bufferLengths
    ensures costs.Valid() && costs.bufferLengths.lengths == old(costs.bufferLengths.lengths)
    ensures costs.G() == old(costs.G()) && cost == FromScratch(costs.G(), c, {})
  {
    ghost var lengths := costs.bufferLengths.lengths;
    assert lengths[c := size] == lengths;
    cost := costs.GetCost(c, Some(size));
  }

  /** The cost of each entry that may go, from the engine. */
  method AskCosts(strong: Strong, costs: CostModule) returns (answers: map<Checksum, ExtReal>)
    requires costs.Valid() && costs.directInterest == Ones(strong.Keys)
    requires forall c :: c in strong ==> strong[c].size == Lookup(costs.bufferLengths.lengths, c)
    modifies costs`costCache, costs`computing, costs.bufferLengths
    ensures costs.Valid() && costs.bufferLengths.lengths == old(costs.bufferLengths.lengths)
    ensures costs.G() == old(costs.G()) && forall c :: AnsweredAt(strong, answers, costs.G(), {}, c)
  {
    answers := map[];
    var rest := strong.Keys;
    while rest != {}
      invariant costs.Valid() && rest <= strong.Keys
      invariant costs.G() == old(costs.G()) && costs.bufferLengths.lengths == old(costs.bufferLengths.lengths)
      invariant forall c :: AnsweredAt(strong, answers, costs.G(), rest, c)
      decreases rest
    {
      var c :| c in rest;
      ghost var answers0, rest0 := answers, rest;
      rest := rest - {c};
      if !Protected(strong[c]) && SizeOf(strong[c]) > 0 {
        var cost := AskOne(costs, c, strong[c].size.value);
        answers := answers[c := cost];
      }
      forall d ensures AnsweredAt(strong, answers, costs.G(), rest, d) {
        assert AnsweredAt(strong, answers0, costs.G(), rest0, d);
      }
    }
  }

  ghost predicate AnsweredAt(strong: Strong, answers: map<Checksum, ExtReal>, g: Graph, rest: set<Checksum>,
                             c: Checksum) {
    c in strong && c !in rest && !Protected(strong[c]) && SizeOf(strong[c]) > 0 ==>
      c in answers && answers[c] == FromScratch(g, c, {})
  }

  /** The whole pass. What is evicted is cheapest to lose by the costs that a computation from scratch on the
      dependency graph gives, whatever the engine has memoized; afterwards cache and engine agree again. */
  method RunEvictionOnce(cache: BufferCache, costs: CostModule, clock: Clock)
    returns (before: nat, after: nat, ghost g: Graph)
    requires cache.Valid() && costs.Valid() && Agree(cache, costs)
    modifies cache, costs, costs.bufferLengths
    ensures cache.Valid() && costs.Valid() && Agree(cache, costs)
    ensures before == Memory(Faded(old(cache.strong), clock)) && after == Memory(cache.strong)
    ensures var faded := Faded(old(cache.strong), clock);
      if before <= cache.softCap then cache.strong == faded
      else Greedy(faded, cache.strong, Scores(faded, c => FromScratch(g, c, {}), clock), cache.softCap)
    ensures SameView(old(cache.strong), old(cache.weak), cache.strong, cache.weak)
    ensures g.own == old(costs.OwnNow()) && forall k :: KeptAt(g.deps, old(costs.dependencies), k)
  {
    FadeAndTell(cache, costs, clock);
    g := costs.G();
    before := cache.StrongMemoryUsage();
    if before <= cache.softCap {
      return before, before, g;
    }
    var cost := PriceEntries(cache, costs, clock);
    after := RelieveAndTell(cache, costs, before, cost, clock);
  }

  method FadeAndTell(cache: BufferCache, costs: CostModule, clock: Clock)
    requires cache.Valid() && costs.Valid() && Agree(cache, costs)
    modifies cache`strong, cache`weak, cache`interest, costs
    ensures cache.Valid() && costs.Valid() && Agree(cache, costs)
    ensures cache.strong == Faded(old(cache.strong), clock)
    ensures SameView(old(cache.strong), old(cache.weak), cache.strong, cache.weak)
    ensures costs.OwnNow() == old(costs.OwnNow())
    ensures forall k :: KeptAt(costs.dependencies, old(costs.dependencies), k)
  {
    var keys := cache.strong.Keys;
    cache.FadeTemprefs(clock);
    var left := cache.strong.Keys;
    assert left + (keys - left) == keys;
    TellDropped(costs, keys - left, left);
  }

  /** The costs that the pass works with, which score the entries as a computation from scratch does. */
  method PriceEntries(cache: BufferCache, costs: CostModule, clock: Clock) returns (cost: Checksum -> ExtReal)
    requires cache.Valid() && costs.Valid() && Agree(cache, costs)
    modifies costs`costCache, costs`computing, costs.bufferLengths
    ensures costs.Valid() && Agree(cache, costs) && costs.G() == old(costs.G())
    ensures var g := costs.G();
      Scores(cache.strong, cost, clock) == Scores(cache.strong, c => FromScratch(g, c, {}), clock)
  {
    forall c | c in cache.strong ensures cache.strong[c].size == Lookup(costs.bufferLengths.lengths, c) {
      assert SoundAt(cache.strong, cache.weak, cache.sizes, cache.refholderCounts, c);
    }
    var answers := AskCosts(cache.strong, costs);
    ghost var g := costs.G();
    cost := c => GetOr(answers, c, Infinite);
    SameScores(cache.strong, answers, g, cost, c => FromScratch(g, c, {}), clock);
  }

  method RelieveAndTell(cache: BufferCache, costs: CostModule, before: nat, cost: Checksum -> ExtReal, clock: Clock)
    returns (after: nat)
    requires cache.Valid() && costs.Valid() && Agree(cache, costs) && before == Memory(cache.strong) > cache.softCap
    modifies cache`strong, cache`weak, cache`interest, costs
    ensures cache.Valid() && costs.Valid() && Agree(cache, costs) && after == Memory(cache.strong)
    ensures Greedy(old(cache.strong), cache.strong, Scores(old(cache.strong), cost, clock), cache.softCap)
    ensures SameView(old(cache.strong), old(cache.weak), cache.strong, cache.weak)
  {
    var keys := cache.strong.Keys;
    after := cache.RelievePressure(before, cost, clock);
    var left := cache.strong.Keys;
    assert left + (keys - left) == keys;
    TellDropped(costs, keys - left, left);
  }

  /** Costs matter only for entries that may go and whose size is known. */
  lemma SameScores(strong: Strong, answers: map<Checksum, ExtReal>, g: Graph, cost: Checksum -> ExtReal,
                   cost': Checksum -> ExtReal, clock: Clock)
    requires forall c :: AnsweredAt(strong, answers, g, {}, c)
    requires forall c :: cost(c) == GetOr(answers, c, Infinite) && cost'(c) == FromScratch(g, c, {})
    ensures Scores(strong, cost, clock) == Scores(strong, cost', clock)
  {
    forall c | c in strong && !Protected(strong[c])
      ensures Score(strong[c], cost(c), clock) == Score(strong[c], cost'(c), clock)
    {
      assert AnsweredAt(strong, answers, g, {}, c);
    }
  }
}
