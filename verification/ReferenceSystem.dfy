/** One buffer cache with all that claims buffers in it: Cells, Expressions and shared evaluations. Whatever is done,
    in whatever order, the refholder counts of the cache stay the live claims (`reference_lifecycle.py`). */
module ReferenceSystem {
  import opened BufferCache
  import opened BufferEntries
  import opened BufferHistory
  import opened CostGraph
  import opened ExpressionRegistry
  import opened Ledger
  import opened Prelude
  import opened RefHolders
  import Protocol = SharedEvaluation

  /** A registered holder. */
  datatype Holder = OfCell(cell: Cell) | OfExpression(expression: Expression)

  function Part(h: Holder): object {
    if h.OfCell? then h.cell else h.expression
  }

  function CacheOf(h: Holder): BufferCache {
    if h.OfCell? then h.cell.cache else h.expression.cache
  }

  /** `_refheld_checksums` */
  function HeldBy(h: Holder): seq<Checksum>
    reads Part(h)
  {
    if h.OfCell? then h.cell.Claims() else HoldClaims(h.expression.H())
  }

  predicate IsSane(h: Holder)
    reads Part(h)
  {
    h.OfExpression? ==> HoldSane(h.expression.H())
  }

  /** Calls of the cache that have nothing to do with refholder claims. */
  predicate Unclaiming(call: Call) {
    match call
    case Claims(_, _, _) => false
    case Drops(_) => false
    case Increfs(c, known, _) => known.Some? ==> known.value.checksum == c
    case Temprefs(c, known, _, _, _) => known.Some? ==> known.value.checksum == c
    case Transfers(c, known) => known.Some? ==> known.value.checksum == c
    case _ => true
  }

  /** `Expression.__post_init__`: the input is kept available by a tempref only. */
  method ResolveInput(cache: BufferCache, input: Option<Checksum>, now: real) returns (ok: bool, e: Expression)
    requires cache.Valid()
    modifies cache
    ensures cache.Valid() && cache.refholderCounts == old(cache.refholderCounts)
    ensures fresh(e) && e.cache == cache && e.H() == Hold(None, false, false, false)
    ensures Moves(old(cache.refholderCounts), cache.refholderCounts, [], HoldClaims(e.H()))
  {
    ok := true;
    if input.Some? { ok := cache.AddTempref(input.value, None, 128.0, 2.0, 2.0, now); }
    e := new Expression(cache);
    ExchangeMoves(cache.refholderCounts, [], [], [], []);
  }

  method Perform(cache: BufferCache, call: Call, clock: Clock, now: real, cost: Checksum -> ExtReal)
    requires cache.Valid() && Unclaiming(call)
    modifies cache
    ensures cache.Valid() && cache.refholderCounts == old(cache.refholderCounts)
    ensures Evolves(old(cache.Now()), call, cache.Now())
  {
    match call {
      case Registers(buffer, size) => cache.Register(buffer.checksum, buffer, size);
      case Gets(c) => var found := cache.Get(c);
      case Increfs(c, known, scratch) => cache.Incref(c, known, scratch);
      case Decrefs(c) => var held := cache.Decref(c, clock);
      case Temprefs(c, known, strength, factor, interval) =>
        var ok := cache.AddTempref(c, known, strength, factor, interval, now);
      case Transfers(c, known) => cache.TransferWrite(c, known);
      case MarksScratch(c) => cache.MarkScratch(c);
      case Purges(only) => var purged := cache.PurgeScratch(only);
      case Collects(dead) => cache.CollectWeak(dead);
      case Evicts => var before, after := cache.RunEvictionOnce(cost, clock);
    }
  }

  /** The event concerns an evaluation of the registry, if it concerns a known one at all. */
  ghost predicate Concerns(registry: Registry, event: Protocol.Event, e: ActiveExpression?)
    reads registry
  {
    match event
    case JoinAsync(_, _, _) => true
    case JoinSync(_, _, _) => true
    case SoftCancel(_, _) => true
    case Elsewhere(_, _) => false
    case _ => e != null && registry.Owns(e) && e.id == event.id
  }

  method Step(registry: Registry, event: Protocol.Event, e: ActiveExpression?, clock: Clock)
    requires registry.Valid() && registry.cache.Valid() && Protocol.Enabled(registry.state, event)
    requires Concerns(registry, event, e)
    modifies registry, registry.objects, registry.cache
    ensures registry.Valid() && registry.cache.Valid() && fresh(registry.objects - old(registry.objects))
    ensures registry.state == Protocol.Next(old(registry.state), event)
  {
    match event {
      case JoinAsync(key, member, inputs) => var joined := registry.JoinEvaluation(key, member, inputs, true);
      case JoinSync(key, member, inputs) => var joined := registry.JoinEvaluation(key, member, inputs, false);
      case SoftCancel(key, member) => var found := registry.SoftCancel(key, member);
      case StartLinger(_) => registry.StartLinger(e);
      case Expire(_, timer) => registry.Expire(e, timer);
      case Settle(_) => registry.Settle(e);
      case Retire(_) => registry.Retire(e);
      case Discard(_) => registry.Discard(e);
      case Release(_) => registry.ReleaseRefholds(e, clock);
      case Abandon(_) => registry.Abandon(e);
    }
  }

  class ReferenceSystem {
    const cache: BufferCache
    const registry: Registry
    var holders: seq<Holder>
    /** The claims of each holder. */
    ghost var claims: seq<seq<Checksum>>
    ghost var parts: set<object>

    constructor (softCap: nat)
      ensures Valid() && holders == [] && claims == [] && registry.state.evals == []
      ensures fresh(cache) && fresh(registry) && registry.objects == {}
    {
      var c := new BufferCache(softCap);
      cache := c;
      registry := new Registry(c, []);
      holders, claims, parts := [], [], {};
    }

    ghost predicate HolderAt(i: nat)
      reads this, parts
    {
      i < |holders| && i < |claims| ==>
        && Part(holders[i]) in parts && CacheOf(holders[i]) == cache
        && HeldBy(holders[i]) == claims[i] && IsSane(holders[i])
    }

    ghost predicate DistinctAt(i: nat, j: nat)
      reads `holders
    {
      i < j < |holders| ==> holders[i] != holders[j]
    }

    /** In every reachable state the counts in the cache are the claims of all holders and evaluations together:
        `registry.Valid` says so of `registry.state.others` and the evaluations. */
    ghost predicate Valid()
      reads this, parts, registry, registry.objects, cache
    {
      && |holders| == |claims| && (forall i :: HolderAt(i)) && (forall i, j :: DistinctAt(i, j))
      && registry.cache == cache && cache.Valid()
      && registry.Valid() && registry.state.others == claims
    }

    /** The claims of all holders and of all evaluations. */
    ghost function AllClaims(): seq<seq<Checksum>>
      reads this, registry
    {
      claims + Protocol.ClaimsOf(registry.state.evals)
    }

    // ----- What follows -----

    /** The counts are the live claims, and with them all that the audit asks of refholder accounting holds. */
    lemma Accounted()
      requires Valid()
      ensures Balanced(AllClaims(), cache.refholderCounts)
      ensures forall c :: AgreesAt(cache.refholderCounts, cache.strong, AllClaims(), false, c)
    {
      BalancedPassesAudit(cache.strong, cache.weak, cache.sizes, cache.refholderCounts, AllClaims());
    }

    /** What a holder claims is protected from eviction. */
    lemma ClaimIsProtected(n: nat, c: Checksum)
      requires Valid() && n < |AllClaims()| && c in AllClaims()[n]
      ensures Referenced(cache.strong, c)
    {
      HolderIsBacked(AllClaims(), cache.refholderCounts, n);
      Protocol.InTimes(AllClaims()[n], c);
      assert Times(AllClaims()[n], c) <= GetOr(cache.refholderCounts, c, 0);
      assert SoundAt(cache.strong, cache.weak, cache.sizes, cache.refholderCounts, c);
    }

    /** And so is every input of a pending evaluation that someone waits for. */
    lemma AwaitedInputIsProtected(id: nat, c: Checksum)
      requires Valid() && id < |registry.state.evals|
      requires var e := registry.state.evals[id]; !e.done && e.members != {} && c in e.inputs
      ensures Referenced(cache.strong, c)
    {
      Protocol.WaitersKeepInputs(registry.state, id, c);
      assert SoundAt(cache.strong, cache.weak, cache.sizes, cache.refholderCounts, c);
    }

    /** No claim leaks: once all have given up their claims, the cache counts none. */
    lemma NothingLeaks()
      requires Valid() && forall n :: 0 <= n < |AllClaims()| ==> AllClaims()[n] == []
      ensures cache.refholderCounts == map[]
    {
      forall c ensures c !in cache.refholderCounts {
        Protocol.NothingClaimed(AllClaims(), c);
        assert GetOr(cache.refholderCounts, c, 0) == 0;
      }
    }

    /** The audit over the live holders, which the weak registry lists. All it can report is a manual reference. */
    method Audit(evaluations: seq<ActiveExpression>, warnManual: bool, warned: Option<set<Checksum>>)
      returns (findings: seq<Finding>)
      requires Valid() && evaluations == registry.all
      ensures findings == [] <==>
        forall c :: AsksManual(warnManual, warned, c) ==> ManualRefs(cache.strong, c) == 0
    {
      var list: seq<seq<Checksum>> := [];
      for i := 0 to |holders|
        invariant list == claims[..i]
      {
        assert HolderAt(i);
        list := list + [HeldBy(holders[i])];
      }
      for i := 0 to |evaluations|
        invariant list == claims + Protocol.ClaimsOf(registry.state.evals)[..i]
      {
        assert registry.ObjectAt(registry.state.evals, i);
        list := list + [evaluations[i].claims];
      }
      assert list == AllClaims();
      var warned';
      findings, warned' := AuditReferenceAccounting(cache, list, warnManual, warned);
      Accounted();
      forall c ensures AgreesAt(cache.refholderCounts, cache.strong, list, AsksManual(warnManual, warned, c), c) <==>
        (AsksManual(warnManual, warned, c) ==> ManualRefs(cache.strong, c) == 0)
      {
        assert AgreesAt(cache.refholderCounts, cache.strong, list, false, c);
      }
    }

    // ----- How operations keep it so -----

    /** What is known of a holder before an operation on it. */
    lemma HolderIsValid(n: nat)
      requires Valid() && n < |holders|
      ensures claims[n] == HeldBy(holders[n]) && CacheOf(holders[n]) == cache && IsSane(holders[n])
      ensures Part(holders[n]) in parts
      ensures Backed(cache.refholderCounts, claims[n])
    {
      assert HolderAt(n);
      HolderIsBacked(AllClaims(), cache.refholderCounts, n);
    }

    /** After an operation of holder `n`, which found the counts `counts`. */
    ghost method Note(n: nat, counts: Counts)
      requires n < |holders| == |claims| && Part(holders[n]) in parts && CacheOf(holders[n]) == cache
      requires IsSane(holders[n]) && (forall i: nat :: i != n ==> HolderAt(i)) && (forall i, j :: DistinctAt(i, j))
      requires registry.cache == cache && cache.Valid() && registry.Consistent() && registry.state.others == claims
      requires Balanced(AllClaims(), counts) && Moves(counts, cache.refholderCounts, claims[n], HeldBy(holders[n]))
      modifies `claims, registry`state
      ensures Valid() && claims == old(claims)[n := HeldBy(holders[n])]
      ensures registry.state.evals == old(registry.state.evals)
    {
      ghost var held := HeldBy(holders[n]);
      HolderStep(AllClaims(), counts, n, held, cache.refholderCounts);
      ghost var evals := Protocol.ClaimsOf(registry.state.evals);
      assert (claims + evals)[n := held] == claims[n := held] + evals;
      claims := claims[n := held];
      registry.Observe(claims);
      forall i: nat ensures HolderAt(i) { assert i != n ==> old(HolderAt(i)); }
    }

    /** `register_refholder`, after a construction that found the counts `counts`. */
    method Enlist(h: Holder, ghost counts: Counts)
      requires |holders| == |claims| && (forall i :: HolderAt(i)) && (forall i, j :: DistinctAt(i, j))
      requires Part(h) !in parts && CacheOf(h) == cache && IsSane(h)
      requires registry.cache == cache && cache.Valid() && registry.Consistent() && registry.state.others == claims
      requires Balanced(AllClaims(), counts) && Moves(counts, cache.refholderCounts, [], HeldBy(h))
      modifies this, registry`state
      ensures Valid() && holders == old(holders) + [h] && claims == old(claims) + [HeldBy(h)]
      ensures registry.state.evals == old(registry.state.evals) && parts == old(parts) + {Part(h)}
    {
      ghost var n := |claims|;
      NewHolderAmong(claims, Protocol.ClaimsOf(registry.state.evals), counts, HeldBy(h), cache.refholderCounts);
      holders := holders + [h];
      claims, parts := claims + [HeldBy(h)], parts + {Part(h)};
      registry.Observe(claims);
      forall i: nat ensures HolderAt(i) { assert i != n ==> old(HolderAt(i)); }
      forall i: nat, j: nat ensures DistinctAt(i, j) { assert old(DistinctAt(i, j)) && old(HolderAt(i)); }
    }

    // ----- Cells -----

    method NewCell(ref: InputRef)
      requires Valid()
      modifies this, cache, registry`state
      ensures Valid() && fresh(parts - old(parts)) && registry.state.evals == old(registry.state.evals)
      ensures claims == old(claims) + [Claimed(ref)]
    {
      ghost var counts := cache.refholderCounts;
      var cell := new Cell(cache, ref);
      assert Claimed(ref) + [] == Claimed(ref);
      forall i: nat ensures HolderAt(i) { assert old(HolderAt(i)); }
      Enlist(OfCell(cell), counts);
    }

    method ReplaceResult(n: nat, result: Option<Checksum>, clock: Clock)
      requires Valid() && n < |holders| && holders[n].OfCell?
      requires var cell := holders[n].cell;
        !cell.released || Harmless(cache.refholderCounts, Optional(result), Optional(cell.resultChecksum))
      modifies holders[n].cell, `claims, cache, registry`state
      ensures Valid() && registry.state.evals == old(registry.state.evals)
      ensures claims == old(claims)[n := HeldBy(holders[n])] && holders[n].cell.resultChecksum == result
    {
      ghost var counts := cache.refholderCounts;
      HolderIsValid(n);
      holders[n].cell.ReplaceResult(result, clock);
      forall i: nat | i != n ensures HolderAt(i) { assert old(HolderAt(i)) && DistinctAt(i, n) && DistinctAt(n, i); }
      Note(n, counts);
    }

    method ReplaceInputRef(n: nat, ref: InputRef, clock: Clock)
      requires Valid() && n < |holders| && holders[n].OfCell?
      requires var cell := holders[n].cell;
        !cell.released ||
        Harmless(cache.refholderCounts, Claimed(ref), Optional(cell.resultChecksum) + Claimed(cell.inputRef))
      modifies holders[n].cell, `claims, cache, registry`state
      ensures Valid() && registry.state.evals == old(registry.state.evals)
      ensures claims == old(claims)[n := HeldBy(holders[n])] && holders[n].cell.inputRef == ref
    {
      ghost var counts := cache.refholderCounts;
      HolderIsValid(n);
      holders[n].cell.ReplaceInputRef(ref, clock);
      forall i: nat | i != n ensures HolderAt(i) { assert old(HolderAt(i)) && DistinctAt(i, n) && DistinctAt(n, i); }
      Note(n, counts);
    }

    method SetScratch(n: nat, scratch: bool, clock: Clock)
      requires Valid() && n < |holders| && holders[n].OfCell?
      modifies holders[n].cell, `claims, cache, registry`state
      ensures Valid() && registry.state.evals == old(registry.state.evals) && claims == old(claims)
      ensures holders[n].cell.scratch == scratch
    {
      ghost var counts := cache.refholderCounts;
      HolderIsValid(n);
      holders[n].cell.SetScratch(scratch, clock);
      forall i: nat | i != n ensures HolderAt(i) { assert old(HolderAt(i)) && DistinctAt(i, n) && DistinctAt(n, i); }
      Note(n, counts);
    }

    // ----- Expressions -----

    /** Fails where the tempref on the input does. */
    method NewExpression(input: Option<Checksum>, now: real) returns (ok: bool)
      requires Valid()
      modifies this, cache, registry`state
      ensures Valid() && fresh(parts - old(parts)) && registry.state.evals == old(registry.state.evals)
      ensures claims == if ok then old(claims) + [[]] else old(claims)
    {
      ghost var counts := cache.refholderCounts;
      var expression;
      ok, expression := ResolveInput(cache, input, now);
      forall i: nat ensures HolderAt(i) { assert old(HolderAt(i)); }
      if ok { Enlist(OfExpression(expression), counts); }
    }

    method EnableResultHolding(n: nat)
      requires Valid() && n < |holders| && holders[n].OfExpression?
      modifies holders[n].expression, `claims, cache, registry`state
      ensures Valid() && registry.state.evals == old(registry.state.evals)
      ensures claims == old(claims)[n := HeldBy(holders[n])]
    {
      ghost var counts := cache.refholderCounts;
      HolderIsValid(n);
      holders[n].expression.EnableResultHolding();
      forall i: nat | i != n ensures HolderAt(i) { assert old(HolderAt(i)) && DistinctAt(i, n) && DistinctAt(n, i); }
      Note(n, counts);
    }

    method HoldResult(n: nat, checksum: Checksum, clock: Clock, now: real) returns (ok: bool)
      requires Valid() && n < |holders| && holders[n].OfExpression?
      requires !HoldLeaks(holders[n].expression.H(), checksum)
      modifies holders[n].expression, `claims, cache, registry`state
      ensures Valid() && registry.state.evals == old(registry.state.evals)
      ensures claims == old(claims)[n := HeldBy(holders[n])]
      ensures ok ==> holders[n].expression.resultChecksum == Some(checksum)
    {
      ghost var counts := cache.refholderCounts;
      HolderIsValid(n);
      ok := holders[n].expression.HoldResult(checksum, clock, now);
      forall i: nat | i != n ensures HolderAt(i) { assert old(HolderAt(i)) && DistinctAt(i, n) && DistinctAt(n, i); }
      Note(n, counts);
    }

    // ----- Either -----

    method CopyCell(n: nat, clock: Clock)
      requires Valid() && n < |holders| && holders[n].OfCell?
      modifies this, cache, registry`state
      ensures Valid() && fresh(parts - old(parts)) && registry.state.evals == old(registry.state.evals)
      ensures claims == old(claims) + [old(claims)[n]]
    {
      ghost var counts := cache.refholderCounts;
      HolderIsValid(n);
      var duplicate := holders[n].cell.Copy(clock);
      forall i: nat ensures HolderAt(i) { assert old(HolderAt(i)); }
      Enlist(OfCell(duplicate), counts);
    }

    /** Fails where the tempref on the result does. */
    method CopyExpression(n: nat, clock: Clock, now: real) returns (ok: bool)
      requires Valid() && n < |holders| && holders[n].OfExpression?
      modifies this, cache, registry`state
      ensures Valid() && fresh(parts - old(parts)) && registry.state.evals == old(registry.state.evals)
      ensures claims == if ok then old(claims) + [old(claims)[n]] else old(claims)
    {
      ghost var counts := cache.refholderCounts;
      HolderIsValid(n);
      var duplicate := holders[n].expression.Copy(clock, now);
      ok := duplicate != null;
      forall i: nat ensures HolderAt(i) { assert old(HolderAt(i)); }
      if ok { Enlist(OfExpression(duplicate), counts); }
    }

    /** `_release_refholds`, explicit or by a finalizer. */
    method Release(n: nat, clock: Clock)
      requires Valid() && n < |holders|
      modifies Part(holders[n]), `claims, cache, registry`state
      ensures Valid() && registry.state.evals == old(registry.state.evals) && claims == old(claims)[n := []]
    {
      ghost var counts := cache.refholderCounts;
      HolderIsValid(n);
      match holders[n] {
        case OfCell(cell) => cell.ReleaseRefholds(clock);
        case OfExpression(expression) => expression.ReleaseRefholds(clock);
      }
      forall i: nat | i != n ensures HolderAt(i) { assert old(HolderAt(i)) && DistinctAt(i, n) && DistinctAt(n, i); }
      Note(n, counts);
    }

    // ----- Evaluations -----

    /** One step of the evaluation protocol; `e` is the evaluation that the event is about, if it is about one. */
    method Evaluate(event: Protocol.Event, e: ActiveExpression?, clock: Clock)
      requires Valid() && Protocol.Enabled(registry.state, event) && Concerns(registry, event, e)
      modifies registry, registry.objects, cache
      ensures Valid() && claims == old(claims) && fresh(registry.objects - old(registry.objects))
      ensures registry.state == Protocol.Next(old(registry.state), event)
    {
      Step(registry, event, e, clock);
      forall i: nat ensures HolderAt(i) { assert old(HolderAt(i)); }
    }

    // ----- All else that the cache is asked for -----

    /** Any other call of the cache, eviction among them. */
    method Use(call: Call, clock: Clock, now: real, cost: Checksum -> ExtReal)
      requires Valid() && Unclaiming(call)
      modifies cache
      ensures Valid() && cache.refholderCounts == old(cache.refholderCounts)
      ensures Evolves(old(cache.Now()), call, cache.Now())
    {
      Perform(cache, call, clock, now, cost);
      forall i: nat ensures HolderAt(i) { assert old(HolderAt(i)); }
    }
  }
}
