/** The registries of `checksum/expression.py` as objects that are updated in place. Every method is one atomic section
    of the source and moves the registry along one event of the protocol. */
module ExpressionRegistry {
  import opened BufferCache
  import opened BufferEntries
  import opened Ledger
  import opened Prelude
  import opened SharedEvaluation

  /** `_ActiveExpression`. `schedules` and `timers` are the callbacks that the event loop still holds for it. */
  class ActiveExpression {
    const key: Key
    const hasTask: bool
    ghost const id: nat
    ghost const inputs: seq<Checksum>
    ghost var unlinked: bool
    var members: set<Member>
    var done: bool
    var cancelled: bool
    var claims: seq<Checksum>
    var schedules: nat
    var timers: set<nat>
    var linger: Option<nat>
    var nextTimer: nat

    constructor (key: Key, hasTask: bool, claims: seq<Checksum>, ghost id: nat)
      ensures this.key == key && this.id == id
      ensures Value() == Evaluation(key, hasTask, claims, {}, false, false, false, claims, 0, {}, None, 0)
    {
      this.key, this.hasTask, this.id, this.inputs, this.claims := key, hasTask, id, claims, claims;
      unlinked, done, cancelled, members := false, false, false, {};
      schedules, timers, linger, nextTimer := 0, {}, None, 0;
    }

    ghost function Value(): Evaluation
      reads this
    {
      Evaluation(key, hasTask, inputs, members, done, cancelled, unlinked, claims, schedules, timers, linger, nextTimer)
    }

    /** `active.linger.cancel()`: stopping a timer that has fired does nothing. */
    method StopTimer()
      modifies `timers
      ensures Value() == WithoutTimer(old(Value()))
    {
      if linger.Some? { timers := timers - {linger.value}; }
    }

    /** `_join_expression`, or the plain `members.add` of a synchronous caller. */
    method AddMember(member: Member, async: bool)
      modifies this
      ensures Value() == Joined(old(Value()), member, async)
    {
      if async {
        StopTimer();
        linger := None;
      }
      members := members + {member};
    }
  }

  ghost predicate MirrorsAt(all: seq<ActiveExpression>, m: map<Key, ActiveExpression>, ids: map<Key, nat>, k: Key) {
    (k in m <==> k in ids) && (k in m ==> ids[k] < |all| && all[ids[k]] == m[k])
  }

  /** A registry of objects and the same registry by number. */
  ghost predicate Mirrors(all: seq<ActiveExpression>, m: map<Key, ActiveExpression>, ids: map<Key, nat>) {
    forall k :: MirrorsAt(all, m, ids, k)
  }

  lemma MirrorsDrop(all: seq<ActiveExpression>, m: map<Key, ActiveExpression>, ids: map<Key, nat>, key: Key)
    requires Mirrors(all, m, ids)
    ensures Mirrors(all, m - {key}, ids - {key})
    ensures key !in ids ==> m - {key} == m && ids - {key} == ids
  {
    var m', ids' := m - {key}, ids - {key};
    forall k ensures MirrorsAt(all, m', ids', k) { assert MirrorsAt(all, m, ids, k); }
    assert MirrorsAt(all, m, ids, key);
  }

  lemma MirrorsPut(all: seq<ActiveExpression>, m: map<Key, ActiveExpression>, ids: map<Key, nat>, key: Key, id: nat)
    requires Mirrors(all, m, ids) && id < |all|
    ensures Mirrors(all, m[key := all[id]], ids[key := id])
  {
    var m', ids' := m[key := all[id]], ids[key := id];
    forall k ensures MirrorsAt(all, m', ids', k) { assert MirrorsAt(all, m, ids, k); }
  }

  lemma MirrorsGrow(all: seq<ActiveExpression>, m: map<Key, ActiveExpression>, ids: map<Key, nat>, e: ActiveExpression)
    requires Mirrors(all, m, ids)
    ensures Mirrors(all + [e], m, ids)
  {
    forall k ensures MirrorsAt(all + [e], m, ids, k) { assert MirrorsAt(all, m, ids, k); }
  }

  /** An evaluation before its first caller is added. */
  function Idle(key: Key, hasTask: bool, inputs: seq<Checksum>): Evaluation {
    Evaluation(key, hasTask, Unique(inputs), {}, false, false, false, Unique(inputs), 0, {}, None, 0)
  }

  lemma FreshIsJoined(evals: seq<Evaluation>, key: Key, member: Member, inputs: seq<Checksum>, async: bool)
    ensures var grown := evals + [Idle(key, async, inputs)];
      grown[|evals| := Joined(grown[|evals|], member, async)] == evals + [Fresh(key, async, inputs, member)]
  {
    var e := Idle(key, async, inputs);
    assert e.members + {member} == {member};
    assert Joined(e, member, async) == Fresh(key, async, inputs, member);
  }

  class Registry {
    const cache: BufferCache
    var active: map<Key, ActiveExpression>
    var lingering: map<Key, ActiveExpression>
    ghost var all: seq<ActiveExpression>
    ghost var objects: set<ActiveExpression>
    ghost var state: State

    /** A registry on a cache in which others have made claims. */
    constructor (cache: BufferCache, ghost others: seq<seq<Checksum>>)
      requires cache.Valid() && Balanced(others, cache.refholderCounts)
      ensures Valid() && Starts(state) && this.cache == cache && state.others == others && objects == {}
    {
      this.cache, active, lingering, all, objects := cache, map[], map[], [], {};
      state := State([], map[], map[], cache.refholderCounts, others);
      new;
      StartIsSafe(state);
    }

    ghost predicate ObjectAt(evals: seq<Evaluation>, i: nat)
      reads `all, `objects, objects
    {
      i < |all| && i < |evals| ==> all[i] in objects && all[i].id == i && all[i].Value() == evals[i]
    }

    ghost predicate Objects(evals: seq<Evaluation>)
      reads `all, `objects, objects
    {
      |all| == |evals| && forall i :: ObjectAt(evals, i)
    }

    /** What the registry knows by itself. */
    ghost predicate Consistent()
      reads this, objects
    {
      && Inv(state)
      && Objects(state.evals)
      && Mirrors(all, active, state.active)
      && Mirrors(all, lingering, state.lingering)
    }

    /** The counts of the protocol are those of the cache. */
    ghost predicate Valid()
      reads this, objects, cache`refholderCounts
    {
      Consistent() && cache.refholderCounts == state.counts
    }

    /** Others have changed their claims, and the counts in the cache with them. */
    ghost method Observe(others: seq<seq<Checksum>>)
      requires Consistent() && Balanced(others + ClaimsOf(state.evals), cache.refholderCounts)
      modifies `state
      ensures Valid() && state == Next(old(state), Elsewhere(others, cache.refholderCounts))
    {
      ghost var event := Elsewhere(others, cache.refholderCounts);
      NextKeepsInv(state, event);
      state := Next(state, event);
      forall i ensures ObjectAt(state.evals, i) { assert old(ObjectAt(state.evals, i)); }
    }

    ghost predicate Owns(e: ActiveExpression)
      reads `all, `objects
    {
      e in objects && e.id < |all| && all[e.id] == e
    }

    /** `hold_inputs`: one neutral claim per distinct checksum. */
    method HoldInputs(checksums: seq<Checksum>) returns (claims: seq<Checksum>)
      requires cache.Valid()
      modifies cache
      ensures cache.Valid() && claims == Unique(checksums)
      ensures cache.refholderCounts == IncrefAll(old(cache.refholderCounts), claims)
      ensures StaysPinned(old(cache.strong), cache.strong)
      ensures cache.scratchRefs == old(cache.scratchRefs) && cache.written == old(cache.written)
    {
      claims := [];
      for i := 0 to |checksums|
        invariant claims == Unique(checksums[..i])
      {
        assert checksums[..i + 1][..i] == checksums[..i];
        if checksums[i] !in claims { claims := claims + [checksums[i]]; }
      }
      assert checksums[..|checksums|] == checksums;
      for i := 0 to |claims|
        invariant cache.Valid() && StaysPinned(old(cache.strong), cache.strong)
        invariant cache.scratchRefs == old(cache.scratchRefs) && cache.written == old(cache.written)
        invariant IncrefAll(cache.refholderCounts, claims[i..]) == IncrefAll(old(cache.refholderCounts), claims)
      {
        assert claims[i..][1..] == claims[i + 1..];
        ghost var before := cache.strong;
        cache.IncrefRefholder(claims[i], None, None);
        forall c | IsPinned(old(cache.strong), c) ensures IsPinned(cache.strong, c) {
          assert ContinuesAt(before, cache.strong, {}, c);
        }
      }
    }

    /** `_active_expressions.get(key) or _lingering_expressions.pop(key, None)`. */
    method Lookup(key: Key) returns (found: ActiveExpression?)
      requires Valid()
      modifies `lingering
      ensures Mirrors(all, lingering, if key in state.active then state.lingering else state.lingering - {key})
      ensures found == null <==> Found(state, key).None?
      ensures found != null ==> Owns(found) && found.id == Found(state, key).value
      ensures found != null ==> found.id < |state.evals| && found.Value() == state.evals[found.id]
    {
      assert PointsTo(state.evals, state.active, key) && PointsTo(state.evals, state.lingering, key);
      assert MirrorsAt(all, active, state.active, key) && MirrorsAt(all, lingering, state.lingering, key);
      MirrorsDrop(all, lingering, state.lingering, key);
      found := null;
      if key in active {
        found := active[key];
        assert ObjectAt(state.evals, state.active[key]);
      } else if key in lingering {
        found := lingering[key];
        assert ObjectAt(state.evals, state.lingering[key]);
        lingering := lingering - {key};
      }
    }

    /** A new evaluation, with its inputs claimed. */
    method Create(key: Key, hasTask: bool, inputs: seq<Checksum>, ghost evals: seq<Evaluation>)
      returns (e: ActiveExpression)
      requires Objects(evals) && cache.Valid()
      modifies cache, `all, `objects
      ensures cache.Valid() && StaysPinned(old(cache.strong), cache.strong)
      ensures fresh(e) && all == old(all) + [e] && objects == old(objects) + {e} && e.id == |old(all)|
      ensures cache.refholderCounts == IncrefAll(old(cache.refholderCounts), Unique(inputs))
      ensures Objects(evals + [Idle(key, hasTask, inputs)])
    {
      var claims := HoldInputs(inputs);
      e := new ActiveExpression(key, hasTask, claims, |all|);
      all, objects := all + [e], objects + {e};
      ghost var grown := evals + [Idle(key, hasTask, inputs)];
      forall i ensures ObjectAt(grown, i) { assert old(ObjectAt(evals, i)); }
    }

    /** Puts an evaluation in the active registry and adds a caller to it. */
    method Install(key: Key, e: ActiveExpression, member: Member, async: bool,
                   ghost evals: seq<Evaluation>, ghost ids: map<Key, nat>)
      requires Objects(evals) && Mirrors(all, active, ids) && Owns(e)
      modifies `active, e
      ensures e.id < |evals| && Objects(evals[e.id := Joined(evals[e.id], member, async)])
      ensures Mirrors(all, active, ids[key := e.id])
      ensures key in active && active[key] == e && member in e.members
    {
      assert ObjectAt(evals, e.id);
      MirrorsPut(all, active, ids, key, e.id);
      active := active[key := e];
      e.AddMember(member, async);
      ghost var updated := evals[e.id := Joined(evals[e.id], member, async)];
      forall i ensures ObjectAt(updated, i) { assert old(ObjectAt(evals, i)); }
    }

    /** The pending evaluation of the key, or a new one. */
    method FindOrCreate(key: Key, inputs: seq<Checksum>, async: bool)
      returns (e: ActiveExpression, ghost evals: seq<Evaluation>)
      requires Valid() && cache.Valid()
      modifies `lingering, `all, `objects, cache
      ensures cache.Valid() && StaysPinned(old(cache.strong), cache.strong)
      ensures Owns(e) && fresh(objects - old(objects)) && Objects(evals) && Mirrors(all, active, state.active)
      ensures Mirrors(all, lingering, if key in state.active then state.lingering else state.lingering - {key})
      ensures if Shares(state, key)
        then e.id == Found(state, key).value && evals == state.evals
             && cache.refholderCounts == old(cache.refholderCounts)
        else e.id == |state.evals| && evals == state.evals + [Idle(key, async, inputs)]
             && cache.refholderCounts == IncrefAll(old(cache.refholderCounts), Unique(inputs))
    {
      evals := state.evals;
      ghost var ids := if key in state.active then state.lingering else state.lingering - {key};
      var found := Lookup(key);
      if found == null || found.done {
        e := Create(key, async, inputs, evals);
        MirrorsGrow(old(all), active, state.active, e);
        MirrorsGrow(old(all), lingering, ids, e);
        evals := evals + [Idle(key, async, inputs)];
      } else {
        e := found;
      }
    }

    /** The joining section of the three evaluation entry points. */
    method JoinEvaluation(key: Key, member: Member, inputs: seq<Checksum>, async: bool)
      returns (joined: ActiveExpression)
      requires Valid() && cache.Valid()
      modifies this, objects, cache
      ensures Valid() && cache.Valid() && fresh(objects - old(objects)) && Owns(joined)
      ensures StaysPinned(old(cache.strong), cache.strong)
      ensures state == Join(old(state), key, member, inputs, async)
      ensures key in active && joined == active[key] && member in joined.members
    {
      ghost var next := Join(state, key, member, inputs, async);
      JoinStep(state, key, member, inputs, async);
      FreshIsJoined(state.evals, key, member, inputs, async);
      ghost var evals;
      joined, evals := FindOrCreate(key, inputs, async);
      Install(key, joined, member, async, evals, state.active);
      state := next;
    }

    /** `if _active_expressions.get(key) is active: pop`. */
    method LeaveActive(e: ActiveExpression)
      requires Wired(state) && Objects(state.evals) && Mirrors(all, active, state.active) && Owns(e)
      modifies `active
      ensures Mirrors(all, active, if Active(state, e.id) then state.active - {e.key} else state.active)
    {
      assert PointsTo(state.evals, state.active, e.key) && MirrorsAt(all, active, state.active, e.key);
      assert ObjectAt(state.evals, e.id);
      if e.key in active && active[e.key] == e {
        assert ObjectAt(state.evals, state.active[e.key]);
        MirrorsDrop(all, active, state.active, e.key);
        active := active - {e.key};
      }
    }

    /** `if _lingering_expressions.get(key) is active: pop`. */
    method LeaveLingering(e: ActiveExpression) returns (left: bool)
      requires Wired(state) && Objects(state.evals) && Mirrors(all, lingering, state.lingering) && Owns(e)
      modifies `lingering
      ensures left == Lingers(state, e.id)
      ensures Mirrors(all, lingering, if left then state.lingering - {e.key} else state.lingering)
    {
      assert PointsTo(state.evals, state.lingering, e.key) && MirrorsAt(all, lingering, state.lingering, e.key);
      assert ObjectAt(state.evals, e.id);
      left := e.key in lingering && lingering[e.key] == e;
      if left {
        assert ObjectAt(state.evals, state.lingering[e.key]);
        MirrorsDrop(all, lingering, state.lingering, e.key);
        lingering := lingering - {e.key};
      }
    }

    /** `softcancel_expression`. A synchronous owner keeps its evaluation active even without other callers. */
    method SoftCancel(key: Key, member: Member) returns (found: bool)
      requires Valid()
      modifies this, objects
      ensures Valid() && objects == old(objects)
      ensures found == CanCancel(old(state), key, member)
      ensures state == Cancelled(old(state), key, member)
    {
      ghost var evals, next := state.evals, Cancelled(state, key, member);
      CancelStep(state, key, member);
      assert PointsTo(evals, state.active, key) && MirrorsAt(all, active, state.active, key);
      if key !in active { return false; }
      var e := active[key];
      assert ObjectAt(evals, state.active[key]);
      if member !in e.members || e.done { return false; }
      e.members := e.members - {member};
      if e.members == {} && e.hasTask {
        MirrorsDrop(all, active, state.active, key);
        MirrorsPut(all, lingering, state.lingering, key, e.id);
        active := active - {key};
        lingering := lingering[key := e];
        e.schedules := e.schedules + 1;
      }
      state := next;
      forall i ensures ObjectAt(state.evals, i) { assert old(ObjectAt(state.evals, i)); }
      found := true;
    }

    /** The `schedule` callback: starts the linger timer unless someone rejoined or the work is done. */
    method StartLinger(e: ActiveExpression)
      requires Valid() && Owns(e) && Enabled(state, SharedEvaluation.StartLinger(e.id))
      modifies `state, e
      ensures Valid() && state == Next(old(state), SharedEvaluation.StartLinger(e.id))
    {
      ghost var event := SharedEvaluation.StartLinger(e.id);
      assert ObjectAt(state.evals, e.id);
      NextKeepsInv(state, event);
      e.schedules := e.schedules - 1;
      if e.members == {} && !e.done {
        e.timers, e.linger, e.nextTimer := e.timers + {e.nextTimer}, Some(e.nextTimer), e.nextTimer + 1;
      }
      state := Next(state, event);
      forall i ensures ObjectAt(state.evals, i) { assert old(ObjectAt(state.evals, i)); }
    }

    /** The `expire` callback of a linger timer. */
    method Expire(e: ActiveExpression, timer: nat)
      requires Valid() && Owns(e) && Enabled(state, SharedEvaluation.Expire(e.id, timer))
      modifies `state, `lingering, e
      ensures Valid() && state == Next(old(state), SharedEvaluation.Expire(e.id, timer))
      ensures e.cancelled && !old(e.cancelled) ==> e.members == {} && e !in active.Values
    {
      ghost var event := SharedEvaluation.Expire(e.id, timer);
      ghost var next := Next(state, event);
      assert ObjectAt(state.evals, e.id);
      NextKeepsInv(state, event);
      var left := LeaveLingering(e);
      e.timers := e.timers - {timer};
      if left {
        if e.members == {} && e.hasTask { e.cancelled := true; }
      }
      state := next;
      forall i ensures ObjectAt(state.evals, i) { assert old(ObjectAt(state.evals, i)); }
      Unreachable(e);
    }

    /** A cancelled evaluation is in no registry. */
    lemma Unreachable(e: ActiveExpression)
      requires Valid() && Owns(e)
      ensures e.cancelled ==> e.members == {} && e !in active.Values && e !in lingering.Values
    {
      assert ObjectAt(state.evals, e.id) && SaneAt(state, e.id);
      forall k | k in active && active[k] == e ensures Active(state, e.id) {
        assert MirrorsAt(all, active, state.active, k) && PointsTo(state.evals, state.active, k);
        assert ObjectAt(state.evals, state.active[k]);
      }
      forall k | k in lingering && lingering[k] == e ensures Lingers(state, e.id) {
        assert MirrorsAt(all, lingering, state.lingering, k) && PointsTo(state.evals, state.lingering, k);
        assert ObjectAt(state.evals, state.lingering[k]);
      }
    }

    /** The evaluator sets a result or an exception on the shared future. */
    method Settle(e: ActiveExpression)
      requires Valid() && Owns(e)
      modifies `state, e
      ensures Valid() && state == Next(old(state), SharedEvaluation.Settle(e.id))
    {
      ghost var event := SharedEvaluation.Settle(e.id);
      assert ObjectAt(state.evals, e.id);
      NextKeepsInv(state, event);
      if !e.done { e.done := true; }
      state := Next(state, event);
      forall i ensures ObjectAt(state.evals, i) { assert old(ObjectAt(state.evals, i)); }
    }

    /** The `finally` clause of a local task: it leaves the active registry if it is still the one there. */
    method Retire(e: ActiveExpression)
      requires Valid() && Owns(e) && Enabled(state, SharedEvaluation.Retire(e.id))
      modifies `state, `active
      ensures Valid() && state == Next(old(state), SharedEvaluation.Retire(e.id))
    {
      ghost var event := SharedEvaluation.Retire(e.id);
      assert ObjectAt(state.evals, e.id);
      NextKeepsInv(state, event);
      LeaveActive(e);
      state := Next(state, event);
    }

    /** `_discard_active_expression` up to the end of its locked section; a synchronous owner ends the same way. */
    method Discard(e: ActiveExpression)
      requires Valid() && Owns(e) && Enabled(state, SharedEvaluation.Discard(e.id))
      modifies `state, `active, `lingering, e
      ensures Valid() && state == Next(old(state), SharedEvaluation.Discard(e.id))
    {
      ghost var event := SharedEvaluation.Discard(e.id);
      ghost var next := Next(state, event);
      assert ObjectAt(state.evals, e.id);
      NextKeepsInv(state, event);
      LeaveActive(e);
      var left := LeaveLingering(e);
      e.StopTimer();
      e.unlinked := true;
      state := next;
      forall i ensures ObjectAt(state.evals, i) { assert old(ObjectAt(state.evals, i)); }
    }

    /** `_release_refholds`: the claims are forgotten first, so that a second call releases nothing. */
    method ReleaseRefholds(e: ActiveExpression, clock: Clock)
      requires Valid() && cache.Valid() && Owns(e) && Enabled(state, SharedEvaluation.Release(e.id))
      modifies `state, cache, e
      ensures Valid() && cache.Valid() && state == Next(old(state), SharedEvaluation.Release(e.id))
      ensures e.claims == []
    {
      ghost var event := SharedEvaluation.Release(e.id);
      ghost var next := Next(state, event);
      assert ObjectAt(state.evals, e.id);
      NextKeepsInv(state, event);
      var claims := e.claims;
      e.claims := [];
      for i := 0 to |claims|
        modifies cache
        invariant cache.Valid()
        invariant DecrefAll(cache.refholderCounts, claims[i..]) == DecrefAll(old(cache.refholderCounts), claims)
      {
        assert claims[i..][1..] == claims[i + 1..];
        var held := cache.DecrefRefholder(claims[i], clock);
      }
      assert claims[|claims|..] == [];
      state := next;
      forall i ensures ObjectAt(state.evals, i) { assert old(ObjectAt(state.evals, i)); }
    }

    /** The end of `_discard_active_expression`: waiters of a task that never ran get a cancellation. */
    method Abandon(e: ActiveExpression)
      requires Valid() && Owns(e) && Enabled(state, SharedEvaluation.Abandon(e.id))
      modifies `state, e
      ensures Valid() && state == Next(old(state), SharedEvaluation.Abandon(e.id))
    {
      ghost var event := SharedEvaluation.Abandon(e.id);
      assert ObjectAt(state.evals, e.id);
      NextKeepsInv(state, event);
      if !e.done { e.done := true; }
      state := Next(state, event);
      forall i ensures ObjectAt(state.evals, i) { assert old(ObjectAt(state.evals, i)); }
    }
  }
}
