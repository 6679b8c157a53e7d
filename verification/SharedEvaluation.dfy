/** The shared-evaluation protocol of structural expressions (`checksum/expression.py`) as a state machine. Every
    event is one critical section under the expression lock, or one callback of the event loop. */
module SharedEvaluation {
  import opened Prelude
  import opened Ledger

  /** Identity of an evaluation: the cache key of its expression. */
  datatype Key = Key(input: Checksum, path: string, inputCelltype: string, celltype: string)

  /** Identity of a caller. Concurrent callers use distinct members. */
  type Member = nat

  /** `timers` are the live linger timers, `linger` the handle stored last; `schedules` counts the calls that will
      start a timer. `inputs` are the checksums claimed at creation, `claims` those still held. */
  datatype Evaluation = Evaluation(
    key: Key, hasTask: bool, inputs: seq<Checksum>,
    members: set<Member>, done: bool, cancelled: bool, unlinked: bool, claims: seq<Checksum>,
    schedules: nat, timers: set<nat>, linger: Option<nat>, nextTimer: nat)

  /** `counts` are the refholder counts of the buffer cache, `others` the claims that are not made by evaluations. */
  datatype State = State(
    evals: seq<Evaluation>, active: map<Key, nat>, lingering: map<Key, nat>, counts: Counts,
    others: seq<seq<Checksum>>)

  datatype Event =
    | JoinAsync(key: Key, member: Member, inputs: seq<Checksum>)
    | JoinSync(key: Key, member: Member, inputs: seq<Checksum>)
    | SoftCancel(key: Key, member: Member)
    | StartLinger(id: nat)
    | Expire(id: nat, timer: nat)
    | Settle(id: nat)
    | Retire(id: nat)
    | Discard(id: nat)
    | Release(id: nat)
    | Abandon(id: nat)
    | Elsewhere(others: seq<seq<Checksum>>, counts: Counts)

  function Unique(cs: seq<Checksum>): (r: seq<Checksum>) {
    if cs == [] then []
    else
      var front := Unique(cs[..|cs| - 1]);
      if cs[|cs| - 1] in front then front else front + [cs[|cs| - 1]]
  }

  function Fresh(key: Key, hasTask: bool, inputs: seq<Checksum>, member: Member): Evaluation {
    Evaluation(key, hasTask, Unique(inputs), {member}, false, false, false, Unique(inputs), 0, {}, None, 0)
  }

  function WithoutTimer(e: Evaluation): Evaluation {
    if e.linger.Some? then e.(timers := e.timers - {e.linger.value}) else e
  }

  /** `_join_expression`: an asynchronous caller stops the linger timer, a synchronous one does not. */
  function Joined(e: Evaluation, member: Member, async: bool): Evaluation {
    if async then WithoutTimer(e).(linger := None, members := e.members + {member})
    else e.(members := e.members + {member})
  }

  function Found(s: State, key: Key): Option<nat> {
    if key in s.active then Some(s.active[key])
    else if key in s.lingering then Some(s.lingering[key])
    else None
  }

  /** Whether a join shares the evaluation that is registered for the key. */
  predicate Shares(s: State, key: Key)
    requires Wired(s)
  {
    var found := Found(s, key);
    assert PointsTo(s.evals, s.active, key) && PointsTo(s.evals, s.lingering, key);
    found.Some? && !s.evals[found.value].done
  }

  function Join(s: State, key: Key, member: Member, inputs: seq<Checksum>, async: bool): State
    requires Wired(s)
  {
    var lingering := if key in s.active then s.lingering else s.lingering - {key};
    if Shares(s, key) then
      var id := Found(s, key).value;
      assert PointsTo(s.evals, s.active, key) && PointsTo(s.evals, s.lingering, key);
      s.(evals := s.evals[id := Joined(s.evals[id], member, async)], active := s.active[key := id],
         lingering := lingering)
    else
      s.(evals := s.evals + [Fresh(key, async, inputs, member)], active := s.active[key := |s.evals|],
         lingering := lingering, counts := IncrefAll(s.counts, Unique(inputs)))
  }

  /** Whether `softcancel_expression` finds a waiter to deregister. */
  predicate CanCancel(s: State, key: Key, member: Member)
    requires Wired(s)
  {
    assert PointsTo(s.evals, s.active, key);
    key in s.active && member in s.evals[s.active[key]].members && !s.evals[s.active[key]].done
  }

  function Cancelled(s: State, key: Key, member: Member): State
    requires Wired(s)
  {
    if !CanCancel(s, key, member) then s
    else
      assert PointsTo(s.evals, s.active, key);
      var id := s.active[key];
      var e := s.evals[id].(members := s.evals[id].members - {member});
      if e.members == {} && e.hasTask then
        s.(evals := s.evals[id := e.(schedules := e.schedules + 1)], active := s.active - {key},
           lingering := s.lingering[key := id])
      else s.(evals := s.evals[id := e])
  }

  function Scheduled(e: Evaluation): Evaluation
    requires e.schedules > 0
  {
    var f := e.(schedules := e.schedules - 1);
    if e.members == {} && !e.done then
      f.(timers := e.timers + {e.nextTimer}, linger := Some(e.nextTimer), nextTimer := e.nextTimer + 1)
    else f
  }

  /** The linger callback: a no-op unless the evaluation is still the lingering one. */
  function Expired(s: State, id: nat, timer: nat): State
    requires Wired(s) && id < |s.evals|
  {
    var e := s.evals[id].(timers := s.evals[id].timers - {timer});
    if Lingers(s, id) then
      var f := if e.members == {} && e.hasTask then e.(cancelled := true) else e;
      s.(evals := s.evals[id := f], lingering := s.lingering - {e.key})
    else s.(evals := s.evals[id := e])
  }

  function Unlinked(s: State, id: nat): State
    requires Wired(s) && id < |s.evals|
  {
    var key := s.evals[id].key;
    s.(evals := s.evals[id := WithoutTimer(s.evals[id]).(unlinked := true)],
       active := if Active(s, id) then s.active - {key} else s.active,
       lingering := if Lingers(s, id) then s.lingering - {key} else s.lingering)
  }

  predicate Active(s: State, id: nat)
    requires id < |s.evals|
  {
    s.evals[id].key in s.active && s.active[s.evals[id].key] == id
  }

  predicate Lingers(s: State, id: nat)
    requires id < |s.evals|
  {
    s.evals[id].key in s.lingering && s.lingering[s.evals[id].key] == id
  }

  /** When an event can happen. The evaluator settles its future before it leaves the registry; a discard comes at
      the end of a task, which has settled the future or was cancelled by its linger timer. What happens elsewhere
      leaves the counts equal to the live claims of all. */
  ghost predicate Enabled(s: State, event: Event) {
    match event
    case JoinAsync(_, _, _) => true
    case JoinSync(_, _, _) => true
    case SoftCancel(_, _) => true
    case StartLinger(id) => id < |s.evals| && s.evals[id].schedules > 0
    case Expire(id, timer) => id < |s.evals| && timer in s.evals[id].timers
    case Settle(id) => id < |s.evals|
    case Retire(id) => id < |s.evals| && s.evals[id].done
    case Discard(id) => id < |s.evals| && (s.evals[id].done || s.evals[id].cancelled)
    case Release(id) => id < |s.evals| && s.evals[id].unlinked
    case Abandon(id) => id < |s.evals| && s.evals[id].unlinked
    case Elsewhere(others, counts) => Balanced(others + ClaimsOf(s.evals), counts)
  }

  function Next(s: State, event: Event): State
    requires Wired(s) && Enabled(s, event)
  {
    match event
    case JoinAsync(key, member, inputs) => Join(s, key, member, inputs, true)
    case JoinSync(key, member, inputs) => Join(s, key, member, inputs, false)
    case SoftCancel(key, member) => Cancelled(s, key, member)
    case StartLinger(id) => s.(evals := s.evals[id := Scheduled(s.evals[id])])
    case Expire(id, timer) => Expired(s, id, timer)
    case Settle(id) => s.(evals := s.evals[id := s.evals[id].(done := true)])
    case Retire(id) => if Active(s, id) then s.(active := s.active - {s.evals[id].key}) else s
    case Discard(id) => Unlinked(s, id)
    case Release(id) =>
      s.(evals := s.evals[id := s.evals[id].(claims := [])], counts := DecrefAll(s.counts, s.evals[id].claims))
    case Abandon(id) => s.(evals := s.evals[id := s.evals[id].(done := true)])
    case Elsewhere(others, counts) => s.(others := others, counts := counts)
  }

  // ----- Invariants -----

  ghost predicate PointsTo(evals: seq<Evaluation>, m: map<Key, nat>, key: Key) {
    key in m ==> m[key] < |evals| && evals[m[key]].key == key
  }

  /** The registries hold evaluations of their own key, and never the same key twice. */
  ghost predicate Wired(s: State) {
    && (forall key :: PointsTo(s.evals, s.active, key) && PointsTo(s.evals, s.lingering, key))
    && s.active.Keys !! s.lingering.Keys
  }

  /** What is known of one evaluation, given the registry it is in. */
  predicate Sane(e: Evaluation, active: bool, lingers: bool) {
    && (!e.done && e.hasTask ==> (active <==> e.members != {}))
    && (!e.done && !e.hasTask ==> active)
    && (lingers ==> e.members == {} && e.hasTask)
    && (lingers && !e.done ==> e.schedules > 0 || e.timers != {})
    && (e.cancelled ==> e.members == {} && !active && !lingers && e.hasTask)
    && (e.unlinked ==> !active && !lingers && (e.done || e.cancelled))
    && (!e.unlinked ==> e.claims == e.inputs)
    && (forall t :: t in e.timers ==> t < e.nextTimer)
    && (e.linger.Some? ==> e.linger.value < e.nextTimer)
  }

  ghost predicate SaneAt(s: State, id: nat) {
    id < |s.evals| ==> Sane(s.evals[id], Active(s, id), Lingers(s, id))
  }

  /** The claims of all evaluations. */
  function ClaimsOf(evals: seq<Evaluation>): seq<seq<Checksum>> {
    seq(|evals|, i requires 0 <= i < |evals| => evals[i].claims)
  }

  function AllClaims(s: State): seq<seq<Checksum>> {
    s.others + ClaimsOf(s.evals)
  }

  ghost predicate Inv(s: State) {
    Wired(s) && (forall id :: SaneAt(s, id)) && Balanced(AllClaims(s), s.counts)
  }

  /** A change of one evaluation that leaves its claims alone keeps the counts balanced. */
  lemma SameClaims(s: State, id: nat, e: Evaluation)
    requires id < |s.evals| && e.claims == s.evals[id].claims && Balanced(AllClaims(s), s.counts)
    ensures Balanced(AllClaims(s.(evals := s.evals[id := e])), s.counts)
  {
    assert ClaimsOf(s.evals[id := e]) == ClaimsOf(s.evals);
  }

  lemma JoinClaims(s: State, e: Evaluation)
    requires Balanced(AllClaims(s), s.counts)
    ensures Balanced(AllClaims(s.(evals := s.evals + [e])), IncrefAll(s.counts, e.claims))
  {
    ExchangeMoves(s.counts, e.claims, [], [], e.claims);
    NewHolder(AllClaims(s), s.counts, e.claims, IncrefAll(s.counts, e.claims));
    assert AllClaims(s.(evals := s.evals + [e])) == AllClaims(s) + [e.claims];
  }

  lemma ShareStep(s: State, key: Key, member: Member, inputs: seq<Checksum>, async: bool)
    requires Inv(s) && Shares(s, key)
    ensures Inv(Join(s, key, member, inputs, async))
  {
    var t := Join(s, key, member, inputs, async);
    assert PointsTo(s.evals, s.active, key) && PointsTo(s.evals, s.lingering, key);
    var id := Found(s, key).value;
    assert SaneAt(s, id);
    SameClaims(s, id, Joined(s.evals[id], member, async));
    forall k ensures PointsTo(t.evals, t.active, k) && PointsTo(t.evals, t.lingering, k) {
      assert PointsTo(s.evals, s.active, k) && PointsTo(s.evals, s.lingering, k);
    }
    forall i ensures SaneAt(t, i) { assert SaneAt(s, i); }
  }

  lemma CreateStep(s: State, key: Key, member: Member, inputs: seq<Checksum>, async: bool)
    requires Inv(s) && !Shares(s, key)
    ensures Inv(Join(s, key, member, inputs, async))
  {
    var t := Join(s, key, member, inputs, async);
    assert PointsTo(s.evals, s.active, key) && PointsTo(s.evals, s.lingering, key);
    JoinClaims(s, Fresh(key, async, inputs, member));
    forall k ensures PointsTo(t.evals, t.active, k) && PointsTo(t.evals, t.lingering, k) {
      assert PointsTo(s.evals, s.active, k) && PointsTo(s.evals, s.lingering, k);
    }
    forall i ensures SaneAt(t, i) { assert SaneAt(s, i); }
  }

  lemma JoinStep(s: State, key: Key, member: Member, inputs: seq<Checksum>, async: bool)
    requires Inv(s)
    ensures Inv(Join(s, key, member, inputs, async))
  {
    if Shares(s, key) {
      ShareStep(s, key, member, inputs, async);
    } else {
      CreateStep(s, key, member, inputs, async);
    }
  }

  lemma CancelStep(s: State, key: Key, member: Member)
    requires Inv(s)
    ensures Inv(Cancelled(s, key, member))
  {
    if CanCancel(s, key, member) {
      var t := Cancelled(s, key, member);
      var id := s.active[key];
      assert PointsTo(s.evals, s.active, key) && SaneAt(s, id);
      SameClaims(s, id, t.evals[id]);
      forall k ensures PointsTo(t.evals, t.active, k) && PointsTo(t.evals, t.lingering, k) {
        assert PointsTo(s.evals, s.active, k) && PointsTo(s.evals, s.lingering, k);
      }
      forall i ensures SaneAt(t, i) { assert SaneAt(s, i); }
    }
  }

  /** A step that changes one evaluation in place, and may drop it from a registry. */
  lemma UpdateStep(s: State, t: State, id: nat)
    requires Inv(s) && id < |s.evals| == |t.evals|
    requires t.evals == s.evals[id := t.evals[id]] && t.evals[id].key == s.evals[id].key
    requires t.active == s.active || (Active(s, id) && t.active == s.active - {s.evals[id].key})
    requires t.lingering == s.lingering || (Lingers(s, id) && t.lingering == s.lingering - {s.evals[id].key})
    requires Sane(t.evals[id], Active(t, id), Lingers(t, id))
    requires Balanced(AllClaims(t), t.counts)
    ensures Inv(t)
  {
    forall k ensures PointsTo(t.evals, t.active, k) && PointsTo(t.evals, t.lingering, k) {
      assert PointsTo(s.evals, s.active, k) && PointsTo(s.evals, s.lingering, k);
    }
    forall i ensures SaneAt(t, i) { assert SaneAt(s, i); }
  }

  lemma ReleaseStep(s: State, id: nat)
    requires Inv(s) && id < |s.evals| && s.evals[id].unlinked
    ensures Inv(Next(s, Release(id)))
  {
    var t := Next(s, Release(id));
    assert SaneAt(s, id);
    var holders, n, claims := AllClaims(s), |s.others| + id, s.evals[id].claims;
    HolderIsBacked(holders, s.counts, n);
    ExchangeMoves(s.counts, [], claims, claims, []);
    HolderStep(holders, s.counts, n, [], t.counts);
    assert AllClaims(t) == holders[n := []];
    UpdateStep(s, t, id);
  }

  /** The events that concern one known evaluation and leave its claims alone. */
  predicate Quiet(event: Event) {
    event.StartLinger? || event.Expire? || event.Settle? || event.Retire? || event.Discard? || event.Abandon?
  }

  lemma QuietStep(s: State, event: Event)
    requires Inv(s) && Enabled(s, event) && Quiet(event)
    ensures Inv(Next(s, event))
  {
    var t := Next(s, event);
    assert SaneAt(s, event.id);
    SameClaims(s, event.id, t.evals[event.id]);
    assert s.evals[event.id := s.evals[event.id]] == s.evals;
    UpdateStep(s, t, event.id);
  }

  lemma ElsewhereStep(s: State, event: Event)
    requires Inv(s) && Enabled(s, event) && event.Elsewhere?
    ensures Inv(Next(s, event))
  {
    var t := Next(s, event);
    forall k ensures PointsTo(t.evals, t.active, k) && PointsTo(t.evals, t.lingering, k) {
      assert PointsTo(s.evals, s.active, k) && PointsTo(s.evals, s.lingering, k);
    }
    forall i ensures SaneAt(t, i) { assert SaneAt(s, i); }
  }

  /** Every event keeps the invariant. */
  lemma NextKeepsInv(s: State, event: Event)
    requires Inv(s) && Enabled(s, event)
    ensures Inv(Next(s, event))
  {
    match event
    case JoinAsync(key, member, inputs) => JoinStep(s, key, member, inputs, true);
    case JoinSync(key, member, inputs) => JoinStep(s, key, member, inputs, false);
    case SoftCancel(key, member) => CancelStep(s, key, member);
    case Release(id) => ReleaseStep(s, id);
    case Elsewhere(_, _) => ElsewhereStep(s, event);
    case _ => QuietStep(s, event);
  }

  // ----- Runs -----

  /** No evaluations, and the counts are the claims of whoever else there is. */
  ghost predicate Starts(s: State) {
    s.evals == [] && s.active == map[] && s.lingering == map[] && Balanced(s.others, s.counts)
  }

  lemma StartIsSafe(s: State)
    requires Starts(s)
    ensures Inv(s)
  {
    assert AllClaims(s) == s.others;
  }

  ghost predicate Feasible(s: State, events: seq<Event>)
    requires Inv(s)
    decreases |events|
  {
    events == [] || (Enabled(s, events[0]) && (NextKeepsInv(s, events[0]); Feasible(Next(s, events[0]), events[1..])))
  }

  ghost function Run(s: State, events: seq<Event>): State
    requires Inv(s) && Feasible(s, events)
    decreases |events|
  {
    if events == [] then s else NextKeepsInv(s, events[0]); Run(Next(s, events[0]), events[1..])
  }

  lemma {:induction false} RunKeepsInv(s: State, events: seq<Event>)
    requires Inv(s) && Feasible(s, events)
    ensures Inv(Run(s, events))
    decreases |events|
  {
    if events != [] {
      NextKeepsInv(s, events[0]);
      RunKeepsInv(Next(s, events[0]), events[1..]);
    }
  }

  /** In every reachable state: a key is never active and lingering at once; a pending task is active exactly when
      someone waits for it; no caller of a pending evaluation is left outside the active registry; lingering and
      cancelled evaluations have no callers; and the refholder counts are exactly the claims of the evaluations and of
      all others. */
  lemma EveryRunIsSafe(start: State, events: seq<Event>)
    requires Starts(start) && Inv(start) && Feasible(start, events)
    ensures var s := Run(start, events);
      && s.active.Keys !! s.lingering.Keys
      && (forall id :: 0 <= id < |s.evals| && !s.evals[id].done && s.evals[id].hasTask ==>
            (Active(s, id) <==> s.evals[id].members != {}))
      && (forall id :: 0 <= id < |s.evals| && !s.evals[id].done && s.evals[id].members != {} ==> Active(s, id))
      && (forall id :: 0 <= id < |s.evals| && Lingers(s, id) ==> s.evals[id].members == {})
      && (forall id :: 0 <= id < |s.evals| && s.evals[id].cancelled ==> s.evals[id].members == {})
      && (forall c :: GetOr(s.counts, c, 0) == Total(s.others, c) + Total(ClaimsOf(s.evals), c))
  {
    RunKeepsInv(start, events);
    var s := Run(start, events);
    forall c ensures GetOr(s.counts, c, 0) == Total(s.others, c) + Total(ClaimsOf(s.evals), c) {
      TotalConcat(s.others, ClaimsOf(s.evals), c);
    }
    forall id | 0 <= id < |s.evals| ensures Sane(s.evals[id], Active(s, id), Lingers(s, id)) {
      assert SaneAt(s, id);
    }
  }

  lemma {:induction false} UniqueKeeps(cs: seq<Checksum>, c: Checksum)
    ensures Times(Unique(cs), c) == if c in cs then 1 else 0
    ensures c in Unique(cs) <==> c in cs
  {
    if cs != [] {
      var front, last := cs[..|cs| - 1], cs[|cs| - 1];
      UniqueKeeps(front, c);
      assert cs == front + [last];
      TimesConcat(Unique(front), [last], c);
      assert Times([last], c) == if last == c then 1 else 0;
      if last == c && c in front { assert last in Unique(front); }
      UniqueKeeps(front, last);
    }
  }

  /** As long as anyone waits for a pending evaluation, the buffer cache counts a claim on each of its inputs. */
  lemma WaitersKeepInputs(s: State, id: nat, c: Checksum)
    requires Inv(s) && id < |s.evals| && !s.evals[id].done && s.evals[id].members != {} && c in s.evals[id].inputs
    ensures GetOr(s.counts, c, 0) >= 1
  {
    assert SaneAt(s, id);
    var n := |s.others| + id;
    HolderIsBacked(AllClaims(s), s.counts, n);
    assert Times(AllClaims(s)[n], c) <= GetOr(s.counts, c, 0);
    InTimes(s.evals[id].claims, c);
  }

  lemma {:induction false} InTimes(cs: seq<Checksum>, c: Checksum)
    requires c in cs
    ensures Times(cs, c) >= 1
  {
    if cs[0] != c { InTimes(cs[1..], c); }
  }

  /** Work is shared: two pending evaluations of one key never have callers at the same time. */
  lemma OneEvaluationPerKey(s: State, i: nat, j: nat)
    requires Inv(s) && i < |s.evals| && j < |s.evals| && s.evals[i].key == s.evals[j].key
    requires !s.evals[i].done && s.evals[i].members != {} && !s.evals[j].done && s.evals[j].members != {}
    ensures i == j
  {
    assert SaneAt(s, i) && SaneAt(s, j);
  }

  /** A caller joins the pending evaluation of its key, lingering or not, instead of starting another one. */
  lemma JoinFindsPending(s: State, id: nat, member: Member, inputs: seq<Checksum>, async: bool)
    requires Inv(s) && id < |s.evals| && !s.evals[id].done && (Active(s, id) || Lingers(s, id))
    ensures var t := Join(s, s.evals[id].key, member, inputs, async);
      |t.evals| == |s.evals| && Active(t, id) && member in t.evals[id].members
  {
    var key := s.evals[id].key;
    assert PointsTo(s.evals, s.active, key) && PointsTo(s.evals, s.lingering, key);
    assert Found(s, key) == Some(id);
  }

  // ----- What each event does -----

  predicate WaitsFor(s: State, key: Key, member: Member, id: nat) {
    id < |s.evals| && s.evals[id].key == key && Active(s, id) && !s.evals[id].done && member in s.evals[id].members
  }

  ghost predicate UnchangedAt(s: State, t: State, i: nat) {
    i < |s.evals| ==>
      && i < |t.evals| && t.evals[i] == s.evals[i]
      && Active(t, i) == Active(s, i) && Lingers(t, i) == Lingers(s, i)
  }

  /** Nothing but evaluation `id` is different. */
  ghost predicate OnlyChanges(s: State, t: State, id: nat) {
    |t.evals| == |s.evals| && forall i :: i != id ==> UnchangedAt(s, t, i)
  }

  /** A soft cancel takes a waiter out of the active evaluation that it waits for. If that leaves a task without
      waiters, the evaluation moves to the lingering registry and its timer is scheduled; otherwise it stays. */
  lemma SoftCancelDeregisters(s: State, key: Key, member: Member, id: nat)
    requires Inv(s) && WaitsFor(s, key, member, id)
    ensures var t := Next(s, SoftCancel(key, member));
      && OnlyChanges(s, t, id) && t.counts == s.counts && t.others == s.others
      && t.evals[id].members == s.evals[id].members - {member}
      && (if s.evals[id].members == {member} && s.evals[id].hasTask
          then Lingers(t, id) && !Active(t, id) && t.evals[id].schedules == s.evals[id].schedules + 1
          else Active(t, id) && !Lingers(t, id) && t.evals[id].schedules == s.evals[id].schedules)
      && t.evals[id] == s.evals[id].(members := t.evals[id].members, schedules := t.evals[id].schedules)
  {
    assert PointsTo(s.evals, s.active, key) && PointsTo(s.evals, s.lingering, key);
    assert s.active.Keys !! s.lingering.Keys;
  }

  /** Whoever waits for no active evaluation of the key cannot cancel anything. */
  lemma SoftCancelOfStranger(s: State, key: Key, member: Member)
    requires Inv(s) && forall id :: !WaitsFor(s, key, member, id)
    ensures Next(s, SoftCancel(key, member)) == s
  {
    assert PointsTo(s.evals, s.active, key);
    if key in s.active { assert !WaitsFor(s, key, member, s.active[key]); }
  }

  /** Joining the pending evaluation of the key adds the caller to it and makes no claims. An asynchronous caller stops
      the linger timer; a synchronous one leaves it. */
  lemma JoinAdds(s: State, member: Member, inputs: seq<Checksum>, async: bool, id: nat)
    requires Inv(s) && id < |s.evals| && !s.evals[id].done && (Active(s, id) || Lingers(s, id))
    ensures var e := s.evals[id];
      var t := Next(s, if async then JoinAsync(e.key, member, inputs) else JoinSync(e.key, member, inputs));
      && OnlyChanges(s, t, id) && t.counts == s.counts && Active(t, id) && !Lingers(t, id)
      && t.evals[id].members == e.members + {member} && t.evals[id].claims == e.claims
      && (async && e.linger.Some? ==> t.evals[id].timers == e.timers - {e.linger.value} && t.evals[id].linger.None?)
      && (!async || e.linger.None? ==> t.evals[id].timers == e.timers)
      && t.evals[id].schedules == e.schedules && !t.evals[id].done
  {
    var key := s.evals[id].key;
    assert PointsTo(s.evals, s.active, key) && PointsTo(s.evals, s.lingering, key);
    assert Found(s, key) == Some(id);
  }

  /** Without a pending evaluation of the key a join starts one: with the caller, without timers, and with one claim on
      each of its distinct inputs. */
  lemma JoinStarts(s: State, key: Key, member: Member, inputs: seq<Checksum>, async: bool)
    requires Inv(s)
    requires forall id | 0 <= id < |s.evals| && s.evals[id].key == key ::
      s.evals[id].done || (!Active(s, id) && !Lingers(s, id))
    ensures var t := Next(s, if async then JoinAsync(key, member, inputs) else JoinSync(key, member, inputs));
      var id := |s.evals|;
      && |t.evals| == id + 1 && t.evals[..id] == s.evals && Active(t, id) && !Lingers(t, id)
      && t.evals[id].key == key && t.evals[id].members == {member} && t.evals[id].hasTask == async
      && !t.evals[id].done && !t.evals[id].cancelled && t.evals[id].timers == {} && t.evals[id].schedules == 0
      && (forall c :: c in t.evals[id].claims <==> c in inputs)
      && forall c :: GetOr(t.counts, c, 0) == GetOr(s.counts, c, 0) + (if c in inputs then 1 else 0)
  {
    assert PointsTo(s.evals, s.active, key) && PointsTo(s.evals, s.lingering, key);
    forall c
      ensures c in Unique(inputs) <==> c in inputs
      ensures GetOr(IncrefAll(s.counts, Unique(inputs)), c, 0) == GetOr(s.counts, c, 0) + (if c in inputs then 1 else 0)
    {
      UniqueKeeps(inputs, c);
      IncrefAllCounts(s.counts, Unique(inputs), c);
    }
  }

  /** The scheduled call starts a new timer, unless someone has joined or the work is done by then. */
  lemma StartLingerStarts(s: State, id: nat)
    requires Inv(s) && Enabled(s, StartLinger(id))
    ensures var e := s.evals[id];
      var t := Next(s, StartLinger(id));
      && OnlyChanges(s, t, id) && Active(t, id) == Active(s, id) && Lingers(t, id) == Lingers(s, id)
      && t.evals[id].schedules == e.schedules - 1 && t.evals[id].members == e.members
      && if e.members == {} && !e.done
         then exists n :: n !in e.timers && t.evals[id].timers == e.timers + {n} && t.evals[id].linger == Some(n)
         else t.evals[id].timers == e.timers && t.evals[id].linger == e.linger
  {
    assert SaneAt(s, id);
  }

  /** A linger timer cancels the evaluation if it still lingers, and does nothing to it otherwise. */
  lemma ExpireCancels(s: State, id: nat, timer: nat)
    requires Inv(s) && Enabled(s, Expire(id, timer))
    ensures var t := Next(s, Expire(id, timer));
      && OnlyChanges(s, t, id) && t.counts == s.counts && t.evals[id].timers == s.evals[id].timers - {timer}
      && !Lingers(t, id) && Active(t, id) == Active(s, id)
      && t.evals[id].cancelled == (s.evals[id].cancelled || Lingers(s, id))
      && t.evals[id].members == s.evals[id].members && t.evals[id].claims == s.evals[id].claims
  {
    assert SaneAt(s, id) && PointsTo(s.evals, s.lingering, s.evals[id].key);
    forall i: nat ensures i != id ==> UnchangedAt(s, Next(s, Expire(id, timer)), i) {
      if i < |s.evals| { assert PointsTo(s.evals, s.active, s.evals[i].key); }
    }
  }

  /** Settling and abandoning set the future and do nothing else. */
  lemma SettleSets(s: State, event: Event)
    requires Inv(s) && (event.Settle? || event.Abandon?) && Enabled(s, event)
    ensures var t := Next(s, event);
      && OnlyChanges(s, t, event.id) && t.evals[event.id] == s.evals[event.id].(done := true)
      && Active(t, event.id) == Active(s, event.id) && Lingers(t, event.id) == Lingers(s, event.id)
  {
  }

  /** Retiring takes an evaluation out of the active registry. */
  lemma RetireLeaves(s: State, id: nat)
    requires Inv(s) && Enabled(s, Retire(id))
    ensures var t := Next(s, Retire(id));
      OnlyChanges(s, t, id) && t.evals == s.evals && !Active(t, id) && Lingers(t, id) == Lingers(s, id)
  {
    assert PointsTo(s.evals, s.active, s.evals[id].key);
  }

  /** A discard takes it out of both, with its timer stopped. */
  lemma DiscardLeaves(s: State, id: nat)
    requires Inv(s) && Enabled(s, Discard(id))
    ensures var t := Next(s, Discard(id));
      && OnlyChanges(s, t, id) && !Active(t, id) && !Lingers(t, id) && t.evals[id].unlinked
      && t.evals[id].members == s.evals[id].members && t.evals[id].claims == s.evals[id].claims
      && (s.evals[id].linger.Some? ==> s.evals[id].linger.value !in t.evals[id].timers)
  {
    assert PointsTo(s.evals, s.active, s.evals[id].key) && PointsTo(s.evals, s.lingering, s.evals[id].key);
  }

  /** A release gives up exactly the claims that the evaluation still has. */
  lemma ReleaseGivesUp(s: State, id: nat, c: Checksum)
    requires Inv(s) && Enabled(s, Release(id))
    ensures var t := Next(s, Release(id));
      && OnlyChanges(s, t, id) && t.evals[id] == s.evals[id].(claims := [])
      && GetOr(t.counts, c, 0) == GetOr(s.counts, c, 0) - Times(s.evals[id].claims, c)
  {
    var claims := s.evals[id].claims;
    HolderIsBacked(AllClaims(s), s.counts, |s.others| + id);
    assert AllClaims(s)[|s.others| + id] == claims;
    DecrefAllCounts(s.counts, claims, c);
  }

  /** Evaluations are never forgotten, and a settled or cancelled one stays so. */
  lemma NextIsMonotone(s: State, event: Event, id: nat)
    requires Inv(s) && Enabled(s, event) && id < |s.evals|
    ensures var t := Next(s, event);
      && id < |t.evals|
      && (s.evals[id].done ==> t.evals[id].done)
      && (s.evals[id].cancelled ==> t.evals[id].cancelled)
  {
    if event.JoinAsync? || event.JoinSync? || event.SoftCancel? {
      assert PointsTo(s.evals, s.active, event.key) && PointsTo(s.evals, s.lingering, event.key);
    }
  }

  /** An evaluation that was cancelled by its linger timer never has callers again, in any continuation. */
  lemma {:induction false} CancelledStaysAlone(s: State, events: seq<Event>, id: nat)
    requires Inv(s) && Feasible(s, events) && id < |s.evals| && s.evals[id].cancelled
    ensures var t := Run(s, events);
      id < |t.evals| && t.evals[id].cancelled && t.evals[id].members == {}
    decreases |events|
  {
    assert SaneAt(s, id);
    if events != [] {
      NextKeepsInv(s, events[0]);
      NextIsMonotone(s, events[0], id);
      CancelledStaysAlone(Next(s, events[0]), events[1..], id);
    }
  }

  predicate Over(s: State, id: nat) {
    id < |s.evals| && s.evals[id].cancelled && !Lingers(s, id)
  }

  /** Events that neither join the evaluation nor end its work. */
  predicate Undisturbed(event: Event, key: Key, id: nat) {
    match event
    case JoinAsync(k, _, _) => k != key
    case JoinSync(k, _, _) => k != key
    case Settle(i) => i != id
    case _ => true
  }

  lemma UndisturbedStep(s: State, event: Event, id: nat)
    requires Inv(s) && Enabled(s, event) && id < |s.evals| && Lingers(s, id) && !s.evals[id].done
    requires Undisturbed(event, s.evals[id].key, id)
    ensures var t := Next(s, event);
      && id < |t.evals| && t.evals[id].key == s.evals[id].key
      && if event.Expire? && event.id == id then t.evals[id].cancelled else Lingers(t, id) && !t.evals[id].done
  {
    assert SaneAt(s, id);
    assert PointsTo(s.evals, s.lingering, s.evals[id].key);
    if event.JoinAsync? || event.JoinSync? || event.SoftCancel? {
      assert PointsTo(s.evals, s.active, event.key) && PointsTo(s.evals, s.lingering, event.key);
    }
  }

  /** Lingering is bounded: in every run in which a linger timer of a lingering pending evaluation fires before anyone
      joins it or its work ends, it is cancelled and has left the registries for good. */
  lemma {:induction false} LingerEnds(s: State, events: seq<Event>, id: nat, n: nat)
    requires Inv(s) && Feasible(s, events) && id < |s.evals|
    requires s.evals[id].cancelled || (Lingers(s, id) && !s.evals[id].done)
    requires n < |events| && events[n].Expire? && events[n].id == id
    requires forall i :: 0 <= i < n ==> Undisturbed(events[i], s.evals[id].key, id)
    ensures var t := Run(s, events);
      Over(t, id) && !Active(t, id) && t.evals[id].members == {}
    decreases |events|
  {
    if s.evals[id].cancelled {
      CancelledStaysAlone(s, events, id);
      RunKeepsInv(s, events);
      assert SaneAt(Run(s, events), id);
    } else {
      assert Undisturbed(events[0], s.evals[id].key, id);
      UndisturbedStep(s, events[0], id);
      NextKeepsInv(s, events[0]);
      var t := Next(s, events[0]);
      if n == 0 {
        CancelledStaysAlone(t, events[1..], id);
        RunKeepsInv(t, events[1..]);
        assert SaneAt(Run(t, events[1..]), id);
      } else {
        forall i | 0 <= i < n - 1 ensures Undisturbed(events[1..][i], t.evals[id].key, id) {
          assert Undisturbed(events[i + 1], s.evals[id].key, id);
        }
        LingerEnds(t, events[1..], id, n - 1);
      }
    }
  }

  /** And the timer can fire: a lingering pending evaluation has one, or a call that will start one. */
  lemma LingerCanEnd(s: State, id: nat)
    requires Inv(s) && id < |s.evals| && Lingers(s, id) && !s.evals[id].done
    ensures exists events :: Feasible(s, events) && Over(Run(s, events), id)
  {
    assert SaneAt(s, id);
    var e := s.evals[id];
    if e.timers != {} {
      var timer :| timer in e.timers;
      var events := [Expire(id, timer)];
      NextKeepsInv(s, events[0]);
      assert events[1..] == [] && Feasible(Next(s, events[0]), []);
      assert Feasible(s, events) && Run(s, events) == Next(s, events[0]);
    } else {
      var start, expire := StartLinger(id), Expire(id, e.nextTimer);
      var mid := Next(s, start);
      NextKeepsInv(s, start);
      NextKeepsInv(mid, expire);
      var events := [start, expire];
      assert events[1..] == [expire] && [expire][1..] == [];
      assert Enabled(mid, expire) && Feasible(Next(mid, expire), []);
      assert Feasible(mid, [expire]) && Run(mid, [expire]) == Next(mid, expire);
      assert Feasible(s, events) && Run(s, events) == Next(mid, expire);
    }
  }

  lemma {:induction false} NothingClaimed(holders: seq<seq<Checksum>>, c: Checksum)
    requires forall i :: 0 <= i < |holders| ==> holders[i] == []
    ensures Total(holders, c) == 0
  {
    if holders != [] { NothingClaimed(holders[1..], c); }
  }

  /** No claim leaks: once every evaluation has released its inputs, the counts are the claims of the others. */
  lemma AllReleased(s: State)
    requires Inv(s) && forall id :: 0 <= id < |s.evals| ==> s.evals[id].claims == []
    ensures Balanced(s.others, s.counts)
  {
    forall c ensures GetOr(s.counts, c, 0) == Total(s.others, c) {
      TotalConcat(s.others, ClaimsOf(s.evals), c);
      NothingClaimed(ClaimsOf(s.evals), c);
    }
  }
}
