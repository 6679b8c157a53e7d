/** Shared buffer lookups (`caching/buffer_source.py`): concurrent requests for one checksum on one event loop await one
    task, and the pending table counts who waits. */
module BufferSource {
  import opened Prelude

  datatype Key = Key(loop: nat, checksum: Checksum, asyncOnly: bool)

  /** A lookup task of the event loop. `announced` says that its done callback has run. */
  datatype Task = Task(key: Key, done: bool, cancelled: bool, announced: bool)

  /** A call of `get_buffer_async` that awaits a task; `gone` once its `finally` clause has run. */
  datatype Caller = Caller(task: nat, gone: bool)

  type Pending = map<Key, (nat, nat)>

  /** How many callers still await task `t`. */
  function Waiting(callers: seq<Caller>, t: nat): nat {
    if callers == [] then 0
    else (if callers[0].task == t && !callers[0].gone then 1 else 0) + Waiting(callers[1..], t)
  }

  lemma {:induction false} WaitingAppend(callers: seq<Caller>, c: Caller, t: nat)
    ensures Waiting(callers + [c], t) == Waiting(callers, t) + (if c.task == t && !c.gone then 1 else 0)
  {
    if callers == [] {
      assert (callers + [c])[1..] == [];
    } else {
      assert (callers + [c])[1..] == callers[1..] + [c];
      WaitingAppend(callers[1..], c, t);
    }
  }

  lemma {:induction false} WaitingLeave(callers: seq<Caller>, i: nat, t: nat)
    requires i < |callers| && !callers[i].gone
    ensures Waiting(callers, t) ==
      Waiting(callers[i := callers[i].(gone := true)], t) + (if callers[i].task == t then 1 else 0)
  {
    var left := callers[i].(gone := true);
    if i == 0 {
      assert callers[0 := left][1..] == callers[1..];
    } else {
      assert callers[i := left][1..] == callers[1..][i - 1 := left];
      WaitingLeave(callers[1..], i - 1, t);
    }
  }

  lemma {:induction false} SomeoneWaits(callers: seq<Caller>, i: nat)
    requires i < |callers| && !callers[i].gone
    ensures Waiting(callers, callers[i].task) >= 1
  {
    if i > 0 { SomeoneWaits(callers[1..], i - 1); }
  }

  predicate IsPending(tasks: seq<Task>, pending: Pending, t: nat)
    requires t < |tasks|
  {
    tasks[t].key in pending && pending[tasks[t].key].0 == t
  }

  ghost predicate PendingAt(tasks: seq<Task>, callers: seq<Caller>, pending: Pending, k: Key) {
    k in pending ==>
      && pending[k].0 < |tasks|
      && tasks[pending[k].0].key == k
      && pending[k].1 == Waiting(callers, pending[k].0) >= 1
  }

  ghost predicate TaskAt(tasks: seq<Task>, callers: seq<Caller>, pending: Pending, t: nat) {
    t < |tasks| ==>
      && (tasks[t].cancelled ==> Waiting(callers, t) == 0)
      && (!IsPending(tasks, pending, t) ==> Waiting(callers, t) == 0 || tasks[t].done)
      && (tasks[t].announced ==> tasks[t].done && !IsPending(tasks, pending, t))
  }

  ghost predicate CallersKnown(tasks: seq<Task>, callers: seq<Caller>) {
    forall i :: 0 <= i < |callers| ==> callers[i].task < |tasks|
  }

  /** The waiter count of a pending lookup is the number of callers that await it; a cancelled lookup has none; and
      whoever awaits a lookup that is no longer pending awaits a finished one. */
  ghost predicate Sound(tasks: seq<Task>, callers: seq<Caller>, pending: Pending) {
    && CallersKnown(tasks, callers)
    && (forall k :: PendingAt(tasks, callers, pending, k))
    && (forall t :: TaskAt(tasks, callers, pending, t))
  }

  lemma {:induction false} NobodyWaits(callers: seq<Caller>, t: nat)
    requires forall i :: 0 <= i < |callers| ==> callers[i].task < t
    ensures Waiting(callers, t) == 0
  {
    if callers != [] { NobodyWaits(callers[1..], t); }
  }

  class BufferSourceRegistry {
    var hasSources: bool
    var pending: Pending
    /** The tasks and callers that the event loops know of. */
    var tasks: seq<Task>
    var callers: seq<Caller>

    ghost predicate Valid()
      reads this
    {
      Sound(tasks, callers, pending)
    }

    constructor (hasSources: bool)
      ensures Valid() && this.hasSources == hasSources && pending == map[] && tasks == [] && callers == []
    {
      this.hasSources, pending, tasks, callers := hasSources, map[], [], [];
    }

    /** `get_buffer_async` up to its await: a caller shares the pending lookup of its key, or starts one. */
    method Enter(key: Key) returns (caller: Option<nat>)
      requires Valid()
      modifies `pending, `tasks, `callers
      ensures Valid()
      ensures caller == if hasSources then Some(|old(callers)|) else None
      ensures !hasSources ==> tasks == old(tasks) && callers == old(callers) && pending == old(pending)
      ensures hasSources ==> var t := if key in old(pending) then old(pending)[key].0 else |old(tasks)|;
        && callers == old(callers) + [Caller(t, false)]
        && tasks == old(tasks) + (if key in old(pending) then [] else [Task(key, false, false, false)])
        && pending == old(pending)[key := (t, Waiting(callers, t))]
    {
      if !hasSources { return None; }
      assert PendingAt(tasks, callers, pending, key);
      var task, waiters := |tasks|, 0;
      if key in pending {
        task, waiters := pending[key].0, pending[key].1;
      } else {
        NobodyWaits(callers, task);
        tasks := tasks + [Task(key, false, false, false)];
      }
      pending := pending[key := (task, waiters + 1)];
      callers := callers + [Caller(task, false)];
      caller := Some(|callers| - 1);
      forall t ensures Waiting(callers, t) == Waiting(old(callers), t) + (if t == task then 1 else 0) {
        WaitingAppend(old(callers), Caller(task, false), t);
      }
      forall k ensures PendingAt(tasks, callers, pending, k) {
        assert PendingAt(old(tasks), old(callers), old(pending), k);
      }
      forall t ensures TaskAt(tasks, callers, pending, t) {
        assert TaskAt(old(tasks), old(callers), old(pending), t);
        assert TaskAt(old(tasks), old(callers), old(pending), task);
      }
    }

    /** The `finally` clause: the caller got its result, or was cancelled. The last one to leave a pending lookup takes
        it off the table and cancels it if it is unfinished; nobody else does. */
    method Leave(i: nat)
      requires Valid() && i < |callers| && !callers[i].gone
      modifies `pending, `tasks, `callers
      ensures Valid() && callers == old(callers)[i := old(callers)[i].(gone := true)]
      ensures var t := callers[i].task;
        var last := IsPending(old(tasks), old(pending), t) && Waiting(callers, t) == 0;
        && tasks ==
           (if last && !old(tasks)[t].done then old(tasks)[t := old(tasks)[t].(cancelled := true)] else old(tasks))
        && pending ==
           if last then old(pending) - {tasks[t].key}
           else if IsPending(old(tasks), old(pending), t) then old(pending)[tasks[t].key := (t, Waiting(callers, t))]
           else old(pending)
    {
      var t := callers[i].task;
      var key := tasks[t].key;
      callers := callers[i := callers[i].(gone := true)];
      SomeoneWaits(old(callers), i);
      assert PendingAt(tasks, old(callers), pending, key) && TaskAt(tasks, old(callers), pending, t);
      forall u ensures Waiting(old(callers), u) == Waiting(callers, u) + (if u == t then 1 else 0) {
        WaitingLeave(old(callers), i, u);
      }
      if key in pending && pending[key].0 == t {
        var remaining := pending[key].1 - 1;
        if remaining == 0 {
          pending := pending - {key};
          if !tasks[t].done { tasks := tasks[t := tasks[t].(cancelled := true)]; }
        } else {
          pending := pending[key := (t, remaining)];
        }
      }
      forall k ensures PendingAt(tasks, callers, pending, k) {
        assert PendingAt(old(tasks), old(callers), old(pending), k);
      }
      forall u ensures TaskAt(tasks, callers, pending, u) {
        assert TaskAt(old(tasks), old(callers), old(pending), u);
      }
    }

    /** The event loop finishes a task, with a buffer, without one, or by cancellation. */
    method Finish(t: nat)
      requires Valid() && t < |tasks|
      modifies `tasks
      ensures Valid() && tasks == old(tasks)[t := old(tasks)[t].(done := true)]
    {
      tasks := tasks[t := tasks[t].(done := true)];
      forall k ensures PendingAt(tasks, callers, pending, k) { assert PendingAt(old(tasks), callers, pending, k); }
      forall u ensures TaskAt(tasks, callers, pending, u) { assert TaskAt(old(tasks), callers, pending, u); }
    }

    /** The done callback of a task removes its own entry, never that of a newer lookup. */
    method Announce(t: nat)
      requires Valid() && t < |tasks| && tasks[t].done
      modifies `tasks, `pending
      ensures Valid() && tasks == old(tasks)[t := old(tasks)[t].(announced := true)]
      ensures pending == if IsPending(old(tasks), old(pending), t) then old(pending) - {tasks[t].key} else old(pending)
    {
      var key := tasks[t].key;
      if key in pending && pending[key].0 == t { pending := pending - {key}; }
      tasks := tasks[t := tasks[t].(announced := true)];
      forall k ensures PendingAt(tasks, callers, pending, k) { assert PendingAt(old(tasks), callers, old(pending), k); }
      forall u ensures TaskAt(tasks, callers, pending, u) { assert TaskAt(old(tasks), callers, old(pending), u); }
    }
  }

  /** A lookup that others await is not cancelled, and it is pending or finished: nobody waits in vain. */
  lemma WaitersAreServed(tasks: seq<Task>, callers: seq<Caller>, pending: Pending, i: nat)
    requires Sound(tasks, callers, pending) && i < |callers| && !callers[i].gone
    ensures var t := callers[i].task;
      t < |tasks| && !tasks[t].cancelled && (tasks[t].done || IsPending(tasks, pending, t))
  {
    SomeoneWaits(callers, i);
    assert TaskAt(tasks, callers, pending, callers[i].task);
  }

  /** Lookups are shared: two callers that await unfinished lookups of one key await the same one. */
  lemma OneLookupPerKey(tasks: seq<Task>, callers: seq<Caller>, pending: Pending, i: nat, j: nat)
    requires Sound(tasks, callers, pending) && i < |callers| && j < |callers| && !callers[i].gone && !callers[j].gone
    requires var (t, u) := (callers[i].task, callers[j].task);
      t < |tasks| && u < |tasks| && tasks[t].key == tasks[u].key && !tasks[t].done && !tasks[u].done
    ensures callers[i].task == callers[j].task
  {
    WaitersAreServed(tasks, callers, pending, i);
    WaitersAreServed(tasks, callers, pending, j);
  }
}
