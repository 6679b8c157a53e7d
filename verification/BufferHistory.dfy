/** Publication and pinning over whole runs of the buffer cache (`caching/buffer_cache.py`). */
module BufferHistory {
  import opened BufferEntries
  import opened EvictionPass
  import opened Ledger
  import opened Prelude

  /** What the public calls of the cache change, with the buffers handed to the writer so far. */
  datatype Moment = Moment(strong: Strong, weak: map<Checksum, Buffer>, written: seq<Buffer>)

  /** The public calls. `Claims` and `Drops` acquire and release refholder claims. */
  datatype Call =
    | Registers(buffer: Buffer, size: Option<nat>)
    | Gets(c: Checksum)
    | Increfs(c: Checksum, known: Option<Buffer>, scratch: bool)
    | Decrefs(c: Checksum)
    | Claims(c: Checksum, known: Option<Buffer>, decision: Option<bool>)
    | Drops(c: Checksum)
    | Temprefs(c: Checksum, known: Option<Buffer>, strength: real, fadeFactor: real, fadeInterval: real)
    | Transfers(c: Checksum, known: Option<Buffer>)
    | MarksScratch(c: Checksum)
    | Purges(only: Option<Checksum>)
    | Collects(dead: set<Checksum>)
    | Evicts

  /** A non-scratch claim on `c`, or a transfer write: someone wants `c` in the remote store. */
  predicate Asks(call: Call, c: Checksum) {
    match call
    case Increfs(d, _, scratch) => c == d && !scratch
    case Claims(d, _, decision) => c == d && decision == Some(false)
    case Transfers(d, _) => c == d
    case _ => false
  }

  /** Calls that may attach a buffer to an entry without writing it. */
  predicate Silent(call: Call) {
    match call
    case Gets(_) => true
    case Increfs(_, _, scratch) => scratch
    case Claims(_, _, decision) => decision != Some(false)
    case Temprefs(_, _, _, _, _) => true
    case _ => false
  }

  predicate GivesUp(call: Call, c: Checksum) {
    call == Decrefs(c) || call == Drops(c)
  }

  function Writes(written: seq<Buffer>, c: Checksum): nat {
    if written == [] then 0
    else Writes(written[..|written| - 1], c) + (if written[|written| - 1].checksum == c then 1 else 0)
  }

  predicate Marked(strong: Strong, c: Checksum) {
    c in strong && strong[c].remoteRegistered
  }

  /** Held by a manual or a refholder reference. */
  predicate Referenced(strong: Strong, c: Checksum) {
    c in strong && Protected(strong[c])
  }

  /** What one call does to `c`: it is written exactly when it comes to be published, unless a silent call did that;
      it stays published as long as its entry lives; only asking marks it; and it stays pinned unless its last
      reference is given up. */
  ghost predicate EvolvesAt(m: Moment, call: Call, m': Moment, c: Checksum) {
    && Writes(m'.written, c) == Writes(m.written, c) +
         (if !Published(m.strong, c) && Published(m'.strong, c) && !Silent(call) then 1 else 0)
    && (Published(m.strong, c) && c in m'.strong ==> Published(m'.strong, c))
    && (Marked(m'.strong, c) && !Marked(m.strong, c) ==> Asks(call, c))
    && (IsPinned(m.strong, c) && (!GivesUp(call, c) || Referenced(m'.strong, c)) ==> IsPinned(m'.strong, c))
  }

  /** Whether the call itself brings the buffer of `c`, or it was there to be had before. */
  predicate KnownTo(m: Moment, call: Call, c: Checksum) {
    Visible(m.strong, m.weak, c).Some? ||
    match call
    case Increfs(_, known, _) => known.Some?
    case Claims(_, known, _) => known.Some?
    case Transfers(_, known) => known.Some?
    case _ => false
  }

  /** Asking is heeded: it marks the entry, and if the buffer is known it publishes the entry; registering the buffer of
      a marked entry publishes it as well. A mark lasts as long as its entry. */
  ghost predicate HeedsAt(m: Moment, call: Call, m': Moment, c: Checksum) {
    && (Asks(call, c) ==> Marked(m'.strong, c))
    && (Asks(call, c) && KnownTo(m, call, c) ==> Published(m'.strong, c))
    && (call.Registers? && call.buffer.checksum == c && Marked(m.strong, c) ==> Published(m'.strong, c))
    && (Marked(m.strong, c) && c in m'.strong ==> Marked(m'.strong, c))
  }

  ghost predicate Evolves(m: Moment, call: Call, m': Moment) {
    forall c :: EvolvesAt(m, call, m', c) && HeedsAt(m, call, m', c)
  }

  // ----- Why the calls of the cache evolve like this -----

  lemma WrittenOne(written: seq<Buffer>, buffer: Option<Buffer>, c: Checksum)
    ensures Writes(Written(written, buffer), c) ==
            Writes(written, c) + (if buffer.Some? && buffer.value.checksum == c then 1 else 0)
  {
    if buffer.Some? { assert (written + [buffer.value])[..|written|] == written; }
  }

  /** The call asks for `c` or registers it, or it does neither for anything. */
  predicate About(call: Call, c: Checksum) {
    match call
    case Registers(b, _) => b.checksum == c
    case Increfs(d, _, _) => d == c
    case Claims(d, _, _) => d == c
    case Transfers(d, _) => d == c
    case _ => true
  }

  /** Calls that neither ask nor register. */
  predicate Modest(call: Call) {
    !call.Registers? && !call.Increfs? && !call.Claims? && !call.Transfers?
  }

  lemma UnchangedEvolves(m: Moment, call: Call)
    requires Modest(call)
    ensures Evolves(m, call, m)
  {
    forall c ensures EvolvesAt(m, call, m, c) && HeedsAt(m, call, m, c) {}
  }

  /** Calls that find or create the entry of `c` and perhaps add references to it. */
  lemma AcquiringEvolves(strong: Strong, weak: map<Checksum, Buffer>, sizes: map<Checksum, nat>, counts: Counts,
                         written: seq<Buffer>, c: Checksum, buffer: Option<Buffer>, scratch: bool, e: Entry, call: Call)
    requires Sound(strong, weak, sizes, counts) && (buffer.Some? ==> buffer.value.checksum == c)
    requires var a := Acquired(strong, weak, sizes, c, buffer, scratch);
      e.buffer == a.buffer && e.remoteRegistered == a.remoteRegistered && (Protected(a) ==> Protected(e))
    requires Silent(call) == scratch && Asks(call, c) == !scratch && !call.Registers? && About(call, c)
    requires KnownTo(Moment(strong, weak, written), call, c) ==> buffer.Some? || Visible(strong, weak, c).Some?
    ensures var a := Acquired(strong, weak, sizes, c, buffer, scratch);
      Evolves(Moment(strong, weak, written), call,
              Moment(strong[c := e], weak, Written(written, ToWrite(strong, c, a, scratch))))
  {
    var a := Acquired(strong, weak, sizes, c, buffer, scratch);
    var write := ToWrite(strong, c, a, scratch);
    assert SoundAt(strong, weak, sizes, counts, c);
    PutEvolves(strong, weak, written, c, e, write, call);
  }

  /** A new value for the entry of `c`. */
  lemma PutEvolves(strong: Strong, weak: map<Checksum, Buffer>, written: seq<Buffer>, c: Checksum, e: Entry,
                   write: Option<Buffer>, call: Call)
    requires write.Some? ==> write.value.checksum == c
    requires write.Some? <==> !Published(strong, c) && IsPublished(e) && !Silent(call)
    requires Published(strong, c) ==> IsPublished(e)
    requires e.remoteRegistered && !Marked(strong, c) ==> Asks(call, c)
    requires IsPinned(strong, c) && (!GivesUp(call, c) || Protected(e)) ==> Protected(e) && e.buffer.Some?
    requires Asks(call, c) || Marked(strong, c) ==> e.remoteRegistered
    requires Asks(call, c) && KnownTo(Moment(strong, weak, written), call, c) ==> e.buffer.Some?
    requires About(call, c) && !call.Registers?
    ensures Evolves(Moment(strong, weak, written), call, Moment(strong[c := e], weak, Written(written, write)))
  {
    var m, m' := Moment(strong, weak, written), Moment(strong[c := e], weak, Written(written, write));
    assert EvolvesAt(m, call, m', c) by { WrittenOne(written, write, c); }
    assert HeedsAt(m, call, m', c);
    forall k | k != c ensures EvolvesAt(m, call, m', k) && HeedsAt(m, call, m', k) {
      WrittenOne(written, write, k);
      SameEntry(m, call, m', k);
    }
  }

  lemma SameEntry(m: Moment, call: Call, m': Moment, c: Checksum)
    requires Lookup(m'.strong, c) == Lookup(m.strong, c) && Writes(m'.written, c) == Writes(m.written, c)
    requires !Asks(call, c) && (call.Registers? ==> call.buffer.checksum != c)
    ensures EvolvesAt(m, call, m', c) && HeedsAt(m, call, m', c)
  {
  }

  /** Calls that drop entries, or change none of what matters here, and that unpin nothing else. */
  lemma ThinningEvolves(strong: Strong, strong': Strong, weak: map<Checksum, Buffer>, weak': map<Checksum, Buffer>,
                        written: seq<Buffer>, call: Call, except: set<Checksum>)
    requires Continues(strong, strong', except) && (forall c :: c in except ==> GivesUp(call, c)) && Modest(call)
    requires forall c :: c in strong' ==> c in strong && strong'[c].remoteRegistered == strong[c].remoteRegistered
    requires forall c :: c in strong' ==> strong'[c].buffer == strong[c].buffer || Silent(call)
    requires forall c :: c in strong' && IsPinned(strong, c) ==> strong'[c].buffer == strong[c].buffer
    ensures Evolves(Moment(strong, weak, written), call, Moment(strong', weak', written))
  {
    var m, m' := Moment(strong, weak, written), Moment(strong', weak', written);
    forall c ensures EvolvesAt(m, call, m', c) && HeedsAt(m, call, m', c) {
      assert ContinuesAt(strong, strong', except, c);
    }
  }

  /** Calls that give up a reference of `c`, leaving entry `e`. */
  lemma ReleasingEvolves(strong: Strong, weak: map<Checksum, Buffer>, strong': Strong, weak': map<Checksum, Buffer>,
                         written: seq<Buffer>, c: Checksum, e: Entry, clock: Clock, call: Call)
    requires Released(strong, weak, strong', weak', c, e, clock) && c in strong && GivesUp(call, c)
    requires e.buffer == strong[c].buffer && e.remoteRegistered == strong[c].remoteRegistered
    ensures Evolves(Moment(strong, weak, written), call, Moment(strong', weak', written))
  {
    forall k ensures ContinuesAt(strong, strong', {c}, k) {}
    ThinningEvolves(strong, strong', weak, weak', written, call, {c});
  }

  lemma FilingEvolves(strong: Strong, weak: map<Checksum, Buffer>, sizes: map<Checksum, nat>, counts: Counts,
                      written: seq<Buffer>, buffer: Buffer, size: nat, call: Call)
    requires Sound(strong, weak, sizes, counts) && call.Registers? && call.buffer == buffer
    ensures var c := buffer.checksum;
      Evolves(Moment(strong, weak, written), call,
              Moment(Filed(strong, c, buffer, size), weak[c := buffer],
                     Written(written, if Marked(strong, c) && !Published(strong, c) then Some(buffer) else None)))
  {
    var c := buffer.checksum;
    var write := if Marked(strong, c) && !Published(strong, c) then Some(buffer) else None;
    var m := Moment(strong, weak, written);
    var m' := Moment(Filed(strong, c, buffer, size), weak[c := buffer], Written(written, write));
    assert EvolvesAt(m, call, m', c) by { WrittenOne(written, write, c); }
    assert HeedsAt(m, call, m', c);
    forall k | k != c ensures EvolvesAt(m, call, m', k) && HeedsAt(m, call, m', k) {
      WrittenOne(written, write, k);
      SameEntry(m, call, m', k);
    }
  }

  // ----- Runs -----

  ghost predicate StepAt(moments: seq<Moment>, calls: seq<Call>, i: nat) {
    i < |calls| && i + 1 < |moments| ==> Evolves(moments[i], calls[i], moments[i + 1])
  }

  /** The cache between the calls of a run. */
  ghost predicate IsRun(moments: seq<Moment>, calls: seq<Call>) {
    |moments| == |calls| + 1 && forall i :: StepAt(moments, calls, i)
  }

  predicate AliveAt(moments: seq<Moment>, c: Checksum, k: nat) {
    k < |moments| ==> c in moments[k].strong
  }

  /** At every moment after number `i`, up to number `j`, there is an entry of `c`: it is the same one all the time. */
  ghost predicate Lives(moments: seq<Moment>, c: Checksum, i: nat, j: nat) {
    forall k :: i < k <= j ==> AliveAt(moments, c, k)
  }

  /** Within the life of one entry there is at most one write, and it is the call that publishes the entry that
      makes it. */
  lemma {:induction false} WrittenAtMostOnce(moments: seq<Moment>, calls: seq<Call>, c: Checksum, i: nat, j: nat)
    requires IsRun(moments, calls) && i <= j <= |calls| && Lives(moments, c, i, j)
    ensures Writes(moments[i].written, c) <= Writes(moments[j].written, c) <= Writes(moments[i].written, c) + 1
    ensures Writes(moments[j].written, c) > Writes(moments[i].written, c) ==>
      !Published(moments[i].strong, c) && Published(moments[j].strong, c)
    ensures Published(moments[i].strong, c) ==> Published(moments[j].strong, c)
    decreases j
  {
    if i < j {
      WrittenAtMostOnce(moments, calls, c, i, j - 1);
      assert StepAt(moments, calls, j - 1) && EvolvesAt(moments[j - 1], calls[j - 1], moments[j], c);
      assert AliveAt(moments, c, j);
    }
  }

  /** Nothing is written that nobody asked for: if an entry came to life unmarked and was written, a non-scratch
      claim or a transfer write was among the calls of its life. */
  lemma {:induction false} WrittenOnlyIfAsked(moments: seq<Moment>, calls: seq<Call>, c: Checksum, i: nat, j: nat)
    requires IsRun(moments, calls) && i <= j <= |calls| && Lives(moments, c, i, j) && !Marked(moments[i].strong, c)
    ensures Marked(moments[j].strong, c) || Writes(moments[j].written, c) > Writes(moments[i].written, c) ==>
      exists k :: i <= k < j && Asks(calls[k], c)
    decreases j
  {
    if i < j {
      WrittenOnlyIfAsked(moments, calls, c, i, j - 1);
      assert StepAt(moments, calls, j - 1) && EvolvesAt(moments[j - 1], calls[j - 1], moments[j], c);
    }
  }

  /** A marked entry whose buffer becomes known during its life has been written, unless it was a silent call that
      made the buffer known; then it is never written in this life. */
  lemma {:induction false} WrittenUnlessSilent(moments: seq<Moment>, calls: seq<Call>, c: Checksum, i: nat, j: nat)
    requires IsRun(moments, calls) && i <= j <= |calls| && Lives(moments, c, i, j)
    requires !Published(moments[i].strong, c) && Published(moments[j].strong, c)
    ensures exists k: nat :: PublishedBy(moments, calls, c, i, j, k)
    ensures forall k: nat :: PublishedBy(moments, calls, c, i, j, k) ==>
      Writes(moments[j].written, c) == Writes(moments[i].written, c) + (if Silent(calls[k]) then 0 else 1)
    decreases j - i
  {
    assert StepAt(moments, calls, i) && EvolvesAt(moments[i], calls[i], moments[i + 1], c);
    assert Lives(moments, c, i + 1, j) by {
      forall k | i + 1 < k <= j ensures AliveAt(moments, c, k) {}
    }
    WrittenAtMostOnce(moments, calls, c, i + 1, j);
    if Published(moments[i + 1].strong, c) {
      assert PublishedBy(moments, calls, c, i, j, i);
      forall k: nat | PublishedBy(moments, calls, c, i, j, k) ensures k == i {
        if k > i {
          assert Lives(moments, c, i + 1, k) by { forall l | i + 1 < l <= k ensures AliveAt(moments, c, l) {} }
          WrittenAtMostOnce(moments, calls, c, i + 1, k);
        }
      }
    } else {
      WrittenUnlessSilent(moments, calls, c, i + 1, j);
      var k: nat :| PublishedBy(moments, calls, c, i + 1, j, k);
      assert PublishedBy(moments, calls, c, i, j, k);
      forall l: nat | PublishedBy(moments, calls, c, i, j, l) ensures PublishedBy(moments, calls, c, i + 1, j, l) {}
    }
  }

  /** Call number `k` publishes the entry of `c`. */
  ghost predicate PublishedBy(moments: seq<Moment>, calls: seq<Call>, c: Checksum, i: nat, j: nat, k: nat) {
    && i <= k < j < |moments| && k < |calls|
    && !Published(moments[k].strong, c) && Published(moments[k + 1].strong, c)
  }

  /** What was asked for stays marked for as long as its entry lives. */
  lemma {:induction false} AskedStaysMarked(moments: seq<Moment>, calls: seq<Call>, c: Checksum, i: nat, j: nat)
    requires IsRun(moments, calls) && i < j <= |calls| && Asks(calls[i], c) && Lives(moments, c, i, j)
    ensures Marked(moments[j].strong, c)
    decreases j
  {
    assert StepAt(moments, calls, j - 1) && HeedsAt(moments[j - 1], calls[j - 1], moments[j], c);
    if i < j - 1 {
      AskedStaysMarked(moments, calls, c, i, j - 1);
      assert AliveAt(moments, c, j);
    }
  }

  /** Publication arrives: once someone has asked for `c` and its buffer has been at hand for the ask, or is registered
      later in the life of the entry, the entry is published; and if the call that published it is not silent, the
      buffer has been written exactly once since before that call. */
  lemma {:induction false} AskedIsPublished(moments: seq<Moment>, calls: seq<Call>, c: Checksum, i: nat, k: nat, j: nat)
    requires IsRun(moments, calls) && i <= k < j <= |calls| && Asks(calls[i], c) && Lives(moments, c, i, j)
    requires (k == i && KnownTo(moments[i], calls[i], c)) ||
      (i < k && calls[k].Registers? && calls[k].buffer.checksum == c)
    ensures Published(moments[k + 1].strong, c) && Published(moments[j].strong, c)
    ensures Writes(moments[k + 1].written, c) ==
      Writes(moments[k].written, c) + (if Published(moments[k].strong, c) then 0 else 1)
  {
    assert StepAt(moments, calls, k);
    assert EvolvesAt(moments[k], calls[k], moments[k + 1], c) && HeedsAt(moments[k], calls[k], moments[k + 1], c);
    if i < k {
      assert Lives(moments, c, i, k) by { forall l | i < l <= k ensures AliveAt(moments, c, l) {} }
      AskedStaysMarked(moments, calls, c, i, k);
    }
    assert Lives(moments, c, k + 1, j) by { forall l | k + 1 < l <= j ensures AliveAt(moments, c, l) {} }
    WrittenAtMostOnce(moments, calls, c, k + 1, j);
  }

  /** A transfer write whose buffer is not known yet is deferred; a tempref that then brings the buffer publishes the
      entry without writing it, and registering the buffer later does not make up for it. */
  lemma DeferredWriteIsLost(b: Buffer)
    ensures var c := b.checksum;
      var transferred := map[c := Acquired(map[], map[], map[], c, None, false)];
      var referenced := transferred[c := Acquired(transferred, map[], map[], c, Some(b), true)];
      && ToWrite(map[], c, transferred[c], false).None? && ToWrite(transferred, c, referenced[c], true).None?
      && Marked(transferred, c) && !Published(transferred, c) && Published(referenced, c)
  {
  }

  ghost predicate HeldAt(moments: seq<Moment>, calls: seq<Call>, c: Checksum, k: nat) {
    k < |calls| && k + 1 < |moments| ==> !GivesUp(calls[k], c) || Referenced(moments[k + 1].strong, c)
  }

  /** Once an entry with a buffer is pinned, the buffer can be had in every later state, until the last reference on
      it is given up. */
  lemma {:induction false} PinnedStays(moments: seq<Moment>, calls: seq<Call>, c: Checksum, i: nat, j: nat)
    requires IsRun(moments, calls) && i <= j <= |calls| && IsPinned(moments[i].strong, c)
    requires forall k :: i <= k < j ==> HeldAt(moments, calls, c, k)
    ensures IsPinned(moments[j].strong, c) && Visible(moments[j].strong, moments[j].weak, c).Some?
    decreases j
  {
    if i < j {
      PinnedStays(moments, calls, c, i, j - 1);
      assert StepAt(moments, calls, j - 1) && EvolvesAt(moments[j - 1], calls[j - 1], moments[j], c);
      assert HeldAt(moments, calls, c, j - 1);
    }
  }
}
