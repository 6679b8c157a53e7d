/** Entries of the strong buffer cache and what they protect (`caching/buffer_cache.py`). */
module BufferEntries {
  import opened CostGraph
  import opened Ledger
  import opened Prelude

  /** A buffer with a computed checksum; its content plays no role in the cache. */
  datatype Buffer = Buffer(checksum: Checksum, length: nat)

  datatype TempRef = TempRef(interest: real, fadeFactor: real, fadeInterval: real, refreshed: real)

  /** The decayed interest of a tempref at the time of a call. */
  type Clock = TempRef -> real

  const TEMPREF_MINIMAL_INTEREST: real := 0.0078125

  datatype Entry = Entry(
    buffer: Option<Buffer>, size: Option<nat>, manualRefs: nat, bridge: bool,
    tempref: Option<TempRef>, temprefScratch: bool, remoteRegistered: bool)

  type Strong = map<Checksum, Entry>

  function Lookup<K, V>(m: map<K, V>, k: K): Option<V> {
    if k in m then Some(m[k]) else None
  }

  lemma UpdateTwice<K, V>(m: map<K, V>, k: K, v: V, w: V)
    ensures m[k := v][k := w] == m[k := w]
  {
  }

  function Interest(e: Entry, clock: Clock): real {
    e.manualRefs as real + (if e.bridge then 1.0 else 0.0) + (if e.tempref.Some? then clock(e.tempref.value) else 0.0)
  }

  predicate Protected(e: Entry) {
    e.manualRefs != 0 || e.bridge
  }

  predicate LiveTempref(e: Entry, clock: Clock) {
    e.tempref.Some? && clock(e.tempref.value) >= TEMPREF_MINIMAL_INTEREST
  }

  predicate CanDemote(e: Entry, clock: Clock) {
    !Protected(e) && !LiveTempref(e, clock)
  }

  // ----- Invariants -----

  predicate EntryAt(e: Entry, c: Checksum, sizes: map<Checksum, nat>) {
    && e.size == Lookup(sizes, c)
    && (e.buffer.Some? ==> e.buffer.value.checksum == c)
  }

  /** Buffers are filed under their own checksum, sizes are the recorded ones, and an entry has a refholder bridge
      exactly while refholder claims are counted. */
  ghost predicate SoundAt(strong: Strong, weak: map<Checksum, Buffer>, sizes: map<Checksum, nat>, counts: Counts,
                          c: Checksum) {
    && (c in strong ==> EntryAt(strong[c], c, sizes))
    && (c in weak ==> weak[c].checksum == c)
    && ((c in strong && strong[c].bridge) <==> c in counts)
  }

  ghost predicate Sound(strong: Strong, weak: map<Checksum, Buffer>, sizes: map<Checksum, nat>, counts: Counts) {
    Positive(counts) && forall c :: SoundAt(strong, weak, sizes, counts, c)
  }

  /** The entry after `_ensure_entry_locked`, when `known` is the buffer at hand. */
  function Ensured(e: Option<Entry>, size: Option<nat>, known: Option<Buffer>, scratch: bool): Entry {
    if e.None? then Entry(known, size, 0, false, None, false, !scratch)
    else
      var attached := if e.value.buffer.None? then known else e.value.buffer;
      e.value.(buffer := attached, remoteRegistered := e.value.remoteRegistered || !scratch)
  }

  /** The size of a new entry: the recorded one, or the length of the buffer at hand. */
  function FirstSize(sizes: map<Checksum, nat>, c: Checksum, known: Option<Buffer>): Option<nat> {
    if c in sizes then Some(sizes[c]) else if known.Some? then Some(known.value.length) else None
  }

  function Recorded(sizes: map<Checksum, nat>, c: Checksum, size: Option<nat>): map<Checksum, nat> {
    if size.Some? then sizes[c := size.value] else sizes
  }

  function Known(weak: map<Checksum, Buffer>, c: Checksum, buffer: Option<Buffer>): Option<Buffer> {
    if buffer.Some? then buffer else Lookup(weak, c)
  }

  /** The entry of `c` that a claim finds or creates. */
  function Acquired(strong: Strong, weak: map<Checksum, Buffer>, sizes: map<Checksum, nat>, c: Checksum,
                    buffer: Option<Buffer>, scratch: bool): Entry
  {
    var known := Known(weak, c, buffer);
    Ensured(Lookup(strong, c), FirstSize(sizes, c, known), known, scratch)
  }

  function AcquiredSizes(strong: Strong, weak: map<Checksum, Buffer>, sizes: map<Checksum, nat>, c: Checksum,
                         buffer: Option<Buffer>): map<Checksum, nat>
  {
    if c in strong then sizes else Recorded(sizes, c, FirstSize(sizes, c, Known(weak, c, buffer)))
  }

  lemma ContinuesThen(a: Strong, b: Strong, c: Strong, except: set<Checksum>)
    requires Continues(a, b, {}) && Continues(b, c, except) && (forall k :: k in a && k in c ==> k in b)
    ensures Continues(a, c, except)
  {
    forall k ensures ContinuesAt(a, c, except, k) { assert ContinuesAt(a, b, {}, k) && ContinuesAt(b, c, except, k); }
  }

  /** An entry that is marked for the remote store and whose buffer is known. */
  predicate IsPublished(e: Entry) {
    e.remoteRegistered && e.buffer.Some?
  }

  /** The buffer that goes to the writer when `e` becomes the entry of `c`. */
  function ToWrite(strong: Strong, c: Checksum, e: Entry, scratch: bool): Option<Buffer> {
    if !scratch && e.remoteRegistered && !Published(strong, c) then e.buffer else None
  }

  function ManualRefs(strong: Strong, c: Checksum): nat {
    if c in strong then strong[c].manualRefs else 0
  }

  function Written(written: seq<Buffer>, buffer: Option<Buffer>): seq<Buffer> {
    if buffer.Some? then written + [buffer.value] else written
  }

  /** An entry that was acquired, and perhaps got more references, keeps what there was. */
  lemma AcquiredContinues(strong: Strong, weak: map<Checksum, Buffer>, sizes: map<Checksum, nat>, c: Checksum,
                          buffer: Option<Buffer>, scratch: bool, e: Entry)
    requires var a := Acquired(strong, weak, sizes, c, buffer, scratch);
      e.buffer == a.buffer && e.remoteRegistered == a.remoteRegistered && (Protected(a) ==> Protected(e))
    ensures Continues(strong, strong[c := e], {})
    ensures IsPinned(strong[c := e], c) == (Protected(e) && (buffer.Some? || Visible(strong, weak, c).Some?))
  {
    var after := strong[c := e];
    forall k ensures ContinuesAt(strong, after, {}, k) {}
  }

  lemma AcquiredIsSound(strong: Strong, weak: map<Checksum, Buffer>, sizes: map<Checksum, nat>, counts: Counts,
                        c: Checksum, buffer: Option<Buffer>, scratch: bool)
    requires Sound(strong, weak, sizes, counts) && (buffer.Some? ==> buffer.value.checksum == c)
    ensures Sound(strong[c := Acquired(strong, weak, sizes, c, buffer, scratch)], weak,
                  AcquiredSizes(strong, weak, sizes, c, buffer), counts)
  {
    assert SoundAt(strong, weak, sizes, counts, c);
    var known := Known(weak, c, buffer);
    if c in strong {
      PutIsSound(strong, weak, sizes, counts, c, Ensured(Some(strong[c]), None, known, scratch), counts);
    } else {
      NewIsSound(strong, weak, sizes, counts, c, known, scratch);
    }
  }

  /** A tempref that is created or strengthened at time `now`; only one is kept for each checksum. The decay rates
      are compared only if the new interest is not greater; a division by zero is an error then. */
  function Refreshed(t: Option<TempRef>, interest: real, fadeFactor: real, fadeInterval: real,
                     now: real): Option<TempRef>
  {
    if t.None? || interest > t.value.interest then Some(TempRef(interest, fadeFactor, fadeInterval, now))
    else if fadeInterval == 0.0 || t.value.fadeInterval == 0.0 then None
    else if fadeFactor / fadeInterval > t.value.fadeFactor / t.value.fadeInterval
    then Some(TempRef(interest, fadeFactor, fadeInterval, now))
    else Some(t.value.(refreshed := now))
  }

  /** Held by nothing but a scratch tempref. */
  predicate Purgeable(e: Entry) {
    !Protected(e) && e.tempref.Some? && e.temprefScratch
  }

  /** What `purge_scratch` drops: purgeable entries, and weak buffers without an entry. */
  predicate Purged(strong: Strong, weak: map<Checksum, Buffer>, c: Checksum) {
    if c in strong then Purgeable(strong[c]) else c in weak
  }

  lemma NewIsSound(strong: Strong, weak: map<Checksum, Buffer>, sizes: map<Checksum, nat>, counts: Counts,
                   c: Checksum, known: Option<Buffer>, scratch: bool)
    requires Sound(strong, weak, sizes, counts) && c !in strong && (known.Some? ==> known.value.checksum == c)
    ensures var size := FirstSize(sizes, c, known);
      Sound(strong[c := Ensured(None, size, known, scratch)], weak, Recorded(sizes, c, size), counts)
  {
    var size := FirstSize(sizes, c, known);
    var strong', sizes' := strong[c := Ensured(None, size, known, scratch)], Recorded(sizes, c, size);
    forall k ensures SoundAt(strong', weak, sizes', counts, k) { assert SoundAt(strong, weak, sizes, counts, k); }
  }

  function Filed(strong: Strong, c: Checksum, buffer: Buffer, size: nat): Strong {
    if c in strong then strong[c := strong[c].(buffer := Some(buffer), size := Some(size))] else strong
  }

  lemma FiledIsSound(strong: Strong, weak: map<Checksum, Buffer>, sizes: map<Checksum, nat>, counts: Counts,
                     buffer: Buffer, size: nat)
    requires Sound(strong, weak, sizes, counts)
    ensures var c := buffer.checksum;
      Sound(Filed(strong, c, buffer, size), weak[c := buffer], sizes[c := size], counts)
  {
    var c := buffer.checksum;
    var strong', weak', sizes' := Filed(strong, c, buffer, size), weak[c := buffer], sizes[c := size];
    forall k ensures SoundAt(strong', weak', sizes', counts, k) { assert SoundAt(strong, weak, sizes, counts, k); }
  }

  /** A new value for one entry, with the counts changed to match at most there. */
  lemma PutIsSound(strong: Strong, weak: map<Checksum, Buffer>, sizes: map<Checksum, nat>, counts: Counts,
                   c: Checksum, e: Entry, counts': Counts)
    requires Sound(strong, weak, sizes, counts)
    requires e.size == Lookup(sizes, c) && (e.buffer.Some? ==> e.buffer.value.checksum == c)
    requires e.bridge <==> c in counts'
    requires Positive(counts') && forall k :: k != c ==> (k in counts' <==> k in counts)
    ensures Sound(strong[c := e], weak, sizes, counts')
  {
    var strong' := strong[c := e];
    forall k ensures SoundAt(strong', weak, sizes, counts', k) { assert SoundAt(strong, weak, sizes, counts, k); }
  }

  /** The weak cache after an entry was dropped from the strong one. */
  function Fallen(weak: map<Checksum, Buffer>, c: Checksum, e: Entry): map<Checksum, Buffer> {
    if e.buffer.Some? then weak[c := e.buffer.value] else weak
  }

  lemma DropIsSound(strong: Strong, weak: map<Checksum, Buffer>, sizes: map<Checksum, nat>, counts: Counts, c: Checksum)
    requires Sound(strong, weak, sizes, counts) && c in strong && !strong[c].bridge
    ensures Sound(strong - {c}, weak, sizes, counts)
    ensures Sound(strong - {c}, Fallen(weak, c, strong[c]), sizes, counts)
  {
    var strong', weak' := strong - {c}, Fallen(weak, c, strong[c]);
    forall k ensures SoundAt(strong', weak, sizes, counts, k) && SoundAt(strong', weak', sizes, counts, k) {
      assert SoundAt(strong, weak, sizes, counts, k) && SoundAt(strong, weak, sizes, counts, c);
    }
  }

  /** The effect of giving up a reference that leaves entry `e`: demoted when nothing else holds it. */
  predicate Released(strong: Strong, weak: map<Checksum, Buffer>, strong': Strong, weak': map<Checksum, Buffer>,
                     c: Checksum, e: Entry, clock: Clock)
  {
    if CanDemote(e, clock) then strong' == strong - {c} && weak' == Fallen(weak, c, e)
    else strong' == strong[c := e] && weak' == weak
  }

  /** A call that asks for an entry finds it as it was, with the buffer at hand if it had none, or makes one without
      references, of the size that is recorded or that the buffer has. Only a non-scratch call marks it. */
  lemma AcquiredIsExact(strong: Strong, weak: map<Checksum, Buffer>, sizes: map<Checksum, nat>, c: Checksum,
                        buffer: Option<Buffer>, scratch: bool)
    ensures var e := Acquired(strong, weak, sizes, c, buffer, scratch);
      var former := if c in strong then strong[c] else Entry(None, None, 0, false, None, false, false);
      && (e.manualRefs, e.bridge, e.tempref, e.temprefScratch) ==
         (former.manualRefs, former.bridge, former.tempref, former.temprefScratch)
      && (e.remoteRegistered <==> former.remoteRegistered || !scratch)
      && (former.buffer.Some? ==> e.buffer == former.buffer)
      && (former.buffer.None? && buffer.Some? ==> e.buffer == buffer)
      && (former.buffer.None? && buffer.None? && c in weak ==> e.buffer == Some(weak[c]))
      && (former.buffer.None? && buffer.None? && c !in weak ==> e.buffer.None?)
      && (c in strong ==> e.size == former.size)
      && (c !in strong && c in sizes ==> e.size == Some(sizes[c]))
      && (c !in strong && c !in sizes && e.buffer.Some? ==> e.size == Some(e.buffer.value.length))
  {
  }

  /** An entry that gives up a reference stays exactly while something else holds it; otherwise its buffer can still be
      had from the weak cache. No other entry and no other weak buffer is touched. */
  lemma ReleasedIsExact(strong: Strong, weak: map<Checksum, Buffer>, strong': Strong, weak': map<Checksum, Buffer>,
                        c: Checksum, e: Entry, clock: Clock)
    requires Released(strong, weak, strong', weak', c, e, clock)
    ensures c in strong' <==>
      e.manualRefs > 0 || e.bridge || (e.tempref.Some? && 128.0 * clock(e.tempref.value) >= 1.0)
    ensures c in strong' ==> strong'[c] == e && weak' == weak
    ensures c !in strong' && e.buffer.Some? ==> Lookup(weak', c) == e.buffer
    ensures forall k :: k != c ==> Lookup(strong', k) == Lookup(strong, k) && Lookup(weak', k) == Lookup(weak, k)
  {
  }

  /** A purge takes what only a scratch tempref holds, and weak buffers that no entry stands for. */
  lemma PurgedIsExact(strong: Strong, weak: map<Checksum, Buffer>, c: Checksum)
    ensures c in strong ==> (Purged(strong, weak, c) <==>
      strong[c].manualRefs == 0 && !strong[c].bridge && strong[c].tempref.Some? && strong[c].temprefScratch)
    ensures c !in strong ==> (Purged(strong, weak, c) <==> c in weak)
  {
  }

  /** The checksums whose buffer a reference keeps in memory. */
  predicate IsPinned(strong: Strong, c: Checksum) {
    c in strong && Protected(strong[c]) && strong[c].buffer.Some?
  }

  ghost predicate ContinuesAt(before: Strong, after: Strong, except: set<Checksum>, c: Checksum) {
    && (IsPinned(before, c) ==> c in except || IsPinned(after, c))
    && (Published(before, c) && c in after ==> Published(after, c))
  }

  /** Nothing that was pinned is unpinned, except perhaps in `except`, and a published entry stays published for the
      rest of its life. */
  ghost predicate Continues(before: Strong, after: Strong, except: set<Checksum>) {
    forall c :: ContinuesAt(before, after, except, c)
  }

  ghost predicate StaysPinned(before: Strong, after: Strong) {
    forall c :: IsPinned(before, c) ==> IsPinned(after, c)
  }

  /** Whether an entry has been published: its buffer is known, and it is marked for the remote store. */
  predicate Published(strong: Strong, c: Checksum) {
    c in strong && IsPublished(strong[c])
  }

  /** What `get` finds. */
  function Visible(strong: Strong, weak: map<Checksum, Buffer>, c: Checksum): Option<Buffer> {
    if c in strong && strong[c].buffer.Some? then strong[c].buffer else Lookup(weak, c)
  }

  /** Every lookup finds the same before and after. */
  ghost predicate SameView(strong: Strong, weak: map<Checksum, Buffer>, strong': Strong, weak': map<Checksum, Buffer>) {
    forall c :: Visible(strong', weak', c) == Visible(strong, weak, c)
  }

  lemma SameViewThen(a: Strong, weakA: map<Checksum, Buffer>, b: Strong, weakB: map<Checksum, Buffer>, c: Strong,
                     weakC: map<Checksum, Buffer>)
    requires SameView(a, weakA, b, weakB) && SameView(b, weakB, c, weakC)
    ensures SameView(a, weakA, c, weakC)
  {
  }

  // ----- Memory -----

  function SizeOf(e: Entry): nat {
    if e.size.Some? then e.size.value else 0
  }

  ghost function Memory(strong: Strong): nat
    decreases |strong|
  {
    if strong.Keys == {} then 0
    else
      var c :| c in strong.Keys;
      SizeOf(strong[c]) + Memory(strong - {c})
  }

  lemma {:induction false} MemoryWithout(strong: Strong, c: Checksum)
    requires c in strong
    ensures Memory(strong) == SizeOf(strong[c]) + Memory(strong - {c})
    decreases |strong|
  {
    var d :| d in strong.Keys && Memory(strong) == SizeOf(strong[d]) + Memory(strong - {d});
    if d != c {
      MemoryWithout(strong - {d}, c);
      MemoryWithout(strong - {c}, d);
      assert strong - {d} - {c} == strong - {c} - {d};
    }
  }

  /** The size of memory depends on sizes only. */
  lemma {:induction false} SameMemory(strong: Strong, strong': Strong)
    requires strong.Keys == strong'.Keys
    requires forall c :: c in strong ==> strong[c].size == strong'[c].size
    ensures Memory(strong) == Memory(strong')
    decreases |strong|
  {
    if strong.Keys != {} {
      var c :| c in strong.Keys;
      MemoryWithout(strong, c);
      MemoryWithout(strong', c);
      assert SizeOf(strong[c]) == SizeOf(strong'[c]);
      SameMemory(strong - {c}, strong' - {c});
    }
  }

  // ----- Scores -----

  /** Cost per gigabyte of losing a buffer: its recomputation cost times the interest in it. */
  function Score(e: Entry, cost: ExtReal, clock: Clock): ExtReal {
    if SizeOf(e) == 0 || cost.Infinite? then Infinite
    else Finite(cost.value * Interest(e, clock) / (SizeOf(e) as real / BYTES_IN_GB))
  }

  /** The score is what is lost per gigabyte: cost times interest, which is the number of manual references, one for the
      refholders together, and what is left of the tempref. Unknown and empty sizes count as infinite loss. */
  lemma ScoreIsLossPerGigabyte(e: Entry, cost: ExtReal, clock: Clock)
    ensures Score(e, cost, clock).Infinite? <==> e.size.None? || e.size.value == 0 || cost.Infinite?
    ensures Score(e, cost, clock).Finite? ==>
      Score(e, cost, clock).value * (e.size.value as real / 1073741824.0) ==
      cost.value * (e.manualRefs as real + (if e.bridge then 1.0 else 0.0)
                    + (if e.tempref.Some? then clock(e.tempref.value) else 0.0))
  {
  }

  /** An entry can go exactly when no reference holds it and its tempref has faded below 1/128. */
  lemma DemotionIsExact(e: Entry, clock: Clock)
    ensures CanDemote(e, clock) <==>
      e.manualRefs == 0 && !e.bridge && (e.tempref.Some? ==> 128.0 * clock(e.tempref.value) < 1.0)
  {
  }

  /** A tempref that is there already is refreshed; it takes over all that is asked for if the new interest is greater
      or decays at a higher rate, and keeps its own otherwise. Rates are not compared when the interest is greater. */
  lemma RefreshedIsStronger(t: TempRef, interest: real, fadeFactor: real, fadeInterval: real, now: real)
    ensures var r := Refreshed(Some(t), interest, fadeFactor, fadeInterval, now);
      && (r.None? <==> interest <= t.interest && (fadeInterval == 0.0 || t.fadeInterval == 0.0))
      && (r.Some? ==> r.value.refreshed == now)
      && (r.Some? && r.value.(refreshed := t.refreshed) != t ==>
            r.value == TempRef(interest, fadeFactor, fadeInterval, now))
      && (interest > t.interest ==> r == Some(TempRef(interest, fadeFactor, fadeInterval, now)))
      && (interest <= t.interest && r.Some? && fadeFactor / fadeInterval <= t.fadeFactor / t.fadeInterval ==>
            r == Some(t.(refreshed := now)))
  {
  }
}
