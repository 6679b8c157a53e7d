/** The central buffer cache (`caching/buffer_cache.py`). */
module BufferCache {
  import opened BufferEntries
  import opened BufferHistory
  import opened CostGraph
  import opened EvictionPass
  import opened Ledger
  import opened Prelude

  function Ones(keys: set<Checksum>): map<Checksum, nat> {
    map c | c in keys :: 1
  }

  lemma OneMore(keys: set<Checksum>, c: Checksum)
    requires c !in keys
    ensures Ones(keys)[c := 1] == Ones(keys + {c})
    ensures GetOr(Ones(keys), c, 0) == 0
  {
  }

  lemma OneLess(keys: set<Checksum>, c: Checksum)
    requires c in keys
    ensures Fewer(Ones(keys), c) == Ones(keys - {c})
  {
  }

  lemma SameMap<K, V>(m: map<K, V>, n: map<K, V>)
    requires forall k :: Lookup(m, k) == Lookup(n, k)
    ensures m == n
  {
    forall k ensures k in m <==> k in n { assert Lookup(m, k) == Lookup(n, k); }
    forall k | k in m ensures m[k] == n[k] { assert Lookup(m, k) == Lookup(n, k); }
  }

  lemma PurgeContinues(strong: Strong, weak: map<Checksum, Buffer>, gone: set<Checksum>)
    requires forall c :: c in gone ==> Purged(strong, weak, c)
    ensures Continues(strong, strong - gone, {})
  {
    var after := strong - gone;
    forall c ensures ContinuesAt(strong, after, {}, c) {}
  }

  class BufferCache {
    var weak: map<Checksum, Buffer>
    var strong: Strong
    var softCap: nat
    var sizes: map<Checksum, nat>
    var scratchRefs: set<Checksum>
    var refholderCounts: Counts
    /** What the cache has told the eviction-cost engine: direct interest and buffer lengths. */
    var interest: map<Checksum, nat>
    var lengths: map<Checksum, nat>
    /** The buffers handed to the buffer writer, in order. */
    ghost var written: seq<Buffer>

    /** What holds between any two public calls. The cost engine knows exactly the lengths that the cache knows, and
        its direct interest is exactly strong membership. */
    ghost predicate Valid()
      reads this
    {
      && Sound(strong, weak, sizes, refholderCounts)
      && lengths == sizes
      && interest == Ones(strong.Keys)
    }

    ghost function Now(): Moment
      reads this
    {
      Moment(strong, weak, written)
    }

    constructor (softCap: nat)
      ensures Valid() && strong == map[] && weak == map[] && refholderCounts == map[] && this.softCap == softCap
    {
      weak, strong, sizes, scratchRefs, refholderCounts := map[], map[], map[], {}, map[];
      this.softCap, written, interest, lengths := softCap, [], map[], map[];
      new;
      assert Ones(strong.Keys) == map[];
      forall c ensures SoundAt(strong, weak, sizes, refholderCounts, c) {}
    }

    method NoteSize(c: Checksum, size: Option<nat>)
      requires lengths == sizes
      modifies `sizes, `lengths
      ensures lengths == sizes == Recorded(old(sizes), c, size)
    {
      if size.Some? {
        sizes := sizes[c := size.value];
        lengths := lengths[c := size.value];
      }
    }

    /** `eviction_cost.add_interest` and `remove_interest`, as far as direct interest goes. */
    method AddInterest(c: Checksum)
      modifies `interest
      ensures interest == old(interest)[c := GetOr(old(interest), c, 0) + 1]
    {
      interest := interest[c := GetOr(interest, c, 0) + 1];
    }

    method RemoveInterest(c: Checksum)
      modifies `interest
      ensures interest == Fewer(old(interest), c)
    {
      if c in interest {
        if interest[c] <= 1 {
          interest := interest - {c};
        } else {
          interest := interest[c := interest[c] - 1];
        }
      }
    }

    method Register(c: Checksum, buffer: Buffer, size: Option<nat>)
      requires Valid() && buffer.checksum == c
      modifies `weak, `strong, `sizes, `written, `lengths
      ensures Valid()
      ensures sizes == old(sizes)[c := if size.Some? then size.value else buffer.length]
      ensures weak == old(weak)[c := buffer] && strong == Filed(old(strong), c, buffer, sizes[c])
      ensures Continues(old(strong), strong, {})
      ensures written == if c in strong && strong[c].remoteRegistered && !Published(old(strong), c)
        then old(written) + [buffer] else old(written)
      ensures Visible(strong, weak, c) == Some(buffer)
      ensures Evolves(old(Now()), Registers(buffer, size), Now())
    {
      FilingEvolves(strong, weak, sizes, refholderCounts, written, buffer,
                    if size.Some? then size.value else buffer.length, Registers(buffer, size));
      var length := if size.Some? then size.value else buffer.length;
      FiledIsSound(strong, weak, sizes, refholderCounts, buffer, length);
      NoteSize(c, Some(length));
      weak := weak[c := buffer];
      assert Filed(strong, c, buffer, length).Keys == strong.Keys;
      if c in strong {
        var entry := strong[c];
        if entry.buffer.None? && entry.remoteRegistered { written := written + [buffer]; }
        strong := strong[c := entry.(buffer := Some(buffer), size := Some(length))];
      }
    }

    method Get(c: Checksum) returns (r: Option<Buffer>)
      requires Valid()
      modifies `strong
      ensures Valid() && r == Visible(old(strong), weak, c)
      ensures r.Some? ==> r.value.checksum == c
      ensures IsPinned(old(strong), c) ==> r.Some?
      ensures strong.Keys == old(strong.Keys) && Continues(old(strong), strong, {})
      ensures c in strong ==> strong == old(strong)[c := old(strong)[c].(buffer := r)]
      ensures Evolves(old(Now()), Gets(c), Now())
    {
      UnchangedEvolves(Now(), Gets(c));
      assert SoundAt(strong, weak, sizes, refholderCounts, c);
      if c in strong && strong[c].buffer.Some? {
        assert strong[c := strong[c].(buffer := strong[c].buffer)] == strong;
        return strong[c].buffer;
      }
      r := Lookup(weak, c);
      if c in strong {
        PutIsSound(strong, weak, sizes, refholderCounts, c, strong[c].(buffer := r), refholderCounts);
        PutEvolves(strong, weak, written, c, strong[c].(buffer := r), None, Gets(c));
        strong := strong[c := strong[c].(buffer := r)];
        assert strong.Keys == old(strong.Keys);
      }
    }

    // ----- Entries -----

    method NewEntry(c: Checksum, known: Option<Buffer>, scratch: bool)
      requires lengths == sizes && interest == Ones(strong.Keys) && c !in strong
      modifies `strong, `sizes, `interest, `lengths
      ensures lengths == sizes && interest == Ones(strong.Keys)
      ensures var size := FirstSize(old(sizes), c, known);
        sizes == Recorded(old(sizes), c, size) && strong == old(strong)[c := Ensured(None, size, known, scratch)]
    {
      var size := FirstSize(sizes, c, known);
      NoteSize(c, size);
      OneMore(strong.Keys, c);
      strong := strong[c := Entry(known, size, 0, false, None, false, !scratch)];
      assert strong.Keys == old(strong.Keys) + {c};
      AddInterest(c);
    }

    /** A claim on an existing entry. */
    method Reuse(existing: Entry, known: Option<Buffer>, scratch: bool) returns (entry: Entry, write: Option<Buffer>)
      ensures entry == Ensured(Some(existing), None, known, scratch)
      ensures write == if !scratch && IsPublished(entry) && !IsPublished(existing) then entry.buffer else None
    {
      entry, write := existing, None;
      if entry.buffer.None? && known.Some? {
        entry := entry.(buffer := known);
        if !scratch {
          entry := entry.(remoteRegistered := true);
          write := known;
        }
      }
      if !scratch && !entry.remoteRegistered {
        entry := entry.(remoteRegistered := true);
        if entry.buffer.Some? { write := entry.buffer; }
      }
    }

    /** `_ensure_entry_locked`. A buffer is returned for the writer exactly when a non-scratch call publishes the
        entry. */
    method EnsureEntry(c: Checksum, buffer: Option<Buffer>, scratch: bool) returns (write: Option<Buffer>)
      requires Valid() && (buffer.Some? ==> buffer.value.checksum == c)
      modifies `strong, `sizes, `interest, `lengths
      ensures Valid()
      ensures sizes == AcquiredSizes(old(strong), weak, old(sizes), c, buffer)
      ensures strong == old(strong)[c := Acquired(old(strong), weak, old(sizes), c, buffer, scratch)]
      ensures write == ToWrite(old(strong), c, strong[c], scratch)
    {
      AcquiredIsSound(strong, weak, sizes, refholderCounts, c, buffer, scratch);
      var known := if buffer.Some? then buffer else Lookup(weak, c);
      if c !in strong {
        write := if scratch then None else known;
        NewEntry(c, known, scratch);
      } else {
        var entry: Entry;
        entry, write := Reuse(strong[c], known, scratch);
        strong := strong[c := entry];
        assert strong.Keys == old(strong.Keys);
      }
    }

    /** `_demote_locked`: the entry goes, and its buffer falls back to the weak cache. */
    method Demote(c: Checksum, clock: Clock) returns (demoted: bool)
      requires Valid() && c in strong
      modifies `strong, `weak, `interest
      ensures Valid()
      ensures demoted == CanDemote(old(strong)[c], clock)
      ensures demoted ==> strong == old(strong) - {c} && weak == Fallen(old(weak), c, old(strong)[c])
      ensures !demoted ==> strong == old(strong) && weak == old(weak)
    {
      if !CanDemote(strong[c], clock) { return false; }
      DropIsSound(strong, weak, sizes, refholderCounts, c);
      if strong[c].buffer.Some? { weak := weak[c := strong[c].buffer.value]; }
      OneLess(strong.Keys, c);
      strong := strong - {c};
      assert strong.Keys == old(strong.Keys) - {c};
      RemoveInterest(c);
      demoted := true;
    }

    // ----- References -----

    /** Replaces an entry by one with the same claims. */
    method PutEntry(c: Checksum, e: Entry)
      requires Valid() && c in strong
      requires e.size == strong[c].size && e.buffer == strong[c].buffer && e.bridge == strong[c].bridge
      modifies `strong
      ensures Valid() && strong == old(strong)[c := e]
    {
      assert SoundAt(strong, weak, sizes, refholderCounts, c);
      PutIsSound(strong, weak, sizes, refholderCounts, c, e, refholderCounts);
      strong := strong[c := e];
      assert strong.Keys == old(strong.Keys);
    }

    method Incref(c: Checksum, buffer: Option<Buffer>, scratch: bool)
      requires Valid() && (buffer.Some? ==> buffer.value.checksum == c)
      modifies `strong, `sizes, `scratchRefs, `written, `interest, `lengths
      ensures Valid()
      ensures scratchRefs == if scratch then old(scratchRefs) + {c} else old(scratchRefs) - {c}
      ensures var e := Acquired(old(strong), weak, old(sizes), c, buffer, scratch);
        && strong == old(strong)[c := e.(manualRefs := ManualRefs(old(strong), c) + 1)]
        && IsPinned(strong, c) == (buffer.Some? || Visible(old(strong), weak, c).Some?)
        && written == Written(old(written), ToWrite(old(strong), c, e, scratch))
      ensures Continues(old(strong), strong, {})
      ensures Referenced(strong, c) && Evolves(old(Now()), Increfs(c, buffer, scratch), Now())
    {
      ghost var strong0, sizes0, counts0, written0 := strong, sizes, refholderCounts, written;
      if scratch { scratchRefs := scratchRefs + {c}; } else { scratchRefs := scratchRefs - {c}; }
      var write := EnsureEntry(c, buffer, scratch);
      assert SoundAt(strong, weak, sizes, refholderCounts, c);
      var e := strong[c].(manualRefs := strong[c].manualRefs + 1);
      UpdateTwice(old(strong), c, strong[c], e);
      AcquiredContinues(strong0, weak, sizes0, c, buffer, scratch, e);
      AcquiringEvolves(strong0, weak, sizes0, counts0, written0, c, buffer, scratch, e, Increfs(c, buffer, scratch));
      PutEntry(c, e);
      if write.Some? { written := written + [write.value]; }
    }

    /** Counts a refholder claim on an existing entry; the first one sets its bridge. */
    method CountClaim(c: Checksum)
      requires Valid() && c in strong
      modifies `strong, `refholderCounts
      ensures Valid() && refholderCounts == Ledger.Incref(old(refholderCounts), c)
      ensures strong == old(strong)[c := old(strong)[c].(bridge := true)]
    {
      assert SoundAt(strong, weak, sizes, refholderCounts, c);
      var e := strong[c];
      var count := GetOr(refholderCounts, c, 0);
      if count == 0 { e := e.(bridge := true); }
      PutIsSound(strong, weak, sizes, refholderCounts, c, e, Ledger.Incref(refholderCounts, c));
      refholderCounts := refholderCounts[c := count + 1];
      strong := strong[c := e];
      assert strong.Keys == old(strong.Keys);
    }

    /** `scratch` is true or false for an owner's decision, and missing for a neutral claim. */
    method IncrefRefholder(c: Checksum, buffer: Option<Buffer>, scratch: Option<bool>)
      requires Valid() && (buffer.Some? ==> buffer.value.checksum == c)
      modifies `strong, `sizes, `scratchRefs, `refholderCounts, `written, `interest, `lengths
      ensures Valid() && refholderCounts == Ledger.Incref(old(refholderCounts), c)
      ensures scratchRefs == if scratch == Some(true) then old(scratchRefs) + {c}
        else if scratch == Some(false) then old(scratchRefs) - {c} else old(scratchRefs)
      ensures var e := Acquired(old(strong), weak, old(sizes), c, buffer, scratch != Some(false));
        && strong == old(strong)[c := e.(bridge := true)]
        && IsPinned(strong, c) == (buffer.Some? || Visible(old(strong), weak, c).Some?)
        && written == Written(old(written), ToWrite(old(strong), c, e, scratch != Some(false)))
      ensures Continues(old(strong), strong, {})
      ensures Referenced(strong, c) && Evolves(old(Now()), Claims(c, buffer, scratch), Now())
    {
      ghost var strong0, sizes0, counts0, written0 := strong, sizes, refholderCounts, written;
      if scratch == Some(true) {
        scratchRefs := scratchRefs + {c};
      } else if scratch == Some(false) {
        scratchRefs := scratchRefs - {c};
      }
      var write := EnsureEntry(c, buffer, scratch != Some(false));
      UpdateTwice(strong0, c, strong[c], strong[c].(bridge := true));
      AcquiredContinues(strong0, weak, sizes0, c, buffer, scratch != Some(false), strong[c].(bridge := true));
      AcquiringEvolves(strong0, weak, sizes0, counts0, written0, c, buffer, scratch != Some(false),
                       strong[c].(bridge := true), Claims(c, buffer, scratch));
      CountClaim(c);
      if write.Some? { written := written + [write.value]; }
    }

    method Decref(c: Checksum, clock: Clock) returns (held: bool)
      requires Valid()
      modifies `strong, `weak, `interest
      ensures Valid() && held == (ManualRefs(old(strong), c) > 0)
      ensures if held then Released(old(strong), old(weak), strong, weak, c,
        old(strong)[c].(manualRefs := old(strong)[c].manualRefs - 1), clock)
        else strong == old(strong) && weak == old(weak)
      ensures Continues(old(strong), strong, {c})
      ensures IsPinned(old(strong), c) && c in strong && Protected(strong[c]) ==> IsPinned(strong, c)
      ensures Evolves(old(Now()), Decrefs(c), Now())
    {
      UnchangedEvolves(Now(), Decrefs(c));
      if c !in strong || strong[c].manualRefs == 0 { return false; }
      var e := strong[c].(manualRefs := strong[c].manualRefs - 1);
      assert SoundAt(strong, weak, sizes, refholderCounts, c);
      PutIsSound(strong, weak, sizes, refholderCounts, c, e, refholderCounts);
      strong := strong[c := e];
      assert strong.Keys == old(strong.Keys) + {c};
      var demoted := Demote(c, clock);
      assert old(strong)[c := e] - {c} == old(strong) - {c};
      ReleasingEvolves(old(strong), old(weak), strong, weak, written, c, e, clock, Decrefs(c));
      held := true;
    }

    /** The last refholder claim on `c` goes, and its bridge with it. */
    method DropBridge(c: Checksum, clock: Clock)
      requires Valid() && c in refholderCounts && refholderCounts[c] == 1
      modifies `strong, `weak, `refholderCounts, `interest
      ensures Valid() && refholderCounts == old(refholderCounts) - {c} && c in old(strong)
      ensures Released(old(strong), old(weak), strong, weak, c, old(strong)[c].(bridge := false), clock)
    {
      assert SoundAt(strong, weak, sizes, refholderCounts, c);
      refholderCounts := refholderCounts - {c};
      var e := strong[c].(bridge := false);
      PutIsSound(strong, weak, sizes, old(refholderCounts), c, e, refholderCounts);
      strong := strong[c := e];
      assert strong.Keys == old(strong.Keys) + {c};
      var demoted := Demote(c, clock);
      assert old(strong)[c := e] - {c} == old(strong) - {c};
    }

    method DecrefRefholder(c: Checksum, clock: Clock) returns (held: bool)
      requires Valid()
      modifies `strong, `weak, `refholderCounts, `interest
      ensures Valid() && refholderCounts == Ledger.Decref(old(refholderCounts), c)
      ensures held == (c in old(refholderCounts))
      ensures c !in old(refholderCounts) || c in refholderCounts ==> strong == old(strong) && weak == old(weak)
      ensures c in old(refholderCounts) && c !in refholderCounts ==> c in old(strong)
      ensures c in old(refholderCounts) && c !in refholderCounts ==>
        Released(old(strong), old(weak), strong, weak, c, old(strong)[c].(bridge := false), clock)
      ensures Continues(old(strong), strong, {c})
      ensures IsPinned(old(strong), c) && c in strong && Protected(strong[c]) ==> IsPinned(strong, c)
      ensures Evolves(old(Now()), Drops(c), Now())
    {
      var count := GetOr(refholderCounts, c, 0);
      assert SoundAt(strong, weak, sizes, refholderCounts, c);
      if count == 1 {
        DropBridge(c, clock);
        ReleasingEvolves(old(strong), old(weak), strong, weak, written, c, old(strong)[c].(bridge := false), clock,
                         Drops(c));
        return true;
      }
      UnchangedEvolves(Now(), Drops(c));
      if count == 0 { return false; }
      refholderCounts := refholderCounts[c := count - 1];
      PutIsSound(strong, weak, sizes, old(refholderCounts), c, strong[c], refholderCounts);
      assert strong[c := strong[c]] == strong;
      held := true;
    }

    /** Bounded local interest: it never publishes, and it changes neither scratch status nor claims. It fails where
        decay rates are compared and a fade interval is zero. */
    method AddTempref(c: Checksum, buffer: Option<Buffer>, strength: real, fadeFactor: real, fadeInterval: real,
                      now: real) returns (ok: bool)
      requires Valid() && (buffer.Some? ==> buffer.value.checksum == c)
      modifies `strong, `sizes, `interest, `lengths
      ensures Valid()
      ensures var e := Acquired(old(strong), weak, old(sizes), c, buffer, true);
        var t := Refreshed(e.tempref, strength, fadeFactor, fadeInterval, now);
        && ok == t.Some?
        && strong == old(strong)[c := if ok then e.(tempref := t, temprefScratch := true) else e]
      ensures Continues(old(strong), strong, {})
      ensures Evolves(old(Now()), Temprefs(c, buffer, strength, fadeFactor, fadeInterval), Now())
    {
      ghost var strong0, sizes0, call := strong, sizes, Temprefs(c, buffer, strength, fadeFactor, fadeInterval);
      var write := EnsureEntry(c, buffer, true);
      assert SoundAt(strong, weak, sizes, refholderCounts, c);
      var e := strong[c];
      ok := true;
      if e.tempref.None? {
        e := e.(tempref := Some(TempRef(strength, fadeFactor, fadeInterval, now)));
      } else {
        var t := e.tempref.value;
        if strength <= t.interest && (fadeInterval == 0.0 || t.fadeInterval == 0.0) {
          ok := false;
        } else if strength > t.interest || fadeFactor / fadeInterval > t.fadeFactor / t.fadeInterval {
          t := t.(interest := strength, fadeFactor := fadeFactor, fadeInterval := fadeInterval);
        }
        if ok { e := e.(tempref := Some(t.(refreshed := now))); }
      }
      if ok { e := e.(temprefScratch := true); }
      UpdateTwice(old(strong), c, strong[c], e);
      AcquiredContinues(strong0, weak, sizes0, c, buffer, true, e);
      AcquiringEvolves(strong0, weak, sizes0, refholderCounts, written, c, buffer, true, e, call);
      PutEntry(c, e);
    }

    /** Publishes on a requester's behalf, now or when a buffer is registered; adds no reference. */
    method TransferWrite(c: Checksum, buffer: Option<Buffer>)
      requires Valid() && (buffer.Some? ==> buffer.value.checksum == c)
      modifies `strong, `sizes, `scratchRefs, `written, `interest, `lengths
      ensures Valid() && scratchRefs == old(scratchRefs) - {c}
      ensures var e := Acquired(old(strong), weak, old(sizes), c, buffer, false);
        strong == old(strong)[c := e] && written == Written(old(written), ToWrite(old(strong), c, e, false))
      ensures Continues(old(strong), strong, {})
      ensures Evolves(old(Now()), Transfers(c, buffer), Now())
    {
      AcquiringEvolves(strong, weak, sizes, refholderCounts, written, c, buffer, false,
                       Acquired(strong, weak, sizes, c, buffer, false), Transfers(c, buffer));
      scratchRefs := scratchRefs - {c};
      AcquiredContinues(strong, weak, sizes, c, buffer, false, Acquired(strong, weak, sizes, c, buffer, false));
      var write := EnsureEntry(c, buffer, false);
      if write.Some? { written := written + [write.value]; }
    }

    method MarkScratch(c: Checksum)
      modifies `scratchRefs
      ensures scratchRefs == old(scratchRefs) + {c}
      ensures Evolves(old(Now()), MarksScratch(c), Now())
    {
      UnchangedEvolves(Now(), MarksScratch(c));
      scratchRefs := scratchRefs + {c};
    }

    /** Garbage collection empties weak entries whenever it likes. */
    method CollectWeak(dead: set<Checksum>)
      requires Valid()
      modifies `weak
      ensures Valid() && weak == old(weak) - dead
      ensures Evolves(old(Now()), Collects(dead), Now())
    {
      ThinningEvolves(strong, strong, weak, weak - dead, written, Collects(dead), {});
      weak := weak - dead;
      forall k ensures SoundAt(strong, weak, sizes, refholderCounts, k) {
        assert SoundAt(strong, old(weak), sizes, refholderCounts, k);
      }
    }

    method PurgeOne(c: Checksum) returns (purged: bool)
      requires Valid()
      modifies `strong, `weak, `interest
      ensures Valid() && purged == Purged(old(strong), old(weak), c)
      ensures strong == if purged then old(strong) - {c} else old(strong)
      ensures weak == if purged then old(weak) - {c} else old(weak)
    {
      if c !in strong {
        purged := c in weak;
        assert old(strong) - {c} == old(strong);
        if purged { CollectWeak({c}); }
      } else if Protected(strong[c]) || strong[c].tempref.None? || !strong[c].temprefScratch {
        purged := false;
      } else {
        CollectWeak({c});
        DropIsSound(strong, weak, sizes, refholderCounts, c);
        OneLess(strong.Keys, c);
        strong := strong - {c};
        assert strong.Keys == old(strong.Keys) - {c};
        RemoveInterest(c);
        purged := true;
      }
    }

    /** `purge_scratch`: of one checksum, or of all that are marked as scratch. Exactly the entries that nothing but a
        scratch tempref holds go, and every protected entry stays. */
    method PurgeScratch(only: Option<Checksum>) returns (purged: nat)
      requires Valid()
      modifies `strong, `weak, `interest
      ensures Valid()
      ensures var targets := if only.Some? then {only.value} else scratchRefs;
        var gone := set c | c in targets && Purged(old(strong), old(weak), c);
        strong == old(strong) - gone && weak == old(weak) - gone && purged == |gone|
      ensures Continues(old(strong), strong, {})
      ensures Evolves(old(Now()), Purges(only), Now())
    {
      var targets := if only.Some? then {only.value} else scratchRefs;
      ghost var gone := {};
      var rest := targets;
      purged := 0;
      assert strong - gone == strong && weak - gone == weak;
      while rest != {}
        invariant Valid() && rest <= targets
        invariant gone == set c | c in targets - rest && Purged(old(strong), old(weak), c)
        invariant strong == old(strong) - gone && weak == old(weak) - gone && purged == |gone|
        decreases rest
      {
        var c :| c in rest;
        rest := rest - {c};
        var p := PurgeOne(c);
        assert p == Purged(old(strong), old(weak), c);
        if p {
          purged := purged + 1;
          gone := gone + {c};
        }
      }
      assert targets - {} == targets;
      PurgeContinues(old(strong), old(weak), gone);
      ThinningEvolves(old(strong), strong, old(weak), weak, written, Purges(only), {});
    }

    // ----- Eviction -----

    method StrongMemoryUsage() returns (total: nat)
      ensures total == Memory(strong)
    {
      total := 0;
      var rest := strong;
      while rest.Keys != {}
        invariant total + Memory(rest) == Memory(strong)
        invariant forall c :: c in rest ==> c in strong && rest[c] == strong[c]
        decreases |rest|
      {
        var c :| c in rest.Keys;
        MemoryWithout(rest, c);
        if strong[c].size.Some? { total := total + strong[c].size.value; }
        rest := rest - {c};
      }
    }

    /** One turn of the first loop: a faded tempref is dropped, and the entry with it if nothing else holds it. */
    method FadeTempref(c: Checksum, clock: Clock)
      requires Valid() && c in strong
      modifies `strong, `weak, `interest
      ensures Valid()
      ensures var e := FadeOne(old(strong)[c], clock);
        strong == if e.Some? then old(strong)[c := e.value] else old(strong) - {c}
      ensures SameView(old(strong), old(weak), strong, weak)
    {
      var e := strong[c];
      if e.tempref.Some? && clock(e.tempref.value) < TEMPREF_MINIMAL_INTEREST {
        PutEntry(c, e.(tempref := None));
        assert strong - {c} == old(strong) - {c};
        var demoted := Demote(c, clock);
      } else {
        assert strong[c := e] == strong;
      }
    }

    method FadeTemprefs(clock: Clock)
      requires Valid()
      modifies `strong, `weak, `interest
      ensures Valid() && strong == Faded(old(strong), clock)
      ensures SameView(old(strong), old(weak), strong, weak)
    {
      var rest := strong.Keys;
      ghost var start := strong;
      while rest != {}
        invariant Valid() && rest <= start.Keys
        invariant forall k ::
          Lookup(strong, k) == if k in rest || k !in start then Lookup(start, k) else FadeOne(start[k], clock)
        invariant SameView(start, old(weak), strong, weak)
        decreases rest
      {
        var c :| c in rest;
        rest := rest - {c};
        assert Lookup(strong, c) == Lookup(start, c);
        FadeTempref(c, clock);
      }
      forall k ensures Lookup(strong, k) == Lookup(Faded(start, clock), k) {}
      SameMap(strong, Faded(start, clock));
    }

    method CandidateScores(cost: Checksum -> ExtReal, clock: Clock) returns (scores: map<Checksum, ExtReal>)
      ensures scores == Scores(strong, cost, clock)
    {
      scores := map[];
      var rest := strong.Keys;
      while rest != {}
        invariant rest <= strong.Keys
        invariant forall k :: k in scores <==> k in strong && k !in rest && !Protected(strong[k])
        invariant forall k :: k in scores ==> scores[k] == Score(strong[k], cost(k), clock)
        decreases rest
      {
        var c :| c in rest;
        rest := rest - {c};
        if !Protected(strong[c]) { scores := scores[c := Score(strong[c], cost(c), clock)]; }
      }
    }

    /** Drops the tempref of an unprotected entry and demotes it. */
    method EvictEntry(c: Checksum, clock: Clock)
      requires Valid() && c in strong && !Protected(strong[c])
      modifies `strong, `weak, `interest
      ensures Valid() && strong == old(strong) - {c}
      ensures SameView(old(strong), old(weak), strong, weak)
    {
      PutEntry(c, strong[c].(tempref := None));
      assert strong - {c} == old(strong) - {c};
      var demoted := Demote(c, clock);
    }

    /** The second half of a pass, for usage above the soft cap. */
    method RelievePressure(before: nat, cost: Checksum -> ExtReal, clock: Clock) returns (after: nat)
      requires Valid() && before == Memory(strong) > softCap
      modifies `strong, `weak, `interest
      ensures Valid() && after == Memory(strong)
      ensures Greedy(old(strong), strong, Scores(old(strong), cost, clock), softCap)
      ensures SameView(old(strong), old(weak), strong, weak)
    {
      ghost var start := strong;
      var scores := CandidateScores(cost, clock);
      var order := SortByScore(scores);
      var i := 0;
      after := before;
      assert strong == start - Condemned(order, scores, 0);
      while after > softCap && i < |order|
        invariant Valid() && after == Memory(strong)
        invariant Progress(start, strong, order, scores, softCap, i)
        invariant SameView(start, old(weak), strong, weak)
      {
        var c := order[i];
        ProgressStep(start, strong, order, scores, softCap, i);
        i := i + 1;
        if scores[c].Finite? {
          ghost var strong0, weak0 := strong, weak;
          assert strong[c] == start[c];
          after := after - SizeOf(strong[c]);
          EvictEntry(c, clock);
          SameViewThen(start, old(weak), strong0, weak0, strong, weak);
        }
      }
      ProgressEnds(start, strong, order, scores, softCap, i);
    }

    /** `run_eviction_once`, with the answers that the cost engine gives during the pass. It is exact and greedy, it
        never drops a protected entry, and no buffer is lost by it: all that goes is found in the weak cache. */
    method RunEvictionOnce(cost: Checksum -> ExtReal, clock: Clock) returns (before: nat, after: nat)
      requires Valid()
      modifies `strong, `weak, `interest
      ensures Valid()
      ensures before == Memory(Faded(old(strong), clock)) && after == Memory(strong)
      ensures var faded := Faded(old(strong), clock);
        if before <= softCap then strong == faded else Greedy(faded, strong, Scores(faded, cost, clock), softCap)
      ensures SameView(old(strong), old(weak), strong, weak)
      ensures Continues(old(strong), strong, {})
      ensures Evolves(old(Now()), Evicts, Now())
    {
      FadeTemprefs(clock);
      FadingContinues(old(strong), clock);
      ThinningEvolves(old(strong), strong, old(weak), weak, written, Evicts, {});
      before := StrongMemoryUsage();
      if before <= softCap { return before, before; }
      after := RelievePressure(before, cost, clock);
      GreedyContinues(old(strong), Faded(old(strong), clock), strong, cost, clock, softCap);
      ThinningEvolves(old(strong), strong, old(weak), weak, written, Evicts, {});
    }
  }
}
