/** Who claims buffers: Cells and Expressions (`cell_class.py`, `expression_class.py`), and the audit that compares
    their claims with the accounting of the buffer cache (`reference_lifecycle.py`). */
module RefHolders {
  import opened BufferCache
  import opened BufferEntries
  import BufferHistory
  import opened Ledger
  import opened Prelude

  /** The input of a Cell: nothing, a checksum, or a typed reference to another object. */
  datatype InputRef = Unset | Concrete(checksum: Checksum) | Reference(id: nat)

  function Claimed(ref: InputRef): seq<Checksum> {
    if ref.Concrete? then [ref.checksum] else []
  }

  function InputChecksum(ref: InputRef): Option<Checksum> {
    if ref.Concrete? then Some(ref.checksum) else None
  }

  function CellClaims(ref: InputRef, result: Option<Checksum>, released: bool): seq<Checksum> {
    if released then [] else Claimed(ref) + Optional(result)
  }

  /** What the owner of a result asks for with its claim: that a scratch result is listed as scratch, and that any other
      is marked for the remote store and written as soon as its buffer is known. */
  ghost predicate Owned(before: Strong, weak: map<Checksum, Buffer>, written: seq<Buffer>, scratchRefs: set<Checksum>,
                        cache: BufferCache, result: Option<Checksum>, scratch: bool)
    reads cache
  {
    if result.None? then cache.scratchRefs == scratchRefs && cache.written == written
    else
      var c := result.value;
      if scratch then cache.scratchRefs == scratchRefs + {c} && cache.written == written
      else
        && cache.scratchRefs == scratchRefs - {c}
        && (c in cache.refholderCounts ==> BufferHistory.Marked(cache.strong, c))
        && (c in cache.refholderCounts && Visible(before, weak, c).Some? ==> Published(cache.strong, c))
        && cache.written ==
           if Published(before, c) || Visible(before, weak, c).None? then written
           else written + [Visible(before, weak, c).value]
  }

  class Cell {
    const cache: BufferCache
    var inputRef: InputRef
    var resultChecksum: Option<Checksum>
    var scratch: bool
    var released: bool

    /** `_refheld_checksums`. */
    function Claims(): seq<Checksum>
      reads this
    {
      CellClaims(inputRef, resultChecksum, released)
    }

    ghost predicate Valid()
      reads this, cache
    {
      cache.Valid() && Backed(cache.refholderCounts, Claims())
    }

    constructor (cache: BufferCache, ref: InputRef)
      requires cache.Valid()
      modifies cache
      ensures Valid() && this.cache == cache && inputRef == ref && resultChecksum == None && !released && !scratch
      ensures Moves(old(cache.refholderCounts), cache.refholderCounts, [], Claims())
      ensures Owned(old(cache.strong), old(cache.weak), old(cache.written), old(cache.scratchRefs), cache,
        InputChecksum(ref), false)
    {
      this.cache, inputRef, resultChecksum, scratch, released := cache, ref, None, false, false;
      new;
      ghost var counts := cache.refholderCounts;
      ExchangeMoves(counts, Claimed(ref), [], [], Claims());
      AcquireInput(ref);
      assert cache.refholderCounts == Exchange(counts, Claimed(ref), []);
      MovesBack(counts, cache.refholderCounts, [], Claims());
    }

    /** The claim on a new result, under the policy of the Cell. */
    method AcquireResult(result: Checksum)
      requires cache.Valid()
      modifies cache
      ensures cache.Valid() && cache.refholderCounts == Incref(old(cache.refholderCounts), result)
      ensures Continues(old(cache.strong), cache.strong, {}) && old(cache.strong.Keys) <= cache.strong.Keys
      ensures Owned(old(cache.strong), old(cache.weak), old(cache.written), old(cache.scratchRefs), cache, Some(result),
        scratch)
    {
      cache.IncrefRefholder(result, None, Some(scratch));
    }

    /** A claim is given up, which touches no entry that is still claimed. */
    method Drop(claimed: Option<Checksum>, clock: Clock)
      requires cache.Valid()
      modifies cache`strong, cache`weak, cache`refholderCounts, cache`interest
      ensures cache.Valid() && cache.refholderCounts == Exchange(old(cache.refholderCounts), [], Optional(claimed))
      ensures cache.strong.Keys <= old(cache.strong.Keys)
      ensures forall c :: c in cache.refholderCounts ==> Lookup(cache.strong, c) == Lookup(old(cache.strong), c)
      ensures Continues(old(cache.strong), cache.strong,
        set c | c in Optional(claimed) && c !in cache.refholderCounts)
    {
      if claimed.Some? {
        OneByOne(cache.refholderCounts, claimed.value);
        var held := cache.DecrefRefholder(claimed.value, clock);
        if claimed.value !in cache.refholderCounts {
          assert (set c | c in Optional(claimed) && c !in cache.refholderCounts) == {claimed.value};
        }
      }
    }

    /** `_set_result_checksum`: the new claim is acquired before the old one is given up, so nothing is unpinned but
        an old result that nobody claims any more. */
    method SetResultChecksum(result: Option<Checksum>, clock: Clock)
      requires cache.Valid()
      modifies cache, `resultChecksum
      ensures cache.Valid() && resultChecksum == result
      ensures Continues(old(cache.strong), cache.strong,
        set c | c in Optional(old(resultChecksum)) && c !in cache.refholderCounts)
      ensures cache.refholderCounts == Exchange(old(cache.refholderCounts), Optional(result),
        Optional(old(resultChecksum)))
      ensures Owned(old(cache.strong), old(cache.weak), old(cache.written), old(cache.scratchRefs), cache, result,
        scratch)
    {
      var before := resultChecksum;
      if result.Some? {
        OneByOne(cache.refholderCounts, result.value);
        AcquireResult(result.value);
      }
      resultChecksum := result;
      ghost var mid := cache.strong;
      assert Continues(old(cache.strong), mid, {});
      Drop(before, clock);
      ContinuesThen(old(cache.strong), mid, cache.strong,
                    set c | c in Optional(before) && c !in cache.refholderCounts);
    }

    /** A result that was computed, or taken back. The accounting stays balanced unless the Cell was released and the
        exchange of results is not harmless. */
    method ReplaceResult(result: Option<Checksum>, clock: Clock)
      requires Valid()
      modifies cache, `resultChecksum
      ensures Valid() && resultChecksum == result
      ensures cache.refholderCounts == Exchange(old(cache.refholderCounts), Optional(result),
        Optional(old(resultChecksum)))
      ensures Moves(old(cache.refholderCounts), cache.refholderCounts, old(Claims()), Claims()) <==>
        !released || Harmless(old(cache.refholderCounts), Optional(result), Optional(old(resultChecksum)))
      ensures Continues(old(cache.strong), cache.strong,
        set c | c in Optional(old(resultChecksum)) && c !in cache.refholderCounts)
      ensures Owned(old(cache.strong), old(cache.weak), old(cache.written), old(cache.scratchRefs), cache, result,
        scratch)
    {
      ghost var counts, before := cache.refholderCounts, Claims();
      SetResultChecksum(result, clock);
      if released {
        ExchangeIsHarmless(counts, Optional(result), Optional(old(resultChecksum)));
      } else {
        ClaimsTimes(inputRef, old(resultChecksum));
        ClaimsTimes(inputRef, result);
        ExchangeMoves(counts, Optional(result), Optional(old(resultChecksum)), before, Claims());
        MovesBack(counts, cache.refholderCounts, before, Claims());
      }
    }

    /** The `scratch` setter re-acquires the held result under the new policy, and never unpins it meanwhile. */
    method SetScratch(scratch: bool, clock: Clock)
      requires Valid()
      modifies cache, `resultChecksum, `scratch
      ensures Valid() && this.scratch == scratch && resultChecksum == old(resultChecksum)
      ensures Moves(old(cache.refholderCounts), cache.refholderCounts, Claims(), Claims())
      ensures !released ==> Continues(old(cache.strong), cache.strong, {})
      ensures Owned(old(cache.strong), old(cache.weak), old(cache.written), old(cache.scratchRefs), cache,
        resultChecksum, scratch)
      ensures !released && resultChecksum.Some? ==> resultChecksum.value in cache.refholderCounts
    {
      this.scratch := scratch;
      ghost var same := Optional(resultChecksum);
      assert Harmless(cache.refholderCounts, same, same) by {
        forall c ensures HarmlessAt(cache.refholderCounts, same, same, c) {}
      }
      ReplaceResult(resultChecksum, clock);
      if !released {
        forall c | c in Optional(resultChecksum) ensures c in cache.refholderCounts {
          ClaimsTimes(inputRef, resultChecksum);
          assert Times(Claims(), c) <= GetOr(cache.refholderCounts, c, 0);
        }
        assert (set c | c in Optional(resultChecksum) && c !in cache.refholderCounts) == {};
      }
    }

    /** The claim on a new input, for keeps. */
    method AcquireInput(ref: InputRef)
      requires cache.Valid()
      modifies cache
      ensures cache.Valid() && cache.refholderCounts == IncrefAll(old(cache.refholderCounts), Claimed(ref))
      ensures Owned(old(cache.strong), old(cache.weak), old(cache.written), old(cache.scratchRefs), cache,
        InputChecksum(ref), false)
    {
      if ref.Concrete? {
        OneByOne(cache.refholderCounts, ref.checksum);
        cache.IncrefRefholder(ref.checksum, None, Some(false));
      }
    }

    /** `_replace_input_ref`: the old input is given up last. Nothing asks whether the Cell was released. */
    method ReplaceInputRef(ref: InputRef, clock: Clock)
      requires Valid()
      modifies cache, `inputRef, `resultChecksum
      ensures Valid() && inputRef == ref && resultChecksum == None
      ensures var adds, drops := Claimed(ref), Optional(old(resultChecksum)) + Claimed(old(inputRef));
        && cache.refholderCounts == Exchange(old(cache.refholderCounts), adds, drops)
        && (Moves(old(cache.refholderCounts), cache.refholderCounts, old(Claims()), Claims()) <==>
            !released || Harmless(old(cache.refholderCounts), adds, drops))
      ensures cache.scratchRefs == if ref.Concrete? then old(cache.scratchRefs) - {ref.checksum}
        else old(cache.scratchRefs)
    {
      ghost var counts, before := cache.refholderCounts, Claims();
      ghost var input, result := Claimed(inputRef), Optional(resultChecksum);
      var former := inputRef;
      AcquireInput(ref);
      inputRef := ref;
      SetResultChecksum(None, clock);
      DecrefInTurn(IncrefAll(counts, Claimed(ref)), result, input);
      Drop(InputChecksum(former), clock);
      assert cache.refholderCounts == Exchange(counts, Claimed(ref), result + input);
      if released {
        ExchangeIsHarmless(counts, Claimed(ref), result + input);
      } else {
        InputExchange(counts, input, result, Claimed(ref));
        MovesBack(counts, cache.refholderCounts, before, Claims());
      }
    }

    /** `_release_refholds`; only the first call has an effect. */
    method ReleaseRefholds(clock: Clock)
      requires Valid()
      modifies cache, `resultChecksum, `released
      ensures Valid() && released
      ensures Moves(old(cache.refholderCounts), cache.refholderCounts, old(Claims()), [])
      ensures old(released) ==> cache.refholderCounts == old(cache.refholderCounts)
    {
      ghost var counts, before := cache.refholderCounts, Claims();
      if released {
        ExchangeMoves(counts, [], [], before, []);
        return;
      }
      ghost var input, result := Claimed(inputRef), Optional(resultChecksum);
      released := true;
      Drop(InputChecksum(inputRef), clock);
      SetResultChecksum(None, clock);
      DecrefInTurn(counts, input, result);
      assert cache.refholderCounts == Exchange(counts, [], input + result);
      ExchangeMoves(counts, [], input + result, before, []);
      MovesBack(counts, cache.refholderCounts, before, []);
    }

    /** `__copy__`: the duplicate makes claims of its own, unless the original was released. */
    method Copy(clock: Clock) returns (duplicate: Cell)
      requires Valid()
      modifies cache
      ensures fresh(duplicate) && duplicate.Valid() && duplicate.cache == cache
      ensures duplicate.Claims() == Claims() && duplicate.released == released && duplicate.scratch == scratch
      ensures Moves(old(cache.refholderCounts), cache.refholderCounts, [], duplicate.Claims())
    {
      ghost var counts := cache.refholderCounts;
      duplicate := new Cell.Blank(cache, inputRef, scratch);
      if !released { AcquireInput(inputRef); }
      if resultChecksum.Some? && !released {
        duplicate.SetResultChecksum(resultChecksum, clock);
      } else {
        duplicate.released := released;
      }
      CopyExchange(counts, Claimed(inputRef), Optional(resultChecksum));
      MovesBack(counts, cache.refholderCounts, [], duplicate.Claims());
    }

    /** A duplicate before it has made any claims. */
    constructor Blank(cache: BufferCache, ref: InputRef, scratch: bool)
      ensures this.cache == cache && inputRef == ref && this.scratch == scratch
      ensures resultChecksum == None && !released
    {
      this.cache, inputRef, resultChecksum, this.scratch, released := cache, ref, None, scratch, false;
    }
  }

  lemma InputExchange(counts: Counts, input: seq<Checksum>, result: seq<Checksum>, input': seq<Checksum>)
    requires Positive(counts) && Backed(counts, input + result)
    ensures Moves(counts, Exchange(counts, input', result + input), input + result, input' + [])
  {
    forall c ensures Times(input + result, c) + Times(input', c) == Times(input' + [], c) + Times(result + input, c) {
      TimesConcat(input, result, c);
      TimesConcat(result, input, c);
      TimesConcat(input', [], c);
    }
    ExchangeMoves(counts, input', result + input, input + result, input' + []);
  }

  lemma CopyExchange(counts: Counts, input: seq<Checksum>, result: seq<Checksum>)
    requires Positive(counts)
    ensures Moves(counts, counts, [], [])
    ensures Moves(counts, IncrefAll(IncrefAll(counts, input), result), [], input + result)
  {
    IncrefInTurn(counts, input, result);
    ExchangeMoves(counts, [], [], [], []);
    ExchangeMoves(counts, input + result, [], [], input + result);
  }

  /** A released Cell that gets another input makes a claim that nobody gives up; one that loses its input takes
      away the claim of someone else. */
  lemma InputAfterReleaseUnbalances()
    ensures var a, b := Checksum("aa"), Checksum("bb");
      !Harmless(map[], [b], [a]) && !Harmless(map[a := 1], [], [a])
  {
    var a, b := Checksum("aa"), Checksum("bb");
    assert a.hex[0] != b.hex[0] && [a][1..] == [] && [b][1..] == [];
    assert !HarmlessAt(map[], [b], [a], b) && !HarmlessAt(map[a := 1], [], [a], a);
  }

  /** The fields of an Expression that concern its claim on a result. */
  datatype Hold = Hold(result: Option<Checksum>, wanted: bool, refheld: bool, released: bool)

  function HoldClaims(h: Hold): seq<Checksum> {
    if !h.released && h.wanted then Optional(h.result) else []
  }

  predicate HoldSane(h: Hold) {
    && (h.refheld ==> h.wanted && h.result.Some? && !h.released)
    && (!h.released && h.wanted && h.result.Some? ==> h.refheld)
  }

  /** `_hold_result`, and the claims it adds and drops. */
  function Held(h: Hold, c: Checksum): (Hold, seq<Checksum>, seq<Checksum>) {
    if h.result == Some(c) then
      if h.wanted && !h.refheld then (h.(refheld := true), [c], []) else (h, [], [])
    else
      var refheld := h.wanted && !h.released;
      (h.(result := Some(c), refheld := refheld), if refheld then [c] else [],
          if h.refheld then Optional(h.result) else [])
  }

  /** Holding a result again after the release makes a claim that nobody will give up: the branch for an unchanged
      result does not look at the released flag. In all other cases the accounting stays balanced. */
  predicate HoldLeaks(h: Hold, c: Checksum) {
    h.released && h.wanted && h.result == Some(c)
  }

  lemma HoldIsBalanced(h: Hold, c: Checksum, counts: Counts)
    requires HoldSane(h) && Positive(counts) && Backed(counts, HoldClaims(h))
    ensures var (h', adds, drops) := Held(h, c);
      && (Moves(counts, Exchange(counts, adds, drops), HoldClaims(h), HoldClaims(h')) <==> !HoldLeaks(h, c))
      && (HoldSane(h') <==> !HoldLeaks(h, c))
  {
    var (h', adds, drops) := Held(h, c);
    var before, after := HoldClaims(h), HoldClaims(h');
    if HoldLeaks(h, c) {
      OneByOne(counts, c);
      assert !MovesAt(counts, Exchange(counts, adds, drops), before, after, c);
    } else {
      ExchangeMoves(counts, adds, drops, before, after);
    }
  }

  /** A released Expression that is evaluated to the result it already has. */
  lemma HoldAfterReleaseLeaks()
    ensures var c := Checksum("ab");
      var h := Hold(Some(c), true, false, true);
      HoldSane(h) && Held(h, c).1 == [c] && HoldClaims(Held(h, c).0) == []
  {
  }

  class Expression {
    const cache: BufferCache
    var resultChecksum: Option<Checksum>
    var refholdResult: bool
    var resultRefheld: bool
    var released: bool

    function H(): Hold
      reads this
    {
      Hold(resultChecksum, refholdResult, resultRefheld, released)
    }

    ghost predicate Valid()
      reads this, cache
    {
      cache.Valid() && HoldSane(H()) && Backed(cache.refholderCounts, HoldClaims(H()))
    }

    constructor (cache: BufferCache)
      requires cache.Valid()
      ensures Valid() && this.cache == cache && H() == Hold(None, false, false, false)
    {
      this.cache, resultChecksum, refholdResult, resultRefheld, released := cache, None, false, false, false;
    }

    /** A neutral claim: it counts, and neither publishes nor changes scratch status. */
    method Acquire(c: Checksum)
      requires cache.Valid()
      modifies cache
      ensures cache.Valid() && cache.refholderCounts == IncrefAll(old(cache.refholderCounts), [c])
      ensures cache.scratchRefs == old(cache.scratchRefs) && cache.written == old(cache.written)
    {
      OneByOne(cache.refholderCounts, c);
      cache.IncrefRefholder(c, None, None);
    }

    method EnableResultHolding()
      requires Valid()
      modifies cache, `refholdResult, `resultRefheld
      ensures Valid() && refholdResult == (old(refholdResult) || !released)
      ensures Moves(old(cache.refholderCounts), cache.refholderCounts, old(HoldClaims(H())), HoldClaims(H()))
      ensures cache.scratchRefs == old(cache.scratchRefs) && cache.written == old(cache.written)
    {
      ghost var counts, before := cache.refholderCounts, HoldClaims(H());
      if released {
        ExchangeMoves(counts, [], [], before, before);
        return;
      }
      refholdResult := true;
      ghost var adds := if resultRefheld then [] else Optional(resultChecksum);
      if resultChecksum.Some? && !resultRefheld {
        Acquire(resultChecksum.value);
        resultRefheld := true;
      }
      ExchangeMoves(counts, adds, [], before, HoldClaims(H()));
      MovesBack(counts, cache.refholderCounts, before, HoldClaims(H()));
    }

    /** Fails where the tempref of the result does, before anything else. */
    method HoldResult(checksum: Checksum, clock: Clock, now: real) returns (ok: bool)
      requires Valid()
      modifies cache, `resultChecksum, `resultRefheld
      ensures cache.Valid() && (!ok ==> H() == old(H()) && cache.refholderCounts == old(cache.refholderCounts))
      ensures ok ==> H() == Held(old(H()), checksum).0
      ensures ok ==>
        var (_, adds, drops) := Held(old(H()), checksum);
        cache.refholderCounts == Exchange(old(cache.refholderCounts), adds, drops)
      ensures !ok || !HoldLeaks(old(H()), checksum) ==> Valid()
      ensures !ok || !HoldLeaks(old(H()), checksum) ==>
        Moves(old(cache.refholderCounts), cache.refholderCounts, old(HoldClaims(H())), HoldClaims(H()))
      ensures cache.scratchRefs == old(cache.scratchRefs) && cache.written == old(cache.written)
    {
      ghost var counts, h := cache.refholderCounts, H();
      HoldIsBalanced(h, checksum, counts);
      ok := cache.AddTempref(checksum, None, 128.0, 2.0, 2.0, now);
      if !ok {
        ExchangeMoves(counts, [], [], HoldClaims(h), HoldClaims(h));
        return;
      }
      var before := resultChecksum;
      if before == Some(checksum) {
        if refholdResult && !resultRefheld {
          Acquire(checksum);
          resultRefheld := true;
        }
      } else {
        var wasHeld := resultRefheld;
        var holds := refholdResult && !released;
        if holds {
          Acquire(checksum);
        }
        resultChecksum, resultRefheld := Some(checksum), holds;
        if before.Some? && wasHeld {
          OneByOne(cache.refholderCounts, before.value);
          var held := cache.DecrefRefholder(before.value, clock);
        }
      }
      if !HoldLeaks(h, checksum) { MovesBack(counts, cache.refholderCounts, HoldClaims(h), HoldClaims(H())); }
    }

    /** `_release_refholds`; only the first call has an effect. */
    method ReleaseRefholds(clock: Clock)
      requires Valid()
      modifies cache, `resultRefheld, `released
      ensures Valid() && released
      ensures Moves(old(cache.refholderCounts), cache.refholderCounts, old(HoldClaims(H())), [])
      ensures old(released) ==> cache.refholderCounts == old(cache.refholderCounts)
    {
      ghost var counts, before := cache.refholderCounts, HoldClaims(H());
      if released {
        ExchangeMoves(counts, [], [], before, []);
        return;
      }
      released := true;
      ExchangeMoves(counts, [], before, before, []);
      if resultRefheld && resultChecksum.Some? {
        OneByOne(counts, resultChecksum.value);
        var held := cache.DecrefRefholder(resultChecksum.value, clock);
        resultRefheld := false;
      }
      MovesBack(counts, cache.refholderCounts, before, []);
    }

    /** `__copy__`: a duplicate of a released Expression is released at once. There is none if its tempref fails. */
    method Copy(clock: Clock, now: real) returns (duplicate: Expression?)
      requires Valid()
      modifies cache
      ensures cache.Valid()
      ensures duplicate == null ==> cache.refholderCounts == old(cache.refholderCounts)
      ensures duplicate != null ==>
        && fresh(duplicate) && duplicate.Valid() && duplicate.cache == cache && duplicate.H() == H()
        && Moves(old(cache.refholderCounts), cache.refholderCounts, [], HoldClaims(duplicate.H()))
      ensures cache.scratchRefs == old(cache.scratchRefs) && cache.written == old(cache.written)
    {
      ghost var counts := cache.refholderCounts;
      var copy := new Expression(cache);
      var result := resultChecksum;
      if result.Some? {
        var ok := cache.AddTempref(result.value, None, 128.0, 2.0, 2.0, now);
        if !ok {
          return null;
        }
        copy.resultChecksum := result;
      }
      copy.refholdResult := refholdResult;
      ExchangeMoves(counts, HoldClaims(H()), [], [], HoldClaims(H()));
      if result.Some? && refholdResult && !released {
        Acquire(result.value);
        copy.resultRefheld := true;
      }
      // The duplicate of a released Expression has made no claim, so releasing it only sets the flag.
      if released { copy.released := true; }
      MovesBack(counts, cache.refholderCounts, [], HoldClaims(copy.H()));
      duplicate := copy;
    }
  }

  lemma ClaimsTimes(ref: InputRef, result: Option<Checksum>)
    ensures forall c :: Times(CellClaims(ref, result, false), c) == Times(Claimed(ref), c) + Times(Optional(result), c)
  {
    forall c ensures Times(CellClaims(ref, result, false), c) == Times(Claimed(ref), c) + Times(Optional(result), c) {
      TimesConcat(Claimed(ref), Optional(result), c);
    }
  }

  /** After a balanced change the new claims are counted. */
  lemma MovesBack(counts: Counts, counts': Counts, before: seq<Checksum>, after: seq<Checksum>)
    requires Moves(counts, counts', before, after) && Backed(counts, before)
    ensures Backed(counts', after)
  {
    forall c ensures Times(after, c) <= GetOr(counts', c, 0) {
      assert MovesAt(counts, counts', before, after, c) && Times(before, c) <= GetOr(counts, c, 0);
    }
  }

  // ----- The audit -----

  datatype Finding =
    | Unattributed(checksum: Checksum, count: nat, claims: nat)
    | NotAcquired(checksum: Checksum, count: nat, claims: nat)
    | BridgeMismatch(checksum: Checksum, count: nat, bridge: bool)
    | UnmatchedManual(checksum: Checksum, manualRefs: nat)

  /** What the audit reports about one checksum; `warn` asks for manual references. */
  function Findings(c: Checksum, count: nat, manualRefs: nat, bridge: bool, claims: nat, warn: bool): seq<Finding> {
    (if count > claims then [Unattributed(c, count, claims)]
     else if claims > count then [NotAcquired(c, count, claims)] else [])
    + (if bridge != (count > 0) then [BridgeMismatch(c, count, bridge)] else [])
    + (if warn && manualRefs > 0 then [UnmatchedManual(c, manualRefs)] else [])
  }

  predicate HasBridge(strong: Strong, c: Checksum) {
    c in strong && strong[c].bridge
  }

  /** Whether the audit asks about manual references on `c`: not if it has warned about them before. */
  predicate AsksManual(warnManual: bool, warned: Option<set<Checksum>>, c: Checksum) {
    warnManual && (warned.None? || c !in warned.value)
  }

  /** The accounting of `c` agrees with the claims of the holders. */
  ghost predicate AgreesAt(counts: Counts, strong: Strong, holders: seq<seq<Checksum>>, askManual: bool, c: Checksum) {
    && GetOr(counts, c, 0) == Total(holders, c)
    && HasBridge(strong, c) == (GetOr(counts, c, 0) > 0)
    && (askManual ==> ManualRefs(strong, c) == 0)
  }

  /** What is wrong with one checksum, in the words of the audit. */
  ghost predicate Reported(counts: Counts, strong: Strong, holders: seq<seq<Checksum>>, warnManual: bool,
                           warned: Option<set<Checksum>>, f: Finding)
  {
    var c := f.checksum;
    var count, claims := GetOr(counts, c, 0), Total(holders, c);
    match f
    case Unattributed(_, n, k) => n == count && k == claims && count > claims
    case NotAcquired(_, n, k) => n == count && k == claims && claims > count
    case BridgeMismatch(_, n, bridge) =>
      n == count && bridge == (c in strong && strong[c].bridge) && bridge != (count > 0)
    case UnmatchedManual(_, manualRefs) =>
      && c in strong && strong[c].manualRefs == manualRefs && manualRefs > 0
      && warnManual && (warned.Some? ==> c !in warned.value)
  }

  lemma FindingsAreReports(counts: Counts, strong: Strong, holders: seq<seq<Checksum>>, warnManual: bool,
                           warned: Option<set<Checksum>>, c: Checksum)
    ensures var ask := AsksManual(warnManual, warned, c);
      forall f ::
        f in Findings(c, GetOr(counts, c, 0), ManualRefs(strong, c), HasBridge(strong, c), Total(holders, c), ask) <==>
        f.checksum == c && Reported(counts, strong, holders, warnManual, warned, f)
  {
  }

  /** Exactly what does not agree is reported. */
  lemma AgreesUnlessReported(counts: Counts, strong: Strong, holders: seq<seq<Checksum>>, warnManual: bool,
                             warned: Option<set<Checksum>>)
    ensures (forall c :: AgreesAt(counts, strong, holders, AsksManual(warnManual, warned, c), c)) <==>
      (forall f :: !Reported(counts, strong, holders, warnManual, warned, f))
  {
    if forall f :: !Reported(counts, strong, holders, warnManual, warned, f) {
      forall c ensures AgreesAt(counts, strong, holders, AsksManual(warnManual, warned, c), c) {
        var count, claims := GetOr(counts, c, 0), Total(holders, c);
        assert !Reported(counts, strong, holders, warnManual, warned, Unattributed(c, count, claims));
        assert !Reported(counts, strong, holders, warnManual, warned, NotAcquired(c, count, claims));
        assert !Reported(counts, strong, holders, warnManual, warned, BridgeMismatch(c, count, HasBridge(strong, c)));
        assert !Reported(counts, strong, holders, warnManual, warned, UnmatchedManual(c, ManualRefs(strong, c)));
      }
    } else {
      var f :| Reported(counts, strong, holders, warnManual, warned, f);
      assert !AgreesAt(counts, strong, holders, AsksManual(warnManual, warned, f.checksum), f.checksum);
    }
  }

  /** The claim index: for each claimed checksum the number of live claims. */
  method CollectClaims(holders: seq<seq<Checksum>>) returns (index: Counts)
    ensures Balanced(holders, index)
  {
    index := map[];
    for i := 0 to |holders|
      invariant Balanced(holders[..i], index)
    {
      ghost var before := index;
      index := AddClaims(index, holders[i]);
      ExchangeMoves(before, holders[i], [], [], holders[i]);
      NewHolder(holders[..i], before, holders[i], index);
      assert holders[..i + 1] == holders[..i] + [holders[i]];
    }
    assert holders[..|holders|] == holders;
  }

  method AddClaims(index: Counts, claims: seq<Checksum>) returns (r: Counts)
    ensures r == IncrefAll(index, claims)
  {
    r := index;
    for i := 0 to |claims|
      invariant IncrefAll(r, claims[i..]) == IncrefAll(index, claims)
    {
      assert claims[i..][1..] == claims[i + 1..];
      r := Incref(r, claims[i]);
    }
  }

  /** `audit_reference_accounting`: silent exactly when every refholder count is the number of live claims, every
      bridge is set exactly while its count is positive, and, where asked for, no manual reference is left. The
      checksums it warns about on account of manual references are added to `warned`. */
  method AuditReferenceAccounting(cache: BufferCache, holders: seq<seq<Checksum>>, warnManual: bool,
                                  warned: Option<set<Checksum>>)
    returns (findings: seq<Finding>, warned': Option<set<Checksum>>)
    ensures findings == [] <==> forall c ::
      AgreesAt(cache.refholderCounts, cache.strong, holders, AsksManual(warnManual, warned, c), c)
    ensures forall f :: f in findings <==>
      Reported(cache.refholderCounts, cache.strong, holders, warnManual, warned, f)
    ensures warned'.Some? <==> warned.Some?
    ensures warned.Some? ==> forall c ::
      c in warned'.value <==> c in warned.value || (warnManual && ManualRefs(cache.strong, c) > 0)
  {
    var index := CollectClaims(holders);
    var checksums := cache.refholderCounts.Keys + cache.strong.Keys + index.Keys;
    findings, warned' := [], warned;
    ghost var done: set<Checksum> := {};
    var rest := checksums;
    while rest != {}
      invariant done + rest == checksums && done !! rest
      invariant forall f :: f in findings <==>
        f.checksum in done && Reported(cache.refholderCounts, cache.strong, holders, warnManual, warned, f)
      invariant warned'.Some? <==> warned.Some?
      invariant warned.Some? ==> forall c :: c in warned'.value <==>
        c in warned.value || (c in done && warnManual && ManualRefs(cache.strong, c) > 0)
      decreases rest
    {
      var c :| c in rest;
      rest := rest - {c};
      var count, manualRefs := GetOr(cache.refholderCounts, c, 0), ManualRefs(cache.strong, c);
      var ask := AsksManual(warnManual, warned', c);
      FindingsAreReports(cache.refholderCounts, cache.strong, holders, warnManual, warned, c);
      findings := findings + Findings(c, count, manualRefs, HasBridge(cache.strong, c), GetOr(index, c, 0), ask);
      if ask && manualRefs > 0 && warned'.Some? { warned' := Some(warned'.value + {c}); }
      done := done + {c};
    }
    forall f: Finding | f.checksum !in checksums
      ensures !Reported(cache.refholderCounts, cache.strong, holders, warnManual, warned, f)
    {
      assert GetOr(index, f.checksum, 0) == Total(holders, f.checksum);
    }
    AgreesUnlessReported(cache.refholderCounts, cache.strong, holders, warnManual, warned);
    if findings != [] { assert findings[0] in findings; }
  }

  /** The audit finds no refholder imbalance in any state that balanced changes lead to: with a valid cache, balanced
      counts are all it asks for. */
  lemma BalancedPassesAudit(strong: Strong, weak: map<Checksum, Buffer>, sizes: map<Checksum, nat>, counts: Counts,
                            holders: seq<seq<Checksum>>)
    requires Sound(strong, weak, sizes, counts) && Balanced(holders, counts)
    ensures forall c :: AgreesAt(counts, strong, holders, false, c)
  {
    forall c ensures AgreesAt(counts, strong, holders, false, c) { assert SoundAt(strong, weak, sizes, counts, c); }
  }
}
