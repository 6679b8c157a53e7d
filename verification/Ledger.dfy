/** The refholder counts of the buffer cache, as a plain tally of claims (`caching/buffer_cache.py`). */
module Ledger {
  import opened Prelude

  type Counts = map<Checksum, nat>

  /** Counts are kept only while positive. */
  ghost predicate Positive(counts: Counts) {
    forall c :: c in counts ==> counts[c] > 0
  }

  function Incref(counts: Counts, c: Checksum): Counts {
    counts[c := GetOr(counts, c, 0) + 1]
  }

  /** A decrement at zero is ignored with a warning. */
  function Decref(counts: Counts, c: Checksum): Counts {
    if GetOr(counts, c, 0) == 0 then counts
    else if counts[c] == 1 then counts - {c}
    else counts[c := counts[c] - 1]
  }

  function IncrefAll(counts: Counts, cs: seq<Checksum>): Counts
    decreases |cs|
  {
    if cs == [] then counts else IncrefAll(Incref(counts, cs[0]), cs[1..])
  }

  function DecrefAll(counts: Counts, cs: seq<Checksum>): Counts
    decreases |cs|
  {
    if cs == [] then counts else DecrefAll(Decref(counts, cs[0]), cs[1..])
  }

  /** How often `c` occurs in a list of claims. */
  function Times(cs: seq<Checksum>, c: Checksum): nat {
    if cs == [] then 0 else (if cs[0] == c then 1 else 0) + Times(cs[1..], c)
  }

  lemma {:induction false} IncrefAllCounts(counts: Counts, cs: seq<Checksum>, c: Checksum)
    requires Positive(counts)
    ensures Positive(IncrefAll(counts, cs))
    ensures GetOr(IncrefAll(counts, cs), c, 0) == GetOr(counts, c, 0) + Times(cs, c)
    decreases |cs|
  {
    if cs != [] { IncrefAllCounts(Incref(counts, cs[0]), cs[1..], c); }
  }

  /** Releasing claims that were counted takes exactly them away; no decrement is ignored. */
  lemma {:induction false} DecrefAllCounts(counts: Counts, cs: seq<Checksum>, c: Checksum)
    requires Positive(counts) && forall d :: Times(cs, d) <= GetOr(counts, d, 0)
    ensures Positive(DecrefAll(counts, cs))
    ensures GetOr(DecrefAll(counts, cs), c, 0) == GetOr(counts, c, 0) - Times(cs, c)
    decreases |cs|
  {
    if cs != [] {
      assert Times(cs, cs[0]) <= GetOr(counts, cs[0], 0);
      forall d ensures Times(cs[1..], d) <= GetOr(Decref(counts, cs[0]), d, 0) {
        assert Times(cs, d) <= GetOr(counts, d, 0);
      }
      DecrefAllCounts(Decref(counts, cs[0]), cs[1..], c);
    }
  }

  lemma {:induction false} TimesConcat(cs: seq<Checksum>, ds: seq<Checksum>, c: Checksum)
    ensures Times(cs + ds, c) == Times(cs, c) + Times(ds, c)
  {
    if cs == [] {
      assert cs + ds == ds;
    } else {
      assert (cs + ds)[1..] == cs[1..] + ds;
      TimesConcat(cs[1..], ds, c);
    }
  }

  // ----- Balanced accounting -----

  ghost predicate MovesAt(counts: Counts, counts': Counts, before: seq<Checksum>, after: seq<Checksum>, c: Checksum) {
    GetOr(counts', c, 0) + Times(before, c) == GetOr(counts, c, 0) + Times(after, c)
  }

  /** The counts change exactly as one holder's claims do. */
  ghost predicate Moves(counts: Counts, counts': Counts, before: seq<Checksum>, after: seq<Checksum>) {
    Positive(counts') && forall c :: MovesAt(counts, counts', before, after, c)
  }

  /** Every claim of a holder has been counted. */
  ghost predicate Backed(counts: Counts, claims: seq<Checksum>) {
    forall c :: Times(claims, c) <= GetOr(counts, c, 0)
  }

  /** The claims on `c` over all holders. */
  function Total(holders: seq<seq<Checksum>>, c: Checksum): nat {
    if holders == [] then 0 else Times(holders[0], c) + Total(holders[1..], c)
  }

  /** The count of every checksum is the number of live claims on it. */
  ghost predicate Balanced(holders: seq<seq<Checksum>>, counts: Counts) {
    Positive(counts) && forall c :: GetOr(counts, c, 0) == Total(holders, c)
  }

  lemma {:induction false} TotalUpdate(holders: seq<seq<Checksum>>, i: nat, claims: seq<Checksum>, c: Checksum)
    requires i < |holders|
    ensures Total(holders[i := claims], c) + Times(holders[i], c) == Total(holders, c) + Times(claims, c)
    ensures Times(holders[i], c) <= Total(holders, c)
  {
    if i == 0 {
      assert holders[0 := claims][1..] == holders[1..];
    } else {
      assert holders[i := claims][1..] == holders[1..][i - 1 := claims];
      TotalUpdate(holders[1..], i - 1, claims, c);
    }
  }

  lemma {:induction false} TotalAppend(holders: seq<seq<Checksum>>, claims: seq<Checksum>, c: Checksum)
    ensures Total(holders + [claims], c) == Total(holders, c) + Times(claims, c)
  {
    if holders == [] {
      assert (holders + [claims])[1..] == [];
    } else {
      assert (holders + [claims])[1..] == holders[1..] + [claims];
      TotalAppend(holders[1..], claims, c);
    }
  }

  lemma HolderIsBacked(holders: seq<seq<Checksum>>, counts: Counts, i: nat)
    requires Balanced(holders, counts) && i < |holders|
    ensures Backed(counts, holders[i])
  {
    forall c ensures Times(holders[i], c) <= GetOr(counts, c, 0) { TotalUpdate(holders, i, holders[i], c); }
  }

  /** Conservation: a holder whose own changes are balanced keeps the whole accounting balanced, whatever the other
      holders claim. */
  lemma HolderStep(holders: seq<seq<Checksum>>, counts: Counts, i: nat, claims: seq<Checksum>, counts': Counts)
    requires Balanced(holders, counts) && i < |holders| && Moves(counts, counts', holders[i], claims)
    ensures Backed(counts, holders[i])
    ensures Balanced(holders[i := claims], counts')
  {
    forall c ensures GetOr(counts', c, 0) == Total(holders[i := claims], c) && Times(holders[i], c) <= GetOr(counts,
        c, 0) {
      TotalUpdate(holders, i, claims, c);
      assert MovesAt(counts, counts', holders[i], claims, c);
    }
  }

  lemma NewHolder(holders: seq<seq<Checksum>>, counts: Counts, claims: seq<Checksum>, counts': Counts)
    requires Balanced(holders, counts) && Moves(counts, counts', [], claims)
    ensures Balanced(holders + [claims], counts')
  {
    forall c ensures GetOr(counts', c, 0) == Total(holders + [claims], c) {
      TotalAppend(holders, claims, c);
      assert MovesAt(counts, counts', [], claims, c);
    }
  }

  lemma {:induction false} TotalConcat(a: seq<seq<Checksum>>, b: seq<seq<Checksum>>, c: Checksum)
    ensures Total(a + b, c) == Total(a, c) + Total(b, c)
  {
    if a == [] {
      assert a + b == b;
    } else {
      assert (a + b)[1..] == a[1..] + b;
      TotalConcat(a[1..], b, c);
    }
  }

  /** A new holder may come anywhere among the others. */
  lemma NewHolderAmong(front: seq<seq<Checksum>>, back: seq<seq<Checksum>>, counts: Counts, claims: seq<Checksum>,
                       counts': Counts)
    requires Balanced(front + back, counts) && Moves(counts, counts', [], claims)
    ensures Balanced(front + [claims] + back, counts')
  {
    forall c ensures GetOr(counts', c, 0) == Total(front + [claims] + back, c) {
      TotalConcat(front, back, c);
      TotalAppend(front, claims, c);
      TotalConcat(front + [claims], back, c);
      assert MovesAt(counts, counts', [], claims, c);
    }
  }

  function Optional(c: Option<Checksum>): seq<Checksum> {
    if c.Some? then [c.value] else []
  }

  /** Acquires `adds` and then releases `drops`. */
  function Exchange(counts: Counts, adds: seq<Checksum>, drops: seq<Checksum>): Counts {
    DecrefAll(IncrefAll(counts, adds), drops)
  }

  lemma OneByOne(counts: Counts, c: Checksum)
    ensures IncrefAll(counts, [c]) == Incref(counts, c) && DecrefAll(counts, [c]) == Decref(counts, c)
  {
    assert [c][1..] == [];
  }

  lemma {:induction false} DecrefInTurn(counts: Counts, first: seq<Checksum>, second: seq<Checksum>)
    ensures DecrefAll(counts, first + second) == DecrefAll(DecrefAll(counts, first), second)
    decreases |first|
  {
    if first == [] {
      assert first + second == second;
    } else {
      assert (first + second)[1..] == first[1..] + second;
      DecrefInTurn(Decref(counts, first[0]), first[1..], second);
    }
  }

  lemma {:induction false} IncrefInTurn(counts: Counts, first: seq<Checksum>, second: seq<Checksum>)
    ensures IncrefAll(counts, first + second) == IncrefAll(IncrefAll(counts, first), second)
    decreases |first|
  {
    if first == [] {
      assert first + second == second;
    } else {
      assert (first + second)[1..] == first[1..] + second;
      IncrefInTurn(Incref(counts, first[0]), first[1..], second);
    }
  }

  /** An exchange that turns the claims `before` into `after` moves the counts in the same way. */
  lemma ExchangeMoves(counts: Counts, adds: seq<Checksum>, drops: seq<Checksum>, before: seq<Checksum>,
                      after: seq<Checksum>)
    requires Positive(counts) && Backed(counts, before)
    requires forall c :: Times(before, c) + Times(adds, c) == Times(after, c) + Times(drops, c)
    ensures Moves(counts, Exchange(counts, adds, drops), before, after)
  {
    var mid := IncrefAll(counts, adds);
    forall d ensures Positive(mid) && GetOr(mid, d, 0) == GetOr(counts, d, 0) + Times(adds, d) {
      IncrefAllCounts(counts, adds, d);
    }
    IncrefAllCounts(counts, adds, Checksum(""));
    forall d ensures Times(drops, d) <= GetOr(mid, d, 0) {
      assert Times(before, d) <= GetOr(counts, d, 0);
    }
    DecrefAllCounts(mid, drops, Checksum(""));
    forall c ensures MovesAt(counts, Exchange(counts, adds, drops), before, after, c) {
      DecrefAllCounts(mid, drops, c);
    }
  }

  // ----- Changes by a holder that is not audited any more -----

  /** Decrements at zero are ignored, so a count never falls below zero. */
  lemma {:induction false} DecrefAllSaturates(counts: Counts, cs: seq<Checksum>, c: Checksum)
    requires Positive(counts)
    ensures Positive(DecrefAll(counts, cs))
    ensures var n := GetOr(counts, c, 0) - Times(cs, c);
      GetOr(DecrefAll(counts, cs), c, 0) == if n < 0 then 0 else n
    decreases |cs|
  {
    if cs != [] { DecrefAllSaturates(Decref(counts, cs[0]), cs[1..], c); }
  }

  predicate HarmlessAt(counts: Counts, adds: seq<Checksum>, drops: seq<Checksum>, c: Checksum) {
    Times(adds, c) == Times(drops, c) || (Times(adds, c) < Times(drops, c) && GetOr(counts, c, 0) == 0)
  }

  /** The drops outweigh the adds only where nothing is counted. */
  ghost predicate Harmless(counts: Counts, adds: seq<Checksum>, drops: seq<Checksum>) {
    forall c :: HarmlessAt(counts, adds, drops, c)
  }

  /** An exchange leaves all counts alone if and only if it is harmless. */
  lemma ExchangeIsHarmless(counts: Counts, adds: seq<Checksum>, drops: seq<Checksum>)
    requires Positive(counts)
    ensures Positive(Exchange(counts, adds, drops))
    ensures Moves(counts, Exchange(counts, adds, drops), [], []) <==> Harmless(counts, adds, drops)
  {
    var mid, counts' := IncrefAll(counts, adds), Exchange(counts, adds, drops);
    IncrefAllCounts(counts, adds, Checksum(""));
    DecrefAllSaturates(mid, drops, Checksum(""));
    forall c ensures MovesAt(counts, counts', [], [], c) <==> HarmlessAt(counts, adds, drops, c) {
      IncrefAllCounts(counts, adds, c);
      DecrefAllSaturates(mid, drops, c);
    }
  }
}
