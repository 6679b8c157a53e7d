/** What one eviction pass of the buffer cache does (`run_eviction_once`): temprefs that have faded go first, and then
    the entries that are cheapest to lose, until usage is within the soft cap. */
module EvictionPass {
  import opened BufferEntries
  import opened CostGraph
  import opened Prelude

  /** What is left of an entry once a faded tempref is taken away. */
  function FadeOne(e: Entry, clock: Clock): Option<Entry> {
    if e.tempref.None? || LiveTempref(e, clock) then Some(e)
    else if Protected(e) then Some(e.(tempref := None))
    else None
  }

  function Faded(strong: Strong, clock: Clock): Strong {
    map c | c in strong && FadeOne(strong[c], clock).Some? :: FadeOne(strong[c], clock).value
  }

  /** The first loop of a pass: a tempref that has faded below 1/128 goes, and its entry with it unless a reference
      holds that; nothing else changes. */
  lemma FadingIsExact(strong: Strong, clock: Clock, c: Checksum)
    ensures var faded := Faded(strong, clock);
      && (c in faded ==> c in strong)
      && (c in strong ==>
            var e := strong[c];
            var spent := e.tempref.Some? && 128.0 * clock(e.tempref.value) < 1.0;
            && (c !in faded <==> spent && e.manualRefs == 0 && !e.bridge)
            && (c in faded ==> faded[c] == if spent then e.(tempref := None) else e))
  {
  }

  /** The scores of the entries that memory pressure may evict. */
  function Scores(strong: Strong, cost: Checksum -> ExtReal, clock: Clock): map<Checksum, ExtReal> {
    map c | c in strong && !Protected(strong[c]) :: Score(strong[c], cost(c), clock)
  }

  ghost predicate SortedAt(order: seq<Checksum>, scores: map<Checksum, ExtReal>, i: nat, j: nat) {
    i < j < |order| && order[i] in scores && order[j] in scores ==>
      order[i] != order[j] && AtMost(scores[order[i]], scores[order[j]])
  }

  /** Each candidate once, in order of rising score. */
  ghost predicate IsOrder(order: seq<Checksum>, scores: map<Checksum, ExtReal>, keys: set<Checksum>) {
    && keys <= scores.Keys
    && (forall c :: c in order <==> c in keys)
    && (forall i, j :: SortedAt(order, scores, i, j))
  }

  /** The pass is exact and greedy. What goes under pressure is unprotected and has a finite score; nothing that stays
      could have gone at a lower score; usage ends within the cap unless all that remains is protected or has an
      infinite score; and without its last, most expensive eviction the pass would have ended above the cap. */
  ghost predicate Greedy(before: Strong, after: Strong, scores: map<Checksum, ExtReal>, cap: nat) {
    && after.Keys <= before.Keys && (forall c :: c in after ==> after[c] == before[c])
    && (forall c :: c in before && c !in after ==> c in scores && scores[c].Finite?)
    && (forall c, d :: c in before && c !in after && d in after && d in scores ==> AtMost(scores[c], scores[d]))
    && (Memory(after) <= cap || forall c :: c in after && c in scores ==> scores[c].Infinite?)
    && (after != before ==> exists last :: IsLast(before, after, scores, cap, last))
  }

  ghost predicate IsLast(before: Strong, after: Strong, scores: map<Checksum, ExtReal>, cap: nat, last: Checksum) {
    && last in before && last !in after && last in scores
    && Memory(after) + SizeOf(before[last]) > cap
    && (forall c :: c in before && c !in after && c in scores ==> AtMost(scores[c], scores[last]))
  }

  /** The candidates before `i` that can be evicted at all. */
  ghost function Condemned(order: seq<Checksum>, scores: map<Checksum, ExtReal>, i: nat): set<Checksum>
    requires i <= |order|
  {
    set j | 0 <= j < i && order[j] in scores && scores[order[j]].Finite? :: order[j]
  }

  ghost predicate Progress(before: Strong, after: Strong, order: seq<Checksum>, scores: map<Checksum, ExtReal>,
                           cap: nat, i: nat)
  {
    && i <= |order| && IsOrder(order, scores, scores.Keys) && scores.Keys <= before.Keys
    && after == before - Condemned(order, scores, i)
    && (after != before ==> exists last :: IsLast(before, after, scores, cap, last))
  }

  lemma ProgressStep(before: Strong, after: Strong, order: seq<Checksum>, scores: map<Checksum, ExtReal>, cap: nat,
                     i: nat)
    requires Progress(before, after, order, scores, cap, i) && i < |order| && Memory(after) > cap
    ensures order[i] in scores && order[i] in after
    ensures scores[order[i]].Infinite? ==> Progress(before, after, order, scores, cap, i + 1)
    ensures scores[order[i]].Finite? ==> Progress(before, after - {order[i]}, order, scores, cap, i + 1)
    ensures Memory(after) == SizeOf(after[order[i]]) + Memory(after - {order[i]})
  {
    var c := order[i];
    assert c in order;
    forall j | 0 <= j < i ensures order[j] != c && AtMost(scores[order[j]], scores[c]) {
      assert order[j] in order && SortedAt(order, scores, j, i);
    }
    MemoryWithout(after, c);
    var gone := Condemned(order, scores, i);
    if scores[c].Infinite? {
      assert Condemned(order, scores, i + 1) == gone;
    } else {
      assert Condemned(order, scores, i + 1) == gone + {c};
      assert after - {c} == before - (gone + {c});
      assert IsLast(before, after - {c}, scores, cap, c);
    }
  }

  lemma ProgressEnds(before: Strong, after: Strong, order: seq<Checksum>, scores: map<Checksum, ExtReal>, cap: nat,
                     i: nat)
    requires Progress(before, after, order, scores, cap, i) && (Memory(after) <= cap || i == |order|)
    ensures Greedy(before, after, scores, cap)
  {
    forall c, d | c in before && c !in after && d in after && d in scores ensures AtMost(scores[c], scores[d]) {
      var j :| 0 <= j < i && order[j] == c;
      assert d in order;
      var k :| 0 <= k < |order| && order[k] == d;
      if k < i {
        assert order[k] in scores;
        assert scores[d].Infinite?;
      } else {
        assert SortedAt(order, scores, j, k);
      }
    }
    if i == |order| {
      forall c | c in after && c in scores ensures scores[c].Infinite? {
        assert c in order;
        var k :| 0 <= k < |order| && order[k] == c;
      }
    }
  }

  lemma FadingContinues(strong: Strong, clock: Clock)
    ensures Continues(strong, Faded(strong, clock), {})
  {
    var faded := Faded(strong, clock);
    forall c ensures ContinuesAt(strong, faded, {}, c) {}
  }

  /** Protected entries outlive a pass. */
  lemma GreedyContinues(strong: Strong, faded: Strong, after: Strong, cost: Checksum -> ExtReal, clock: Clock, cap: nat)
    requires Continues(strong, faded, {}) && Greedy(faded, after, Scores(faded, cost, clock), cap)
    ensures Continues(strong, after, {})
  {
    forall c ensures ContinuesAt(strong, after, {}, c) { assert ContinuesAt(strong, faded, {}, c); }
  }

  /** Sorts by score; ties may come in any order. */
  method SortByScore(scores: map<Checksum, ExtReal>) returns (order: seq<Checksum>)
    ensures IsOrder(order, scores, scores.Keys)
  {
    order := [];
    var rest := scores.Keys;
    assert scores.Keys - rest == {};
    while rest != {}
      invariant rest <= scores.Keys
      invariant IsOrder(order, scores, scores.Keys - rest)
      decreases rest
    {
      var c :| c in rest;
      order := Insert(order, scores, scores.Keys - rest, c);
      rest := rest - {c};
      assert scores.Keys - rest == scores.Keys - (rest + {c}) + {c};
    }
    assert scores.Keys - {} == scores.Keys;
  }

  method Insert(order: seq<Checksum>, scores: map<Checksum, ExtReal>, ghost keys: set<Checksum>, c: Checksum)
    returns (r: seq<Checksum>)
    requires IsOrder(order, scores, keys) && c in scores && c !in keys
    ensures IsOrder(r, scores, keys + {c})
  {
    var p := 0;
    assert forall i :: 0 <= i < |order| ==> order[i] in order;
    while p < |order| && AtMost(scores[order[p]], scores[c])
      invariant 0 <= p <= |order|
      invariant forall i :: 0 <= i < p ==> AtMost(scores[order[i]], scores[c])
    {
      p := p + 1;
    }
    r := order[..p] + [c] + order[p..];
    InsertIsOrder(order, scores, keys, c, p);
  }

  lemma InsertIsOrder(order: seq<Checksum>, scores: map<Checksum, ExtReal>, keys: set<Checksum>, c: Checksum, p: nat)
    requires IsOrder(order, scores, keys) && c in scores && c !in keys && p <= |order|
    requires forall i :: 0 <= i < p ==> order[i] in scores && AtMost(scores[order[i]], scores[c])
    requires p < |order| ==> order[p] in scores && !AtMost(scores[order[p]], scores[c])
    ensures IsOrder(order[..p] + [c] + order[p..], scores, keys + {c})
  {
    var r := order[..p] + [c] + order[p..];
    InsertMembers(order, c, p);
    forall i: nat, j: nat ensures SortedAt(r, scores, i, j) {
      if i < j < |r| {
        var i', j' := if i > p then i - 1 else i, if j > p then j - 1 else j;
        assert i != p ==> r[i] == order[i'] && order[i'] in order;
        assert j != p ==> r[j] == order[j'] && order[j'] in order;
        if i != p && j != p {
          assert SortedAt(order, scores, i', j');
        } else if i == p {
          assert p < j' ==> SortedAt(order, scores, p, j');
        }
      }
    }
  }

  lemma InsertMembers(order: seq<Checksum>, c: Checksum, p: nat)
    requires p <= |order|
    ensures forall k :: k in order[..p] + [c] + order[p..] <==> k in order || k == c
  {
    assert order == order[..p] + order[p..];
  }
}
