/** What an eviction cost means: a value read off the dependency graph with no memo table at all.

    A graph may contain cycles. Two readings of "the cost of a checksum" are given and proved equal: the
    path-guarded recursion that the source runs when its memo is empty (`FromScratch`), and the limit of
    bounded-depth approximations (`Cost`), which is the one that proofs about graph changes are easy for. */
module CostGraph {
  import opened Prelude

  /** A cost: a float of the source that is a number or positive infinity. */
  datatype ExtReal = Finite(value: real) | Infinite

  function Plus(a: ExtReal, b: ExtReal): ExtReal {
    if a.Infinite? || b.Infinite? then Infinite else Finite(a.value + b.value)
  }

  function Max(a: ExtReal, b: ExtReal): ExtReal {
    if a.Infinite? || b.Infinite? then Infinite else if a.value < b.value then b else a
  }

  predicate AtMost(a: ExtReal, b: ExtReal) {
    b.Infinite? || (a.Finite? && a.value <= b.value)
  }

  /** `max(cost, 0.0)` */
  function ClampAtZero(a: ExtReal): ExtReal {
    Max(a, Finite(0.0))
  }

  const BYTES_IN_GB: real := 1073741824.0
  const CPU_COST_PER_SECOND: real := 0.1

  datatype CostProfile = CostProfile(unitsPerGb: real, minCost: real)

  /** The three built-in download profiles; an unknown name falls back to `read_buffer`. */
  function ProfileOf(name: string): CostProfile {
    if name == "local_hashserver" then CostProfile(10.0, 0.001)
    else if name == "remote_hashserver" then CostProfile(100.0, 0.01)
    else CostProfile(1.0, 0.0)
  }

  function DownloadCost(manualCosts: map<Checksum, ExtReal>, profileNames: map<Checksum, string>, c: Checksum,
                        length: nat): ExtReal {
    if c in manualCosts then manualCosts[c]
    else
      var profile := ProfileOf(GetOr(profileNames, c, "read_buffer"));
      Max(Finite(length as real / BYTES_IN_GB * profile.unitsPerGb), Finite(profile.minCost))
  }

  function TransformationCost(cpuSeconds: map<Checksum, ExtReal>, c: Checksum): ExtReal {
    if c !in cpuSeconds then Finite(0.0)
    else if cpuSeconds[c].Infinite? then Infinite
    else Finite(cpuSeconds[c].value * CPU_COST_PER_SECOND)
  }

  /** The part of a cost that dependencies have no say in. */
  datatype Own = Own(download: ExtReal, transformation: ExtReal)

  /** The own costs of all checksums whose buffer length is known. */
  function OwnCosts(lengths: map<Checksum, nat>, manualCosts: map<Checksum, ExtReal>,
                    profileNames: map<Checksum, string>, cpuSeconds: map<Checksum, ExtReal>): map<Checksum, Own>
  {
    map c | c in lengths ::
      Own(DownloadCost(manualCosts, profileNames, c, lengths[c]), TransformationCost(cpuSeconds, c))
  }

  /** Everything a cost depends on. */
  datatype Graph = Graph(deps: map<Checksum, seq<Checksum>>, own: map<Checksum, Own>)

  function Deps(g: Graph, c: Checksum): seq<Checksum> {
    GetOr(g.deps, c, [])
  }

  /** The cost of `c` once the costs of its dependencies add up to `depSum`. */
  function Combine(g: Graph, c: Checksum, depSum: ExtReal): ExtReal {
    if c !in g.own then Infinite
    else
      var base := if Deps(g, c) == [] then g.own[c].download else Max(g.own[c].download, depSum);
      Plus(base, g.own[c].transformation)
  }

  // ----- Reading one: recursion guarded by the set of checksums on the path -----

  ghost function FromScratch(g: Graph, c: Checksum, path: set<Checksum>): ExtReal
    decreases |g.deps.Keys - path|, 0
  {
    if c in path then Infinite
    else if Deps(g, c) == [] then Combine(g, c, Finite(0.0))
    else
      assert g.deps.Keys - (path + {c}) < g.deps.Keys - path by {
        assert c in g.deps.Keys - path;
      }
      SmallerSet(g.deps.Keys - (path + {c}), g.deps.Keys - path);
      Combine(g, c, FromScratchSum(g, Deps(g, c), path + {c}))
  }

  ghost function FromScratchSum(g: Graph, ds: seq<Checksum>, path: set<Checksum>): ExtReal
    decreases |g.deps.Keys - path|, 1 + |ds|
  {
    if ds == [] then Finite(0.0)
    else Plus(FromScratchSum(g, ds[..|ds| - 1], path), FromScratch(g, ds[|ds| - 1], path))
  }

  lemma SmallerSet(a: set<Checksum>, b: set<Checksum>)
    requires a < b
    ensures |a| < |b|
  {
    assert |b - a| + |a| == |b| by { assert b == (b - a) + a; }
    assert b - a != {};
  }

  // ----- Reading two: the limit of bounded-depth approximations -----

  ghost function CostN(g: Graph, c: Checksum, n: nat): ExtReal
    decreases n, 0
  {
    if n == 0 then Infinite else Combine(g, c, SumN(g, Deps(g, c), n - 1))
  }

  ghost function SumN(g: Graph, ds: seq<Checksum>, n: nat): ExtReal
    decreases n, 1 + |ds|
  {
    if ds == [] then Finite(0.0) else Plus(SumN(g, ds[..|ds| - 1], n), CostN(g, ds[|ds| - 1], n))
  }

  ghost function Cost(g: Graph, c: Checksum): ExtReal {
    if exists n: nat :: CostN(g, c, n).Finite? then
      var n: nat :| CostN(g, c, n).Finite?;
      CostN(g, c, n)
    else Infinite
  }

  ghost function Sum(g: Graph, ds: seq<Checksum>): ExtReal {
    if ds == [] then Finite(0.0) else Plus(Sum(g, ds[..|ds| - 1]), Cost(g, ds[|ds| - 1]))
  }

  // ----- Approximations only ever settle -----

  lemma {:induction false} CostNSettles(g: Graph, c: Checksum, n: nat, m: nat)
    requires n <= m && CostN(g, c, n).Finite?
    ensures CostN(g, c, m) == CostN(g, c, n)
    decreases n, 0
  {
    if Deps(g, c) != [] {
      SumNSettles(g, Deps(g, c), n - 1, m - 1);
    }
  }

  lemma {:induction false} SumNSettles(g: Graph, ds: seq<Checksum>, n: nat, m: nat)
    requires n <= m && SumN(g, ds, n).Finite?
    ensures SumN(g, ds, m) == SumN(g, ds, n)
    decreases n, 1 + |ds|
  {
    if ds != [] {
      SumNSettles(g, ds[..|ds| - 1], n, m);
      CostNSettles(g, ds[|ds| - 1], n, m);
    }
  }

  lemma CostIsSettled(g: Graph, c: Checksum, n: nat)
    requires CostN(g, c, n).Finite?
    ensures Cost(g, c) == CostN(g, c, n)
  {
    var m: nat :| CostN(g, c, m).Finite? && Cost(g, c) == CostN(g, c, m);
    if n <= m { CostNSettles(g, c, n, m); } else { CostNSettles(g, c, m, n); }
  }

  lemma {:induction false} SumIsSettled(g: Graph, ds: seq<Checksum>, n: nat)
    requires SumN(g, ds, n).Finite?
    ensures Sum(g, ds) == SumN(g, ds, n)
  {
    if ds != [] {
      SumIsSettled(g, ds[..|ds| - 1], n);
      CostIsSettled(g, ds[|ds| - 1], n);
    }
  }

  lemma {:induction false} SumDepth(g: Graph, ds: seq<Checksum>)
    requires Sum(g, ds).Finite?
    ensures exists n: nat :: SumN(g, ds, n) == Sum(g, ds)
  {
    if ds == [] {
      assert SumN(g, ds, 0) == Sum(g, ds);
    } else {
      var last := ds[|ds| - 1];
      SumDepth(g, ds[..|ds| - 1]);
      var a: nat :| SumN(g, ds[..|ds| - 1], a) == Sum(g, ds[..|ds| - 1]);
      var b: nat :| CostN(g, last, b).Finite?;
      var n := if a < b then b else a;
      SumNSettles(g, ds[..|ds| - 1], a, n);
      CostNSettles(g, last, b, n);
      CostIsSettled(g, last, n);
      assert SumN(g, ds, n) == Sum(g, ds);
    }
  }

  /** The defining equation: a cost is computed from the costs of the direct dependencies, cycles or not. */
  lemma {:induction false} CostEquation(g: Graph, c: Checksum)
    ensures Cost(g, c) == Combine(g, c, if Deps(g, c) == [] then Finite(0.0) else Sum(g, Deps(g, c)))
  {
    var ds := Deps(g, c);
    if n: nat :| CostN(g, c, n).Finite? {
      CostIsSettled(g, c, n);
      if ds != [] { SumIsSettled(g, ds, n - 1); }
    } else if ds == [] {
      assert CostN(g, c, 1) == Combine(g, c, Finite(0.0)) == Infinite;
    } else if Combine(g, c, Sum(g, ds)).Finite? {
      SumDepth(g, ds);
      var n: nat :| SumN(g, ds, n) == Sum(g, ds);
      assert CostN(g, c, n + 1).Finite?;
    }
  }

  // ----- What a cost amounts to -----

  predicate OwnFinite(g: Graph, c: Checksum) {
    c in g.own && g.own[c].download.Finite? && g.own[c].transformation.Finite?
  }

  /** A checksum with dependencies can be had by a download or from its dependencies. Nothing says which way will be
      open, so it costs as much as the dearer of the two, and its transformation on top. */
  lemma CostOfDependent(g: Graph, c: Checksum)
    requires OwnFinite(g, c) && Deps(g, c) != []
    ensures Cost(g, c).Finite? <==> Sum(g, Deps(g, c)).Finite?
    ensures Cost(g, c).Finite? ==>
      var d, t := g.own[c].download.value, g.own[c].transformation.value;
      var s, cost := Sum(g, Deps(g, c)).value, Cost(g, c).value;
      cost >= d + t && cost >= s + t && (cost == d + t || cost == s + t)
  {
    CostEquation(g, c);
  }

  /** Without dependencies there is only the download. */
  lemma CostOfSource(g: Graph, c: Checksum)
    requires OwnFinite(g, c) && Deps(g, c) == []
    ensures Cost(g, c) == Finite(g.own[c].download.value + g.own[c].transformation.value)
  {
    CostEquation(g, c);
  }

  /** The costs of `ds` as plain numbers, added up from the front. */
  ghost function TotalCost(g: Graph, ds: seq<Checksum>): real {
    if ds == [] then 0.0 else (if Cost(g, ds[0]).Finite? then Cost(g, ds[0]).value else 0.0) + TotalCost(g, ds[1..])
  }

  lemma {:induction false} TotalOfLast(g: Graph, ds: seq<Checksum>)
    requires ds != []
    ensures var last := Cost(g, ds[|ds| - 1]);
      TotalCost(g, ds) == TotalCost(g, ds[..|ds| - 1]) + (if last.Finite? then last.value else 0.0)
  {
    if |ds| > 1 {
      TotalOfLast(g, ds[1..]);
      assert ds[1..][..|ds| - 2] == ds[..|ds| - 1][1..];
    }
  }

  /** The dependencies of a checksum are all needed: their costs add up, each occurrence counts, and one that is
      infinite makes the sum infinite. */
  lemma {:induction false} SumIsTotal(g: Graph, ds: seq<Checksum>)
    ensures Sum(g, ds).Infinite? <==> exists d :: d in ds && Cost(g, d).Infinite?
    ensures Sum(g, ds).Finite? ==> Sum(g, ds).value == TotalCost(g, ds)
  {
    if ds != [] {
      var front, last := ds[..|ds| - 1], ds[|ds| - 1];
      SumIsTotal(g, front);
      TotalOfLast(g, ds);
      assert ds == front + [last];
    }
  }

  /** At least so much per gigabyte of the length, and at least `floor`. */
  predicate Priced(cost: ExtReal, length: nat, perGigabyte: real, floor: real) {
    var price := length as real / 1073741824.0 * perGigabyte;
    cost.Finite? && cost.value >= price && cost.value >= floor && (cost.value == price || cost.value == floor)
  }

  /** What a download costs: an override if there is one, else the price of the chosen profile, with its floor; profiles
      that nobody knows count as local reads. */
  lemma DownloadPrices(manualCosts: map<Checksum, ExtReal>, profileNames: map<Checksum, string>, c: Checksum,
                       length: nat)
    ensures var cost, name := DownloadCost(manualCosts, profileNames, c, length), GetOr(profileNames, c, "read_buffer");
      if c in manualCosts then cost == manualCosts[c]
      else if name == "local_hashserver" then Priced(cost, length, 10.0, 0.001)
      else if name == "remote_hashserver" then Priced(cost, length, 100.0, 0.01)
      else Priced(cost, length, 1.0, 0.0)
  {
  }

  /** A tenth of a unit for each CPU second. */
  lemma TransformationPrice(cpuSeconds: map<Checksum, ExtReal>, c: Checksum)
    ensures var cost := TransformationCost(cpuSeconds, c);
      if c !in cpuSeconds then cost == Finite(0.0)
      else if cpuSeconds[c].Infinite? then cost.Infinite?
      else cost.Finite? && 10.0 * cost.value == cpuSeconds[c].value
  {
  }

  /** Overrides and CPU times are never negative. */
  lemma ClampIsCloser(a: ExtReal)
    ensures AtMost(Finite(0.0), ClampAtZero(a))
    ensures ClampAtZero(a) == if AtMost(Finite(0.0), a) then a else Finite(0.0)
  {
  }

  /** Where all is known: the own costs of each checksum are its prices. */
  lemma OwnCostsArePrices(lengths: map<Checksum, nat>, manualCosts: map<Checksum, ExtReal>,
                          profileNames: map<Checksum, string>, cpuSeconds: map<Checksum, ExtReal>, c: Checksum)
    ensures var own := OwnCosts(lengths, manualCosts, profileNames, cpuSeconds);
      && (c in own <==> c in lengths)
      && (c in lengths && c !in manualCosts && c !in profileNames && c !in cpuSeconds ==>
            own[c] == Own(Finite(lengths[c] as real / 1073741824.0), Finite(0.0)))
  {
  }

  /** A gigabyte that is made from another gigabyte costs no more than either: one unit. */
  lemma OneGigabyteEach(c: Checksum, d: Checksum)
    requires c != d
    ensures var lengths := map[c := 1073741824, d := 1073741824];
      Cost(Graph(map[c := [d]], OwnCosts(lengths, map[], map[], map[])), c) == Finite(1.0)
  {
    var g := Graph(map[c := [d]], OwnCosts(map[c := 1073741824, d := 1073741824], map[], map[], map[]));
    OwnCostsArePrices(map[c := 1073741824, d := 1073741824], map[], map[], map[], c);
    OwnCostsArePrices(map[c := 1073741824, d := 1073741824], map[], map[], map[], d);
    CostOfSource(g, d);
    SumIsTotal(g, [d]);
    assert [d][1..] == [];
    CostOfDependent(g, c);
  }

  // ----- Paths -----

  ghost predicate Path(g: Graph, x: Checksum, y: Checksum, n: nat)
    decreases n
  {
    if n == 0 then x == y else exists z :: z in Deps(g, x) && Path(g, z, y, n - 1)
  }

  ghost predicate Reaches(g: Graph, x: Checksum, y: Checksum) {
    exists n: nat :: Path(g, x, y, n)
  }

  /** `x` reaches `y` in one step or more. */
  ghost predicate StrictlyReaches(g: Graph, x: Checksum, y: Checksum) {
    exists n: nat :: n > 0 && Path(g, x, y, n)
  }

  lemma {:induction false} PathSnoc(g: Graph, x: Checksum, y: Checksum, d: Checksum, n: nat)
    requires Path(g, x, y, n) && d in Deps(g, y)
    ensures Path(g, x, d, n + 1)
    decreases n
  {
    if n == 0 {
      assert Path(g, d, d, 0);
    } else {
      var z :| z in Deps(g, x) && Path(g, z, y, n - 1);
      PathSnoc(g, z, y, d, n - 1);
    }
  }

  lemma ReachesStep(g: Graph, x: Checksum, d: Checksum, y: Checksum)
    requires d in Deps(g, x) && Reaches(g, d, y)
    ensures StrictlyReaches(g, x, y) && Reaches(g, x, y)
  {
    var n: nat :| Path(g, d, y, n);
    assert Path(g, x, y, n + 1);
  }

  lemma ReachesSnoc(g: Graph, x: Checksum, y: Checksum, d: Checksum)
    requires Reaches(g, x, y) && d in Deps(g, y)
    ensures StrictlyReaches(g, x, d) && Reaches(g, x, d)
  {
    var n: nat :| Path(g, x, y, n);
    PathSnoc(g, x, y, d, n);
  }

  /** Every step along a path uses up one level of depth. */
  lemma {:induction false} PathUsesDepth(g: Graph, x: Checksum, y: Checksum, k: nat, n: nat)
    requires Path(g, x, y, k) && CostN(g, x, n).Finite?
    ensures k < n && CostN(g, y, n - k).Finite?
    decreases k
  {
    if k > 0 {
      var z :| z in Deps(g, x) && Path(g, z, y, k - 1);
      SumNTerm(g, Deps(g, x), n - 1, z);
      PathUsesDepth(g, z, y, k - 1, n - 1);
    }
  }

  lemma {:induction false} SumNTerm(g: Graph, ds: seq<Checksum>, n: nat, d: Checksum)
    requires d in ds && SumN(g, ds, n).Finite?
    ensures CostN(g, d, n).Finite?
  {
    if d != ds[|ds| - 1] {
      assert d in ds[..|ds| - 1];
      SumNTerm(g, ds[..|ds| - 1], n, d);
    }
  }

  lemma {:induction false} NoDepthOnCycle(g: Graph, c: Checksum, k: nat, n: nat)
    requires k > 0 && Path(g, c, c, k)
    ensures CostN(g, c, n).Infinite?
  {
    if CostN(g, c, n).Finite? {
      PathUsesDepth(g, c, c, k, n);
      NoDepthOnCycle(g, c, k, n - k);
    }
  }

  /** A checksum on a dependency cycle has no finite cost. */
  lemma CycleIsInfinite(g: Graph, c: Checksum)
    requires StrictlyReaches(g, c, c)
    ensures Cost(g, c).Infinite?
  {
    var k: nat :| k > 0 && Path(g, c, c, k);
    forall n: nat { NoDepthOnCycle(g, c, k, n); }
  }

  // ----- The two readings agree -----

  /** Memo-free recomputation yields the cost, from any point of a recursion whose stack leads to `c`. */
  lemma {:induction false} FromScratchIsCost(g: Graph, c: Checksum, path: set<Checksum>)
    requires forall x :: x in path ==> StrictlyReaches(g, x, c)
    ensures FromScratch(g, c, path) == Cost(g, c)
    decreases |g.deps.Keys - path|, 0
  {
    if c in path {
      CycleIsInfinite(g, c);
    } else {
      CostEquation(g, c);
      if Deps(g, c) != [] {
        assert g.deps.Keys - (path + {c}) < g.deps.Keys - path by {
          assert c in g.deps.Keys - path;
        }
        SmallerSet(g.deps.Keys - (path + {c}), g.deps.Keys - path);
        forall x, d | x in path + {c} && d in Deps(g, c) ensures StrictlyReaches(g, x, d) {
          assert Reaches(g, x, c) by { assert Path(g, c, c, 0); }
          ReachesSnoc(g, x, c, d);
        }
        FromScratchSumIsSum(g, Deps(g, c), path + {c});
      }
    }
  }

  lemma {:induction false} FromScratchSumIsSum(g: Graph, ds: seq<Checksum>, path: set<Checksum>)
    requires forall x, d :: x in path && d in ds ==> StrictlyReaches(g, x, d)
    ensures FromScratchSum(g, ds, path) == Sum(g, ds)
    decreases |g.deps.Keys - path|, 1 + |ds|
  {
    if ds != [] {
      FromScratchSumIsSum(g, ds[..|ds| - 1], path);
      FromScratchIsCost(g, ds[|ds| - 1], path);
    }
  }

  // ----- When a cost is infinite -----

  /** `y` has no finite cost by itself: no known length, or an infinite override or CPU time. */
  predicate Blocked(g: Graph, y: Checksum) {
    y in g.own ==> g.own[y].download.Infinite? || g.own[y].transformation.Infinite?
  }

  ghost predicate Doomed(g: Graph, c: Checksum) {
    exists y :: Reaches(g, c, y) && (Blocked(g, y) || StrictlyReaches(g, y, y))
  }

  /** Infinite exactly when the checksum leads to a blocked checksum or to a cycle. */
  lemma InfiniteIffDoomed(g: Graph, c: Checksum)
    ensures Cost(g, c).Infinite? <==> Doomed(g, c)
  {
    if Doomed(g, c) && Cost(g, c).Finite? {
      var y :| Reaches(g, c, y) && (Blocked(g, y) || StrictlyReaches(g, y, y));
      var k: nat :| Path(g, c, y, k);
      var n: nat :| CostN(g, c, n).Finite?;
      PathUsesDepth(g, c, y, k, n);
      CostIsSettled(g, y, n - k);
      CostEquation(g, y);
      if StrictlyReaches(g, y, y) { CycleIsInfinite(g, y); }
    }
    if !Doomed(g, c) { SpareIsFinite(g, c, {}); }
  }

  lemma {:induction false} SpareIsFinite(g: Graph, c: Checksum, path: set<Checksum>)
    requires !Doomed(g, c)
    requires forall x :: x in path ==> StrictlyReaches(g, x, c) && Reaches(g, c, c)
    ensures Cost(g, c).Finite?
    decreases |g.deps.Keys - path|, 0
  {
    assert Reaches(g, c, c) by { assert Path(g, c, c, 0); }
    CostEquation(g, c);
    if Deps(g, c) != [] {
      assert c !in path;
      assert g.deps.Keys - (path + {c}) < g.deps.Keys - path by {
        assert c in g.deps.Keys - path;
      }
      SmallerSet(g.deps.Keys - (path + {c}), g.deps.Keys - path);
      forall d | d in Deps(g, c) ensures Cost(g, d).Finite? {
        assert Reaches(g, d, d) by { assert Path(g, d, d, 0); }
        forall x | x in path + {c} ensures StrictlyReaches(g, x, d) {
          ReachesSnoc(g, x, c, d);
        }
        if Doomed(g, d) { DoomSpreads(g, c, d); }
        SpareIsFinite(g, d, path + {c});
      }
      SumOfFinite(g, Deps(g, c));
    }
  }

  lemma DoomSpreads(g: Graph, c: Checksum, d: Checksum)
    requires d in Deps(g, c) && Doomed(g, d)
    ensures Doomed(g, c)
  {
    var y :| Reaches(g, d, y) && (Blocked(g, y) || StrictlyReaches(g, y, y));
    ReachesStep(g, c, d, y);
  }

  lemma {:induction false} SumOfFinite(g: Graph, ds: seq<Checksum>)
    requires forall d :: d in ds ==> Cost(g, d).Finite?
    ensures Sum(g, ds).Finite?
  {
    if ds != [] { SumOfFinite(g, ds[..|ds| - 1]); }
  }

  // ----- Changing the graph at one checksum -----

  /** `g` and `h` say the same about `k`. */
  predicate SameAt(g: Graph, h: Graph, k: Checksum) {
    && Deps(g, k) == Deps(h, k)
    && (k in g.own <==> k in h.own)
    && (k in g.own ==> g.own[k] == h.own[k])
  }

  /** Only checksums that lead to `c` notice a change at `c`. */
  lemma CostIsLocal(g: Graph, h: Graph, c: Checksum, k: Checksum)
    requires forall x :: x != c ==> SameAt(g, h, x)
    requires !Reaches(g, k, c)
    ensures Cost(g, k) == Cost(h, k)
  {
    forall n: nat ensures CostN(g, k, n) == CostN(h, k, n) { CostNIsLocal(g, h, c, k, n); }
    if n: nat :| CostN(g, k, n).Finite? { CostIsSettled(g, k, n); CostIsSettled(h, k, n); }
  }

  lemma {:induction false} CostNIsLocal(g: Graph, h: Graph, c: Checksum, k: Checksum, n: nat)
    requires forall x :: x != c ==> SameAt(g, h, x)
    requires !Reaches(g, k, c)
    ensures CostN(g, k, n) == CostN(h, k, n)
    decreases n, 0
  {
    assert k != c by { assert Path(g, k, k, 0); }
    assert SameAt(g, h, k);
    if n > 0 {
      forall d | d in Deps(g, k) ensures !Reaches(g, d, c) {
        if Reaches(g, d, c) { ReachesStep(g, k, d, c); }
      }
      SumNIsLocal(g, h, c, Deps(g, k), n - 1);
    }
  }

  lemma {:induction false} SumNIsLocal(g: Graph, h: Graph, c: Checksum, ds: seq<Checksum>, n: nat)
    requires forall x :: x != c ==> SameAt(g, h, x)
    requires forall d :: d in ds ==> !Reaches(g, d, c)
    ensures SumN(g, ds, n) == SumN(h, ds, n)
    decreases n, 1 + |ds|
  {
    if ds != [] {
      SumNIsLocal(g, h, c, ds[..|ds| - 1], n);
      CostNIsLocal(g, h, c, ds[|ds| - 1], n);
    }
  }

  /** Who leads to `c` does not depend on what `c` itself depends on. */
  lemma {:induction false} PathIntoIsLocal(g: Graph, h: Graph, c: Checksum, k: Checksum, n: nat)
    requires forall x :: x != c ==> SameAt(g, h, x)
    requires Path(g, k, c, n)
    ensures Reaches(h, k, c)
    decreases n
  {
    if k == c {
      assert Path(h, c, c, 0);
    } else {
      var z :| z in Deps(g, k) && Path(g, z, c, n - 1);
      assert SameAt(g, h, k);
      PathIntoIsLocal(g, h, c, z, n - 1);
      ReachesStep(h, k, z, c);
    }
  }

  /** A checksum that nobody depends on can change without breaking anyone else's path. */
  lemma {:induction false} PathAvoidsOrphan(g: Graph, h: Graph, orphan: Checksum, k: Checksum, y: Checksum, n: nat)
    requires forall x :: x != orphan ==> SameAt(g, h, x)
    requires forall x :: orphan !in Deps(g, x)
    requires k != orphan && Path(g, k, y, n)
    ensures Path(h, k, y, n)
    decreases n
  {
    if n > 0 {
      var z :| z in Deps(g, k) && Path(g, z, y, n - 1);
      assert SameAt(g, h, k);
      PathAvoidsOrphan(g, h, orphan, z, y, n - 1);
    }
  }

  lemma {:induction false} OnlyOrphanReachesOrphan(g: Graph, orphan: Checksum, k: Checksum, n: nat)
    requires forall x :: orphan !in Deps(g, x)
    requires Path(g, k, orphan, n)
    ensures k == orphan
    decreases n
  {
    if n > 0 {
      var z :| z in Deps(g, k) && Path(g, z, orphan, n - 1);
      OnlyOrphanReachesOrphan(g, orphan, z, n - 1);
    }
  }

  // ----- Occurrences: how often each checksum is named as a dependency -----

  ghost function AllDeps(m: map<Checksum, seq<Checksum>>): multiset<Checksum> {
    if m == map[] then multiset{}
    else
      var k :| k in m;
      multiset(m[k]) + AllDeps(m - {k})
  }

  lemma {:induction false} AllDepsWithout(m: map<Checksum, seq<Checksum>>, k: Checksum)
    requires k in m
    ensures AllDeps(m) == multiset(m[k]) + AllDeps(m - {k})
  {
    var j :| j in m && AllDeps(m) == multiset(m[j]) + AllDeps(m - {j});
    if j != k {
      AllDepsWithout(m - {j}, k);
      AllDepsWithout(m - {k}, j);
      assert m - {j} - {k} == m - {k} - {j};
    }
  }

  lemma {:induction false} AllDepsNames(m: map<Checksum, seq<Checksum>>, d: Checksum)
    ensures AllDeps(m)[d] > 0 <==> exists k :: k in m && d in m[k]
  {
    if m != map[] {
      var j :| j in m && AllDeps(m) == multiset(m[j]) + AllDeps(m - {j});
      AllDepsNames(m - {j}, d);
      assert d in multiset(m[j]) <==> d in m[j];
      assert forall k :: k in m <==> k == j || k in m - {j};
    }
  }
}
