/** Dictionary keys in sorted order, as Python sorts strings: by code point, the shorter prefix first. */
module Keys {

  predicate LessEq(a: string, b: string) {
    if a == [] then true
    else if b == [] then false
    else a[0] < b[0] || (a[0] == b[0] && LessEq(a[1..], b[1..]))
  }

  lemma {:induction false} Total(a: string, b: string)
    ensures LessEq(a, b) || LessEq(b, a)
    ensures LessEq(a, b) && LessEq(b, a) ==> a == b
  {
    if a != [] && b != [] && a[0] == b[0] {
      Total(a[1..], b[1..]);
      assert a == [a[0]] + a[1..] && b == [b[0]] + b[1..];
    }
  }

  lemma {:induction false} Transitive(a: string, b: string, c: string)
    requires LessEq(a, b) && LessEq(b, c)
    ensures LessEq(a, c)
  {
    if a != [] && a[0] == b[0] && b[0] == c[0] {
      Transitive(a[1..], b[1..], c[1..]);
    }
  }

  ghost predicate Before(r: seq<string>, i: nat, j: nat) {
    i < j < |r| ==> r[i] != r[j] && LessEq(r[i], r[j])
  }

  /** `r` lists the members of `s` in order, each of them once. */
  ghost predicate Listing(r: seq<string>, s: set<string>) {
    && |r| == |s|
    && (forall k :: k in r <==> k in s)
    && (forall i, j :: Before(r, i, j))
  }

  /** Everything in `r` comes before everything in `rest`. */
  ghost predicate Precedes(r: seq<string>, rest: set<string>) {
    forall k, j :: k in r && j in rest ==> k != j && LessEq(k, j)
  }

  ghost predicate IsLeast(k: string, s: set<string>) {
    k in s && forall j :: j in s ==> LessEq(k, j)
  }

  method Least(s: set<string>) returns (least: string)
    requires s != {}
    ensures IsLeast(least, s)
  {
    least :| least in s;
    var others := s - {least};
    ghost var seen := {least};
    Total(least, least);
    while others != {}
      invariant IsLeast(least, seen) && seen + others == s
      decreases others
    {
      var k :| k in others;
      Total(least, k);
      Total(k, k);
      if !LessEq(least, k) {
        forall j | j in seen ensures LessEq(k, j) { Transitive(k, least, j); }
        least := k;
      }
      seen := seen + {k};
      others := others - {k};
    }
    assert seen == s;
  }

  lemma {:induction false} LeastExists(s: set<string>)
    requires s != {}
    ensures exists k :: IsLeast(k, s)
  {
    var k :| k in s;
    Total(k, k);
    if s == {k} {
      assert IsLeast(k, s);
    } else {
      LeastExists(s - {k});
      var m :| IsLeast(m, s - {k});
      Total(k, m);
      Total(m, m);
      var least := if LessEq(k, m) then k else m;
      forall j | j in s ensures LessEq(least, j) {
        if j != k && least == k { Transitive(k, m, j); }
      }
      assert IsLeast(least, s);
    }
  }

  /** Putting the least member in front of a listing of the others. */
  lemma ListingCons(k: string, r: seq<string>, s: set<string>)
    requires IsLeast(k, s) && Listing(r, s - {k})
    ensures Listing([k] + r, s)
  {
    var t := [k] + r;
    forall i: nat, j: nat ensures Before(t, i, j) {
      if i < j < |t| {
        assert t[j] == r[j - 1] && r[j - 1] in r;
        if i > 0 { assert Before(r, i - 1, j - 1); }
      }
    }
  }

  lemma {:induction false} ListingExists(s: set<string>)
    ensures exists r :: Listing(r, s)
  {
    if s == {} {
      assert Listing([], s);
    } else {
      LeastExists(s);
      var k :| IsLeast(k, s);
      ListingExists(s - {k});
      var r :| Listing(r, s - {k});
      ListingCons(k, r, s);
    }
  }

  lemma {:induction false} ListingIsUnique(r: seq<string>, q: seq<string>, s: set<string>)
    requires Listing(r, s) && Listing(q, s)
    ensures r == q
  {
    if s == {} {
    } else {
      FirstIsLeast(r, s);
      FirstIsLeast(q, s);
      Total(r[0], q[0]);
      ListingTail(r, s);
      ListingTail(q, s);
      ListingIsUnique(r[1..], q[1..], s - {r[0]});
      assert r == [r[0]] + r[1..] && q == [q[0]] + q[1..];
    }
  }

  lemma FirstIsLeast(r: seq<string>, s: set<string>)
    requires Listing(r, s) && s != {}
    ensures r != [] && IsLeast(r[0], s)
  {
    assert r[0] in r;
    forall j | j in s ensures LessEq(r[0], j) {
      var i :| 0 <= i < |r| && r[i] == j;
      Total(j, j);
      assert Before(r, 0, i);
    }
  }

  lemma ListingTail(r: seq<string>, s: set<string>)
    requires Listing(r, s) && r != []
    ensures Listing(r[1..], s - {r[0]})
  {
    var t := r[1..];
    assert r == [r[0]] + t && r[0] in r;
    forall i: nat, j: nat ensures Before(t, i, j) { assert Before(r, i + 1, j + 1); }
    forall k | k in t ensures k != r[0] {
      var i :| 0 <= i < |t| && t[i] == k;
      assert Before(r, 0, i + 1);
    }
  }

  /** The keys in sorted order. */
  ghost function Sorted(s: set<string>): (r: seq<string>)
    ensures Listing(r, s)
  {
    ListingExists(s);
    var r :| Listing(r, s);
    r
  }

  lemma SortedIsStrict(s: set<string>, i: nat, j: nat)
    requires i < j < |s|
    ensures Sorted(s)[i] != Sorted(s)[j] && LessEq(Sorted(s)[i], Sorted(s)[j])
  {
    assert Before(Sorted(s), i, j);
  }

  lemma ListingSnoc(r: seq<string>, rest: set<string>, k: string, s: set<string>)
    requires Listing(r, s - rest) && Precedes(r, rest) && IsLeast(k, rest) && rest <= s
    ensures Listing(r + [k], s - (rest - {k})) && Precedes(r + [k], rest - {k})
  {
    var t := r + [k];
    assert s - (rest - {k}) == (s - rest) + {k};
    forall i: nat, j: nat ensures Before(t, i, j) {
      assert Before(r, i, j);
      if i < j == |r| { assert r[i] in r; }
    }
  }

  /** `sorted(keys)`: takes the least remaining key until none is left. */
  method Sort(s: set<string>) returns (r: seq<string>)
    ensures r == Sorted(s)
  {
    r := [];
    var rest := s;
    assert s - rest == {};
    while rest != {}
      invariant rest <= s && Listing(r, s - rest) && Precedes(r, rest)
      decreases rest
    {
      var least := Least(rest);
      ListingSnoc(r, rest, least, s);
      r := r + [least];
      rest := rest - {least};
    }
    assert s - rest == s;
    ListingIsUnique(r, Sorted(s), s);
  }
}
