/** Celljoin definitions: built from members, read back, and evaluated (`checksum/celljoin.py`). */
module CellJoin {
  import opened PathText
  import opened Prelude

  /** A member key as the caller gives it. `Other` stands for booleans and other unusable keys. */
  datatype Key = Name(s: string) | Index(i: int) | Other(id: nat)

  /** The values of a definition that is read as JSON. */
  datatype Json = JNull | JString(s: string) | JOther(id: nat)

  type Definition = map<string, Json>

  const ROOT := "<root>"
  const NUMERIC := "<numeric>"

  predicate Reserved(k: string) {
    k == ROOT || k == NUMERIC
  }

  function Text(key: Key): string
    requires key.Name? || (key.Index? && key.i >= 0)
  {
    if key.Name? then key.s else Decimal(key.i)
  }

  predicate Usable(key: Key) {
    (key.Name? && !Reserved(key.s)) || (key.Index? && key.i >= 0)
  }

  /** Keys of one kind only: names that are not reserved, or non-negative integers. */
  ghost predicate Acceptable(members: map<Key, Checksum>) {
    && (forall k :: k in members ==> Usable(k))
    && (forall k, j :: k in members && j in members ==> k.Name? == j.Name?)
  }

  ghost predicate Numbered(members: map<Key, Checksum>) {
    exists k :: k in members && k.Index?
  }

  // ----- Decimal keys -----

  predicate Canonical(s: string) {
    AllDigits(s)
  }

  lemma DecimalIsCanonical(n: nat)
    ensures Canonical(Decimal(n)) && FromDecimal(Decimal(n)) == n && !Reserved(Decimal(n))
  {
    DecimalRoundTrip(n);
    if n == 0 { assert Decimal(0) == "0"; }
    assert IsDigit(Decimal(n)[0]);
  }

  /** Integer keys of any size keep their identity as text. */
  lemma TextIsInjective(k: Key, j: Key)
    requires Usable(k) && Usable(j) && k.Name? == j.Name? && Text(k) == Text(j)
    ensures k == j
  {
    if k.Index? {
      DecimalIsCanonical(k.i);
      DecimalIsCanonical(j.i);
    }
  }

  // ----- Building -----

  ghost predicate DefinedAt(d: Definition, root: Option<Checksum>, members: map<Key, Checksum>, k: string) {
    if k == ROOT then Entry(d, k) == if root.Some? then Some(JString(root.value.hex)) else None
    else if k == NUMERIC then Entry(d, k) == if Numbered(members) then Some(JNull) else None
    else NamesMember(d, members, k)
  }

  function Entry(d: Definition, k: string): Option<Json> {
    if k in d then Some(d[k]) else None
  }

  predicate Spells(key: Key, keys: set<Key>, k: string) {
    key in keys && Usable(key) && Text(key) == k
  }

  ghost predicate NamesMember(d: Definition, members: map<Key, Checksum>, k: string) {
    && (k in d ==> exists key :: Spells(key, members.Keys, k))
    && (forall key :: Spells(key, members.Keys, k) && key in members ==> Entry(d, k) == Some(JString(members[key].hex)))
  }

  /** What a definition says: the root, the kind of keys, and for each member its checksum under the text of its key. */
  ghost predicate Defines(d: Definition, root: Option<Checksum>, members: map<Key, Checksum>) {
    forall k :: DefinedAt(d, root, members, k)
  }

  /** One turn of the loop over the members. */
  method Normalize(key: Key, kind: Option<bool>, normalized: map<string, string>, hex: string)
    returns (r: Option<map<string, string>>)
    ensures r == if Usable(key) && (kind == None || kind == Some(key.Name?)) && Text(key) !in normalized
      then Some(normalized[Text(key) := hex]) else None
  {
    if key.Other? { return None; }
    if key.Name? && Reserved(key.s) { return None; }
    if key.Index? && key.i < 0 { return None; }
    if kind.Some? && kind.value != key.Name? { return None; }
    if Text(key) in normalized { return None; }
    r := Some(normalized[Text(key) := hex]);
  }

  /** The members seen so far, under the texts of their keys. */
  ghost predicate CollectedAt(normalized: map<string, string>, members: map<Key, Checksum>, seen: set<Key>, k: string) {
    && (k in normalized <==> exists key :: Spells(key, seen, k))
    && (forall key :: Spells(key, seen, k) ==>
          k in normalized && key in members && normalized[k] == members[key].hex)
  }

  ghost predicate Collected(normalized: map<string, string>, members: map<Key, Checksum>, seen: set<Key>,
                            kind: Option<bool>) {
    && seen <= members.Keys
    && (forall k :: k in seen ==> Usable(k) && kind == Some(k.Name?))
    && (kind.Some? ==> exists k :: k in seen && kind == Some(k.Name?))
    && (forall k :: CollectedAt(normalized, members, seen, k))
  }

  /** The loop of `build_celljoin` over the members, in any order. */
  method NormalizeAll(members: map<Key, Checksum>) returns (r: Option<(map<string, string>, Option<bool>)>)
    ensures r.Some? <==> Acceptable(members)
    ensures r.Some? ==> Collected(r.value.0, members, members.Keys, r.value.1)
  {
    var normalized: map<string, string> := map[];
    var kind: Option<bool> := None;
    var rest := members.Keys;
    ghost var seen: set<Key> := {};
    while rest != {}
      invariant seen + rest == members.Keys && seen !! rest
      invariant Collected(normalized, members, seen, kind)
      decreases rest
    {
      var key :| key in rest;
      var next := Normalize(key, kind, normalized, members[key].hex);
      if next.None? {
        NotAcceptable(members, key, kind, normalized, seen);
        return None;
      }
      CollectOne(normalized, members, seen, kind, key);
      normalized, kind := next.value, Some(key.Name?);
      seen, rest := seen + {key}, rest - {key};
    }
    assert seen == members.Keys;
    r := Some((normalized, kind));
  }

  lemma NotAcceptable(members: map<Key, Checksum>, key: Key, kind: Option<bool>, normalized: map<string, string>,
                      seen: set<Key>)
    requires key in members && key !in seen && Collected(normalized, members, seen, kind)
    requires !(Usable(key) && (kind == None || kind == Some(key.Name?)) && Text(key) !in normalized)
    ensures !Acceptable(members)
  {
    if Acceptable(members) {
      if kind.Some? {
        var other :| other in seen && kind == Some(other.Name?);
        assert other in members;
      }
      assert CollectedAt(normalized, members, seen, Text(key));
      var other :| Spells(other, seen, Text(key));
      TextIsInjective(other, key);
    }
  }

  lemma CollectOne(normalized: map<string, string>, members: map<Key, Checksum>, seen: set<Key>, kind: Option<bool>,
                   key: Key)
    requires Collected(normalized, members, seen, kind) && key in members && Usable(key) && Text(key) !in normalized
    requires kind == None || kind == Some(key.Name?)
    ensures Collected(normalized[Text(key) := members[key].hex], members, seen + {key}, Some(key.Name?))
  {
    var next, more := normalized[Text(key) := members[key].hex], seen + {key};
    assert key in more;
    forall k ensures CollectedAt(next, members, more, k) {
      assert CollectedAt(normalized, members, seen, k);
      if k == Text(key) {
        assert Spells(key, more, k);
      } else if j :| Spells(j, seen, k) {
        assert Spells(j, more, k);
      }
      forall j | Spells(j, more, k) ensures k in next && next[k] == members[j].hex {
        if j != key { assert Spells(j, seen, k); }
      }
    }
  }

  /** `build_celljoin`; `None` stands for an exception. */
  method Build(root: Option<Checksum>, members: map<Key, Checksum>) returns (r: Option<Definition>)
    ensures r.Some? <==> Acceptable(members)
    ensures r.Some? ==> Defines(r.value, root, members)
  {
    var collected := NormalizeAll(members);
    if collected.None? { return None; }
    var normalized, kind := collected.value.0, collected.value.1;
    var d: Definition := map[];
    if kind == Some(false) { d := d[NUMERIC := JNull]; }
    if root.Some? { d := d[ROOT := JString(root.value.hex)]; }
    d := d + (map k | k in normalized :: JString(normalized[k]));
    CollectedDefines(d, root, members, normalized, kind);
    r := Some(d);
  }

  lemma ReservedIsNotSpelled(members: map<Key, Checksum>, normalized: map<string, string>, kind: Option<bool>)
    requires Collected(normalized, members, members.Keys, kind)
    ensures ROOT !in normalized && NUMERIC !in normalized
  {
    forall k | k in normalized ensures !Reserved(k) {
      assert CollectedAt(normalized, members, members.Keys, k);
      var key :| Spells(key, members.Keys, k);
      if key.Index? { DecimalIsCanonical(key.i); }
    }
  }

  function Assembled(normalized: map<string, string>, root: Option<Checksum>, kind: Option<bool>, k: string)
    : Option<Json>
  {
    if k in normalized then Some(JString(normalized[k]))
    else if k == ROOT && root.Some? then Some(JString(root.value.hex))
    else if k == NUMERIC && kind == Some(false) then Some(JNull)
    else None
  }

  lemma CollectedDefines(d: Definition, root: Option<Checksum>, members: map<Key, Checksum>,
                         normalized: map<string, string>, kind: Option<bool>)
    requires Collected(normalized, members, members.Keys, kind)
    requires forall k :: Entry(d, k) == Assembled(normalized, root, kind, k)
    ensures Defines(d, root, members)
  {
    ReservedIsNotSpelled(members, normalized, kind);
    assert Numbered(members) <==> kind == Some(false);
    forall k ensures DefinedAt(d, root, members, k) {
      assert CollectedAt(normalized, members, members.Keys, k);
      assert Entry(d, k) == Assembled(normalized, root, kind, k);
    }
  }

  // ----- Reading -----

  /** A parsed definition; the members come in the order of the JSON object. */
  datatype Spec = Spec(root: Option<Checksum>, numeric: bool, members: seq<(string, Checksum)>)

  predicate IsHex(s: string) {
    |s| == 64 && forall i | 0 <= i < |s| :: IsDigit(s[i]) || 'a' <= s[i] <= 'f'
  }

  predicate IsChecksum(j: Json) {
    j.JString? && IsHex(j.s)
  }

  predicate ReadableAt(d: Definition, k: string) {
    k in d && !Reserved(k) ==> IsChecksum(d[k]) && (NUMERIC in d ==> Canonical(k))
  }

  ghost predicate Readable(d: Definition, deep: bool) {
    && (NUMERIC in d ==> d[NUMERIC] == JNull && !deep && exists k :: k in d && !Reserved(k))
    && (ROOT in d ==> IsChecksum(d[ROOT]))
    && (forall k :: k in d ==> ReadableAt(d, k))
  }

  function AsMap(members: seq<(string, Checksum)>): map<string, Checksum> {
    if members == [] then map[]
    else AsMap(members[..|members| - 1])[members[|members| - 1].0 := members[|members| - 1].1]
  }

  ghost predicate MemberAt(d: Definition, m: map<string, Checksum>, k: string) {
    && (k in m <==> k in d && !Reserved(k))
    && (k in m && k in d ==> d[k] == JString(m[k].hex))
  }

  ghost predicate Says(d: Definition, spec: Spec) {
    && spec.root == (if ROOT in d && d[ROOT].JString? then Some(Checksum(d[ROOT].s)) else None)
    && spec.numeric == (NUMERIC in d)
    && forall k :: MemberAt(d, AsMap(spec.members), k)
  }

  lemma AsMapGrows(members: seq<(string, Checksum)>, k: string, c: Checksum)
    ensures AsMap(members + [(k, c)]) == AsMap(members)[k := c]
  {
    assert (members + [(k, c)])[..|members|] == members;
  }

  /** `parse_celljoin`; `None` stands for an exception. */
  method Parse(d: Definition, deep: bool) returns (r: Option<Spec>)
    ensures r.Some? <==> Readable(d, deep)
    ensures r.Some? ==> Says(d, r.value) && Distinct(r.value.members)
    ensures r.Some? && r.value.numeric ==>
      forall i :: 0 <= i < |r.value.members| ==> Canonical(r.value.members[i].0)
  {
    var numeric := NUMERIC in d;
    if numeric && (d[NUMERIC] != JNull || deep) { return None; }
    var root: Option<Checksum> := None;
    if ROOT in d {
      if !IsChecksum(d[ROOT]) { return None; }
      root := Some(Checksum(d[ROOT].s));
    }
    var members := ReadMembers(d, numeric);
    if members.None? { return None; }
    if numeric && members.value == [] {
      assert AsMap(members.value) == map[];
      assert forall k :: k in d && !Reserved(k) ==> MemberAt(d, AsMap(members.value), k);
      return None;
    }
    if numeric {
      var last := members.value[|members.value| - 1];
      assert last.0 in AsMap(members.value);
      assert MemberAt(d, AsMap(members.value), last.0);
    }
    r := Some(Spec(root, numeric, members.value));
  }

  method ReadMembers(d: Definition, numeric: bool) returns (r: Option<seq<(string, Checksum)>>)
    requires numeric == (NUMERIC in d)
    ensures r.Some? <==> forall k :: k in d ==> ReadableAt(d, k)
    ensures r.Some? ==> forall k :: MemberAt(d, AsMap(r.value), k)
    ensures r.Some? ==> Distinct(r.value)
    ensures r.Some? && numeric ==> forall i :: 0 <= i < |r.value| ==> Canonical(r.value[i].0)
  {
    var members: seq<(string, Checksum)> := [];
    var rest := d.Keys;
    while rest != {}
      invariant rest <= d.Keys
      invariant forall k :: k in d && k !in rest ==> ReadableAt(d, k) && MemberAt(d, AsMap(members), k)
      invariant forall k :: k in AsMap(members) ==> k in d && k !in rest
      invariant Distinct(members) && forall i :: 0 <= i < |members| ==> members[i].0 !in rest
      invariant numeric ==> forall i :: 0 <= i < |members| ==> Canonical(members[i].0)
      decreases rest
    {
      var k :| k in rest;
      rest := rest - {k};
      if !Reserved(k) {
        if (numeric && !Canonical(k)) || !IsChecksum(d[k]) {
          assert !ReadableAt(d, k);
          return None;
        }
        AsMapGrows(members, k, Checksum(d[k].s));
        members := members + [(k, Checksum(d[k].s))];
      }
    }
    r := Some(members);
  }

  /** Every checksum is written as 64 lower-case hexadecimal digits. */
  ghost predicate WellFormed(root: Option<Checksum>, members: map<Key, Checksum>) {
    (root.Some? ==> IsHex(root.value.hex)) && forall k :: k in members ==> IsHex(members[k].hex)
  }

  /** Reading what was built: it succeeds unless integer keys meet a deep celltype, and recovers the root, the kind of
      keys, and every member under the text of its key, whatever the order of the members. */
  lemma BuildThenParse(d: Definition, root: Option<Checksum>, members: map<Key, Checksum>, deep: bool, spec: Spec)
    requires Acceptable(members) && WellFormed(root, members) && Defines(d, root, members)
    ensures Readable(d, deep) <==> !(deep && Numbered(members))
    ensures Says(d, spec) ==> spec.root == root && spec.numeric == Numbered(members)
    ensures Says(d, spec) ==>
      forall key :: key in members ==> Found(AsMap(spec.members), Text(key)) == Some(members[key])
    ensures Says(d, spec) ==> forall k :: k in AsMap(spec.members) ==> exists key :: Spells(key, members.Keys, k)
  {
    assert DefinedAt(d, root, members, ROOT) && DefinedAt(d, root, members, NUMERIC);
    forall k | k in d ensures ReadableAt(d, k) { DefinedIsReadable(d, root, members, k); }
    if Numbered(members) {
      var key :| key in members && key.Index?;
      MemberIsDefined(d, root, members, key);
    }
    forall key | key in members ensures !Reserved(Text(key)) && Entry(d, Text(key)) == Some(JString(members[key].hex)) {
      MemberIsDefined(d, root, members, key);
    }
    if Says(d, spec) {
      forall key | key in members ensures Found(AsMap(spec.members), Text(key)) == Some(members[key]) {
        assert MemberAt(d, AsMap(spec.members), Text(key));
      }
      forall k | k in AsMap(spec.members) ensures exists key :: Spells(key, members.Keys, k) {
        assert MemberAt(d, AsMap(spec.members), k) && DefinedAt(d, root, members, k);
      }
    }
  }

  function Found(m: map<string, Checksum>, k: string): Option<Checksum> {
    if k in m then Some(m[k]) else None
  }

  lemma MemberIsDefined(d: Definition, root: Option<Checksum>, members: map<Key, Checksum>, key: Key)
    requires Acceptable(members) && Defines(d, root, members) && key in members
    ensures !Reserved(Text(key)) && Entry(d, Text(key)) == Some(JString(members[key].hex))
  {
    if key.Index? { DecimalIsCanonical(key.i); }
    assert DefinedAt(d, root, members, Text(key)) && Spells(key, members.Keys, Text(key));
  }

  lemma DefinedIsReadable(d: Definition, root: Option<Checksum>, members: map<Key, Checksum>, k: string)
    requires Acceptable(members) && WellFormed(root, members) && Defines(d, root, members) && k in d
    ensures ReadableAt(d, k)
  {
    assert DefinedAt(d, root, members, k) && DefinedAt(d, root, members, NUMERIC);
    if !Reserved(k) {
      var key :| Spells(key, members.Keys, k);
      MemberIsDefined(d, root, members, key);
      if NUMERIC in d {
        var other :| other in members && other.Index?;
        assert other.Name? == key.Name?;
        DecimalIsCanonical(key.i);
      }
    }
  }

  // ----- Evaluation -----

  datatype Value<V> = Items(items: seq<V>) | Fields(fields: map<string, V>) | Atom(value: V)

  ghost predicate Resolves<V>(m: map<string, Checksum>, item: Checksum -> Option<V>) {
    forall k :: k in m ==> item(m[k]).Some?
  }

  ghost predicate InRange(m: map<string, Checksum>, n: nat) {
    forall k :: k in m ==> Canonical(k) && FromDecimal(k) < n
  }

  /** All members assigned at once. */
  ghost function Assigned<V>(base: Value<V>, numeric: bool, m: map<string, Checksum>, item: Checksum -> Option<V>)
    : Option<Value<V>>
  {
    if numeric then
      if base.Items? && Resolves(m, item) && InRange(m, |base.items|) then
        Some(Items(seq(|base.items|, i requires 0 <= i < |base.items| =>
          if Decimal(i) in m then item(m[Decimal(i)]).value else base.items[i])))
      else None
    else if m == map[] then Some(base)
    else if base.Fields? && Resolves(m, item) then
      Some(Fields(base.fields + (map k | k in m :: item(m[k]).value)))
    else None
  }

  ghost predicate ItemAt<V>(items: seq<V>, m: map<string, Checksum>, item: Checksum -> Option<V>, now: seq<V>, i: nat) {
    i < |items| && i < |now| ==>
      if Decimal(i) in m then item(m[Decimal(i)]) == Some(now[i]) else now[i] == items[i]
  }

  /** `now` is `items` with the members of `m` assigned. */
  ghost predicate Holds<V>(items: seq<V>, m: map<string, Checksum>, item: Checksum -> Option<V>, now: seq<V>) {
    && Resolves(m, item) && InRange(m, |items|) && |now| == |items|
    && forall i: nat :: ItemAt(items, m, item, now, i)
  }

  lemma HoldsOneMore<V>(items: seq<V>, m: map<string, Checksum>, item: Checksum -> Option<V>, now: seq<V>,
                        key: string, checksum: Checksum, v: V)
    requires Holds(items, m, item, now) && Canonical(key) && FromDecimal(key) < |items| && item(checksum) == Some(v)
    ensures Holds(items, m[key := checksum], item, now[FromDecimal(key) := v])
  {
    var m', now' := m[key := checksum], now[FromDecimal(key) := v];
    CanonicalRoundTrip(key);
    forall i: nat ensures ItemAt(items, m', item, now', i) {
      assert ItemAt(items, m, item, now, i);
      if i < |items| { DecimalIsCanonical(i); }
    }
  }

  lemma HoldsIsAssigned<V>(items: seq<V>, m: map<string, Checksum>, item: Checksum -> Option<V>, now: seq<V>)
    requires Holds(items, m, item, now)
    ensures Assigned(Items(items), true, m, item) == Some(Items(now))
  {
    var r := Assigned(Items(items), true, m, item).value.items;
    forall i | 0 <= i < |items| ensures r[i] == now[i] { assert ItemAt(items, m, item, now, i); }
    assert r == now;
  }

  /** The loop over integer keys; `None` stands for an exception. */
  method AssignItems<V>(members: seq<(string, Checksum)>, items: seq<V>, item: Checksum -> Option<V>)
    returns (r: Option<Value<V>>)
    requires Distinct(members) && forall i :: 0 <= i < |members| ==> Canonical(members[i].0)
    ensures r == Assigned(Items(items), true, AsMap(members), item)
  {
    var current := items;
    for n := 0 to |members|
      invariant Holds(items, AsMap(members[..n]), item, current)
    {
      var (key, checksum) := members[n];
      Prefix(members, n);
      InWhole(members, n);
      var index := FromDecimal(key);
      if index >= |current| { return None; }
      var v := item(checksum);
      if v.None? { return None; }
      HoldsOneMore(items, AsMap(members[..n]), item, current, key, checksum, v.value);
      current := current[index := v.value];
    }
    assert members[..|members|] == members;
    HoldsIsAssigned(items, AsMap(members), item, current);
    r := Some(Items(current));
  }

  /** The loop over string keys. */
  method AssignFields<V>(members: seq<(string, Checksum)>, base: Value<V>, item: Checksum -> Option<V>)
    returns (r: Option<Value<V>>)
    requires Distinct(members)
    ensures r == Assigned(base, false, AsMap(members), item)
  {
    var current := base;
    for n := 0 to |members|
      invariant Assigned(base, false, AsMap(members[..n]), item) == Some(current)
      invariant n == 0 ==> current == base
      invariant n > 0 ==> base.Fields? && current.Fields?
    {
      var (key, checksum) := members[n];
      Prefix(members, n);
      InWhole(members, n);
      if !current.Fields? { return None; }
      var v := item(checksum);
      if v.None? { return None; }
      FieldsOneMore(base, AsMap(members[..n]), item, current, key, checksum, v.value);
      current := Fields(current.fields[key := v.value]);
    }
    assert members[..|members|] == members;
    r := Some(current);
  }

  lemma FieldsOneMore<V>(base: Value<V>, m: map<string, Checksum>, item: Checksum -> Option<V>, now: Value<V>,
                         key: string, checksum: Checksum, v: V)
    requires base.Fields? && now.Fields? && Assigned(base, false, m, item) == Some(now) && item(checksum) == Some(v)
    ensures Assigned(base, false, m[key := checksum], item) == Some(Fields(now.fields[key := v]))
  {
    var m' := m[key := checksum];
    var values, values' := map k | k in m :: item(m[k]).value, map k | k in m' :: item(m'[k]).value;
    assert values' == values[key := v];
    assert now.fields == base.fields + values by {
      if m == map[] { assert values == map[]; }
    }
    assert base.fields + values' == (base.fields + values)[key := v];
  }

  /** `evaluate_celljoin` on the value of its root: the simultaneous update of all members, or an exception. */
  method Evaluate<V>(spec: Spec, base: Value<V>, item: Checksum -> Option<V>) returns (r: Option<Value<V>>)
    requires Distinct(spec.members)
    requires spec.numeric ==> forall i :: 0 <= i < |spec.members| ==> Canonical(spec.members[i].0)
    ensures r == Assigned(base, spec.numeric, AsMap(spec.members), item)
  {
    if spec.numeric {
      if !base.Items? { return None; }
      r := AssignItems(spec.members, base.items, item);
    } else {
      r := AssignFields(spec.members, base, item);
    }
  }

  /** The order of the members plays no role: two readings of one definition evaluate to the same. */
  lemma OrderIsIrrelevant<V>(d: Definition, one: Spec, other: Spec, base: Value<V>, item: Checksum -> Option<V>)
    requires Says(d, one) && Says(d, other)
    ensures Assigned(base, one.numeric, AsMap(one.members), item) ==
      Assigned(base, other.numeric, AsMap(other.members), item)
  {
    var m, n := AsMap(one.members), AsMap(other.members);
    forall k ensures (k in m <==> k in n) && (k in m ==> m[k] == n[k]) {
      assert MemberAt(d, m, k) && MemberAt(d, n, k);
    }
    assert m == n;
  }

  lemma Prefix(members: seq<(string, Checksum)>, n: nat)
    requires n < |members|
    ensures AsMap(members[..n + 1]) == AsMap(members[..n])[members[n].0 := members[n].1]
  {
    assert members[..n + 1][..n] == members[..n];
  }

  predicate Distinct(members: seq<(string, Checksum)>) {
    forall i, j | 0 <= i < j < |members| :: members[i].0 != members[j].0
  }

  /** With distinct keys, every pair is in the map. */
  lemma {:induction false} InWhole(members: seq<(string, Checksum)>, n: nat)
    requires Distinct(members) && n < |members|
    ensures members[n].0 in AsMap(members) && AsMap(members)[members[n].0] == members[n].1
  {
    var front := members[..|members| - 1];
    if n < |members| - 1 {
      assert front[n] == members[n];
      InWhole(front, n);
      assert members[n].0 != members[|members| - 1].0;
    }
  }

  /** A canonical key is the decimal text of the number it reads as. */
  lemma {:induction false} CanonicalRoundTrip(s: string)
    requires Canonical(s)
    ensures Decimal(FromDecimal(s)) == s
    decreases |s|
  {
    var n := FromDecimal(s);
    var front, last := s[..|s| - 1], s[|s| - 1];
    assert s == front + [last];
    if |s| == 1 {
      assert front == "";
      assert n == DigitValue(last) && Digit(n) == last;
    } else {
      assert front[0] == s[0];
      CanonicalRoundTrip(front);
      assert Decimal(0) == "0" && front[0] != '0';
      assert n / 10 == FromDecimal(front) && n % 10 == DigitValue(last);
      assert Digit(n % 10) == last;
    }
  }
}
