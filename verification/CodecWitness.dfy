/** There is a codec that reads back whatever any value is written as: values are spelled out as trees, and trees
    as bytes. So the round trip of mixed data is not about codecs that cannot exist. */
module CodecWitness {
  import opened Prelude
  import opened Keys
  import opened DTypes
  import opened MixedForm
  import opened MixedStream
  import opened MixedFile

  // ----- Trees as bytes -----

  datatype Tree = Node(tag: nat, children: seq<Tree>)

  /** A run of ones with a two behind it. */
  function Unary(n: nat): (r: seq<byte>)
    ensures r != [] && r[0] in {1, 2}
  {
    if n == 0 then [2] else [1] + Unary(n - 1)
  }

  function Spelled(t: Tree): (r: seq<byte>)
    ensures r != [] && r[0] in {1, 2}
    decreases t, |t.children| + 1
  {
    Unary(t.tag) + SpelledFrom(t, 0)
  }

  /** The children from number `n` on, with a three behind them. */
  function SpelledFrom(t: Tree, n: nat): (r: seq<byte>)
    requires n <= |t.children|
    decreases t, |t.children| - n
  {
    if n == |t.children| then [3] else Spelled(t.children[n]) + SpelledFrom(t, n + 1)
  }

  lemma {:induction false} UnaryIsInjective(m: nat, n: nat, r: seq<byte>, q: seq<byte>)
    requires Unary(m) + r == Unary(n) + q
    ensures m == n && r == q
  {
    var left, right := Unary(m) + r, Unary(n) + q;
    assert left[0] == right[0];
    assert left[1..] == right[1..];
    if m == 0 {
      assert left[1..] == r && right[1..] == q;
    } else {
      assert left[1..] == Unary(m - 1) + r && right[1..] == Unary(n - 1) + q;
      UnaryIsInjective(m - 1, n - 1, r, q);
    }
  }

  /** A spelled tree can be told from whatever follows it. */
  lemma {:induction false} SpelledIsInjective(a: Tree, b: Tree, r: seq<byte>, q: seq<byte>)
    requires Spelled(a) + r == Spelled(b) + q
    ensures a == b && r == q
    decreases a, |a.children| + 1
  {
    Regroup(Unary(a.tag), SpelledFrom(a, 0), r);
    Regroup(Unary(b.tag), SpelledFrom(b, 0), q);
    UnaryIsInjective(a.tag, b.tag, SpelledFrom(a, 0) + r, SpelledFrom(b, 0) + q);
    SpelledFromIsInjective(a, 0, b, 0, r, q);
    assert a.children[0..] == a.children && b.children[0..] == b.children;
  }

  lemma {:induction false} SpelledFromIsInjective(a: Tree, i: nat, b: Tree, j: nat, r: seq<byte>, q: seq<byte>)
    requires i <= |a.children| && j <= |b.children|
    requires SpelledFrom(a, i) + r == SpelledFrom(b, j) + q
    ensures a.children[i..] == b.children[j..] && r == q
    decreases a, |a.children| - i
  {
    var left, right := SpelledFrom(a, i) + r, SpelledFrom(b, j) + q;
    assert left[0] == right[0];
    if i == |a.children| {
      assert left[1..] == r && right[1..] == q;
    } else {
      var c, d := a.children[i], b.children[j];
      Regroup(Spelled(c), SpelledFrom(a, i + 1), r);
      Regroup(Spelled(d), SpelledFrom(b, j + 1), q);
      SpelledIsInjective(c, d, SpelledFrom(a, i + 1) + r, SpelledFrom(b, j + 1) + q);
      SpelledFromIsInjective(a, i + 1, b, j + 1, r, q);
      assert a.children[i..] == [c] + a.children[i + 1..] && b.children[j..] == [d] + b.children[j + 1..];
    }
  }

  // ----- Values as trees -----

  function OfNat(n: nat): Tree { Node(n, []) }

  function OfInt(i: int): Tree { Node(if i < 0 then -2 * i - 1 else 2 * i, []) }

  function OfNats(s: seq<nat>): Tree { Node(0, seq(|s|, i requires 0 <= i < |s| => OfNat(s[i]))) }

  function OfBytes(s: seq<byte>): Tree { Node(0, seq(|s|, i requires 0 <= i < |s| => OfNat(s[i] as int))) }

  function OfString(s: string): Tree { Node(0, seq(|s|, i requires 0 <= i < |s| => OfNat(s[i] as int))) }

  function OfShape(s: Option<seq<nat>>): Tree { if s.None? then Node(1, []) else OfNats(s.value) }

  function OfAtom(a: Atom): Tree {
    match a
    case Null => Node(0, [])
    case Bool(b) => Node(1, [OfNat(if b then 1 else 0)])
    case Integer(i) => Node(2, [OfInt(i)])
    case Number(repr) => Node(3, [OfString(repr)])
    case Text(s) => Node(4, [OfString(s)])
    case NumPyInteger(i) => Node(5, [OfInt(i)])
    case NumPyNumber(repr) => Node(6, [OfString(repr)])
  }

  function OfDType(dt: DType): Tree {
    match dt
    case Boolean => Node(0, [])
    case Integral(size, unsigned) => Node(1, [OfNat(size), OfNat(if unsigned then 1 else 0)])
    case Floating(size) => Node(2, [OfNat(size)])
    case Complex(size) => Node(3, [OfNat(size)])
    case Bytes(size) => Node(4, [OfNat(size)])
    case Unicode(chars) => Node(5, [OfNat(chars)])
    case Record(fields) =>
      Node(6, seq(|fields|, i requires 0 <= i < |fields| =>
                    Node(0, [OfString(fields[i].name), OfDType(fields[i].dtype), OfNats(fields[i].shape)])))
  }

  ghost function OfValue(v: Value): Tree {
    match v
    case Scalar(a) => Node(0, [OfAtom(a)])
    case Leaf(a) => Node(1, [OfDType(a.dtype), OfShape(a.shape), OfBytes(a.content)])
    case List(items) => Node(2, seq(|items|, i requires 0 <= i < |items| => OfValue(items[i])))
    case Dict(members) =>
      var keys := Sorted(members.Keys);
      Node(3, seq(|keys|, i requires 0 <= i < |keys| && keys[i] in members =>
                    Node(0, [OfString(keys[i]), OfValue(members[keys[i]])])))
  }

  lemma StringIsInjective(s: string, t: string)
    requires OfString(s) == OfString(t)
    ensures s == t
  {
    forall i | 0 <= i < |s| ensures s[i] == t[i] { assert OfString(s).children[i] == OfString(t).children[i]; }
  }

  lemma NatsIsInjective(s: seq<nat>, t: seq<nat>)
    requires OfNats(s) == OfNats(t)
    ensures s == t
  {
    forall i | 0 <= i < |s| ensures s[i] == t[i] { assert OfNats(s).children[i] == OfNats(t).children[i]; }
  }

  lemma BytesIsInjective(s: seq<byte>, t: seq<byte>)
    requires OfBytes(s) == OfBytes(t)
    ensures s == t
  {
    forall i | 0 <= i < |s| ensures s[i] == t[i] { assert OfBytes(s).children[i] == OfBytes(t).children[i]; }
  }

  lemma AtomIsInjective(a: Atom, b: Atom)
    requires OfAtom(a) == OfAtom(b)
    ensures a == b
  {
    assert OfAtom(a).tag == OfAtom(b).tag;
    if OfAtom(a).tag > 0 {
      assert OfAtom(a).children[0] == OfAtom(b).children[0];
    }
    match a {
      case Number(_) => StringIsInjective(a.repr, b.repr);
      case Text(_) => StringIsInjective(a.s, b.s);
      case NumPyNumber(_) => StringIsInjective(a.repr, b.repr);
      case _ =>
    }
  }

  lemma {:induction false} DTypeIsInjective(a: DType, b: DType)
    requires OfDType(a) == OfDType(b)
    ensures a == b
  {
    var s, t := OfDType(a), OfDType(b);
    assert s.tag == t.tag;
    if a.Record? {
      forall i | 0 <= i < |a.fields| ensures a.fields[i] == b.fields[i] {
        var f, g := s.children[i], t.children[i];
        assert f.children[0] == g.children[0] && f.children[1] == g.children[1] && f.children[2] == g.children[2];
        StringIsInjective(a.fields[i].name, b.fields[i].name);
        DTypeIsInjective(a.fields[i].dtype, b.fields[i].dtype);
        NatsIsInjective(a.fields[i].shape, b.fields[i].shape);
      }
    } else if !a.Boolean? {
      assert s.children[0] == t.children[0];
      if a.Integral? { assert s.children[1] == t.children[1]; }
    }
  }

  lemma ArrayIsInjective(a: Array, b: Array)
    requires OfValue(Leaf(a)) == OfValue(Leaf(b))
    ensures a == b
  {
    var s, t := OfValue(Leaf(a)).children, OfValue(Leaf(b)).children;
    assert s[0] == t[0] && s[1] == t[1] && s[2] == t[2];
    DTypeIsInjective(a.dtype, b.dtype);
    if a.shape.Some? { NatsIsInjective(a.shape.value, b.shape.value); }
    BytesIsInjective(a.content, b.content);
  }

  lemma {:induction false} ValueIsInjective(v: Value, w: Value)
    requires OfValue(v) == OfValue(w)
    ensures v == w
  {
    var s, t := OfValue(v), OfValue(w);
    assert s.tag == t.tag;
    match v {
      case Scalar(_) =>
        assert s.children[0] == t.children[0];
        AtomIsInjective(v.atom, w.atom);
      case Leaf(_) => ArrayIsInjective(v.arr, w.arr);
      case List(items) =>
        forall i | 0 <= i < |items| ensures items[i] == w.items[i] {
          assert s.children[i] == t.children[i];
          ValueIsInjective(items[i], w.items[i]);
        }
      case Dict(members) =>
        SameKeys(v, w);
        forall k | k in members ensures members[k] == w.members[k] {
          var i :| 0 <= i < |Sorted(members.Keys)| && Sorted(members.Keys)[i] == k;
          assert s.children[i].children[1] == t.children[i].children[1];
          ValueIsInjective(members[k], w.members[k]);
        }
    }
  }

  lemma SameKeys(v: Value, w: Value)
    requires v.Dict? && w.Dict? && OfValue(v) == OfValue(w)
    ensures v.members.Keys == w.members.Keys
  {
    var s, t := OfValue(v).children, OfValue(w).children;
    var a, b := Sorted(v.members.Keys), Sorted(w.members.Keys);
    assert |a| == |s| == |t| == |b|;
    forall i | 0 <= i < |a| ensures a[i] == b[i] {
      assert a[i] in v.members && b[i] in w.members;
      assert s[i].children[0] == t[i].children[0];
      StringIsInjective(a[i], b[i]);
    }
    assert a == b;
    forall k ensures k in v.members.Keys <==> k in w.members.Keys { assert k in a <==> k in b; }
  }

  // ----- The codec -----

  ghost function Spell(v: Value): (r: seq<byte>)
    ensures r != [] && r[0] in {1, 2}
  {
    Spelled(OfValue(v))
  }

  lemma SpellIsInjective(v: Value, w: Value)
    requires Spell(v) == Spell(w)
    ensures v == w
  {
    assert Spell(v) + [] == Spell(w) + [];
    SpelledIsInjective(OfValue(v), OfValue(w), [], []);
    ValueIsInjective(v, w);
  }

  ghost function Unspell(text: seq<byte>): Option<Value> {
    if exists v :: Spell(v) == text then
      var v :| Spell(v) == text;
      Some(v)
    else None
  }

  lemma SpellRoundTrip(v: Value)
    ensures Unspell(Spell(v)) == Some(v)
  {
    var w := Unspell(Spell(v)).value;
    SpellIsInjective(v, w);
  }

  /** The two parts of the JSON document in a stream as one value. */
  ghost function Joint(marks: seq<nat>, v: Value): Value {
    List([List(seq(|marks|, i requires 0 <= i < |marks| => Scalar(Integer(marks[i])))), v])
  }

  ghost function Parted(joint: Option<Value>): Option<(seq<nat>, Value)> {
    if exists marks, v :: joint == Some(Joint(marks, v)) then
      var marks, v :| joint == Some(Joint(marks, v));
      Some((marks, v))
    else None
  }

  lemma JointRoundTrip(marks: seq<nat>, v: Value)
    ensures Parted(Some(Joint(marks, v))) == Some((marks, v))
  {
    var p := Parted(Some(Joint(marks, v))).value;
    var a, b := Joint(marks, v).items, Joint(p.0, p.1).items;
    assert a[0] == b[0] && a[1] == b[1];
    forall i | 0 <= i < |marks| ensures marks[i] == p.0[i] { assert a[0].items[i] == b[0].items[i]; }
    assert marks == p.0;
  }

  /** A value that has the form `f`, if there is one. */
  ghost function Specimen(f: Form): Value {
    if exists v :: FormOf(v) == f then
      var v :| FormOf(v) == f;
      v
    else Scalar(Null)
  }

  ghost function WitnessCodec(): Codec {
    Codec(
      v => Spell(v), text => Unspell(text), _ => true,
      (marks, v) => Spell(Joint(marks, v)), text => Parted(Unspell(text)),
      f => Spell(Specimen(f)), text => if Unspell(text).Some? then Some(FormOf(Unspell(text).value)) else None,
      a => MAGIC_NUMPY + Spell(Leaf(AsArray(a))),
      text => if MAGIC_NUMPY <= text then LeafOf(Unspell(text[|MAGIC_NUMPY|..])) else None)
  }

  ghost function LeafOf(v: Option<Value>): Option<Array> {
    if v.Some? && v.value.Leaf? then Some(v.value.arr) else None
  }

  lemma WitnessIsFaithful()
    ensures Faithful(WitnessCodec())
  {
    var c := WitnessCodec();
    forall v ensures FaithfulFor(c, v) {
      match StorageOf(v) {
        case PurePlain =>
          SpellRoundTrip(Plainly(v));
        case PureBinary =>
          SpellRoundTrip(Leaf(AsArray(v.arr)));
          assert (MAGIC_NUMPY + Spell(Leaf(AsArray(v.arr))))[|MAGIC_NUMPY|..] == Spell(Leaf(AsArray(v.arr)));
        case MixedPlain =>
          SpellRoundTrip(Specimen(FormOf(v)));
          SpellRoundTrip(Joint(Marks(v), Plainly(Zeroed(v))));
          JointRoundTrip(Marks(v), Plainly(Zeroed(v)));
      }
    }
  }

  /** The hypothesis of the round trip can be met, by one codec for all values. */
  lemma FaithfulCodecExists()
    ensures exists c :: Faithful(c)
  {
    WitnessIsFaithful();
  }
}
