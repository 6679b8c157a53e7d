/** A HashType never refuses a conversion that would have worked: what `conversion_feasible` disproves fails on every
    buffer that the word describes, even when the conversion runs without consulting any HashType. */
module Refusals {
  import opened Convert
  import opened ConversionRules
  import opened HashTypes
  import opened Prelude

  /** What must hold of a buffer that can be read as a celltype. */
  predicate Admits(c: Content, t: Celltype) {
    match t
    case Text => c.format.TextFormat?
    case Yaml => c.format.TextFormat?
    case Python => c.format.TextFormat?
    case IPython => c.format.TextFormat?
    case Plain => c.format.TextFormat? && c.format.json.Some?
    case Binary => (c.format.NpyFormat? && c.format.valid.Some?) || c.format == TextFormat(None)
    case Mixed =>
      || (c.format.NpyFormat? && c.format.valid.Some?)
      || (c.format.MixedFormat? && c.format.isObject.Some?)
      || c.format.TextFormat?
    case Str => c.format.TextFormat? && c.format.json.Some? && JsonShape(c.format.json.value).ScalarShape?
    case Int => IsNumber(c)
    case Float => IsNumber(c)
    case Bool => false
    case _ => true
  }

  /** What a checksum says about its value by itself. */
  predicate VirtualOk<V>(a: Attempt<Option<V>>, known: Class, t: Celltype) {
    match known
    case NullClass => a.Got? && a.value.Some?
    case BoolClass =>
      if t.Int? || t.Float? then !a.Got?
      else a.Got? && (a.value.Some? <==> t.Bool? || t.Plain? || t.Mixed? || t.Str?)
    case Ordinary => if t.Bool? then !a.Got? else a == Got(None)
  }

  /** Values that a rule cannot serialize. */
  predicate Unusable(shape: Shape, s: Celltype, t: Celltype) {
    if (s.Binary? || s.Mixed?) && (t.Int? || t.Float? || t.Str? || t.Bool?) then
      shape.DictShape? || shape.ListShape? || (shape.ArrayShape? && !shape.rank.Scalar?)
      || (shape.NullShape? && (t.Int? || t.Float?))
    else s.Plain? && t.Binary? && shape.DictShape?
  }

  ghost predicate ReadsAt<V>(w: World<V>, describe: Buffer -> Content, shape: V -> Shape, b: Buffer, c: Checksum,
                             t: Celltype)
  {
    w.parse(b, c, t).Got? ==>
      && Admits(describe(b), t)
      && (t.Binary? || t.Mixed? || t.Plain? ==> shape(w.parse(b, c, t).value) == ShapeOf(describe(b)))
  }

  ghost predicate MakesAt<V>(w: World<V>, shape: V -> Shape, v: V, s: Celltype, t: Celltype) {
    Unusable(shape(v), s, t) ==> !w.make(v, s, t).Got?
  }

  ghost predicate AsksNothing<V(!new)>(w: World<V>) {
    (forall c, t, loaded :: w.known(c, t, loaded) == Got(false)) && (forall c, loaded :: !w.provenMixed(c, loaded))
  }

  /** A world in which parsers, virtual values and serializers behave as those of the system, and nothing is known about
      the types of buffers in advance. */
  ghost predicate Realistic<V(!new)>(w: World<V>, describe: Buffer -> Content, classOf: Checksum -> Class,
                                     shape: V -> Shape)
  {
    && AsksNothing(w)
    && (forall c, t :: VirtualOk(w.virtualValue(c, t), classOf(c), t))
    && (forall b, c, t :: ReadsAt(w, describe, shape, b, c, t))
    && (forall v, s, t :: MakesAt(w, shape, v, s, t))
  }

  /** The buffer `b` under checksum `c`, described by the word `h`, and valid as celltype `s`. */
  ghost predicate Described(describe: Buffer -> Content, classOf: Checksum -> Class, h: HashType, c: Checksum,
                            b: Buffer, s: Celltype)
    requires !Deep(s)
  {
    && Proper(describe(b)) && Implies(FromBuffer(describe(b)), h)
    && (classOf(c).BoolClass? ==> describe(b).format == TextFormat(Some(JBool)))
    && DeserializableAs(FromBuffer(describe(b)), s, classOf(c)) != Some(false)
  }

  lemma ReadFails<V(!new)>(w: World<V>, describe: Buffer -> Content, classOf: Checksum -> Class, shape: V -> Shape,
                           h: HashType, c: Checksum, b: Buffer, s: Celltype, t: Celltype, l: Lazy)
    requires !Deep(s) && !Deep(t) && Realistic(w, describe, classOf, shape) && Described(describe, classOf, h, c, b, s)
    requires Serves(l, b) && Reinterpret(s, t) && DeserializableAs(h, t, classOf(c)) == Some(false)
    ensures ReinterpretAs(w, c, t, l).result.Fail?
  {
    LooserRefusesLess(FromBuffer(describe(b)), h, t, classOf(c));
    assert VirtualOk(w.virtualValue(c, t), classOf(c), t) && ReadsAt(w, describe, shape, b, c, t);
  }

  /** What is read successfully is not refused. */
  lemma ReadIsValid<V(!new)>(w: World<V>, describe: Buffer -> Content, classOf: Checksum -> Class, shape: V -> Shape,
                             h: HashType, c: Checksum, b: Buffer, s: Celltype, t: Celltype, l: Lazy)
    requires !Deep(s) && !Deep(t) && Realistic(w, describe, classOf, shape) && Described(describe, classOf, h, c, b, s)
    requires Serves(l, b) && (t.Plain? || t.Text?) && ReinterpretAs(w, c, t, l).result.Done?
    ensures ReinterpretAs(w, c, t, l).result == Done((c, None)) && Serves(ReinterpretAs(w, c, t, l).lazy, b)
    ensures Described(describe, classOf, h, c, b, t)
  {
    assert VirtualOk(w.virtualValue(c, t), classOf(c), t) && ReadsAt(w, describe, shape, b, c, t);
  }

  lemma RebuildFails<V(!new)>(w: World<V>, describe: Buffer -> Content, classOf: Checksum -> Class, shape: V -> Shape,
                              h: HashType, c: Checksum, b: Buffer, s: Celltype, t: Celltype, l: Lazy)
    requires !Deep(s) && !Deep(t) && Realistic(w, describe, classOf, shape) && Described(describe, classOf, h, c, b, s)
    requires Serves(l, b) && !classOf(c).NullClass? && !IsUntested(h.kind)
    requires (Possible(s, t) && PossibleFeasible(h, s, t) == Some(false)) ||
      (Values(s, t) && !t.ChecksumType? && ValueFeasible(h, s, t) == Some(false))
    ensures Rebuild(w, c, s, t, l).result.Fail?
  {
    assert h == FromBuffer(describe(b));
    assert VirtualOk(w.virtualValue(c, s), classOf(c), s) && ReadsAt(w, describe, shape, b, c, s);
    if w.parse(b, c, s).Got? { assert MakesAt(w, shape, w.parse(b, c, s).value, s, t); }
  }

  /** Conversions that go by an equivalence are never refused for a valid source. */
  lemma EquivalentIsNotRefused(h: HashType, s: Celltype, t: Celltype, known: Class)
    requires !Deep(s) && !Deep(t) && s != t && Equivalent(s, t).Some?
    requires DeserializableAs(h, s, known) != Some(false)
    ensures Feasible(h, s, t, known) != Some(false)
  {
    var (u, v) := Equivalent(s, t).value;
    EquivalentRule(s, t, u, v);
    if Chain(u, v).Some? {
      assert Feasible(h, s, Mixed, known) == Some(true) || known.NullClass?;
    }
  }

  /** What equivalences lead to: rules that always apply, `plain` to `binary` from a scalar, or the chain from text to
      `binary` for code. */
  lemma EquivalentRule(s: Celltype, t: Celltype, u: Celltype, v: Celltype)
    requires Equivalent(s, t) == Some((u, v))
    ensures !Forbidden(u, v) && !Reinterpret(u, v) && !Possible(u, v)
    ensures Chain(u, v).None? ==> Trivial(u, v) || Reformat(u, v) || (Values(u, v) && !s.Plain? && !s.Binary?)
    ensures Chain(u, v).Some? ==>
      Chain(u, v).value.Mixed? && t.Binary? && (s.Python? || s.IPython?) && Equivalent(s, Mixed) == Some((Text, Str))
  {
  }

  /** The first legs after which a predictor goes on to the second: all of them keep the buffer. */
  lemma KeepingLegs(s: Celltype, t: Celltype, mid: Celltype)
    requires !Deep(s) && !Deep(t) && s != t && Equivalent(s, t).None? && Chain(s, t) == Some(mid)
    requires Trivial(Resolved(s, mid).0, Resolved(s, mid).1) || Reinterpret(Resolved(s, mid).0, Resolved(s, mid).1)
    ensures Equivalent(s, mid).None? && Chain(s, mid).None? && s != mid && (mid.Plain? || mid.Text?)
    ensures Trivial(s, mid) ==> mid.Plain? && (s.Int? || s.Float? || s.Bool?)
    ensures !Forbidden(s, mid)
  {
  }

  lemma KeptIsDescribed<V(!new)>(w: World<V>, describe: Buffer -> Content, classOf: Checksum -> Class,
                                 shape: V -> Shape,
                                 h: HashType, c: Checksum, b: Buffer, s: Celltype, t: Celltype, mid: Celltype, l: Lazy)
    requires !Deep(s) && !Deep(t) && s != t && Equivalent(s, t).None? && Chain(s, t) == Some(mid)
    requires Trivial(Resolved(s, mid).0, Resolved(s, mid).1) || Reinterpret(Resolved(s, mid).0, Resolved(s, mid).1)
    requires Realistic(w, describe, classOf, shape) && Described(describe, classOf, h, c, b, s) && Serves(l, b)
    requires !Deep(mid)
    ensures var first := ConvertOrdinary(w, c, s, mid, l);
      first.result.Done? ==>
        first.result == Done((c, None)) && Serves(first.lazy, b) && Described(describe, classOf, h, c, b, mid)
  {
    KeepingLegs(s, t, mid);
    assert ConvertOrdinary(w, c, s, mid, l) == ApplyRule(w, c, s, mid, l);
    if !Trivial(s, mid) && ReinterpretAs(w, c, mid, l).result.Done? {
      ReadIsValid(w, describe, classOf, shape, h, c, b, s, mid, l);
    }
  }

  /** No false refusal: through equivalences and chains, a conversion that a HashType declares infeasible fails. */
  lemma {:induction false} NoFalseRefusal<V(!new)>(
      w: World<V>, describe: Buffer -> Content, classOf: Checksum -> Class, shape: V -> Shape,
      h: HashType, c: Checksum, b: Buffer, s: Celltype, t: Celltype, l: Lazy)
    requires !Deep(s) && !Deep(t) && Realistic(w, describe, classOf, shape)
    requires Described(describe, classOf, h, c, b, s) && Serves(l, b)
    requires Feasible(h, s, t, classOf(c)) == Some(false)
    ensures ConvertOrdinary(w, c, s, t, l).result.Fail?
    decreases Rank(s, t), 1
  {
    LooserRefusesLess(FromBuffer(describe(b)), h, s, classOf(c));
    if Equivalent(s, t).Some? {
      EquivalentIsNotRefused(h, s, t, classOf(c));
    } else if Chain(s, t).Some? {
      ChainRefusal(w, describe, classOf, shape, h, c, b, s, t, Chain(s, t).value, l);
    } else if !Forbidden(s, t) {
      EveryPairHasOneRule(s, t);
      if Reinterpret(s, t) {
        ReadFails(w, describe, classOf, shape, h, c, b, s, t, l);
      } else {
        RebuildFails(w, describe, classOf, shape, h, c, b, s, t, l);
      }
    }
  }

  lemma {:induction false} ChainRefusal<V(!new)>(
      w: World<V>, describe: Buffer -> Content, classOf: Checksum -> Class, shape: V -> Shape,
      h: HashType, c: Checksum, b: Buffer, s: Celltype, t: Celltype, mid: Celltype, l: Lazy)
    requires !Deep(s) && !Deep(t) && s != t && Equivalent(s, t).None? && Chain(s, t) == Some(mid)
    requires Realistic(w, describe, classOf, shape)
    requires Described(describe, classOf, h, c, b, s) && Serves(l, b)
    requires DeserializableAs(h, s, classOf(c)) != Some(false) && Feasible(h, s, t, classOf(c)) == Some(false)
    ensures ConvertOrdinary(w, c, s, t, l).result.Fail?
    decreases Rank(s, t), 0
  {
    RulesAreWellFounded(s, t);
    EveryPairHasOneRule(s, t);
    if Feasible(h, s, mid, classOf(c)) == Some(false) {
      NoFalseRefusal(w, describe, classOf, shape, h, c, b, s, mid, l);
    } else {
      KeptIsDescribed(w, describe, classOf, shape, h, c, b, s, t, mid, l);
      var first := ConvertOrdinary(w, c, s, mid, l);
      if first.result.Done? {
        NoFalseRefusal(w, describe, classOf, shape, h, c, b, mid, t, first.lazy);
      }
    }
  }
}
