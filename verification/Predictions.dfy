/** What HashType words foresee: the verdicts of `deserializable_as` and `conversion_feasible`, by what the buffer holds
    and not by the branches of the predictors, and whether conversions that are foreseen come true. */
module Predictions {
  import opened Convert
  import opened ConversionMeaning
  import opened ConversionResults
  import opened ConversionRules
  import opened HashTypes
  import opened Prelude

  predicate IsArray(c: Content) {
    c.format.NpyFormat? && c.format.valid.Some?
  }

  predicate IsDocument(c: Content) {
    c.format.TextFormat? && c.format.json.Some?
  }

  predicate IsStructured(c: Content) {
    c.format.MixedFormat? && c.format.isObject.Some?
  }

  /** What a buffer must hold to be read as a celltype, as far as its first bytes, its length and its JSON can tell. */
  predicate MayRead(c: Content, t: Celltype, known: Class) {
    match t
    case Text => c.format.TextFormat?
    case Yaml => c.format.TextFormat?
    case Python => c.format.TextFormat?
    case IPython => c.format.TextFormat?
    case Plain => IsDocument(c)
    case Str => IsDocument(c) && ShapeOf(c).ScalarShape?
    case Int => IsNumber(c)
    case Float => IsNumber(c)
    case Bool => known.BoolClass?
    case Binary => IsArray(c)
    case Mixed => IsArray(c) || IsDocument(c) || IsStructured(c)
    case ChecksumType => c.length == 64 && (c.format == TextFormat(None) || c.format == TextFormat(Some(JNumber)))
    case Bytes => true
    case _ => false
  }

  /** Where that is enough: code, digests and structured mixed buffers have to be parsed. */
  predicate SurelyReads(c: Content, t: Celltype, known: Class) {
    MayRead(c, t, known) && !Code(t) && !t.ChecksumType? && !(t.Mixed? && IsStructured(c))
  }

  /** A buffer whose checksum says that it is true or false holds just that. */
  predicate Plausible(c: Content, known: Class) {
    Proper(c) && !known.NullClass? && (known.BoolClass? ==> c.format == TextFormat(Some(JBool)))
  }

  /** A concrete word disproves exactly what cannot be read, and proves exactly what surely can. */
  lemma ReadingIsForeseen(c: Content, t: Celltype, known: Class)
    requires !Deep(t) && Plausible(c, known)
    ensures DeserializableAs(FromBuffer(c), t, known) == Some(false) <==> !MayRead(c, t, known)
    ensures DeserializableAs(FromBuffer(c), t, known) == Some(true) <==> SurelyReads(c, t, known)
  {
  }

  // ----- Conversions -----

  predicate HasDimension(shape: Shape) {
    shape.ArrayShape? && !shape.rank.Scalar?
  }

  /** What no rule can convert: containers, arrays with a dimension and null as numbers, JSON containers as strings, and
      dictionaries as arrays. */
  predicate Unconvertible(c: Content, s: Celltype, t: Celltype) {
    var shape := ShapeOf(c);
    || ((s.Binary? || s.Mixed?) && (t.Int? || t.Float?)
        && (HasDimension(shape) || shape.DictShape? || shape.ListShape? || shape.NullShape?))
    || (s.Mixed? && t.Str? && IsDocument(c) && (shape.DictShape? || shape.ListShape?))
    || (s.Plain? && t.Binary? && shape.DictShape?)
  }

  /** What is needed of the source besides being valid, for conversions that first read it as something else. */
  predicate MayReadOnTheWay(c: Content, s: Celltype, t: Celltype, known: Class) {
    && (Narrows(s, t) ==> MayRead(c, t, known))
    && (s.Bytes? && (t.Str? || Number(t)) ==> MayRead(c, Plain, known) && MayRead(c, t, known))
    && (s.Bytes? && Code(t) ==> MayRead(c, Text, known))
    && (s.Mixed? && (t.Text? || Code(t)) ==> MayRead(c, Plain, known))
  }

  predicate Foreseeable(c: Content, s: Celltype, t: Celltype, known: Class) {
    !Unrelated(s, t) && MayRead(c, s, known) && MayReadOnTheWay(c, s, t, known) && !Unconvertible(c, s, t)
  }

  /** What is converted for sure, by the shape of the value: numbers, strings of anything that is no JSON container, and
      numeric or structured arrays as documents. */
  predicate Convertible(c: Content, s: Celltype, t: Celltype) {
    var shape := ShapeOf(c);
    || ((s.Binary? || s.Mixed?) && (t.Int? || t.Float?)
        && (shape == ArrayShape(Numeric, Scalar) || shape == ScalarShape(true)))
    || (s.Mixed? && t.Str? && !(IsDocument(c) && (shape.DictShape? || shape.ListShape?)))
    || (s.Binary? && t.Plain? && shape.ArrayShape? && !shape.dtype.NonNumeric?)
    || (s.Mixed? && t.Text? && IsDocument(c))
  }

  predicate Confirmed(c: Content, s: Celltype, t: Celltype, known: Class) {
    && MayRead(c, s, known)
    && ((Guaranteed(s, t) && !s.ChecksumType?) || (s.Yaml? && t.Plain?) || (Narrows(s, t) && SurelyReads(c, t, known))
        || Convertible(c, s, t))
  }

  ghost predicate Foreseen(c: Content, s: Celltype, t: Celltype, known: Class)
    requires !Deep(s) && !Deep(t)
  {
    && (Feasible(FromBuffer(c), s, t, known) == Some(false) <==> !Foreseeable(c, s, t, known))
    && (Feasible(FromBuffer(c), s, t, known) == Some(true) <==> Confirmed(c, s, t, known))
  }

  predicate Stored(s: Celltype) {
    s.Binary? || s.Mixed? || s.Bytes? || s.Plain?
  }

  predicate InOneStep(s: Celltype, t: Celltype) {
    !Deep(s) && !Deep(t) && s != t && Chain(Resolved(s, t).0, Resolved(s, t).1).None?
  }

  lemma StoredIsForeseen(c: Content, s: Celltype, t: Celltype, known: Class)
    requires InOneStep(s, t) && Stored(s) && Plausible(c, known)
    ensures Foreseen(c, s, t, known)
  {
    ReadingIsForeseen(c, s, known);
    ReadingIsForeseen(c, t, known);
    if s.Binary? || s.Mixed? { } else { }
  }

  lemma TextIsForeseen(c: Content, s: Celltype, t: Celltype, known: Class)
    requires InOneStep(s, t) && (s.Text? || s.Yaml?) && Plausible(c, known)
    ensures Foreseen(c, s, t, known)
  {
    ReadingIsForeseen(c, s, known);
    ReadingIsForeseen(c, t, known);
  }

  lemma CodeIsForeseen(c: Content, s: Celltype, t: Celltype, known: Class)
    requires InOneStep(s, t) && (s.Python? || s.IPython?) && Plausible(c, known)
    ensures Foreseen(c, s, t, known)
  {
    ReadingIsForeseen(c, s, known);
    ReadingIsForeseen(c, t, known);
  }

  lemma NumberIsForeseen(c: Content, s: Celltype, t: Celltype, known: Class)
    requires InOneStep(s, t) && Number(s) && Plausible(c, known)
    ensures Foreseen(c, s, t, known)
  {
    ReadingIsForeseen(c, s, known);
    ReadingIsForeseen(c, t, known);
  }

  lemma StringIsForeseen(c: Content, t: Celltype, known: Class)
    requires InOneStep(Str, t) && Plausible(c, known)
    ensures Foreseen(c, Str, t, known)
  {
    ReadingIsForeseen(c, Str, known);
    ReadingIsForeseen(c, t, known);
  }

  lemma ChecksumIsForeseen(c: Content, t: Celltype, known: Class)
    requires InOneStep(ChecksumType, t) && Plausible(c, known)
    ensures Foreseen(c, ChecksumType, t, known)
  {
    ReadingIsForeseen(c, ChecksumType, known);
  }

  lemma DirectIsForeseen(c: Content, s: Celltype, t: Celltype, known: Class)
    requires InOneStep(s, t) && Plausible(c, known)
    ensures Foreseen(c, s, t, known)
  {
    if Stored(s) {
      StoredIsForeseen(c, s, t, known);
    } else if s.Text? || s.Yaml? {
      TextIsForeseen(c, s, t, known);
    } else if Code(s) {
      CodeIsForeseen(c, s, t, known);
    } else if Number(s) {
      NumberIsForeseen(c, s, t, known);
    } else if s.Str? {
      StringIsForeseen(c, t, known);
    } else {
      ChecksumIsForeseen(c, t, known);
    }
  }

  predicate InTwoSteps(s: Celltype, mid: Celltype, t: Celltype) {
    !Deep(s) && !Deep(t) && !Deep(mid) && s != t && Chain(Resolved(s, t).0, Resolved(s, t).1) == Some(mid)
  }

  predicate KeepsBuffer(s: Celltype, t: Celltype) {
    Trivial(Resolved(s, t).0, Resolved(s, t).1) || Reinterpret(Resolved(s, t).0, Resolved(s, t).1)
  }

  lemma ChainUnfolds(h: HashType, s: Celltype, mid: Celltype, t: Celltype, known: Class)
    requires InTwoSteps(s, mid, t) && !known.NullClass? && !Forbidden(Resolved(s, t).0, Resolved(s, t).1)
    requires !t.ChecksumType?
    ensures var first, second := Feasible(h, s, mid, known), Feasible(h, mid, t, known);
      Feasible(h, s, t, known) ==
        if DeserializableAs(h, s, known) == Some(false) || first == Some(false) then Some(false)
        else if !KeepsBuffer(s, mid) then None
        else if second == Some(false) then Some(false)
        else if Trivial(Resolved(mid, t).0, Resolved(mid, t).1) || Reformat(Resolved(mid, t).0, Resolved(mid, t).1)
        then first
        else None
  {
    if DeserializableAs(h, s, known) == Some(false) {
    } else if Feasible(h, s, mid, known) == Some(false) {
    } else if !KeepsBuffer(s, mid) {
    } else if Feasible(h, mid, t, known) == Some(false) {
    }
  }

  /** The verdict on a chain, from those on its legs. */
  lemma ChainVerdict(h: HashType, s: Celltype, mid: Celltype, t: Celltype, known: Class)
    requires InTwoSteps(s, mid, t) && !known.NullClass?
    ensures var first, second := Feasible(h, s, mid, known), Feasible(h, mid, t, known);
      Feasible(h, s, t, known) ==
        if DeserializableAs(h, s, known) == Some(false) || first == Some(false) then Some(false)
        else if !KeepsBuffer(s, mid) then None
        else if second == Some(false) then Some(false)
        else if Trivial(mid, t) || Reformat(mid, t) then first
        else None
  {
    ChainLegs(s, mid, t);
    ChainUnfolds(h, s, mid, t, known);
  }

  lemma ChainLegs(s: Celltype, mid: Celltype, t: Celltype)
    requires InTwoSteps(s, mid, t)
    ensures !Forbidden(Resolved(s, t).0, Resolved(s, t).1) && !t.ChecksumType? && s != mid
    ensures KeepsBuffer(s, mid) ==> InOneStep(s, mid) && InOneStep(mid, t) && Resolved(mid, t) == (mid, t)
  {
    ChainTable(s, mid, t);
    if KeepingChain(s, mid, t) {
      KeepingLegs(s, mid, t);
    } else {
      ChangingLegs(s, mid, t);
    }
  }

  lemma KeepingLegs(s: Celltype, mid: Celltype, t: Celltype)
    requires KeepingChain(s, mid, t)
    ensures !Deep(s) && !Deep(t) && !Deep(mid) && !t.ChecksumType? && s != mid && s != t
    ensures InOneStep(s, mid) && InOneStep(mid, t) && Resolved(mid, t) == (mid, t)
    ensures Equivalent(s, t).None? && !Forbidden(s, t)
  {
  }

  lemma ChangingLegs(s: Celltype, mid: Celltype, t: Celltype)
    requires GoesThrough(s, mid, t) && !KeepingChain(s, mid, t)
    ensures !KeepsBuffer(s, mid) && !t.ChecksumType? && s != mid
    ensures !Forbidden(Resolved(s, t).0, Resolved(s, t).1)
  {
  }

  lemma KeepingChainIsForeseen(c: Content, s: Celltype, mid: Celltype, t: Celltype, known: Class)
    requires InTwoSteps(s, mid, t) && KeepsBuffer(s, mid) && Plausible(c, known)
    ensures Foreseen(c, s, t, known)
  {
    ChainVerdict(FromBuffer(c), s, mid, t, known);
    ChainLegs(s, mid, t);
    ReadingIsForeseen(c, s, known);
    DirectIsForeseen(c, s, mid, known);
    DirectIsForeseen(c, mid, t, known);
    KeepingChains(s, mid, t);
  }

  predicate KeepingChain(s: Celltype, mid: Celltype, t: Celltype) {
    || (s.Bytes? && mid.Plain? && (t.Str? || Number(t)))
    || (s.Bytes? && mid.Text? && Code(t))
    || (s.Mixed? && mid.Plain? && t.Text?)
    || (Number(s) && mid.Plain? && t.Yaml?)
  }

  lemma ChainTable(s: Celltype, mid: Celltype, t: Celltype)
    requires InTwoSteps(s, mid, t)
    ensures KeepingChain(s, mid, t) || GoesThrough(s, mid, t)
  {
    if Equivalent(s, t).Some? {
      assert Equivalent(s, t) == Some((Text, Binary));
    }
  }

  lemma KeepingChains(s: Celltype, mid: Celltype, t: Celltype)
    requires InTwoSteps(s, mid, t) && KeepsBuffer(s, mid)
    ensures !Unrelated(s, t) && KeepingChain(s, mid, t)
  {
    ChainTable(s, mid, t);
  }

  lemma ChangingChains(s: Celltype, mid: Celltype, t: Celltype)
    requires InTwoSteps(s, mid, t) && !KeepsBuffer(s, mid)
    ensures !Unrelated(s, t) && !s.Bytes? && !s.ChecksumType? && !Number(s) && !s.Str?
    ensures InOneStep(s, mid) || (mid.Text? && (s.Mixed? || s.Binary?) && Code(t))
    ensures !Guaranteed(s, t) && !(s.Yaml? && t.Plain?) && !(s.Mixed? && t.Text?)
    ensures !Narrows(s, t) && !(s.Mixed? && t.Str?) && !(s.Binary? && t.Plain?) && !(s.Plain? && t.Binary?)
    ensures (s.Binary? || s.Mixed?) ==> !(t.Int? || t.Float?)
    ensures InOneStep(s, mid) ==> (Guaranteed(s, mid) || (s.Yaml? && mid.Plain?) || (s.Binary? && !mid.Text?))
  {
    ChainTable(s, mid, t);
  }

  lemma ChangingChainIsForeseen(c: Content, s: Celltype, mid: Celltype, t: Celltype, known: Class)
    requires InTwoSteps(s, mid, t) && !KeepsBuffer(s, mid) && Plausible(c, known)
    ensures Foreseen(c, s, t, known)
  {
    ChainVerdict(FromBuffer(c), s, mid, t, known);
    ReadingIsForeseen(c, s, known);
    ChangingChains(s, mid, t);
    if InOneStep(s, mid) {
      DirectIsForeseen(c, s, mid, known);
    } else {
      FirstOfThreeIsForeseen(c, s, known);
    }
  }

  /** Stored values reach code by text, and text as documents. */
  lemma FirstOfThreeIsForeseen(c: Content, s: Celltype, known: Class)
    requires (s.Mixed? || s.Binary?) && Plausible(c, known)
    ensures Foreseen(c, s, Text, known)
  {
    if s.Mixed? {
      KeepingChainIsForeseen(c, s, Plain, Text, known);
    } else {
      ChainVerdict(FromBuffer(c), s, Plain, Text, known);
      ReadingIsForeseen(c, s, known);
      DirectIsForeseen(c, s, Plain, known);
    }
  }

  /** `conversion_feasible` on a concrete word, through equivalences and chains: it refuses exactly what is unrelated,
      not valid as its source, unreadable on the way, or unconvertible by the shape of its value; and it confirms
      exactly what the rules guarantee, what surely reads, and what is convertible by the shape of its value. */
  lemma FeasibleIsExact(c: Content, s: Celltype, t: Celltype, known: Class)
    requires !Deep(s) && !Deep(t) && s != t && Plausible(c, known)
    ensures Feasible(FromBuffer(c), s, t, known) == Some(false) <==> !Foreseeable(c, s, t, known)
    ensures Feasible(FromBuffer(c), s, t, known) == Some(true) <==> Confirmed(c, s, t, known)
  {
    if InOneStep(s, t) {
      DirectIsForeseen(c, s, t, known);
    } else {
      ChainFits(s, t);
      var mid := Chain(Resolved(s, t).0, Resolved(s, t).1).value;
      if KeepsBuffer(s, mid) {
        KeepingChainIsForeseen(c, s, mid, t, known);
      } else {
        ChangingChainIsForeseen(c, s, mid, t, known);
      }
    }
  }

  /** Mixed and binary buffers are refused as numbers exactly if they are not valid, or are arrays with a dimension,
      dictionaries, lists or null. */
  lemma NumbersAreRefusedExactly(c: Content, s: Celltype, t: Celltype)
    requires (s.Binary? || s.Mixed?) && (t.Int? || t.Float?) && Proper(c)
    ensures Feasible(FromBuffer(c), s, t, Ordinary) == Some(false) <==>
      || !MayRead(c, s, Ordinary)
      || HasDimension(ShapeOf(c)) || ShapeOf(c).DictShape? || ShapeOf(c).ListShape? || ShapeOf(c).NullShape?
    ensures Feasible(FromBuffer(c), s, t, Ordinary) == Some(true) <==>
      MayRead(c, s, Ordinary) && (ShapeOf(c) == ArrayShape(Numeric, Scalar) || ShapeOf(c) == ScalarShape(true))
  {
    FeasibleIsExact(c, s, t, Ordinary);
  }

  // ----- Looser words -----

  /** What a looser word confirms is confirmed by what the buffer holds. */
  lemma LooseStepIsConfirmed(c: Content, h: HashType, s: Celltype, t: Celltype, known: Class)
    requires InOneStep(s, t) && Plausible(c, known) && Implies(FromBuffer(c), h) && IsUntested(h.kind)
    requires MayRead(c, s, known) && Feasible(h, s, t, known) == Some(true)
    ensures Confirmed(c, s, t, known)
  {
    StepVerdict(h, s, t, known);
    StepTable(s, t);
    ReadingIsForeseen(c, t, known);
  }

  lemma StepVerdict(h: HashType, s: Celltype, t: Celltype, known: Class)
    requires InOneStep(s, t) && IsUntested(h.kind) && !known.NullClass?
    ensures var (u, v) := Resolved(s, t);
      Feasible(h, s, t, known) ==
        if Forbidden(u, v) || DeserializableAs(h, s, known) == Some(false) then Some(false)
        else if t.ChecksumType? || Trivial(u, v) || Reformat(u, v) then Some(true)
        else if Reinterpret(u, v) then DeserializableAs(h, t, known)
        else None
  {
  }

  /** The table of direct rules and equivalences, by what they do. */
  lemma StepTable(s: Celltype, t: Celltype)
    requires InOneStep(s, t)
    ensures var (u, v) := Resolved(s, t);
      && (t.ChecksumType? || Trivial(u, v) || Reformat(u, v) ==>
            (Guaranteed(s, t) && !s.ChecksumType?) || (s.Yaml? && t.Plain?))
      && (Reinterpret(u, v) ==> Narrows(s, t))
      && (Narrows(s, t) ==> Reinterpret(u, v) && !t.ChecksumType? && !Trivial(u, v) && !Reformat(u, v))
      && (Forbidden(u, v) <==> Unrelated(s, t))
  {
    if Equivalent(s, t).None? { EveryPairHasOneRule(s, t); }
  }

  lemma LooseChainIsConfirmed(c: Content, h: HashType, s: Celltype, mid: Celltype, t: Celltype, known: Class)
    requires InTwoSteps(s, mid, t) && Plausible(c, known) && Implies(FromBuffer(c), h) && IsUntested(h.kind)
    requires MayRead(c, s, known) && Feasible(h, s, t, known) == Some(true)
    ensures Confirmed(c, s, t, known)
  {
    ChainVerdict(h, s, mid, t, known);
    KeepingChains(s, mid, t);
    ChainLegs(s, mid, t);
    LooseStepIsConfirmed(c, h, s, mid, known);
  }

  lemma LooserIsConfirmed(c: Content, h: HashType, s: Celltype, t: Celltype, known: Class)
    requires !Deep(s) && !Deep(t) && s != t && Plausible(c, known) && Implies(FromBuffer(c), h)
    requires MayRead(c, s, known) && Feasible(h, s, t, known) == Some(true)
    ensures Confirmed(c, s, t, known)
  {
    if !IsUntested(h.kind) {
      FeasibleIsExact(c, s, t, known);
    } else if InOneStep(s, t) {
      LooseStepIsConfirmed(c, h, s, t, known);
    } else {
      ChainFits(s, t);
      LooseChainIsConfirmed(c, h, s, Chain(Resolved(s, t).0, Resolved(s, t).1).value, t, known);
    }
  }

  /** A content that an untested word describes, and that can be converted if any such content can. */
  function Specimen(h: HashType, s: Celltype, t: Celltype): Content {
    var length := match h.length case Short => 0 case Eq64 => 64 case Medium => 65 case Long => 1001;
    Content(length,
            if h.kind.Untested? && (s.Binary? || (s.Mixed? && t.Binary?)) then NpyFormat(Some((Numeric, Scalar, false)))
            else TextFormat(Some(JNumber)))
  }

  lemma SpecimenIsDescribed(h: HashType, s: Celltype, t: Celltype)
    requires IsUntested(h.kind)
    ensures Proper(Specimen(h, s, t)) && Implies(FromBuffer(Specimen(h, s, t)), h)
  {
  }

  lemma SpecimenReads(h: HashType, s: Celltype, t: Celltype, u: Celltype)
    requires IsUntested(h.kind) && !Deep(u)
    requires u == s || u == t || u.Plain? || u.Text?
    requires if Specimen(h, s, t).format.NpyFormat? then u == s || u.Binary?
      else u.Binary? ==> s.Binary? || (s.Mixed? && t.Binary?)
    ensures DeserializableAs(h, u, Ordinary) == Some(false) <==> !MayRead(Specimen(h, s, t), u, Ordinary)
  {
  }

  lemma StepRefused(h: HashType, s: Celltype, t: Celltype)
    requires InOneStep(s, t) && IsUntested(h.kind)
    ensures Feasible(h, s, t, Ordinary) == Some(false) <==>
      || Unrelated(s, t) || DeserializableAs(h, s, Ordinary) == Some(false)
      || (Narrows(s, t) && DeserializableAs(h, t, Ordinary) == Some(false))
  {
    StepVerdict(h, s, t, Ordinary);
    StepTable(s, t);
  }

  lemma StepIsRefusedForAll(h: HashType, s: Celltype, t: Celltype)
    requires InOneStep(s, t) && IsUntested(h.kind) && !Foreseeable(Specimen(h, s, t), s, t, Ordinary)
    ensures Feasible(h, s, t, Ordinary) == Some(false)
  {
    StepRefused(h, s, t);
    SpecimenReads(h, s, t, s);
    if Narrows(s, t) { SpecimenReads(h, s, t, t); }
    StepsRead(s, t);
  }

  /** Conversions in one step read nothing on the way, but for those that narrow. */
  lemma StepsRead(s: Celltype, t: Celltype)
    requires InOneStep(s, t)
    ensures s.Bytes? ==> !t.Str? && !Number(t) && !Code(t)
    ensures s.Mixed? ==> !t.Text? && !Code(t)
  {
  }

  lemma DisprovedIsUnreadable(c: Content, h: HashType, t: Celltype)
    requires !Deep(t) && Proper(c) && Implies(FromBuffer(c), h) && DeserializableAs(h, t, Ordinary) == Some(false)
    ensures !MayRead(c, t, Ordinary)
  {
    ReadingIsForeseen(c, t, Ordinary);
    LooserRefusesLess(FromBuffer(c), h, t, Ordinary);
  }

  lemma StepRefusalHolds(c: Content, h: HashType, s: Celltype, t: Celltype)
    requires InOneStep(s, t) && IsUntested(h.kind) && Proper(c) && Implies(FromBuffer(c), h)
    requires Feasible(h, s, t, Ordinary) == Some(false)
    ensures !Foreseeable(c, s, t, Ordinary)
  {
    StepRefused(h, s, t);
    if DeserializableAs(h, s, Ordinary) == Some(false) { DisprovedIsUnreadable(c, h, s); }
    if DeserializableAs(h, t, Ordinary) == Some(false) { DisprovedIsUnreadable(c, h, t); }
  }

  /** On the way to code, a stored value is refused as text only if it is not valid. */
  lemma FirstOfThreeRefused(h: HashType, s: Celltype)
    requires (s.Mixed? || s.Binary?) && IsUntested(h.kind)
    ensures Feasible(h, s, Text, Ordinary) == Some(false) <==> DeserializableAs(h, s, Ordinary) == Some(false)
  {
    ChainVerdict(h, s, Plain, Text, Ordinary);
    StepRefused(h, s, Plain);
    StepRefused(h, Plain, Text);
  }

  predicate ReadsBadly(h: HashType, s: Celltype, t: Celltype)
    requires !Deep(s) && !Deep(t)
  {
    DeserializableAs(h, s, Ordinary) == Some(false) || (s.Bytes? && DeserializableAs(h, t, Ordinary) == Some(false))
  }

  lemma KeepingChainRefused(h: HashType, s: Celltype, mid: Celltype, t: Celltype)
    requires InTwoSteps(s, mid, t) && IsUntested(h.kind) && KeepsBuffer(s, mid)
    ensures Feasible(h, s, t, Ordinary) == Some(false) <==> ReadsBadly(h, s, t)
  {
    ChainVerdict(h, s, mid, t, Ordinary);
    KeepingChains(s, mid, t);
    ChainLegs(s, mid, t);
    StepRefused(h, s, mid);
    StepRefused(h, mid, t);
  }

  lemma ChangingChainRefused(h: HashType, s: Celltype, mid: Celltype, t: Celltype)
    requires InTwoSteps(s, mid, t) && IsUntested(h.kind) && !KeepsBuffer(s, mid)
    ensures Feasible(h, s, t, Ordinary) == Some(false) <==> ReadsBadly(h, s, t)
  {
    ChainVerdict(h, s, mid, t, Ordinary);
    ChangingChains(s, mid, t);
    if InOneStep(s, mid) { StepRefused(h, s, mid); } else { FirstOfThreeRefused(h, s); }
  }

  /** Chains of an untested word are refused for an invalid source, or for what bytes must read as in the end. */
  lemma ChainRefused(h: HashType, s: Celltype, mid: Celltype, t: Celltype)
    requires InTwoSteps(s, mid, t) && IsUntested(h.kind)
    ensures Feasible(h, s, t, Ordinary) == Some(false) <==> ReadsBadly(h, s, t)
  {
    if KeepsBuffer(s, mid) { KeepingChainRefused(h, s, mid, t); } else { ChangingChainRefused(h, s, mid, t); }
  }

  /** The table of chains, by what must be read on the way. */
  lemma ChainsRead(s: Celltype, mid: Celltype, t: Celltype)
    requires KeepingChain(s, mid, t) || GoesThrough(s, mid, t)
    ensures !Unrelated(s, t) && !Narrows(s, t) && (s.Bytes? ==> t.Str? || Number(t) || Code(t))
    ensures s.Binary? ==> !t.Int? && !t.Float?
    ensures s.Mixed? ==> !t.Int? && !t.Float? && !t.Str?
    ensures s.Plain? ==> !t.Binary?
  {
  }

  lemma ChainRefusalHolds(c: Content, h: HashType, s: Celltype, mid: Celltype, t: Celltype)
    requires InTwoSteps(s, mid, t) && IsUntested(h.kind) && Proper(c) && Implies(FromBuffer(c), h)
    requires Feasible(h, s, t, Ordinary) == Some(false)
    ensures !Foreseeable(c, s, t, Ordinary)
  {
    ChainRefused(h, s, mid, t);
    ChainTable(s, mid, t);
    ChainsRead(s, mid, t);
    if DeserializableAs(h, s, Ordinary) == Some(false) {
      DisprovedIsUnreadable(c, h, s);
    } else {
      DisprovedIsUnreadable(c, h, t);
    }
  }

  lemma ChainIsRefusedForAll(h: HashType, s: Celltype, mid: Celltype, t: Celltype)
    requires InTwoSteps(s, mid, t) && IsUntested(h.kind) && !Foreseeable(Specimen(h, s, t), s, t, Ordinary)
    ensures Feasible(h, s, t, Ordinary) == Some(false)
  {
    ChainRefused(h, s, mid, t);
    ChainTable(s, mid, t);
    ChainsRead(s, mid, t);
    SpecimenReads(h, s, t, s);
    if s.Bytes? { SpecimenReads(h, s, t, t); }
  }

  lemma RefusedForAll(h: HashType, s: Celltype, t: Celltype)
    requires !Deep(s) && !Deep(t) && s != t && IsUntested(h.kind) && !Foreseeable(Specimen(h, s, t), s, t, Ordinary)
    ensures Feasible(h, s, t, Ordinary) == Some(false)
  {
    if InOneStep(s, t) {
      StepIsRefusedForAll(h, s, t);
    } else {
      ChainFits(s, t);
      ChainIsRefusedForAll(h, s, Chain(Resolved(s, t).0, Resolved(s, t).1).value, t);
    }
  }

  lemma LooserIsRefused(c: Content, h: HashType, s: Celltype, t: Celltype)
    requires !Deep(s) && !Deep(t) && s != t && IsUntested(h.kind) && Proper(c) && Implies(FromBuffer(c), h)
    requires Feasible(h, s, t, Ordinary) == Some(false)
    ensures !Foreseeable(c, s, t, Ordinary)
  {
    if InOneStep(s, t) {
      StepRefusalHolds(c, h, s, t);
    } else {
      ChainFits(s, t);
      ChainRefusalHolds(c, h, s, Chain(Resolved(s, t).0, Resolved(s, t).1).value, t);
    }
  }

  /** Untested words refuse as much as they can: exactly what is to be refused of all that they describe. */
  lemma UntestedRefusesExactly(h: HashType, s: Celltype, t: Celltype)
    requires !Deep(s) && !Deep(t) && s != t && IsUntested(h.kind)
    ensures Feasible(h, s, t, Ordinary) == Some(false) <==>
      forall c :: Proper(c) && Implies(FromBuffer(c), h) ==> !Foreseeable(c, s, t, Ordinary)
  {
    SpecimenIsDescribed(h, s, t);
    if !Foreseeable(Specimen(h, s, t), s, t, Ordinary) { RefusedForAll(h, s, t); }
    if Feasible(h, s, t, Ordinary) == Some(false) {
      forall c | Proper(c) && Implies(FromBuffer(c), h)
        ensures !Foreseeable(c, s, t, Ordinary)
      {
        LooserIsRefused(c, h, s, t);
      }
    }
  }

  // ----- Foreseen conversions come true -----

  /** What value rules make something of, and what they cannot. */
  predicate Accepts(shape: Shape, s: Celltype, t: Celltype) {
    || ((s.Binary? || s.Mixed?) && (t.Int? || t.Float?)
        && (shape == ArrayShape(Numeric, Scalar) || shape == ScalarShape(true)))
    || (s.Mixed? && t.Str? && !Rejects(shape, s, t))
    || (s.Binary? && t.Plain? && shape.ArrayShape? && !shape.dtype.NonNumeric?)
    || (s.Yaml? && t.Plain?)
  }

  predicate Rejects(shape: Shape, s: Celltype, t: Celltype) {
    || ((s.Binary? || s.Mixed?) && (t.Int? || t.Float? || t.Str?)
        && (HasDimension(shape) || shape.DictShape? || shape.ListShape? || (shape.NullShape? && !t.Str?)))
    || (s.Plain? && t.Binary? && shape.DictShape?)
  }

  ghost predicate CastsAt<V>(m: Sense<V>, shape: V -> Shape, v: V, s: Celltype, t: Celltype) {
    var cast := m.cast(v, s, t);
    && (Rejects(shape(v), s, t) ==> !cast.Got?)
    && (Accepts(shape(v), s, t) ==> cast.Got? && m.serial(cast.value, t).Got?)
  }

  /** Readers accept what surely reads, and nothing that a word excludes; the null value reads as anything. */
  ghost predicate ReadsAt<V>(w: World<V>, describe: Buffer -> Content, classOf: Checksum -> Class, shape: V -> Shape,
                             b: Buffer, t: Celltype)
  {
    var c, known := describe(b), classOf(w.hash(b));
    if known.NullClass? then Readable(w, b, t) && shape(ReadValue(w, b, t)).NullShape?
    else
      && Plausible(c, known)
      && (SurelyReads(c, t, known) ==> Readable(w, b, t))
      && (Readable(w, b, t) && !Deep(t) ==> MayRead(c, t, known))
      && (Readable(w, b, t) && (t.Binary? || t.Mixed? || t.Plain?) ==> shape(ReadValue(w, b, t)) == ShapeOf(c))
  }

  /** A fitting world whose readers and serializers accept what they admit. */
  ghost predicate Accepting<V(!new)>(w: World<V>, m: Sense<V>, describe: Buffer -> Content, classOf: Checksum -> Class,
                                     shape: V -> Shape)
  {
    && Fitting(w, m)
    && (forall b :: SerializesAt(w, m, b))
    && (forall b, t :: ReadsAt(w, describe, classOf, shape, b, t))
    && (forall v, s, t :: CastsAt(m, shape, v, s, t))
  }

  lemma CastComesTrue<V(!new)>(w: World<V>, m: Sense<V>, describe: Buffer -> Content, classOf: Checksum -> Class,
                               shape: V -> Shape, s: Celltype, t: Celltype, b: Buffer)
    requires Accepting(w, m, describe, classOf, shape) && !classOf(w.hash(b)).NullClass? && Readable(w, b, s)
    requires Convertible(describe(b), s, t) || (s.Yaml? && t.Plain?)
    requires Casts(s, t)
    ensures Succeeds(w, m, s, t, b) <==> !Rejects(ShapeOf(describe(b)), s, t)
  {
    var v := ReadValue(w, b, s);
    assert ReadsAt(w, describe, classOf, shape, b, s) && CastsAt(m, shape, v, s, t);
    ValueIsCast(w, m, s, t, b);
    if m.cast(v, s, t).Got? && m.serial(m.cast(v, s, t).value, t).Got? {
      YieldedSucceeds(w, m, s, t, b, m.cast(v, s, t).value, t);
    }
  }

  lemma MixedDocumentIsText<V(!new)>(w: World<V>, m: Sense<V>, b: Buffer)
    requires Fitting(w, m) && Readable(w, b, Mixed) && Readable(w, b, Plain) && SerializesAt(w, m, b)
    ensures Succeeds(w, m, Mixed, Text, b)
  {
    SuperclassIsRead(w, m, Mixed, Plain, b);
    DocumentIsGuaranteed(w, m, Plain, Text, b);
    ConvertsThrough(w, m, Mixed, Plain, Text, b);
    var b' :| Stands(w, m, Plain, Text, b, b');
    assert Stands(w, m, Mixed, Plain, b, b);
    assert Stands(w, m, Mixed, Text, b, b');
  }

  lemma NarrowingComesTrue<V(!new)>(w: World<V>, m: Sense<V>, describe: Buffer -> Content, classOf: Checksum -> Class,
                                    shape: V -> Shape, s: Celltype, t: Celltype, b: Buffer)
    requires Accepting(w, m, describe, classOf, shape) && !classOf(w.hash(b)).NullClass? && Readable(w, b, s)
    requires Narrows(s, t) && SurelyReads(describe(b), t, classOf(w.hash(b)))
    ensures Succeeds(w, m, s, t, b)
  {
    assert ReadsAt(w, describe, classOf, shape, b, t);
    SuperclassIsRead(w, m, s, t, b);
    KeptSucceeds(w, m, s, t, b);
  }

  lemma ConfirmedCases(c: Content, s: Celltype, t: Celltype, known: Class)
    requires Confirmed(c, s, t, known)
    ensures (Guaranteed(s, t) && !s.ChecksumType?) || (Narrows(s, t) && SurelyReads(c, t, known)) ==>
      !Rejects(ShapeOf(c), s, t)
    ensures Convertible(c, s, t) || (s.Yaml? && t.Plain?) ==>
      Casts(s, t) || (s.Mixed? && t.Text? && IsDocument(c) && !Rejects(ShapeOf(c), s, t))
  {
  }

  lemma ConfirmedComesTrue<V(!new)>(w: World<V>, m: Sense<V>, describe: Buffer -> Content, classOf: Checksum -> Class,
                                    shape: V -> Shape, s: Celltype, t: Celltype, b: Buffer)
    requires Accepting(w, m, describe, classOf, shape) && !classOf(w.hash(b)).NullClass? && Readable(w, b, s)
    requires !Deep(s) && !Deep(t) && !s.ChecksumType? && Confirmed(describe(b), s, t, classOf(w.hash(b)))
    ensures Succeeds(w, m, s, t, b) <==> !Rejects(ShapeOf(describe(b)), s, t)
  {
    ConfirmedCases(describe(b), s, t, classOf(w.hash(b)));
    assert SerializesAt(w, m, b);
    if Guaranteed(s, t) {
      GuaranteedStands(w, m, s, t, b);
    } else if Narrows(s, t) && SurelyReads(describe(b), t, classOf(w.hash(b))) {
      NarrowingComesTrue(w, m, describe, classOf, shape, s, t, b);
    } else if Casts(s, t) {
      CastComesTrue(w, m, describe, classOf, shape, s, t, b);
    } else {
      assert ReadsAt(w, describe, classOf, shape, b, Plain);
      MixedDocumentIsText(w, m, b);
    }
  }

  /** What `conversion_feasible` confirms comes true on every buffer that the word describes, unless it is a container
      or an array with a dimension that is to be a string; that conversion always fails. */
  lemma FeasibleComesTrue<V(!new)>(w: World<V>, m: Sense<V>, describe: Buffer -> Content, classOf: Checksum -> Class,
                                   shape: V -> Shape, h: HashType, s: Celltype, t: Celltype, b: Buffer)
    requires Accepting(w, m, describe, classOf, shape) && Readable(w, b, s) && Implies(FromBuffer(describe(b)), h)
    requires !Deep(s) && !Deep(t) && !s.ChecksumType? && s != t && !classOf(w.hash(b)).NullClass?
    requires Feasible(h, s, t, classOf(w.hash(b))) == Some(true)
    ensures ConvertChecksum(w, w.hash(b), s, t, Gives(b)).result.Done? <==>
      !(s.Mixed? && t.Str? && (HasDimension(ShapeOf(describe(b))) || IsStructured(describe(b))))
  {
    var c, known := describe(b), classOf(w.hash(b));
    assert ReadsAt(w, describe, classOf, shape, b, s);
    LooserIsConfirmed(c, h, s, t, known);
    ConfirmedComesTrue(w, m, describe, classOf, shape, s, t, b);
    ConversionYields(w, m, s, t, b);
    RejectedIsOverclaimed(c, h, s, t, known);
  }

  lemma RejectedIsOverclaimed(c: Content, h: HashType, s: Celltype, t: Celltype, known: Class)
    requires Confirmed(c, s, t, known)
    ensures Rejects(ShapeOf(c), s, t) <==> s.Mixed? && t.Str? && (HasDimension(ShapeOf(c)) || IsStructured(c))
  {
  }

  /** A concrete word for which it fails: a dictionary with arrays in it, as a string. */
  lemma DictionaryIsNoString<V(!new)>(w: World<V>, m: Sense<V>, describe: Buffer -> Content,
                                      classOf: Checksum -> Class, shape: V -> Shape, b: Buffer)
    requires Accepting(w, m, describe, classOf, shape) && Readable(w, b, Mixed)
    requires classOf(w.hash(b)).Ordinary? && describe(b) == Content(100, MixedFormat(Some(true)))
    ensures Feasible(HashType(MixedObject, Medium, NoDType, Scalar, false, false), Mixed, Str, Ordinary) == Some(true)
    ensures ConvertChecksum(w, w.hash(b), Mixed, Str, Gives(b)).result.Fail?
  {
    var h := HashType(MixedObject, Medium, NoDType, Scalar, false, false);
    FeasibleIsExact(describe(b), Mixed, Str, Ordinary);
    FeasibleComesTrue(w, m, describe, classOf, shape, h, Mixed, Str, b);
  }

  // ----- Null -----

  /** For the null value, all conversions are foreseen but those that do not exist. */
  lemma NullIsForeseen(h: HashType, s: Celltype, t: Celltype)
    requires !Deep(s) && !Deep(t) && s != t
    ensures Feasible(h, s, t, NullClass) == Some(!Unrelated(s, t))
  {
  }

  /** Yet null never becomes a number. */
  lemma NullIsNoNumber<V(!new)>(w: World<V>, m: Sense<V>, describe: Buffer -> Content, classOf: Checksum -> Class,
                                shape: V -> Shape, h: HashType, s: Celltype, t: Celltype, b: Buffer)
    requires Accepting(w, m, describe, classOf, shape) && classOf(w.hash(b)).NullClass?
    requires (s.Binary? || s.Mixed?) && (t.Int? || t.Float?)
    ensures Feasible(h, s, t, NullClass) == Some(true)
    ensures ConvertChecksum(w, w.hash(b), s, t, Gives(b)).result.Fail?
  {
    NullIsForeseen(h, s, t);
    assert ReadsAt(w, describe, classOf, shape, b, s) && CastsAt(m, shape, ReadValue(w, b, s), s, t);
    ValueIsCast(w, m, s, t, b);
    ConversionYields(w, m, s, t, b);
  }
}
