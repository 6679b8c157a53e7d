/** What a conversion yields: the lazy, checksum-first conversions against a relation between buffers that knows of no
    laziness, no virtual values and no cached types, only of what buffers read as and what values serialize to. */
module ConversionMeaning {
  import opened Convert
  import opened ConversionRules
  import opened Prelude

  /** What the rules mean by their values. */
  datatype Sense<!V> = Sense(
    serial: (V, Celltype) -> Attempt<Buffer>,     // the buffer of a value
    normal: (V, Celltype) -> V,                   // what that buffer reads as: the value, up to trailing newlines
    cast: (V, Celltype, Celltype) -> Attempt<V>,  // what a rule that changes values makes of one
    raw: V -> V,                                  // the bytes of a byte array
    wrap: Buffer -> V)                           // the byte array of any bytes

  function Read<V>(w: World<V>, b: Buffer, t: Celltype): Attempt<V> {
    w.parse(b, w.hash(b), t)
  }

  predicate Readable<V>(w: World<V>, b: Buffer, t: Celltype) {
    Read(w, b, t).Got?
  }

  function ReadValue<V>(w: World<V>, b: Buffer, t: Celltype): V
    requires Readable(w, b, t)
  {
    Read(w, b, t).value
  }

  predicate Code(t: Celltype) {
    t.Yaml? || t.Python? || t.IPython?
  }

  // ----- Worlds whose parts fit together -----

  /** What the checksum or its type says about the value is true of the buffer. */
  ghost predicate KnowsAt<V>(w: World<V>, b: Buffer, t: Celltype) {
    && (match w.virtualValue(w.hash(b), t)
        case Got(Some(v)) => Read(w, b, t) == Got(v)
        case Got(None) => true
        case ValueError => !Readable(w, b, t) && (t.Int? || t.Float? || t.Bool?)
        case OtherError => false)
    && forall loaded :: KnownAt(w, b, t, loaded)
  }

  ghost predicate KnownAt<V>(w: World<V>, b: Buffer, t: Celltype, loaded: bool) {
    match w.known(w.hash(b), t, loaded)
    case Got(proven) => proven ==> Readable(w, b, t)
    case ValueError => !Readable(w, b, t)
    case OtherError => false
  }

  /** Malformed storage is a `ValueError`, and the two storage parsers agree on npy buffers. */
  ghost predicate StorageAt<V>(w: World<V>, b: Buffer) {
    && !Read(w, b, Binary).OtherError? && !Read(w, b, Mixed).OtherError?
    && (forall loaded :: w.provenMixed(w.hash(b), loaded) ==> Readable(w, b, Mixed))
    && (Readable(w, b, Mixed) ==> w.mayBeMixed(b))
    && (w.isNpy(b) && Readable(w, b, Mixed) ==> Read(w, b, Binary) == Read(w, b, Mixed))
  }

  /** Subclasses of celltypes: what is valid as `s` is valid as `t`. */
  predicate Subclass(s: Celltype, t: Celltype) {
    || s == t || t.Bytes?
    || ((s.Python? || s.IPython? || s.Yaml? || s.Plain?) && t.Text?)
    || ((s.Str? || s.Int? || s.Float? || s.Bool?) && (t.Plain? || t.Text? || t.Mixed? || t.Str?))
    || ((s.Int? || s.Float?) && (t.Int? || t.Float?))
    || ((s.Plain? || s.Binary?) && t.Mixed?)
  }

  ghost predicate ClassesAt<V>(w: World<V>, b: Buffer, s: Celltype, t: Celltype) {
    Subclass(s, t) && (s.Bytes? || Readable(w, b, s)) ==> Readable(w, b, t)
  }

  /** Reading the text of a buffer as JSON gives its plain value, or else the text itself. */
  ghost predicate JsonAt<V>(w: World<V>, b: Buffer) {
    Readable(w, b, Text) ==>
      var text := ReadValue(w, b, Text);
      if Readable(w, b, Plain) then w.readJson(text) == ReadValue(w, b, Plain)
      else w.readJson(text) == text && w.isString(text)
  }

  /** Serialized values can be read, except that nothing is promised for code. */
  ghost predicate SerialAt<V>(w: World<V>, m: Sense<V>, v: V, t: Celltype) {
    m.serial(v, t).Got? && !Code(t) ==> Read(w, m.serial(v, t).value, t) == Got(m.normal(v, t))
  }

  /** The value that a rule serializes, made from the value `v` of its source. */
  function Prepared<V>(m: Sense<V>, v: V, s: Celltype, t: Celltype): Attempt<V> {
    match (s, t)
    case (Plain, Text) => Got(v)
    case (Text, Plain) => Got(v)
    case (Text, Str) => Got(v)
    case (Str, Text) => Got(v)
    case (Binary, Bytes) => Got(m.raw(v))
    case _ => m.cast(v, s, t)
  }

  ghost predicate MakesAt<V>(w: World<V>, m: Sense<V>, v: V, s: Celltype, t: Celltype) {
    match Prepared(m, v, s, t)
    case Got(u) => w.make(v, s, t) == m.serial(u, t)
    case _ => !w.make(v, s, t).Got?
  }

  ghost predicate WrapsAt<V>(w: World<V>, m: Sense<V>, b: Buffer) {
    && w.wrapBinary(b) == m.serial(m.wrap(b), Binary)
    && (!Readable(w, b, Mixed) ==>
          w.wrapMixed(b) ==
            if Readable(w, b, Text) then m.serial(ReadValue(w, b, Text), Str) else m.serial(m.wrap(b), Binary))
  }

  /** The hexadecimal digits of a buffer's checksum read as that checksum. */
  ghost predicate DigestAt<V>(w: World<V>, b: Buffer) {
    var digits := Buffer(w.hash(b).hex);
    Readable(w, digits, ChecksumType) && w.dereference(ReadValue(w, digits, ChecksumType)) == Got(w.hash(b))
  }

  /** A world of parsers and serializers that fit together, with a hash function free of collisions. */
  ghost predicate Fitting<V(!new)>(w: World<V>, m: Sense<V>) {
    && (forall a, b :: w.hash(a) == w.hash(b) ==> a == b)
    && (forall b, t :: KnowsAt(w, b, t))
    && (forall b :: StorageAt(w, b))
    && (forall b, s, t :: ClassesAt(w, b, s, t))
    && (forall b :: JsonAt(w, b))
    && (forall v, t :: SerialAt(w, m, v, t))
    && (forall v, s, t :: MakesAt(w, m, v, s, t))
    && (forall b :: WrapsAt(w, m, b))
    && (forall b :: DigestAt(w, b))
  }

  // ----- What each conversion stands for -----

  /** `b'` is the buffer of `v` as `t`. */
  predicate Serialized<V>(m: Sense<V>, v: V, t: Celltype, b': Buffer) {
    m.serial(v, t) == Got(b')
  }

  /** The conversion of `b`, valid as `s`, to `t` is `b'`, for pairs with a rule of their own. */
  ghost predicate StandsDirectly<V>(w: World<V>, m: Sense<V>, s: Celltype, t: Celltype, b: Buffer, b': Buffer)
    requires Readable(w, b, s)
  {
    if Forbidden(s, t) then false
    else if Trivial(s, t) then b' == b
    else if Reinterpret(s, t) then b' == b && Readable(w, b, t)
    else if t.ChecksumType? then b' == Buffer(w.hash(b).hex)
    else
      var v := ReadValue(w, b, s);
      match (s, t)
      case (Bytes, Binary) =>
        if w.isNpy(b) && Readable(w, b, Binary) then b' == b else Serialized(m, m.wrap(b), Binary, b')
      case (Bytes, Mixed) =>
        if Readable(w, b, Mixed) then b' == b
        else if Readable(w, b, Text) then Serialized(m, ReadValue(w, b, Text), Str, b')
        else Serialized(m, m.wrap(b), Binary, b')
      case (Binary, Bytes) => if w.isByteArray(v) then Serialized(m, m.raw(v), Bytes, b') else b' == b
      case (Mixed, Bytes) =>
        if w.isNpy(b) && w.isByteArray(v) then Serialized(m, m.raw(v), Bytes, b') else b' == b
      case (Plain, Text) => if w.isString(v) then Serialized(m, v, Text, b') else b' == b
      case (Text, Plain) => Serialized(m, w.readJson(v), Plain, b')
      case (Text, Str) => Serialized(m, v, Str, b')
      case (Str, Text) => Serialized(m, v, Text, b')
      case _ => m.cast(v, s, t).Got? && Serialized(m, m.cast(v, s, t).value, t, b')
  }

  /** The rules that a conversion consists of. */
  datatype Route = Stay | Rule(s: Celltype, t: Celltype) | Then(first: Route, second: Route)

  /** The table of equivalences and chains, spelled out. */
  function RouteOf(s: Celltype, t: Celltype): Route
    requires !Deep(s) && !Deep(t)
    decreases Rank(s, t)
  {
    if s == t then Stay
    else
      RulesAreWellFounded(s, t);
      if Equivalent(s, t).Some? then RouteOf(Equivalent(s, t).value.0, Equivalent(s, t).value.1)
      else if Chain(s, t).Some? then Then(RouteOf(s, Chain(s, t).value), RouteOf(Chain(s, t).value, t))
      else Rule(s, t)
  }

  ghost predicate Leads<V>(w: World<V>, m: Sense<V>, route: Route, b: Buffer, b': Buffer) {
    match route
    case Stay => b' == b
    case Rule(s, t) => Readable(w, b, s) && StandsDirectly(w, m, s, t, b, b')
    case Then(first, second) => exists mid :: Leads(w, m, first, b, mid) && Leads(w, m, second, mid, b')
  }

  /** The conversion of `b` from `s` to `t` is `b'`, for any pair of ordinary celltypes. */
  ghost predicate Stands<V>(w: World<V>, m: Sense<V>, s: Celltype, t: Celltype, b: Buffer, b': Buffer)
    requires !Deep(s) && !Deep(t)
  {
    Leads(w, m, RouteOf(s, t), b, b')
  }

  lemma RouteIsRule(s: Celltype, t: Celltype)
    requires !Deep(s) && !Deep(t) && s != t && Direct(s, t)
    ensures RouteOf(s, t) == Rule(s, t)
  {
  }

  lemma RouteIsEquivalent(s: Celltype, t: Celltype, u: Celltype, v: Celltype)
    requires !Deep(s) && !Deep(t) && !Deep(u) && !Deep(v) && s != t && Equivalent(s, t) == Some((u, v))
    ensures RouteOf(s, t) == RouteOf(u, v)
  {
  }

  lemma RouteIsChain(s: Celltype, u: Celltype, t: Celltype)
    requires !Deep(s) && !Deep(t) && !Deep(u) && s != t && Equivalent(s, t).None? && Chain(s, t) == Some(u)
    ensures RouteOf(s, t) == Then(RouteOf(s, u), RouteOf(u, t))
  {
  }

  /** The buffer that a finished conversion of `b` denotes. */
  function ResultOf(r: Converted, b: Buffer): Buffer {
    if r.1.Some? then r.1.value else b
  }

  /** A run yields the one buffer that the conversion stands for, under its own checksum, and fails if there is none. */
  ghost predicate Agrees<V>(w: World<V>, m: Sense<V>, s: Celltype, t: Celltype, b: Buffer, r: Run<Converted>)
    requires !Deep(s) && !Deep(t)
  {
    match r.result
    case Fail(_) => forall b' :: !Stands(w, m, s, t, b, b')
    case Done(converted) =>
      && converted.0 == w.hash(ResultOf(converted, b))
      && forall b' :: Stands(w, m, s, t, b, b') <==> b' == ResultOf(converted, b)
  }

  ghost predicate Right<V>(w: World<V>, m: Sense<V>, s: Celltype, t: Celltype, b: Buffer, r: Run<Converted>)
    requires !Deep(s) && !Deep(t)
  {
    Agrees(w, m, s, t, b, r) && Serves(r.lazy, b)
  }

  lemma ValueIsRead<V>(w: World<V>, b: Buffer, t: Celltype, l: Lazy)
    requires KnowsAt(w, b, t) && Serves(l, b)
    ensures var r := ValueOf(w, w.hash(b), t, l);
      && Serves(r.lazy, b)
      && (r.result.Done? <==> Readable(w, b, t))
      && (r.result.Done? ==> r.result.value == ReadValue(w, b, t))
      && (r.result.Fail? && !Read(w, b, t).OtherError? ==> r.result == Fail(InvalidValue))
  {
    assert KnownAt(w, b, t, l.memo.Some?);
  }

  // ----- Rule by rule -----

  lemma ReinterpretIsRight<V(!new)>(w: World<V>, m: Sense<V>, s: Celltype, t: Celltype, b: Buffer, l: Lazy)
    requires Fitting(w, m) && !Deep(s) && !Deep(t) && Serves(l, b) && Readable(w, b, s) && Reinterpret(s, t)
    requires Direct(s, t) && s != t
    ensures Right(w, m, s, t, b, ReinterpretAs(w, w.hash(b), t, l))
  {
    assert KnowsAt(w, b, t) && KnownAt(w, b, t, l.memo.Some?);
  }

  lemma BytesToBinaryIsRight<V(!new)>(w: World<V>, m: Sense<V>, b: Buffer, l: Lazy)
    requires Fitting(w, m) && Serves(l, b) && Readable(w, b, Bytes)
    ensures Right(w, m, Bytes, Binary, b, BytesToBinary(w, w.hash(b), l))
  {
    assert StorageAt(w, b) && WrapsAt(w, m, b);
    ValueIsRead(w, b, Binary, Load(l).lazy);
  }

  lemma BytesToMixedIsRight<V(!new)>(w: World<V>, m: Sense<V>, b: Buffer, l: Lazy)
    requires Fitting(w, m) && Serves(l, b) && Readable(w, b, Bytes)
    ensures Right(w, m, Bytes, Mixed, b, BytesToMixed(w, w.hash(b), l))
  {
    assert StorageAt(w, b) && WrapsAt(w, m, b) && KnowsAt(w, b, Mixed);
    ValueIsRead(w, b, Mixed, Load(l).lazy);
  }

  lemma BinaryToBytesIsRight<V(!new)>(w: World<V>, m: Sense<V>, b: Buffer, l: Lazy)
    requires Fitting(w, m) && Serves(l, b) && Readable(w, b, Binary)
    ensures Right(w, m, Binary, Bytes, b, BinaryToBytes(w, w.hash(b), l))
  {
    ValueIsRead(w, b, Binary, l);
    assert MakesAt(w, m, ReadValue(w, b, Binary), Binary, Bytes);
  }

  lemma ArraysStandAlike<V>(w: World<V>, m: Sense<V>, b: Buffer)
    requires w.isNpy(b) && Readable(w, b, Mixed) && Read(w, b, Binary) == Read(w, b, Mixed)
    ensures forall b' :: Stands(w, m, Mixed, Bytes, b, b') <==> Stands(w, m, Binary, Bytes, b, b')
  {
  }

  lemma MixedToBytesIsRight<V(!new)>(w: World<V>, m: Sense<V>, b: Buffer, l: Lazy)
    requires Fitting(w, m) && Serves(l, b) && Readable(w, b, Mixed)
    ensures Right(w, m, Mixed, Bytes, b, MixedToBytes(w, w.hash(b), l))
  {
    if w.isNpy(b) {
      assert StorageAt(w, b);
      ArraysStandAlike(w, m, b);
      BinaryToBytesIsRight(w, m, b, Load(l).lazy);
    } else {
      ValueIsRead(w, b, Mixed, Load(l).lazy);
    }
  }

  lemma PlainToTextIsRight<V(!new)>(w: World<V>, m: Sense<V>, b: Buffer, l: Lazy)
    requires Fitting(w, m) && Serves(l, b) && Readable(w, b, Plain)
    ensures Right(w, m, Plain, Text, b, PlainToText(w, w.hash(b), l))
  {
    ValueIsRead(w, b, Plain, l);
    assert MakesAt(w, m, ReadValue(w, b, Plain), Plain, Text);
  }

  lemma TextToPlainIsRight<V(!new)>(w: World<V>, m: Sense<V>, b: Buffer, l: Lazy)
    requires Fitting(w, m) && Serves(l, b) && Readable(w, b, Text)
    ensures Right(w, m, Text, Plain, b, TextToPlain(w, w.hash(b), l))
  {
    ValueIsRead(w, b, Text, l);
    var v := w.readJson(ReadValue(w, b, Text));
    assert KnowsAt(w, b, Plain) && JsonAt(w, b) && MakesAt(w, m, v, Text, Plain);
    if m.serial(v, Plain).Got? && w.hash(m.serial(v, Plain).value) == w.hash(b) {
      assert m.serial(v, Plain).value == b;
    }
  }

  lemma RebuildIsRight<V(!new)>(w: World<V>, m: Sense<V>, s: Celltype, t: Celltype, b: Buffer, l: Lazy)
    requires Fitting(w, m) && !Deep(s) && !Deep(t) && Serves(l, b) && Readable(w, b, s)
    requires s != t && Direct(s, t) && !s.ChecksumType? && !t.ChecksumType? && !s.Bytes?
    requires Reformat(s, t) || Possible(s, t) || Values(s, t)
    requires !(s.Plain? && t.Text?) && !(s.Text? && t.Plain?) && !((s.Binary? || s.Mixed?) && t.Bytes?)
    ensures Right(w, m, s, t, b, Rebuild(w, w.hash(b), s, t, l))
  {
    EveryPairHasOneRule(s, t);
    ValueIsRead(w, b, s, l);
    assert MakesAt(w, m, ReadValue(w, b, s), s, t);
  }

  lemma ReformatIsRight<V(!new)>(w: World<V>, m: Sense<V>, s: Celltype, t: Celltype, b: Buffer, l: Lazy)
    requires Fitting(w, m) && Serves(l, b) && Readable(w, b, s) && Reformat(s, t)
    ensures !Deep(s) && !Deep(t) && Right(w, m, s, t, b, ConvertReformat(w, w.hash(b), s, t, l))
  {
    if s.Bytes? {
      BytesToBinaryIsRight(w, m, b, l);
      BytesToMixedIsRight(w, m, b, l);
    } else if s.Binary? {
      BinaryToBytesIsRight(w, m, b, l);
    } else if s.Mixed? {
      MixedToBytesIsRight(w, m, b, l);
    } else if s.Plain? {
      PlainToTextIsRight(w, m, b, l);
    } else if s.Text? && t.Plain? {
      TextToPlainIsRight(w, m, b, l);
    } else {
      RebuildIsRight(w, m, s, t, b, l);
    }
  }

  /** A conversion with a rule of its own does what it stands for. */
  lemma RuleIsRight<V(!new)>(w: World<V>, m: Sense<V>, s: Celltype, t: Celltype, b: Buffer, l: Lazy)
    requires Fitting(w, m) && !Deep(s) && !Deep(t) && Serves(l, b) && Readable(w, b, s)
    requires s != t && Direct(s, t) && !s.ChecksumType?
    ensures Right(w, m, s, t, b, ApplyRule(w, w.hash(b), s, t, l))
  {
    EveryPairHasOneRule(s, t);
    if Reinterpret(s, t) {
      ReinterpretIsRight(w, m, s, t, b, l);
    } else if Reformat(s, t) {
      ReformatIsRight(w, m, s, t, b, l);
    } else if (Possible(s, t) || Values(s, t)) && !t.ChecksumType? {
      RebuildIsRight(w, m, s, t, b, l);
    }
  }

  // ----- Through equivalences and chains -----

  /** Conversions to code that never parse their result. */
  predicate Unvalidated(s: Celltype, t: Celltype) {
    || (t.Yaml? && (s.Plain? || s.Int? || s.Float? || s.Bool? || s.Str?))
    || (s.Str? && Code(t)) || (s.Python? && t.IPython?) || (s.IPython? && t.Python?)
  }

  lemma DirectResultIsReadable<V(!new)>(w: World<V>, m: Sense<V>, s: Celltype, t: Celltype, b: Buffer, b': Buffer)
    requires Fitting(w, m) && !Deep(s) && !Deep(t) && s != t && Direct(s, t) && !s.ChecksumType?
    requires Readable(w, b, s) && StandsDirectly(w, m, s, t, b, b') && !Unvalidated(s, t)
    ensures Readable(w, b', t)
  {
    EveryPairHasOneRule(s, t);
    assert ClassesAt(w, b, s, t) && ClassesAt(w, b', Bytes, Bytes);
    if t.ChecksumType? {
      assert DigestAt(w, b);
    } else if Reformat(s, t) || Possible(s, t) || Values(s, t) {
      SerializedIsReadable(w, m, b', t);
    }
  }

  /** What was serialized for a celltype, or for a subclass of it, can be read. */
  lemma SerializedIsReadable<V(!new)>(w: World<V>, m: Sense<V>, b': Buffer, t: Celltype)
    requires Fitting(w, m)
    ensures forall v, u :: Serialized(m, v, u, b') && !Code(u) && Subclass(u, t) ==> Readable(w, b', t)
  {
    forall v, u | Serialized(m, v, u, b') && !Code(u) && Subclass(u, t)
      ensures Readable(w, b', t)
    {
      assert SerialAt(w, m, v, u) && ClassesAt(w, b', u, t);
    }
  }

  /** The table leads from a celltype to itself or to one that it is a subclass of, and back likewise. */
  lemma EquivalentClasses(s: Celltype, t: Celltype)
    requires !Deep(s) && !Deep(t) && s != t && Equivalent(s, t).Some? && !s.ChecksumType?
    ensures var (u, v) := Equivalent(s, t).value;
      && Subclass(s, u) && !Unvalidated(u, v) && (!Unvalidated(s, t) ==> Subclass(v, t))
  {
  }

  lemma ChainClasses(s: Celltype, t: Celltype)
    requires !Deep(s) && !Deep(t) && s != t && Equivalent(s, t).None? && Chain(s, t).Some?
    ensures !Unvalidated(s, Chain(s, t).value)
    ensures Unvalidated(Chain(s, t).value, t) ==> Unvalidated(s, t)
  {
  }

  /** What a valid buffer is converted to is valid, unless it is code that was never parsed. */
  lemma {:induction false} ResultIsReadable<V(!new)>(w: World<V>, m: Sense<V>, s: Celltype, t: Celltype, b: Buffer,
                                                     b': Buffer)
    requires Fitting(w, m) && !Deep(s) && !Deep(t) && !s.ChecksumType?
    requires Readable(w, b, s) && Stands(w, m, s, t, b, b') && !Unvalidated(s, t)
    ensures Readable(w, b', t)
    decreases Rank(s, t)
  {
    if s == t {
    } else if Equivalent(s, t).Some? {
      EquivalenceDescends(s, t);
      EquivalentClasses(s, t);
      var (u, v) := Equivalent(s, t).value;
      assert ClassesAt(w, b, s, u) && ClassesAt(w, b', v, t);
      RouteIsEquivalent(s, t, u, v);
      ResultIsReadable(w, m, u, v, b, b');
    } else if Chain(s, t).Some? {
      ChainDescends(s, t);
      ChainClasses(s, t);
      var u := Chain(s, t).value;
      ChainUnfolds(w, m, s, u, t, b, b');
      var mid :| Stands(w, m, s, u, b, mid) && Stands(w, m, u, t, mid, b');
      ResultIsReadable(w, m, s, u, b, mid);
      ResultIsReadable(w, m, u, t, mid, b');
    } else {
      RouteIsRule(s, t);
      DirectResultIsReadable(w, m, s, t, b, b');
    }
  }

  lemma ChainUnfolds<V>(w: World<V>, m: Sense<V>, s: Celltype, u: Celltype, t: Celltype, b: Buffer, b': Buffer)
    requires !Deep(s) && !Deep(t) && !Deep(u) && s != t && Equivalent(s, t).None? && Chain(s, t) == Some(u)
    ensures Stands(w, m, s, t, b, b') <==> exists mid :: Stands(w, m, s, u, b, mid) && Stands(w, m, u, t, mid, b')
  {
    var first, second := RouteOf(s, u), RouteOf(u, t);
    RouteIsChain(s, u, t);
    assert Leads(w, m, Then(first, second), b, b') <==>
      exists mid :: Leads(w, m, first, b, mid) && Leads(w, m, second, mid, b');
    if Stands(w, m, s, t, b, b') {
      var mid :| Leads(w, m, first, b, mid) && Leads(w, m, second, mid, b');
      assert Stands(w, m, s, u, b, mid) && Stands(w, m, u, t, mid, b');
    }
  }

  /** What is right for a pair is right for its equivalents. */
  lemma EquivalentIsRight<V>(w: World<V>, m: Sense<V>, s: Celltype, t: Celltype, u: Celltype, v: Celltype, b: Buffer,
                             r: Run<Converted>)
    requires !Deep(s) && !Deep(t) && !Deep(u) && !Deep(v) && s != t && Equivalent(s, t) == Some((u, v))
    requires Right(w, m, u, v, b, r)
    ensures Right(w, m, s, t, b, r)
  {
    RouteIsEquivalent(s, t, u, v);
    assert forall b' :: Stands(w, m, s, t, b, b') <==> Stands(w, m, u, v, b, b');
  }

  /** The result of two right legs. */
  lemma LegsAreRight<V(!new)>(w: World<V>, m: Sense<V>, s: Celltype, t: Celltype, u: Celltype, b: Buffer,
                              first: Run<Converted>, second: Run<Converted>)
    requires !Deep(s) && !Deep(t) && s != t && Equivalent(s, t).None? && Chain(s, t) == Some(u) && !Deep(u)
    requires forall a, b :: w.hash(a) == w.hash(b) ==> a == b
    requires first.result.Done? && Right(w, m, s, u, b, first)
    requires Right(w, m, u, t, ResultOf(first.result.value, b), second)
    ensures Right(w, m, s, t, b, InTwoLegs(w.hash(b), first, second))
  {
    var mid := ResultOf(first.result.value, b);
    forall b'
      ensures Stands(w, m, s, t, b, b') <==> Stands(w, m, u, t, mid, b')
    {
      ChainUnfolds(w, m, s, u, t, b, b');
    }
  }

  /** Every conversion of a valid buffer, through equivalences and chains, yields exactly the buffer that it stands for,
      under that buffer's checksum, and fails exactly if it stands for none. */
  lemma {:induction false} OrdinaryIsRight<V(!new)>(w: World<V>, m: Sense<V>, s: Celltype, t: Celltype, b: Buffer,
                                                    l: Lazy)
    requires Fitting(w, m) && !Deep(s) && !Deep(t) && !s.ChecksumType? && Readable(w, b, s) && Serves(l, b)
    ensures Right(w, m, s, t, b, ConvertOrdinary(w, w.hash(b), s, t, l))
    decreases Rank(s, t), 1
  {
    if s == t {
    } else if Equivalent(s, t).Some? {
      EquivalenceDescends(s, t);
      EquivalentClasses(s, t);
      var (u, v) := Equivalent(s, t).value;
      assert ClassesAt(w, b, s, u);
      OrdinaryIsRight(w, m, u, v, b, l);
      EquivalentRuns(w, w.hash(b), s, t, u, v, l);
      EquivalentIsRight(w, m, s, t, u, v, b, ConvertOrdinary(w, w.hash(b), u, v, l));
    } else if Chain(s, t).Some? {
      ChainIsRight(w, m, s, Chain(s, t).value, t, b, l);
    } else {
      RuleIsRight(w, m, s, t, b, l);
    }
  }

  lemma {:induction false} ChainIsRight<V(!new)>(w: World<V>, m: Sense<V>, s: Celltype, u: Celltype, t: Celltype,
                                                 b: Buffer, l: Lazy)
    requires Fitting(w, m) && !Deep(s) && !Deep(t) && Readable(w, b, s) && Serves(l, b)
    requires s != t && Equivalent(s, t).None? && Chain(s, t) == Some(u)
    ensures Right(w, m, s, t, b, ConvertOrdinary(w, w.hash(b), s, t, l))
    decreases Rank(s, t), 0
  {
    ChainDescends(s, t);
    ChainClasses(s, t);
    ChainRuns(w, w.hash(b), s, t, u, l);
    var first := ConvertOrdinary(w, w.hash(b), s, u, l);
    OrdinaryIsRight(w, m, s, u, b, l);
    if first.result.Done? {
      var mid := ResultOf(first.result.value, b);
      ResultIsReadable(w, m, s, u, b, mid);
      OrdinaryIsRight(w, m, u, t, mid, SecondSource(first));
      LegsAreRight(w, m, s, t, u, b, first, ConvertOrdinary(w, w.hash(mid), u, t, SecondSource(first)));
    } else {
      FailsAtFirst(w, m, s, u, t, b, first);
    }
  }

  lemma FailsAtFirst<V>(w: World<V>, m: Sense<V>, s: Celltype, u: Celltype, t: Celltype, b: Buffer,
                        first: Run<Converted>)
    requires !Deep(s) && !Deep(t) && !Deep(u) && s != t && Equivalent(s, t).None? && Chain(s, t) == Some(u)
    requires Right(w, m, s, u, b, first) && first.result.Fail?
    ensures Right(w, m, s, t, b, first)
  {
    forall b'
      ensures !Stands(w, m, s, t, b, b')
    {
      ChainUnfolds(w, m, s, u, t, b, b');
    }
  }
}
