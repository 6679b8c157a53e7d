/** Lazy, checksum-first conversion of cell buffers (`checksum/convert.py`). */
module Convert {
  import opened ConversionRules
  import opened Prelude

  datatype Buffer = Buffer(content: string)

  /** What a parser or serializer does: a value, a `ValueError`, or another exception. */
  datatype Attempt<+T> = Got(value: T) | ValueError | OtherError

  datatype Failure = InvalidValue | OtherFailure | CacheMiss | NeedsBuffer | Refused | LostBuffer | Unclassified

  datatype Outcome<+T> = Done(value: T) | Fail(failure: Failure)

  /** What the caller's `get_buffer` does: raises the dry-run signal, gives a buffer, or fails. */
  datatype Supply = DryRun | Gives(buffer: Buffer) | Fails(failure: Failure)

  /** `_LazyBuffer`: the memoized buffer, and how often the callback was called. */
  datatype Lazy = Lazy(supply: Supply, memo: Option<Buffer>, calls: nat)

  datatype Run<+T> = Run(result: Outcome<T>, lazy: Lazy)

  type Converted = (Checksum, Option<Buffer>)

  /** The parts of the system that conversions call: hashing, virtual values, HashType knowledge (which may grow once
      the source has been read), parsing and serializing. Nothing is assumed about any of them. */
  datatype World<!V> = World(
    hash: Buffer -> Checksum,
    isNull: Checksum -> bool,
    virtualValue: (Checksum, Celltype) -> Attempt<Option<V>>,
    known: (Checksum, Celltype, bool) -> Attempt<bool>,
    provenMixed: (Checksum, bool) -> bool,
    mayBeMixed: Buffer -> bool,
    parse: (Buffer, Checksum, Celltype) -> Attempt<V>,
    make: (V, Celltype, Celltype) -> Attempt<Buffer>,
    isString: V -> bool,
    isByteArray: V -> bool,
    isNpy: Buffer -> bool,
    readJson: V -> V,
    wrapBinary: Buffer -> Attempt<Buffer>,
    wrapMixed: Buffer -> Attempt<Buffer>,
    dereference: V -> Attempt<Checksum>,
    isEmpty: V -> bool,
    emptyMixed: Attempt<Buffer>)

  function Load(l: Lazy): (r: Run<Buffer>) {
    if l.memo.Some? then Run(Done(l.memo.value), l)
    else
      var called := l.(calls := l.calls + 1);
      match l.supply
      case DryRun => Run(Fail(NeedsBuffer), called)
      case Gives(b) => Run(Done(b), called.(memo := Some(b)))
      case Fails(f) => Run(Fail(f), called)
  }

  /** A lazy buffer that gives `b`, asked before or not. */
  predicate Serves(l: Lazy, b: Buffer) {
    l.supply == Gives(b) && (l.memo == None || l.memo == Some(b))
  }

  /** `_LazyBuffer` as an object: it calls back only when first asked, and keeps what it got. */
  class LazyBuffer {
    const supply: Supply
    var memo: Option<Buffer>
    var calls: nat

    constructor (supply: Supply)
      ensures Value() == Lazy(supply, None, 0)
    {
      this.supply, memo, calls := supply, None, 0;
    }

    function Value(): Lazy
      reads this
    {
      Lazy(supply, memo, calls)
    }

    method Call() returns (r: Outcome<Buffer>)
      modifies this
      ensures Run(r, Value()) == Load(old(Value()))
    {
      if memo.None? {
        calls := calls + 1;
        match supply {
          case DryRun => return Fail(NeedsBuffer);
          case Fails(f) => return Fail(f);
          case Gives(b) => memo := Some(b);
        }
      }
      r := Done(memo.value);
    }
  }

  function Settled<T>(a: Attempt<T>): Outcome<T> {
    match a
    case Got(v) => Done(v)
    case ValueError => Fail(InvalidValue)
    case OtherError => Fail(OtherFailure)
  }

  function Keep(c: Checksum, l: Lazy): Run<Converted> {
    Run(Done((c, None)), l)
  }

  /** `_buffer_result` of a buffer that was just serialized. */
  function Replace<V>(w: World<V>, a: Attempt<Buffer>, l: Lazy): Run<Converted> {
    match Settled(a)
    case Done(b) => Run(Done((w.hash(b), Some(b))), l)
    case Fail(f) => Run(Fail(f), l)
  }

  // ----- Rules -----

  function ReinterpretAs<V>(w: World<V>, c: Checksum, t: Celltype, l: Lazy): Run<Converted> {
    var virtual: Outcome<Option<V>> := Settled(w.virtualValue(c, t));
    match virtual
    case Fail(f) => Run(Fail(f), l)
    case Done(Some(_)) => Keep(c, l)
    case Done(None) =>
      match Settled(w.known(c, t, l.memo.Some?))
      case Fail(f) => Run(Fail(f), l)
      case Done(proven) =>
        if proven then Keep(c, l)
        else
          var b := Load(l);
          if b.result.Fail? then Run(Fail(b.result.failure), b.lazy)
          else
            match Settled(w.parse(b.result.value, c, t))
            case Fail(f) => Run(Fail(f), b.lazy)
            case Done(_) => Keep(c, b.lazy)
  }

  function ValueOf<V>(w: World<V>, c: Checksum, t: Celltype, l: Lazy): Run<V> {
    var virtual: Outcome<Option<V>> := Settled(w.virtualValue(c, t));
    match virtual
    case Fail(f) => Run(Fail(f), l)
    case Done(Some(v)) => Run(Done(v), l)
    case Done(None) =>
      match Settled(w.known(c, t, l.memo.Some?))
      case Fail(f) => Run(Fail(f), l)
      case Done(_) =>
        var b := Load(l);
        if b.result.Fail? then Run(Fail(b.result.failure), b.lazy)
        else Run(Settled(w.parse(b.result.value, c, t)), b.lazy)
  }

  function BytesToBinary<V>(w: World<V>, c: Checksum, l: Lazy): Run<Converted> {
    var b := Load(l);
    if b.result.Fail? then Run(Fail(b.result.failure), b.lazy)
    else if !w.isNpy(b.result.value) then Replace(w, w.wrapBinary(b.result.value), b.lazy)
    else
      var v := ValueOf(w, c, Binary, b.lazy);
      if v.result == Fail(InvalidValue) then Replace(w, w.wrapBinary(b.result.value), v.lazy)
      else if v.result.Fail? then Run(Fail(v.result.failure), v.lazy)
      else Keep(c, v.lazy)
  }

  function BytesToMixed<V>(w: World<V>, c: Checksum, l: Lazy): Run<Converted> {
    var virtual: Outcome<Option<V>> := Settled(w.virtualValue(c, Mixed));
    match virtual
    case Fail(f) => Run(Fail(f), l)
    case Done(Some(_)) => Keep(c, l)
    case Done(None) =>
      if w.provenMixed(c, l.memo.Some?) then Keep(c, l)
      else
        var b := Load(l);
        if b.result.Fail? then Run(Fail(b.result.failure), b.lazy)
        else if !w.mayBeMixed(b.result.value) then Replace(w, w.wrapMixed(b.result.value), b.lazy)
        else
          var v := ValueOf(w, c, Mixed, b.lazy);
          if v.result == Fail(InvalidValue) then Replace(w, w.wrapMixed(b.result.value), v.lazy)
          else if v.result.Fail? then Run(Fail(v.result.failure), v.lazy)
          else Keep(c, v.lazy)
  }

  function BinaryToBytes<V>(w: World<V>, c: Checksum, l: Lazy): Run<Converted> {
    var v := ValueOf(w, c, Binary, l);
    if v.result.Fail? then Run(Fail(v.result.failure), v.lazy)
    else if w.isByteArray(v.result.value) then Replace(w, w.make(v.result.value, Binary, Bytes), v.lazy)
    else Keep(c, v.lazy)
  }

  function MixedToBytes<V>(w: World<V>, c: Checksum, l: Lazy): Run<Converted> {
    var b := Load(l);
    if b.result.Fail? then Run(Fail(b.result.failure), b.lazy)
    else if w.isNpy(b.result.value) then BinaryToBytes(w, c, b.lazy)
    else
      var v := ValueOf(w, c, Mixed, b.lazy);
      if v.result.Fail? then Run(Fail(v.result.failure), v.lazy) else Keep(c, v.lazy)
  }

  function PlainToText<V>(w: World<V>, c: Checksum, l: Lazy): Run<Converted> {
    var v := ValueOf(w, c, Plain, l);
    if v.result.Fail? then Run(Fail(v.result.failure), v.lazy)
    else if w.isString(v.result.value) then Replace(w, w.make(v.result.value, Plain, Text), v.lazy)
    else Keep(c, v.lazy)
  }

  /** The canonical serialization of a plain value; a source that is canonical already keeps its checksum. */
  function Canonical<V>(w: World<V>, c: Checksum, v: V, l: Lazy): Run<Converted> {
    var r := Replace(w, w.make(v, Text, Plain), l);
    if r.result.Done? && r.result.value.0 == c then Keep(c, l) else r
  }

  function TextToPlain<V>(w: World<V>, c: Checksum, l: Lazy): Run<Converted> {
    var virtual: Outcome<Option<V>> := Settled(w.virtualValue(c, Plain));
    match virtual
    case Fail(f) => Run(Fail(f), l)
    case Done(Some(v)) => Canonical(w, c, v, l)
    case Done(None) =>
      var v := ValueOf(w, c, Text, l);
      if v.result.Fail? then Run(Fail(v.result.failure), v.lazy)
      else Canonical(w, c, w.readJson(v.result.value), v.lazy)
  }

  /** Rules that read the value and serialize a new buffer from it. */
  function Rebuild<V>(w: World<V>, c: Checksum, s: Celltype, t: Celltype, l: Lazy): Run<Converted> {
    var v := ValueOf(w, c, s, l);
    if v.result.Fail? then Run(Fail(v.result.failure), v.lazy) else Replace(w, w.make(v.result.value, s, t), v.lazy)
  }

  function ConvertReformat<V>(w: World<V>, c: Checksum, s: Celltype, t: Celltype, l: Lazy): Run<Converted> {
    match (s, t)
    case (Bytes, Binary) => BytesToBinary(w, c, l)
    case (Bytes, Mixed) => BytesToMixed(w, c, l)
    case (Binary, Bytes) => BinaryToBytes(w, c, l)
    case (Mixed, Bytes) => MixedToBytes(w, c, l)
    case (Plain, Text) => PlainToText(w, c, l)
    case (Text, Plain) => TextToPlain(w, c, l)
    case _ => Rebuild(w, c, s, t, l)
  }

  function ConvertValues<V>(w: World<V>, c: Checksum, s: Celltype, t: Celltype, l: Lazy): Run<Converted> {
    if t.ChecksumType? then Replace(w, Got(Buffer(c.hex)), l)
    else if s.ChecksumType? then
      var v := ValueOf(w, c, ChecksumType, l);
      if v.result.Fail? then Run(Fail(v.result.failure), v.lazy)
      else
        match Settled(w.dereference(v.result.value))
        case Fail(f) => Run(Fail(f), v.lazy)
        case Done(d) => Keep(d, v.lazy)
    else Rebuild(w, c, s, t, l)
  }

  /** The rules that are carried out directly. */
  function ApplyRule<V>(w: World<V>, c: Checksum, s: Celltype, t: Celltype, l: Lazy): Run<Converted> {
    if Forbidden(s, t) then Run(Fail(Refused), l)
    else if Trivial(s, t) then Keep(c, l)
    else if Reinterpret(s, t) then ReinterpretAs(w, c, t, l)
    else if Reformat(s, t) then ConvertReformat(w, c, s, t, l)
    else if Possible(s, t) then Rebuild(w, c, s, t, l)
    else if Values(s, t) then ConvertValues(w, c, s, t, l)
    else Run(Fail(Unclassified), l)
  }

  /** Where the second leg of a chain reads from: the new buffer, if the first leg made one. */
  function SecondSource(first: Run<Converted>): Lazy
    requires first.result.Done?
  {
    if first.result.value.1.None? then first.lazy else Lazy(Gives(first.result.value.1.value), None, 0)
  }

  function InTwoLegs(c: Checksum, first: Run<Converted>, second: Run<Converted>): Run<Converted>
    requires first.result.Done?
  {
    var (c1, b1) := first.result.value;
    var result :=
      if second.result.Fail? || second.result.value.1.Some? then second.result
      else if second.result.value.0 == c then Done((c, None))
      else if b1.None? || second.result.value.0 != c1 then Fail(LostBuffer)
      else Done((second.result.value.0, b1));
    Run(result, if b1.None? then second.lazy else first.lazy)
  }

  /** `_convert`. */
  function ConvertOrdinary<V>(w: World<V>, c: Checksum, s: Celltype, t: Celltype, l: Lazy): Run<Converted>
    requires !Deep(s) && !Deep(t)
    decreases Rank(s, t)
  {
    if s == t then Keep(c, l)
    else
      RulesAreWellFounded(s, t);
      if Equivalent(s, t).Some? then
        ConvertOrdinary(w, c, Equivalent(s, t).value.0, Equivalent(s, t).value.1, l)
      else if Chain(s, t).Some? then
        var first := ConvertOrdinary(w, c, s, Chain(s, t).value, l);
        if first.result.Fail? then first
        else
          var second := ConvertOrdinary(w, first.result.value.0, Chain(s, t).value, t, SecondSource(first));
          InTwoLegs(c, first, second)
      else ApplyRule(w, c, s, t, l)
  }

  predicate DeepFree(s: Celltype, t: Celltype) {
    match s
    case DeepCell => t.Plain? || t.DeepFolder?
    case DeepFolder => t.Plain? || t.Folder?
    case Folder => t.DeepFolder?
    case _ => false
  }

  /** `convert_checksum`. */
  function ConvertChecksum<V>(w: World<V>, c: Checksum, s: Celltype, t: Celltype, supply: Supply): Run<Converted> {
    var l := Lazy(supply, None, 0);
    if Forbidden(s, t) then Run(Fail(Refused), l)
    else if !Deep(s) && !Deep(t) then ConvertOrdinary(w, c, s, t, l)
    else if !(s == t || DeepFree(s, t) || (s.Folder? && t.Mixed?)) then Run(Fail(Refused), l)
    else if w.isNull(c) || s == t || DeepFree(s, t) then Keep(c, l)
    else
      var b := Load(l);
      if b.result.Fail? then Run(Fail(b.result.failure), b.lazy)
      else
        match Settled(w.parse(b.result.value, c, Plain))
        case Fail(f) => Run(Fail(f), b.lazy)
        case Done(index) => if w.isEmpty(index) then Replace(w, w.emptyMixed, b.lazy) else Run(Fail(Refused), b.lazy)
  }

  /** `conversion_needs_buffer`: a dry run whose callback raises a signal. */
  function ConversionNeedsBuffer<V>(w: World<V>, c: Checksum, s: Celltype, t: Celltype): bool {
    ConvertChecksum(w, c, s, t, DryRun).result == Fail(NeedsBuffer)
  }

  // ----- Consistency and laziness -----

  /** The callback was called exactly when its buffer is in the memo. */
  predicate Fresh(l: Lazy) {
    l.calls == if l.memo.Some? then 1 else 0
  }

  /** A run that starts from a fresh lazy buffer calls the callback at most once, and has its buffer afterwards unless
      the call itself ended the run. */
  predicate Frugal<T>(r: Run<T>) {
    Fresh(r.lazy) || (r.result.Fail? && r.lazy.calls == 1)
  }

  predicate Internal(f: Failure) {
    f.LostBuffer? || f.Unclassified?
  }

  /** No buffer means that the checksum stands; a buffer is the one that the new checksum is the hash of. */
  predicate Consistent<V>(w: World<V>, c: Checksum, r: Run<Converted>) {
    match r.result
    case Fail(f) => !Internal(f)
    case Done((d, None)) => d == c
    case Done((d, Some(b))) => w.hash(b) == d
  }

  predicate Honest(supply: Supply) {
    supply.Fails? ==> !Internal(supply.failure) && !supply.failure.NeedsBuffer?
  }

  /** What each rule keeps to. */
  predicate RuleOk<V>(w: World<V>, c: Checksum, r: Run<Converted>, l: Lazy, consistent: bool) {
    && Frugal(r) && r.lazy.supply == l.supply && r.lazy.calls >= l.calls
    && (consistent ==> Consistent(w, c, r))
    && (r.result.Fail? ==> !Internal(r.result.failure))
  }

  lemma ValueIsFrugal<V>(w: World<V>, c: Checksum, t: Celltype, l: Lazy)
    requires Fresh(l) && Honest(l.supply)
    ensures var r := ValueOf(w, c, t, l);
      && Frugal(r) && r.lazy.supply == l.supply && r.lazy.calls >= l.calls
      && (r.result.Fail? ==> !Internal(r.result.failure))
      && (l.memo.Some? ==> Fresh(r.lazy))
  {
  }

  lemma BytesRulesAreSound<V>(w: World<V>, c: Checksum, l: Lazy)
    requires Fresh(l) && Honest(l.supply)
    ensures RuleOk(w, c, BytesToBinary(w, c, l), l, true)
    ensures RuleOk(w, c, BytesToMixed(w, c, l), l, true)
  {
    var b := Load(l);
    if b.result.Done? {
      ValueIsFrugal(w, c, Binary, b.lazy);
      ValueIsFrugal(w, c, Mixed, b.lazy);
    }
  }

  lemma BinaryToBytesIsSound<V>(w: World<V>, c: Checksum, l: Lazy)
    requires Fresh(l) && Honest(l.supply)
    ensures RuleOk(w, c, BinaryToBytes(w, c, l), l, true)
  {
    ValueIsFrugal(w, c, Binary, l);
  }

  lemma MixedToBytesIsSound<V>(w: World<V>, c: Checksum, l: Lazy)
    requires Fresh(l) && Honest(l.supply)
    ensures RuleOk(w, c, MixedToBytes(w, c, l), l, true)
  {
    var b := Load(l);
    if b.result.Done? {
      BinaryToBytesIsSound(w, c, b.lazy);
      ValueIsFrugal(w, c, Mixed, b.lazy);
    }
  }

  lemma TextRulesAreSound<V>(w: World<V>, c: Checksum, l: Lazy)
    requires Fresh(l) && Honest(l.supply)
    ensures RuleOk(w, c, PlainToText(w, c, l), l, true)
    ensures RuleOk(w, c, TextToPlain(w, c, l), l, true)
  {
    ValueIsFrugal(w, c, Plain, l);
    ValueIsFrugal(w, c, Text, l);
  }

  lemma RebuildIsSound<V>(w: World<V>, c: Checksum, s: Celltype, t: Celltype, l: Lazy)
    requires Fresh(l) && Honest(l.supply)
    ensures RuleOk(w, c, Rebuild(w, c, s, t, l), l, true)
  {
    ValueIsFrugal(w, c, s, l);
  }

  lemma ReformatIsSound<V>(w: World<V>, c: Checksum, s: Celltype, t: Celltype, l: Lazy)
    requires Fresh(l) && Honest(l.supply)
    ensures RuleOk(w, c, ConvertReformat(w, c, s, t, l), l, true)
  {
    BytesRulesAreSound(w, c, l);
    BinaryToBytesIsSound(w, c, l);
    MixedToBytesIsSound(w, c, l);
    TextRulesAreSound(w, c, l);
    RebuildIsSound(w, c, s, t, l);
  }

  lemma ValuesAreSound<V>(w: World<V>, c: Checksum, s: Celltype, t: Celltype, l: Lazy)
    requires Fresh(l) && Honest(l.supply)
    ensures RuleOk(w, c, ConvertValues(w, c, s, t, l), l, t.ChecksumType? || !s.ChecksumType?)
  {
    ValueIsFrugal(w, c, s, l);
    RebuildIsSound(w, c, s, t, l);
  }

  lemma ReinterpretIsSound<V>(w: World<V>, c: Checksum, t: Celltype, l: Lazy)
    requires Fresh(l) && Honest(l.supply)
    ensures RuleOk(w, c, ReinterpretAs(w, c, t, l), l, true)
  {
  }

  lemma RuleIsSound<V>(w: World<V>, c: Checksum, s: Celltype, t: Celltype, l: Lazy)
    requires !Deep(s) && !Deep(t) && s != t && Direct(s, t) && Fresh(l) && Honest(l.supply)
    ensures RuleOk(w, c, ApplyRule(w, c, s, t, l), l, !s.ChecksumType?)
  {
    EveryPairHasOneRule(s, t);
    ReformatIsSound(w, c, s, t, l);
    ValuesAreSound(w, c, s, t, l);
    ReinterpretIsSound(w, c, t, l);
    RebuildIsSound(w, c, s, t, l);
  }

  /** Two consistent legs make a consistent chain; in particular the buffer of a new checksum is never lost. */
  lemma LegsAreSound<V>(w: World<V>, c: Checksum, l: Lazy, first: Run<Converted>, second: Run<Converted>)
    requires RuleOk(w, c, first, l, true) && first.result.Done?
    requires RuleOk(w, first.result.value.0, second, SecondSource(first), true)
    ensures RuleOk(w, c, InTwoLegs(c, first, second), l, true)
  {
  }

  lemma EquivalentRuns<V>(w: World<V>, c: Checksum, s: Celltype, t: Celltype, u: Celltype, v: Celltype, l: Lazy)
    requires !Deep(s) && !Deep(t) && !Deep(u) && !Deep(v) && s != t && Equivalent(s, t) == Some((u, v))
    ensures ConvertOrdinary(w, c, s, t, l) == ConvertOrdinary(w, c, u, v, l)
  {
  }

  lemma ChainRuns<V>(w: World<V>, c: Checksum, s: Celltype, t: Celltype, mid: Celltype, l: Lazy)
    requires !Deep(s) && !Deep(t) && !Deep(mid) && s != t && Equivalent(s, t).None? && Chain(s, t) == Some(mid)
    ensures var first := ConvertOrdinary(w, c, s, mid, l);
      ConvertOrdinary(w, c, s, t, l) ==
        if first.result.Fail? then first
        else InTwoLegs(c, first, ConvertOrdinary(w, first.result.value.0, mid, t, SecondSource(first)))
  {
  }

  lemma {:induction false} OrdinaryIsSound<V>(w: World<V>, c: Checksum, s: Celltype, t: Celltype, l: Lazy)
    requires !Deep(s) && !Deep(t) && Fresh(l) && Honest(l.supply)
    ensures RuleOk(w, c, ConvertOrdinary(w, c, s, t, l), l, !s.ChecksumType?)
    decreases Rank(s, t), 1
  {
    if s != t {
      if Equivalent(s, t).Some? {
        EquivalenceDescends(s, t);
        OrdinaryIsSound(w, c, Equivalent(s, t).value.0, Equivalent(s, t).value.1, l);
      } else if Chain(s, t).Some? {
        ChainIsSound(w, c, s, t, Chain(s, t).value, l);
      } else {
        RuleIsSound(w, c, s, t, l);
      }
    }
  }

  lemma {:induction false} ChainIsSound<V>(w: World<V>, c: Checksum, s: Celltype, t: Celltype, mid: Celltype, l: Lazy)
    requires !Deep(s) && !Deep(t) && s != t && Equivalent(s, t).None? && Chain(s, t) == Some(mid)
    requires Fresh(l) && Honest(l.supply)
    ensures RuleOk(w, c, ConvertOrdinary(w, c, s, t, l), l, true)
    decreases Rank(s, t), 0
  {
    ChainDescends(s, t);
    var first := ConvertOrdinary(w, c, s, mid, l);
    ChainRuns(w, c, s, t, mid, l);
    OrdinaryIsSound(w, c, s, mid, l);
    if first.result.Done? {
      var next := SecondSource(first);
      OrdinaryIsSound(w, first.result.value.0, mid, t, next);
      LegsAreSound(w, c, l, first, ConvertOrdinary(w, first.result.value.0, mid, t, next));
    }
  }

  /** Through any equivalences and chains: the source is fetched at most once, no internal assertion fires, and unless
      the source is a checksum to dereference, the result is consistent. */
  lemma ConversionIsSound<V>(w: World<V>, c: Checksum, s: Celltype, t: Celltype, supply: Supply)
    requires Honest(supply)
    ensures var r := ConvertChecksum(w, c, s, t, supply);
      && r.lazy.calls <= 1
      && (r.result.Fail? ==> !Internal(r.result.failure))
      && (!s.ChecksumType? ==> Consistent(w, c, r))
  {
    if !Deep(s) && !Deep(t) { OrdinaryIsSound(w, c, s, t, Lazy(supply, None, 0)); }
  }

  // ----- The dry run predicts the real one -----

  /** A dry run and a real run from the start: the same, except that the dry run stops where the real one fetches. */
  predicate Predicts<T(==)>(dry: Run<T>, actual: Run<T>, supply: Supply) {
    if dry.result == Fail(NeedsBuffer) then actual.lazy.calls >= 1
    else dry.result == actual.result && dry.lazy == Lazy(DryRun, None, 0) && actual.lazy == Lazy(supply, None, 0)
  }

  lemma BytesRulesArePredicted<V>(w: World<V>, c: Checksum, supply: Supply)
    ensures var (dry, l) := (Lazy(DryRun, None, 0), Lazy(supply, None, 0));
      && Predicts(BytesToBinary(w, c, dry), BytesToBinary(w, c, l), supply)
      && Predicts(BytesToMixed(w, c, dry), BytesToMixed(w, c, l), supply)
  {
  }

  lemma ToBytesIsPredicted<V>(w: World<V>, c: Checksum, supply: Supply)
    ensures var (dry, l) := (Lazy(DryRun, None, 0), Lazy(supply, None, 0));
      && Predicts(BinaryToBytes(w, c, dry), BinaryToBytes(w, c, l), supply)
      && Predicts(MixedToBytes(w, c, dry), MixedToBytes(w, c, l), supply)
  {
  }

  lemma TextRulesArePredicted<V>(w: World<V>, c: Checksum, supply: Supply)
    ensures var (dry, l) := (Lazy(DryRun, None, 0), Lazy(supply, None, 0));
      && Predicts(PlainToText(w, c, dry), PlainToText(w, c, l), supply)
      && Predicts(TextToPlain(w, c, dry), TextToPlain(w, c, l), supply)
  {
  }

  lemma ReformatIsPredicted<V>(w: World<V>, c: Checksum, s: Celltype, t: Celltype, supply: Supply)
    ensures Predicts(ConvertReformat(w, c, s, t, Lazy(DryRun, None, 0)),
                     ConvertReformat(w, c, s, t, Lazy(supply, None, 0)), supply)
  {
    BytesRulesArePredicted(w, c, supply);
    ToBytesIsPredicted(w, c, supply);
    TextRulesArePredicted(w, c, supply);
    ValuesArePredicted(w, c, s, t, supply);
  }

  lemma ValuesArePredicted<V>(w: World<V>, c: Checksum, s: Celltype, t: Celltype, supply: Supply)
    ensures Predicts(Rebuild(w, c, s, t, Lazy(DryRun, None, 0)), Rebuild(w, c, s, t, Lazy(supply, None, 0)), supply)
    ensures Predicts(ConvertValues(w, c, s, t, Lazy(DryRun, None, 0)),
                     ConvertValues(w, c, s, t, Lazy(supply, None, 0)), supply)
  {
  }

  lemma RuleIsPredicted<V>(w: World<V>, c: Checksum, s: Celltype, t: Celltype, supply: Supply)
    ensures Predicts(ApplyRule(w, c, s, t, Lazy(DryRun, None, 0)), ApplyRule(w, c, s, t, Lazy(supply, None, 0)), supply)
  {
    ReformatIsPredicted(w, c, s, t, supply);
    ValuesArePredicted(w, c, s, t, supply);
  }

  lemma {:induction false} OrdinaryIsPredicted<V>(w: World<V>, c: Checksum, s: Celltype, t: Celltype, supply: Supply)
    requires !Deep(s) && !Deep(t) && Honest(supply)
    ensures Predicts(ConvertOrdinary(w, c, s, t, Lazy(DryRun, None, 0)),
                     ConvertOrdinary(w, c, s, t, Lazy(supply, None, 0)), supply)
    decreases Rank(s, t), 1
  {
    if s != t {
      RulesAreWellFounded(s, t);
      if Equivalent(s, t).Some? {
        OrdinaryIsPredicted(w, c, Equivalent(s, t).value.0, Equivalent(s, t).value.1, supply);
      } else if Chain(s, t).Some? {
        ChainIsPredicted(w, c, s, t, Chain(s, t).value, supply);
      } else {
        RuleIsPredicted(w, c, s, t, supply);
      }
    }
  }

  /** A chain is predicted if its first leg is, and its second leg whenever that still starts from the source. */
  lemma LegsArePredicted(c: Checksum, supply: Supply, dry1: Run<Converted>, first: Run<Converted>,
                         dry2: Run<Converted>, second: Run<Converted>)
    requires Predicts(dry1, first, supply) && dry1.result.Done? && dry1.result != Fail(NeedsBuffer)
    requires dry1.result.value.1.None? ==> Predicts(dry2, second, supply)
    requires dry1.result.value.1.Some? ==> dry2 == second && second.result != Fail(NeedsBuffer)
    ensures Predicts(InTwoLegs(c, dry1, dry2), InTwoLegs(c, first, second), supply)
  {
  }

  /** A leg that reads from a buffer at hand never raises the dry-run signal. */
  lemma {:induction false} OnlyDryRunsSignal<V>(w: World<V>, c: Checksum, s: Celltype, t: Celltype, l: Lazy)
    requires !Deep(s) && !Deep(t) && l.supply.Gives?
    ensures ConvertOrdinary(w, c, s, t, l).result != Fail(NeedsBuffer)
    ensures ConvertOrdinary(w, c, s, t, l).lazy.supply == l.supply
    decreases Rank(s, t)
  {
    if s != t {
      if Equivalent(s, t).Some? {
        EquivalenceDescends(s, t);
        OnlyDryRunsSignal(w, c, Equivalent(s, t).value.0, Equivalent(s, t).value.1, l);
      } else if Chain(s, t).Some? {
        ChainDescends(s, t);
        var first := ConvertOrdinary(w, c, s, Chain(s, t).value, l);
        OnlyDryRunsSignal(w, c, s, Chain(s, t).value, l);
        if first.result.Done? {
          OnlyDryRunsSignal(w, first.result.value.0, Chain(s, t).value, t, SecondSource(first));
        }
      } else {
        RuleSignals(w, c, s, t, l);
      }
    }
  }

  lemma RuleSignals<V>(w: World<V>, c: Checksum, s: Celltype, t: Celltype, l: Lazy)
    requires l.supply.Gives?
    ensures ApplyRule(w, c, s, t, l).result != Fail(NeedsBuffer) && ApplyRule(w, c, s, t, l).lazy.supply == l.supply
  {
    ReformatSignals(w, c, s, t, l);
  }

  lemma ReformatSignals<V>(w: World<V>, c: Checksum, s: Celltype, t: Celltype, l: Lazy)
    requires l.supply.Gives?
    ensures var r := ConvertReformat(w, c, s, t, l);
      r.result != Fail(NeedsBuffer) && r.lazy.supply == l.supply
  {
  }

  lemma {:induction false} ChainIsPredicted<V>(w: World<V>, c: Checksum, s: Celltype, t: Celltype, mid: Celltype,
                                               supply: Supply)
    requires !Deep(s) && !Deep(t) && s != t && Equivalent(s, t).None? && Chain(s, t) == Some(mid) && Honest(supply)
    ensures Predicts(ConvertOrdinary(w, c, s, t, Lazy(DryRun, None, 0)),
                     ConvertOrdinary(w, c, s, t, Lazy(supply, None, 0)), supply)
    decreases Rank(s, t), 0
  {
    ChainDescends(s, t);
    var dry, l := Lazy(DryRun, None, 0), Lazy(supply, None, 0);
    var dry1, first := ConvertOrdinary(w, c, s, mid, dry), ConvertOrdinary(w, c, s, mid, l);
    ChainRuns(w, c, s, t, mid, dry);
    ChainRuns(w, c, s, t, mid, l);
    OrdinaryIsPredicted(w, c, s, mid, supply);
    if dry1.result.Done? {
      SecondLegIsPredicted(w, c, mid, t, supply, dry1, first);
    } else if dry1.result == Fail(NeedsBuffer) && first.result.Done? {
      OrdinaryIsSound(w, c, s, mid, l);
      OrdinaryIsSound(w, first.result.value.0, mid, t, SecondSource(first));
    }
  }

  lemma {:induction false} SecondLegIsPredicted<V>(w: World<V>, c: Checksum, mid: Celltype, t: Celltype,
                                                   supply: Supply, dry1: Run<Converted>, first: Run<Converted>)
    requires !Deep(mid) && !Deep(t) && Honest(supply)
    requires dry1.result.Done? && Predicts(dry1, first, supply)
    ensures Predicts(InTwoLegs(c, dry1, ConvertOrdinary(w, first.result.value.0, mid, t, SecondSource(dry1))),
                     InTwoLegs(c, first, ConvertOrdinary(w, first.result.value.0, mid, t, SecondSource(first))), supply)
    decreases Rank(mid, t), 2
  {
    var c1 := first.result.value.0;
    var dry2 := ConvertOrdinary(w, c1, mid, t, SecondSource(dry1));
    var second := ConvertOrdinary(w, c1, mid, t, SecondSource(first));
    if first.result.value.1.None? {
      OrdinaryIsPredicted(w, c1, mid, t, supply);
    } else {
      OnlyDryRunsSignal(w, c1, mid, t, SecondSource(first));
    }
    LegsArePredicted(c, supply, dry1, first, dry2, second);
  }

  /** `conversion_needs_buffer` says exactly whether the conversion itself will fetch its source, whatever the fetch
      then gives. */
  lemma NeedsBufferIsExact<V>(w: World<V>, c: Checksum, s: Celltype, t: Celltype, supply: Supply)
    requires Honest(supply)
    ensures ConversionNeedsBuffer(w, c, s, t) <==> ConvertChecksum(w, c, s, t, supply).lazy.calls > 0
  {
    if !Deep(s) && !Deep(t) { OrdinaryIsPredicted(w, c, s, t, supply); }
  }

  /** Whether the value of `c` as `t` is neither known from the checksum, nor ruled out by it or by its type. */
  predicate MustRead<V>(w: World<V>, c: Checksum, t: Celltype) {
    w.virtualValue(c, t) == Got(None) && w.known(c, t, false).Got?
  }

  /** Which rules need their source buffer: those that look at the bytes themselves always do, and those that look at
      the value do unless the checksum or its type settles it; the others never do. */
  lemma NeedsBufferByRule<V>(w: World<V>, c: Checksum, s: Celltype, t: Celltype)
    requires !Deep(s) && !Deep(t) && s != t && Equivalent(s, t).None? && Chain(s, t).None?
    ensures ConversionNeedsBuffer(w, c, s, t) <==>
      if Forbidden(s, t) || Trivial(s, t) || t.ChecksumType? then false
      else if Reinterpret(s, t) then w.virtualValue(c, t) == Got(None) && w.known(c, t, false) == Got(false)
      else if (s.Bytes? && t.Binary?) || (s.Mixed? && t.Bytes?) then true
      else if s.Bytes? && t.Mixed? then w.virtualValue(c, Mixed) == Got(None) && !w.provenMixed(c, false)
      else if s.Text? && t.Plain? then w.virtualValue(c, Plain) == Got(None) && MustRead(w, c, Text)
      else MustRead(w, c, s)
  {
    EveryPairHasOneRule(s, t);
  }
}
