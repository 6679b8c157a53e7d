/** HashType words and the conversions they refuse (`checksum/hash_type.py`, `checksum/hash_type_validation.py`). */
module HashTypes {
  import opened ConversionRules
  import opened Prelude

  // ----- Words -----

  datatype Kind =
    | RawBytes | Numpy | MixedObject | MixedArray | RawText | JsonObject | JsonArray | JsonString | JsonNumber
    | Untested | Utf8Untested | JsonUntested | JsonNull

  datatype Length = Short | Eq64 | Medium | Long

  datatype DType = NoDType | Numeric | NonNumeric | Structured

  datatype Dimension = Scalar | D1 | D2 | D3Plus

  datatype HashType = HashType(
    kind: Kind, length: Length, dtype: DType, rank: Dimension, numericScalar: bool, numpyBytes: bool)

  predicate IsUtf8(k: Kind) {
    IsJson(k) || k.RawText? || k.Utf8Untested?
  }

  predicate IsJson(k: Kind) {
    k.JsonObject? || k.JsonArray? || k.JsonString? || k.JsonNumber? || k.JsonNull? || k.JsonUntested?
  }

  predicate IsUntested(k: Kind) {
    k.Untested? || k.Utf8Untested? || k.JsonUntested?
  }

  predicate WellFormed(h: HashType) {
    && (h.dtype.NoDType? <==> !h.kind.Numpy?)
    && (!h.rank.Scalar? ==> h.kind.Numpy?)
    && (h.numpyBytes ==> h.kind.Numpy? && h.dtype.NonNumeric? && h.rank.Scalar?)
    && (h.kind.JsonNumber? ==> h.numericScalar)
    && (h.numericScalar ==> h.kind.JsonNumber? || h.kind.JsonString?)
  }

  /** Whether `tighter` contains all tested facts in `looser`. */
  predicate Implies(tighter: HashType, looser: HashType) {
    && tighter.length == looser.length
    && match looser.kind
       case Untested => true
       case Utf8Untested => IsUtf8(tighter.kind)
       case JsonUntested => IsJson(tighter.kind)
       case _ => tighter == looser
  }

  // ----- What a buffer holds -----

  /** A JSON document; a text is numeric if it reads as a finite number. */
  datatype Json = JObject | JArray | JText(numeric: bool) | JBool | JNumber | JNull

  /** What the first bytes announce, and what follows if it is well-formed. */
  datatype Format =
    | NpyFormat(valid: Option<(DType, Dimension, bool)>)
    | MixedFormat(isObject: Option<bool>)
    | TextFormat(json: Option<Json>)
    | OtherFormat

  datatype Content = Content(length: nat, format: Format)

  /** As much of a parsed value as the value rules look at; a scalar is numeric if it is a number or reads as one. */
  datatype Shape =
    | DictShape | ListShape | NullShape | ArrayShape(dtype: DType, rank: Dimension) | ScalarShape(numeric: bool)
    | OtherShape

  function JsonShape(j: Json): Shape {
    match j
    case JObject => DictShape
    case JArray => ListShape
    case JNull => NullShape
    case JText(numeric) => ScalarShape(numeric)
    case JBool => ScalarShape(false)
    case JNumber => ScalarShape(true)
  }

  function ShapeOf(c: Content): Shape {
    match c.format
    case NpyFormat(Some((dtype, rank, _))) => ArrayShape(dtype, rank)
    case MixedFormat(Some(isObject)) => if isObject then DictShape else ListShape
    case TextFormat(Some(json)) => JsonShape(json)
    case _ => OtherShape
  }

  predicate IsNumber(c: Content) {
    c.length <= 1000 && (c.format == TextFormat(Some(JNumber)) || c.format == TextFormat(Some(JText(true))))
  }

  function LengthBucket(n: nat): Length {
    if n < 64 then Short else if n == 64 then Eq64 else if n <= 1000 then Medium else Long
  }

  predicate Proper(c: Content) {
    c.format.NpyFormat? && c.format.valid.Some? ==>
      var (dtype, rank, bytes) := c.format.valid.value;
      !dtype.NoDType? && (bytes ==> dtype.NonNumeric? && rank.Scalar?)
  }

  function Plainly(kind: Kind, n: nat): HashType {
    HashType(kind, LengthBucket(n), NoDType, Scalar, kind.JsonNumber?, false)
  }

  /** `from_buffer`. */
  function FromBuffer(c: Content): (h: HashType)
    ensures Proper(c) ==> WellFormed(h)
    ensures !IsUntested(h.kind)
  {
    match c.format
    case NpyFormat(Some((dtype, rank, bytes))) => HashType(Numpy, LengthBucket(c.length), dtype, rank, false, bytes)
    case NpyFormat(None) => Plainly(RawBytes, c.length)
    case MixedFormat(Some(isObject)) => Plainly(if isObject then MixedObject else MixedArray, c.length)
    case MixedFormat(None) => Plainly(RawBytes, c.length)
    case OtherFormat => Plainly(RawBytes, c.length)
    case TextFormat(None) => Plainly(RawText, c.length)
    case TextFormat(Some(json)) =>
      match json
      case JObject => Plainly(JsonObject, c.length)
      case JArray => Plainly(JsonArray, c.length)
      case JText(numeric) => Plainly(JsonString, c.length).(numericScalar := numeric)
      case JBool => Plainly(JsonString, c.length)
      case JNumber => Plainly(JsonNumber, c.length)
      case JNull => Plainly(JsonNull, c.length)
  }

  /** The checksums whose value is known from the checksum alone. */
  datatype Class = NullClass | BoolClass | Ordinary

  /** `deserializable_as`: proven, disproved, or open. */
  function DeserializableAs(h: HashType, t: Celltype, known: Class): Option<bool>
    requires !Deep(t)
  {
    if known.NullClass? || t.Bytes? then Some(true)
    else if t.Bool? then Some(known.BoolClass?)
    else if IsUntested(h.kind) then
      match t
      case Text => if IsUtf8(h.kind) then Some(true) else None
      case Yaml => None
      case IPython => None
      case Python => None
      case Plain => if IsJson(h.kind) then Some(true) else None
      case Mixed => if IsJson(h.kind) then Some(true) else None
      case Str => if known.BoolClass? then Some(true) else None
      case Int => if h.length.Long? then Some(false) else None
      case Float => if h.length.Long? then Some(false) else None
      case Binary => if h.kind.Untested? then None else Some(false)
      case ChecksumType => if h.length.Eq64? then None else Some(false)
    else
      match t
      case Text => Some(IsUtf8(h.kind))
      case Yaml => if IsUtf8(h.kind) then None else Some(false)
      case IPython => if IsUtf8(h.kind) then None else Some(false)
      case Python => if IsUtf8(h.kind) then None else Some(false)
      case Plain => Some(IsJson(h.kind))
      case Str => Some(h.kind.JsonNumber? || known.BoolClass? || h.kind.JsonString?)
      case Int => Some(!h.length.Long? && h.numericScalar)
      case Float => Some(!h.length.Long? && h.numericScalar)
      case Binary => Some(h.kind.Numpy?)
      case Mixed =>
        if h.kind.RawBytes? || h.kind.RawText? then Some(false)
        else if h.kind.MixedObject? || h.kind.MixedArray? then None
        else Some(true)
      case ChecksumType => if (h.kind.RawText? || h.kind.JsonNumber?) && h.length.Eq64? then None else Some(false)
  }

  /** Looser knowledge never refuses what tighter knowledge does not refuse. */
  lemma LooserRefusesLess(tighter: HashType, looser: HashType, t: Celltype, known: Class)
    requires !Deep(t) && WellFormed(tighter) && Implies(tighter, looser) && !IsUntested(tighter.kind)
    ensures DeserializableAs(looser, t, known) == Some(false) ==> DeserializableAs(tighter, t, known) == Some(false)
  {
  }

  // ----- Feasibility -----

  function Resolved(s: Celltype, t: Celltype): (Celltype, Celltype) {
    if Equivalent(s, t).Some? then Equivalent(s, t).value else (s, t)
  }

  function PossibleFeasible(h: HashType, s: Celltype, t: Celltype): Option<bool> {
    if t.Int? || t.Float? then
      if h.kind.Numpy? then
        if !h.rank.Scalar? then Some(false) else if h.dtype.Numeric? then Some(true) else None
      else if h.kind.JsonObject? || h.kind.JsonArray? || h.kind.MixedObject? || h.kind.MixedArray? || h.kind.JsonNull?
      then Some(false)
      else if h.kind.JsonNumber? || h.numericScalar then Some(true)
      else None
    else if t.Str? && s.Mixed? then Some(!(h.kind.JsonObject? || h.kind.JsonArray?))
    else None
  }

  function ValueFeasible(h: HashType, s: Celltype, t: Celltype): Option<bool> {
    if s.Plain? && t.Binary? && h.kind.JsonObject? then Some(false)
    else if s.Binary? && t.Plain? && (h.dtype.Numeric? || h.dtype.Structured?) then Some(true)
    else None
  }

  /** `conversion_feasible`. */
  function Feasible(h: HashType, s: Celltype, t: Celltype, known: Class): Option<bool>
    requires !Deep(s) && !Deep(t)
    decreases Rank(s, t)
  {
    if s == t then Some(true)
    else
      RulesAreWellFounded(s, t);
      var (u, v) := Resolved(s, t);
      if Forbidden(u, v) then Some(false)
      else if known.NullClass? then Some(true)
      else if DeserializableAs(h, s, known) == Some(false) then Some(false)
      else if t.ChecksumType? then Some(true)
      else if Chain(u, v).Some? then
        ChainFits(s, t);
        var mid := Chain(u, v).value;
        var first := Feasible(h, s, mid, known);
        if first == Some(false) then Some(false)
        else
          var (a, b) := Resolved(s, mid);
          if !Trivial(a, b) && !Reinterpret(a, b) then None
          else
            var second := Feasible(h, mid, t, known);
            var (x, y) := Resolved(mid, t);
            if second == Some(false) then Some(false)
            else if Trivial(x, y) || Reformat(x, y) then first
            else None
      else if Trivial(u, v) || Reformat(u, v) then Some(true)
      else if Reinterpret(u, v) then DeserializableAs(h, t, known)
      else if Possible(u, v) then if IsUntested(h.kind) then None else PossibleFeasible(h, s, t)
      else if Values(u, v) then if IsUntested(h.kind) then None else ValueFeasible(h, s, t)
      else None
  }

  /** The legs of a chain that is reached through an equivalence are closer to direct rules as well. */
  lemma ChainFits(s: Celltype, t: Celltype)
    requires !Deep(s) && !Deep(t) && s != t
    requires var (u, v) := Resolved(s, t); Chain(u, v).Some?
    ensures var (u, v) := Resolved(s, t);
      var mid := Chain(u, v).value;
      !Deep(mid) && Rank(s, mid) < Rank(s, t) && Rank(mid, t) < Rank(s, t)
  {
    if Equivalent(s, t).None? {
      ChainDescends(s, t);
    } else {
      assert t.Binary? && (s.Python? || s.IPython?);
    }
  }
}
