/** NumPy dtypes, the type descriptions that a form records for them, and the way back from those. */
module DTypes {
  import opened Prelude

  /** The native dtypes that forms can describe. A record has the layout of `align=True`, so that its fields
      determine it; the shape of a field is empty unless the field is a subarray. */
  datatype DType =
    | Boolean
    | Integral(size: nat, unsigned: bool)
    | Floating(size: nat)
    | Complex(size: nat)
    | Bytes(size: nat)
    | Unicode(chars: nat)
    | Record(fields: seq<Field>)

  datatype Field = Field(name: string, dtype: DType, shape: seq<nat>)

  /** `mul(shape)` */
  function Volume(shape: seq<nat>): nat {
    if shape == [] then 1 else Volume(shape[..|shape| - 1]) * shape[|shape| - 1]
  }

  predicate Distinct(fields: seq<Field>) {
    forall i, j | 0 <= i < j < |fields| :: fields[i].name != fields[j].name
  }

  predicate Textual(dt: DType) {
    dt.Bytes? || dt.Unicode?
  }

  /** What the inference of forms accepts: subarrays of strings and of records are refused with a type error. */
  predicate Supported(dt: DType) {
    match dt
    case Boolean => true
    case Integral(size, _) => size in {1, 2, 4, 8}
    case Floating(size) => size in {2, 4, 8, 16}
    case Complex(size) => size in {8, 16, 32}
    case Bytes(size) => size > 0
    case Unicode(chars) => chars > 0
    case Record(fields) =>
      && fields != [] && Distinct(fields)
      && forall i | 0 <= i < |fields| ::
           && Supported(fields[i].dtype)
           && (fields[i].shape != [] ==> !Textual(fields[i].dtype) && !fields[i].dtype.Record?)
  }

  // ----- Sizes -----

  function RoundUp(n: nat, alignment: nat): nat {
    if alignment == 0 || n % alignment == 0 then n else n + alignment - n % alignment
  }

  function Max(a: nat, b: nat): nat {
    if a < b then b else a
  }

  function Alignment(dt: DType): nat
    decreases dt, Width(dt) + 1
  {
    match dt
    case Boolean => 1
    case Integral(size, _) => size
    case Floating(size) => size
    case Complex(size) => size / 2
    case Bytes(_) => 1
    case Unicode(_) => 4
    case Record(fields) => FieldsAlignment(dt, |fields|)
  }

  function Width(dt: DType): nat {
    if dt.Record? then |dt.fields| else 0
  }

  function FieldsAlignment(dt: DType, n: nat): nat
    requires n <= Width(dt)
    decreases dt, n
  {
    if n == 0 then 1 else Max(FieldsAlignment(dt, n - 1), Alignment(dt.fields[n - 1].dtype))
  }

  function ItemSize(dt: DType): nat
    decreases dt, Width(dt) + 1
  {
    match dt
    case Boolean => 1
    case Integral(size, _) => size
    case Floating(size) => size
    case Complex(size) => size
    case Bytes(size) => size
    case Unicode(chars) => 4 * chars
    case Record(fields) => RoundUp(FieldsEnd(dt, |fields|), Alignment(dt))
  }

  /** Where the first `n` fields of a record end: each starts at the next multiple of its alignment. */
  function FieldsEnd(dt: DType, n: nat): nat
    requires n <= Width(dt)
    decreases dt, n
  {
    if n == 0 then 0
    else
      var f := dt.fields[n - 1];
      RoundUp(FieldsEnd(dt, n - 1), Alignment(f.dtype)) + ItemSize(f.dtype) * Volume(f.shape)
  }

  // ----- Type descriptions -----

  datatype Typedef =
    | BooleanType(bytesize: nat)
    | IntegerType(bytesize: nat, unsigned: bool)
    | NumberType(bytesize: nat, complex: bool)
    | StringType(bytesize: nat)
    | TupleType(items: Typedef, shape: seq<nat>)
    | ObjectType(properties: map<string, Typedef>, order: seq<string>, bytesize: nat)

  /** `get_tform_numpy` */
  function TypedefOf(dt: DType): Typedef
    decreases dt, Width(dt) + 1
  {
    match dt
    case Boolean => BooleanType(1)
    case Integral(size, unsigned) => IntegerType(size, unsigned)
    case Floating(size) => NumberType(size, false)
    case Complex(size) => NumberType(size, true)
    case Bytes(size) => StringType(size)
    case Unicode(chars) => StringType(4 * chars)
    case Record(fields) => ObjectType(Properties(dt, |fields|), Names(fields), ItemSize(dt))
  }

  function Names(fields: seq<Field>): seq<string> {
    seq(|fields|, i requires 0 <= i < |fields| => fields[i].name)
  }

  function Properties(dt: DType, n: nat): map<string, Typedef>
    requires n <= Width(dt)
    decreases dt, n
  {
    if n == 0 then map[]
    else
      var f := dt.fields[n - 1];
      Properties(dt, n - 1)[f.name := Property(TypedefOf(f.dtype), f.shape)]
  }

  /** The description of a field. A subarray is never found to be unsigned, because the test for that compares the
      type of the whole subarray. */
  function Property(typedef: Typedef, shape: seq<nat>): Typedef {
    if shape == [] then typedef
    else TupleType(if typedef.IntegerType? then typedef.(unsigned := false) else typedef, shape)
  }

  function Bytesize(t: Typedef): nat {
    if t.TupleType? then Bytesize(t.items) * Volume(t.shape) else t.bytesize
  }

  /** `form_to_dtype`; `None` stands for a failed assertion. Strings become byte strings. */
  function FormToDtype(t: Typedef): Option<DType> {
    match t
    case BooleanType(_) => Some(Boolean)
    case IntegerType(bytesize, unsigned) => Some(Integral(bytesize, unsigned))
    case NumberType(bytesize, complex) => Some(if complex then Complex(bytesize) else Floating(bytesize))
    case StringType(bytesize) => Some(Bytes(bytesize))
    case TupleType(items, _) => FormToDtype(items)
    case ObjectType(props, order, _) =>
      if (forall i | 0 <= i < |order| :: order[i] in props && FormToDtype(props[order[i]]).Some?) &&
         (forall k | k in props :: k in order)
      then
        Some(Record(seq(|order|, i requires 0 <= i < |order| && order[i] in props && FormToDtype(props[order[i]]).Some? =>
          Field(order[i], FormToDtype(props[order[i]]).value,
                if props[order[i]].TupleType? then props[order[i]].shape else []))))
      else None
  }

  // ----- The way back -----

  predicate UnsignedSubarray(f: Field) {
    f.shape != [] && f.dtype.Integral? && f.dtype.unsigned
  }

  /** No Unicode strings, and no subarrays of unsigned integers, at any depth of records. */
  predicate Describable(dt: DType) {
    match dt
    case Unicode(_) => false
    case Record(fields) => forall i | 0 <= i < |fields| :: Describable(fields[i].dtype) && !UnsignedSubarray(fields[i])
    case _ => true
  }

  /** What the description of a dtype is read back as: Unicode strings as byte strings of the same size, and unsigned
      integers in subarrays as signed ones. */
  function ReadBack(dt: DType): DType {
    match dt
    case Unicode(chars) => Bytes(4 * chars)
    case Record(fields) =>
      Record(seq(|fields|, i requires 0 <= i < |fields| => FieldBack(fields[i], ReadBack(fields[i].dtype))))
    case _ => dt
  }

  function FieldBack(f: Field, dtype: DType): Field {
    Field(f.name, if UnsignedSubarray(f) then f.dtype.(unsigned := false) else dtype, f.shape)
  }

  lemma {:induction false} DescriptionIsReadBack(dt: DType)
    requires Supported(dt)
    ensures FormToDtype(TypedefOf(dt)) == Some(ReadBack(dt))
    ensures Bytesize(TypedefOf(dt)) == ItemSize(dt)
    ensures !TypedefOf(dt).TupleType?
  {
    if dt.Record? {
      forall i | 0 <= i < |dt.fields| ensures FieldIsReadBack(dt, i) {
        var f := dt.fields[i];
        DescriptionIsReadBack(f.dtype);
        PropertyOf(dt, |dt.fields|, i);
        PropertyIsReadBack(f);
      }
      forall k | k in TypedefOf(dt).properties ensures k in TypedefOf(dt).order { OnlyNames(dt, |dt.fields|, k); }
      RecordIsReadBack(dt);
    }
  }

  lemma PropertyIsReadBack(f: Field)
    requires FormToDtype(TypedefOf(f.dtype)) == Some(ReadBack(f.dtype)) && !TypedefOf(f.dtype).TupleType?
    ensures var p, back := Property(TypedefOf(f.dtype), f.shape), FieldBack(f, ReadBack(f.dtype));
            && FormToDtype(p) == Some(back.dtype) && (if p.TupleType? then p.shape else []) == back.shape
  {
  }

  ghost predicate FieldIsReadBack(dt: DType, i: nat)
    requires dt.Record? && i < |dt.fields|
  {
    var f, props := dt.fields[i], TypedefOf(dt).properties;
    var back := FieldBack(f, ReadBack(f.dtype));
    && f.name in props && FormToDtype(props[f.name]) == Some(back.dtype)
    && (if props[f.name].TupleType? then props[f.name].shape else []) == back.shape
  }

  lemma RecordIsReadBack(dt: DType)
    requires dt.Record? && (forall i | 0 <= i < |dt.fields| :: FieldIsReadBack(dt, i))
    requires forall k | k in TypedefOf(dt).properties :: k in TypedefOf(dt).order
    ensures FormToDtype(TypedefOf(dt)) == Some(ReadBack(dt))
  {
    var t := TypedefOf(dt);
    forall i | 0 <= i < |t.order| ensures t.order[i] in t.properties && FormToDtype(t.properties[t.order[i]]).Some? {
      assert FieldIsReadBack(dt, i);
    }
    forall i | 0 <= i < |dt.fields| ensures FormToDtype(t).value.fields[i] == ReadBack(dt).fields[i] {
      assert FieldIsReadBack(dt, i);
    }
    assert FormToDtype(t).value.fields == ReadBack(dt).fields;
  }

  /** The entry of a field is not overwritten by that of a later one. */
  lemma {:induction false} PropertyOf(dt: DType, n: nat, i: nat)
    requires dt.Record? && Distinct(dt.fields) && i < n <= |dt.fields|
    ensures var f := dt.fields[i];
            && f.name in Properties(dt, n)
            && Properties(dt, n)[f.name] == Property(TypedefOf(f.dtype), f.shape)
    decreases n
  {
    if i < n - 1 { PropertyOf(dt, n - 1, i); }
  }

  lemma {:induction false} OnlyNames(dt: DType, n: nat, k: string)
    requires dt.Record? && n <= |dt.fields| && k in Properties(dt, n)
    ensures k in Names(dt.fields)
    decreases n
  {
    if k == dt.fields[n - 1].name {
      assert Names(dt.fields)[n - 1] == k;
    } else {
      OnlyNames(dt, n - 1, k);
    }
  }

  lemma {:induction false} UnchangedIffDescribable(dt: DType)
    ensures ReadBack(dt) == dt <==> Describable(dt)
  {
    if dt.Record? {
      var fields := dt.fields;
      forall i | 0 <= i < |fields|
        ensures ReadBack(dt).fields[i] == fields[i] <==> Describable(fields[i].dtype) && !UnsignedSubarray(fields[i])
      {
        UnchangedIffDescribable(fields[i].dtype);
      }
      if Describable(dt) { assert ReadBack(dt).fields == fields; }
    }
  }

  /** A dtype survives its description if and only if it is describable. */
  lemma DescriptionIffDescribable(dt: DType)
    requires Supported(dt)
    ensures FormToDtype(TypedefOf(dt)) == Some(dt) <==> Describable(dt)
  {
    DescriptionIsReadBack(dt);
    UnchangedIffDescribable(dt);
  }
}
