/** Mixed data as a buffer: dispatch on the inferred storage, and the framing around the parts. */
module MixedFile {
  import opened Prelude
  import opened DTypes
  import opened MixedForm
  import opened MixedStream
  import opened MixedCodec

  // ----- Fixed-width integers, little endian -----

  function LittleEndian(n: nat, width: nat): (r: seq<byte>)
    ensures |r| == width
  {
    if width == 0 then [] else [n % 256] + LittleEndian(n / 256, width - 1)
  }

  function FromLittleEndian(s: seq<byte>): nat {
    if s == [] then 0 else s[0] + 256 * FromLittleEndian(s[1..])
  }

  function Range(width: nat): nat {
    if width == 0 then 1 else 256 * Range(width - 1)
  }

  lemma {:induction false} IntegerRoundTrip(n: nat, width: nat)
    requires n < Range(width)
    ensures FromLittleEndian(LittleEndian(n, width)) == n
    decreases width
  {
    if width > 0 {
      IntegerRoundTrip(n / 256, width - 1);
      assert LittleEndian(n, width)[1..] == LittleEndian(n / 256, width - 1);
    }
  }

  // ----- The text and array formats that the framing contains -----

  /** JSON and .npy encodings, as functions about which nothing is known but what `FaithfulFor` says. JSON texts
      are written of trees in which the encoder has converted the NumPy scalars. Reading an .npy file includes the
      realignment of records. */
  datatype Codec = Codec(
    plainText: Value -> seq<byte>, parsePlain: seq<byte> -> Option<Value>, isText: seq<byte> -> bool,
    jsonsText: (seq<nat>, Value) -> seq<byte>, parseJsons: seq<byte> -> Option<(seq<nat>, Value)>,
    formText: Form -> seq<byte>, parseForm: seq<byte> -> Option<Form>,
    npy: Array -> seq<byte>, parseNpy: seq<byte> -> Option<Array>)

  const MAGIC_NUMPY: seq<byte> := [147, 78, 85, 77, 80, 89]
  const MAGIC_SEAMLESS: seq<byte> := [147, 83, 69, 65, 77, 76, 69, 83, 83]
  const MAGIC_SEAMLESS_MIXED: seq<byte> := [148, 83, 69, 65, 77, 76, 69, 83, 83, 45, 77, 73, 88, 69, 68]

  /** `storage.encode()` */
  function StorageText(storage: Storage): seq<byte> {
    match storage
    case MixedPlain => [109, 105, 120, 101, 100, 45, 112, 108, 97, 105, 110]
    case PurePlain => [112, 117, 114, 101, 45, 112, 108, 97, 105, 110]
    case PureBinary => [112, 117, 114, 101, 45, 98, 105, 110, 97, 114, 121]
  }

  /** The .npy format knows arrays only: a NumPy scalar is saved as an array without dimensions. */
  function AsArray(a: Array): Array {
    if a.shape.None? then a.(shape := Some([])) else a
  }

  // Each format is read back as it was written, and JSON text is text that begins like none of the others.

  ghost predicate FaithfulPlain(c: Codec, v: Value) {
    var text := c.plainText(v);
    && c.parsePlain(text) == Some(v) && c.isText(text)
    && !(MAGIC_NUMPY <= text) && !(MAGIC_SEAMLESS <= text) && !(MAGIC_SEAMLESS_MIXED <= text)
  }

  ghost predicate FaithfulJsons(c: Codec, marks: seq<nat>, v: Value) {
    c.parseJsons(c.jsonsText(marks, v)) == Some((marks, v))
  }

  ghost predicate FaithfulForm(c: Codec, f: Form) {
    c.parseForm(c.formText(f)) == Some(f)
  }

  ghost predicate FaithfulNpy(c: Codec, a: Array) {
    c.parseNpy(c.npy(a)) == Some(AsArray(a)) && MAGIC_NUMPY <= c.npy(a)
  }

  /** The codec reads back the parts that `v` is written as. */
  ghost predicate FaithfulFor(c: Codec, v: Value) {
    match StorageOf(v)
    case PurePlain => FaithfulPlain(c, Plainly(v))
    case PureBinary => v.Leaf? && FaithfulNpy(c, v.arr)
    case MixedPlain => FaithfulForm(c, FormOf(v)) && FaithfulJsons(c, Marks(v), Plainly(Zeroed(v)))
  }

  ghost predicate Faithful(c: Codec) {
    forall v :: FaithfulFor(c, v)
  }

  /** The offsets that the writer records for `v`. */
  ghost function Marks(v: Value): seq<nat> {
    [0] + Ends(0, Blocks(v))
  }

  // ----- The buffer format -----

  ghost function JsonsOf(c: Codec, v: Value): seq<byte> {
    c.jsonsText(Marks(v), Plainly(Zeroed(v)))
  }

  ghost function StreamOf(c: Codec, v: Value): seq<byte> {
    var jsons := JsonsOf(c, v);
    MAGIC_SEAMLESS + LittleEndian(|jsons|, 8) + LittleEndian(TotalBytes(v), 8) + jsons + Flat(Blocks(v))
  }

  /** Whether `v` can be written: not if a leaf in a container has a dtype that forms do not preserve, which is an
      assertion error, or if a length does not fit its field, which is an overflow error. */
  ghost predicate Serializable(c: Codec, v: Value) {
    StorageOf(v) == MixedPlain ==>
      && Portable(v)
      && |JsonsOf(c, v)| < Range(8) && TotalBytes(v) < Range(8) && |c.formText(FormOf(v))| < Range(4)
  }

  ghost function BufferOf(c: Codec, v: Value): seq<byte> {
    match StorageOf(v)
    case PurePlain => c.plainText(Plainly(v))
    case PureBinary => if v.Leaf? then c.npy(v.arr) else []
    case MixedPlain =>
      Framed(MAGIC_SEAMLESS_MIXED, StorageText(MixedPlain), c.formText(FormOf(v)), StreamOf(c, v))
  }

  function Framed(magic: seq<byte>, h1: seq<byte>, h2: seq<byte>, rest: seq<byte>): seq<byte>
    requires |h1| < 256
  {
    magic + [|h1|] + h1 + LittleEndian(|h2|, 4) + h2 + rest
  }

  /** The bytes of a mixed buffer: its magic, the storage with its length in one byte, the form with its length in four;
      then the magic of the stream, the lengths of offsets and data in eight bytes each, and these themselves. */
  lemma MixedLayout(c: Codec, v: Value)
    requires StorageOf(v) == MixedPlain
    ensures var form, jsons, data := c.formText(FormOf(v)), c.jsonsText(Marks(v), Plainly(Zeroed(v))), Flat(Blocks(v));
      var stream :=
        [147, 83, 69, 65, 77, 76, 69, 83, 83] + LittleEndian(|jsons|, 8) + LittleEndian(|data|, 8) + jsons + data;
      BufferOf(c, v) ==
        [148, 83, 69, 65, 77, 76, 69, 83, 83, 45, 77, 73, 88, 69, 68]
        + [11] + [109, 105, 120, 101, 100, 45, 112, 108, 97, 105, 110] + LittleEndian(|form|, 4) + form + stream
  {
  }

  /** Low bytes come first: 66051 is 1 * 65536 + 2 * 256 + 3. */
  lemma LowBytesFirst()
    ensures LittleEndian(66051, 4) == [3, 2, 1, 0]
  {
    assert LittleEndian(258, 3) == [2, 1, 0];
  }

  // ----- Writing -----

  method ToStream(data: Value, storage: Storage, form: Form, c: Codec) returns (r: Option<seq<byte>>)
    requires Accepted(data) && storage == StorageOf(data) && form == FormOf(data)
    ensures storage != MixedPlain ==> r == Some(BufferOf(c, data))
    ensures storage == MixedPlain ==>
              r == if Portable(data) && |JsonsOf(c, data)| < Range(8) && TotalBytes(data) < Range(8)
                   then Some(StreamOf(c, data)) else None
  {
    match storage {
      case PurePlain => return Some(c.plainText(Plainly(data)));
      case PureBinary => return Some(c.npy(data.arr));
      case MixedPlain =>
        var debugSize := BufferSizeDebug(data, storage, form);
        if debugSize.None? {
          return None;
        }
        var size := BufferSize(storage, form, data);
        assert size == debugSize.value;
        var stream := new Stream(size);
        var zeroed, wasLeaf, offset := Write(data, storage, form, stream, 0);
        assert offset == size;
        assert stream.buffer[..] == Flat(Blocks(data));
        var jsons := c.jsonsText(stream.offsets, Plainly(zeroed));
        if |jsons| >= Range(8) || size >= Range(8) {
          return None;
        }
        return Some(MAGIC_SEAMLESS + LittleEndian(|jsons|, 8) + LittleEndian(size, 8) + jsons + stream.buffer[..]);
    }
  }

  method Serialize(data: Value, c: Codec) returns (r: Option<seq<byte>>)
    requires Accepted(data)
    ensures r == if Serializable(c, data) then Some(BufferOf(c, data)) else None
  {
    var storage, form := GetForm(data);
    var content := ToStream(data, storage, form, c);
    if storage == PurePlain || storage == PureBinary || content.None? {
      return content;
    }
    var h1 := StorageText(storage);
    var h2 := c.formText(form);
    if |h2| >= Range(4) {
      return None;
    }
    return Some(MAGIC_SEAMLESS_MIXED + [|h1|] + h1 + LittleEndian(|h2|, 4) + h2 + content.value);
  }

  // ----- Reading -----

  /** What a lone array comes back as: without dimensions it is a NumPy scalar, unless it is a byte string. */
  function LoneArray(a: Array): Array {
    if AsArray(a).shape == Some([]) && !a.dtype.Bytes? then a.(shape := None) else AsArray(a)
  }

  /** What a value comes back as. */
  function Restored(v: Value): Value {
    if v.Leaf? then Leaf(LoneArray(v.arr)) else Loaded(Plainly(v))
  }

  /** `data[start:stop]`, which Python clips to the data. */
  function Slice(data: seq<byte>, start: nat, stop: nat): seq<byte> {
    if start >= |data| || stop < start then [] else if stop > |data| then data[start..] else data[start..stop]
  }

  /** The mixed case of `from_stream`; `None` stands for an exception. */
  method FromStream(stream: seq<byte>, form: Form, c: Codec, ghost v: Value) returns (r: Option<Value>)
    ensures Writable(c, v) && form == FormOf(v) && stream == StreamOf(c, v) ==> r == Some(Loaded(Plainly(v)))
  {
    ghost var expected := Writable(c, v) && form == FormOf(v) && stream == StreamOf(c, v);
    var l := |MAGIC_SEAMLESS|;
    if expected { StreamParts(c, v); }
    if !(MAGIC_SEAMLESS <= stream) || |stream| < l + 16 {
      return None;
    }
    var lenJsons := FromLittleEndian(stream[l..l + 8]);
    var buffersize := FromLittleEndian(stream[l + 8..l + 16]);
    if |stream| != l + 16 + lenJsons + buffersize {
      return None;
    }
    r := FromParts(stream[l + 16..l + 16 + lenJsons], stream[l + 16 + lenJsons..], form, c, v);
  }

  /** What the reader finds in the parts of a stream. */
  lemma PartsExpected(c: Codec, v: Value)
    requires Writable(c, v)
    ensures c.parseJsons(JsonsOf(c, v)) == Some((Marks(v), Plainly(Zeroed(v))))
    ensures Expected(Plainly(v), Plainly(Zeroed(v)), FormOf(v), Marks(v), Flat(Blocks(v)), 0, [])
  {
    PlainlyKeeps(v);
    assert Marks(v) + [] == Marks(v);
  }

  method FromParts(text: seq<byte>, buffer: seq<byte>, form: Form, c: Codec, ghost v: Value) returns (r: Option<Value>)
    ensures Writable(c, v) && form == FormOf(v) && text == JsonsOf(c, v) && buffer == Flat(Blocks(v)) ==>
      r == Some(Loaded(Plainly(v)))
  {
    var jsons := c.parseJsons(text);
    ghost var w := Plainly(v);
    if Writable(c, v) { PartsExpected(c, v); }
    if jsons.None? {
      return None;
    }
    var read := ReadPlain(jsons.value.1, form, jsons.value.0, buffer, w, 0, []);
    return if read.Some? then Some(read.value.0) else None;
  }

  /** A mixed value that can be written. */
  ghost predicate Writable(c: Codec, v: Value) {
    FaithfulFor(c, v) && Accepted(v) && StorageOf(v) == MixedPlain && Serializable(c, v)
  }

  /** Where the parts of a stream are. */
  lemma StreamParts(c: Codec, v: Value)
    requires StorageOf(v) == MixedPlain && Serializable(c, v)
    ensures var stream, l, jsons := StreamOf(c, v), |MAGIC_SEAMLESS|, JsonsOf(c, v);
            && MAGIC_SEAMLESS <= stream && |stream| == l + 16 + |jsons| + TotalBytes(v)
            && FromLittleEndian(stream[l..l + 8]) == |jsons|
            && FromLittleEndian(stream[l + 8..l + 16]) == TotalBytes(v)
            && stream[l + 16..l + 16 + |jsons|] == jsons
            && stream[l + 16 + |jsons|..] == Flat(Blocks(v))
  {
    SizedParts(MAGIC_SEAMLESS, JsonsOf(c, v), Flat(Blocks(v)));
  }

  lemma SizedParts(magic: seq<byte>, text: seq<byte>, rest: seq<byte>)
    requires |text| < Range(8) && |rest| < Range(8)
    ensures var stream, l := magic + LittleEndian(|text|, 8) + LittleEndian(|rest|, 8) + text + rest, |magic|;
            && magic <= stream && |stream| == l + 16 + |text| + |rest|
            && FromLittleEndian(stream[l..l + 8]) == |text| && FromLittleEndian(stream[l + 8..l + 16]) == |rest|
            && stream[l + 16..l + 16 + |text|] == text && stream[l + 16 + |text|..] == rest
  {
    IntegerRoundTrip(|text|, 8);
    IntegerRoundTrip(|rest|, 8);
    FieldParts(magic, LittleEndian(|text|, 8), LittleEndian(|rest|, 8), text, rest);
  }

  lemma FieldParts(magic: seq<byte>, a: seq<byte>, b: seq<byte>, text: seq<byte>, rest: seq<byte>)
    requires |a| == 8 && |b| == 8
    ensures var stream, l := magic + a + b + text + rest, |magic|;
            && magic <= stream && |stream| == l + 16 + |text| + |rest|
            && stream[l..l + 8] == a && stream[l + 8..l + 16] == b
            && stream[l + 16..l + 16 + |text|] == text && stream[l + 16 + |text|..] == rest
  {
  }

  /** `np.array(data)` of a byte string; NumPy has no empty ones. */
  function ByteArray(data: seq<byte>): Array {
    if data == [] then Array(Bytes(1), Some([]), [0]) else Array(Bytes(|data|), Some([]), data)
  }

  /** `None` stands for an exception. */
  method Deserialize(data: seq<byte>, c: Codec, ghost v: Value) returns (r: Option<(Value, Storage)>)
    ensures FaithfulFor(c, v) && Accepted(v) && Serializable(c, v) && data == BufferOf(c, v) ==>
      r == Some((Restored(v), StorageOf(v)))
  {
    if FaithfulFor(c, v) && Accepted(v) && Serializable(c, v) && data == BufferOf(c, v) { BufferKind(c, v); }
    if MAGIC_NUMPY <= data {
      var a := c.parseNpy(data);
      return if a.Some? then Some((Leaf(LoneArray(a.value)), PureBinary)) else None;
    }
    if MAGIC_SEAMLESS_MIXED <= data {
      r := DeserializeMixed(data, c, v);
    } else {
      if MAGIC_SEAMLESS <= data || !c.isText(data) {
        return None;
      }
      var value := c.parsePlain(data);
      // Text that is not JSON is a byte string.
      return if value.Some? then Some((value.value, PurePlain))
             else Some((Leaf(ByteArray(data)), PureBinary));
    }
  }

  /** The first bytes tell the three kinds of buffer apart. */
  lemma BufferKind(c: Codec, v: Value)
    requires FaithfulFor(c, v) && Accepted(v)
    ensures var data := BufferOf(c, v);
            match StorageOf(v)
            case PurePlain => FaithfulPlain(c, Plainly(v)) && Restored(v) == Plainly(v)
            case PureBinary =>
              && MAGIC_NUMPY <= data && c.parseNpy(data) == Some(AsArray(v.arr))
              && Restored(v) == Leaf(LoneArray(AsArray(v.arr)))
            case MixedPlain =>
              !(MAGIC_NUMPY <= data) && MAGIC_SEAMLESS_MIXED <= data && Restored(v) == Loaded(Plainly(v))
  {
    match StorageOf(v)
    case PurePlain =>
      PlainlyKeeps(v);
      PlainHasNoLeaves(Plainly(v));
    case PureBinary =>
    case MixedPlain => assert BufferOf(c, v)[0] != MAGIC_NUMPY[0];
  }

  method DeserializeMixed(data: seq<byte>, c: Codec, ghost v: Value) returns (r: Option<(Value, Storage)>)
    requires MAGIC_SEAMLESS_MIXED <= data
    ensures Writable(c, v) && data == BufferOf(c, v) ==> r == Some((Loaded(Plainly(v)), MixedPlain))
  {
    ghost var expected := Writable(c, v) && data == BufferOf(c, v);
    ghost var h1, h2, rest := StorageText(MixedPlain), c.formText(FormOf(v)), StreamOf(c, v);
    var parts := ReadFramed(data, |MAGIC_SEAMLESS_MIXED|, MAGIC_SEAMLESS_MIXED, h1, h2, rest);
    if parts.None? {
      return None;
    }
    var (storage, text, stream) := parts.value;
    assert expected ==> storage == h1 && text == h2 && stream == rest;
    r := DecodeMixed(storage, text, stream, c, v);
  }

  method DecodeMixed(storage: seq<byte>, text: seq<byte>, stream: seq<byte>, c: Codec, ghost v: Value)
    returns (r: Option<(Value, Storage)>)
    ensures Writable(c, v)
      && (storage, text, stream) == (StorageText(MixedPlain), c.formText(FormOf(v)), StreamOf(c, v))
      ==> r == Some((Loaded(Plainly(v)), MixedPlain))
  {
    var form := c.parseForm(text);
    if form.None? || storage != StorageText(MixedPlain) {
      return None;
    }
    var value := FromStream(stream, form.value, c, v);
    return if value.Some? then Some((value.value, MixedPlain)) else None;
  }

  /** The two headers behind the magic bytes, each with its length in front, and what follows them. */
  method ReadFramed(data: seq<byte>, start: nat, ghost magic: seq<byte>, ghost h1: seq<byte>, ghost h2: seq<byte>,
                    ghost rest: seq<byte>)
    returns (r: Option<(seq<byte>, seq<byte>, seq<byte>)>)
    ensures start == |magic| && |h1| < 256 && |h2| < Range(4) && data == Framed(magic, h1, h2, rest) ==>
      r == Some((h1, h2, rest))
  {
    if start == |magic| && |h1| < 256 && |h2| < Range(4) && data == Framed(magic, h1, h2, rest) {
      IntegerRoundTrip(|h2|, 4);
      HeaderParts(magic, h1, LittleEndian(|h2|, 4), h2, rest);
    }
    var offset: nat := start;
    if |data| < offset + 1 {
      return None;
    }
    var lh1: nat := data[offset];
    offset := offset + 1;
    var part1 := Slice(data, offset, offset + lh1);
    offset := offset + lh1;
    if |data| < offset + 4 {
      return None;
    }
    var lh2 := FromLittleEndian(data[offset..offset + 4]);
    offset := offset + 4;
    var part2 := Slice(data, offset, offset + lh2);
    offset := offset + lh2;
    r := Some((part1, part2, Slice(data, offset, |data|)));
  }

  lemma HeaderParts(magic: seq<byte>, h1: seq<byte>, length: seq<byte>, h2: seq<byte>, rest: seq<byte>)
    requires |h1| < 256 && |length| == 4
    ensures var data := magic + [|h1|] + h1 + length + h2 + rest;
            var o1 := |magic| + 1;
            var o2 := o1 + |h1| + 4;
            && |data| >= o2 + |h2| && data[o1 - 1] == |h1| && Slice(data, o1, o1 + |h1|) == h1
            && data[o2 - 4..o2] == length
            && Slice(data, o2, o2 + |h2|) == h2
            && Slice(data, o2 + |h2|, |data|) == rest
  {
  }

  // ----- The round trip -----

  /** Whatever can be written comes back as `Restored` says, with the storage it was given. */
  method RoundTrip(v: Value, c: Codec) returns (r: Option<(Value, Storage)>)
    requires Accepted(v) && FaithfulFor(c, v)
    ensures r == if Serializable(c, v) then Some((Restored(v), StorageOf(v))) else None
    ensures r == Some((v, StorageOf(v))) <==> Serializable(c, v) && Preserved(v)
  {
    RestoredIffPreserved(v);
    var data := Serialize(v, c);
    if data.None? {
      return None;
    }
    r := Deserialize(data.value, c, v);
  }

  /** Arrays without dimensions come back as NumPy scalars and NumPy's numbers as Python's; all else inside a
      container comes back as it was. */
  predicate Kept(v: Value) {
    match v
    case Scalar(a) => !a.NumPyInteger? && !a.NumPyNumber?
    case Leaf(a) => a.shape != Some([])
    case List(items) => forall i | 0 <= i < |items| :: Kept(items[i])
    case Dict(members) => forall k | k in members :: Kept(members[k])
  }

  /** On its own, an array without dimensions comes back if and only if it is a byte string. */
  predicate Preserved(v: Value) {
    if v.Leaf? then
      if v.arr.dtype.Bytes? then v.arr.shape != None else v.arr.shape != Some([])
    else Kept(v)
  }

  lemma {:induction false} LoadedIffKept(v: Value)
    ensures Loaded(Plainly(v)) == v <==> Kept(v)
  {
    match v
    case Scalar(_) =>
    case Leaf(_) =>
    case List(items) =>
      var back := Loaded(Plainly(v)).items;
      forall i | 0 <= i < |items| ensures back[i] == items[i] <==> Kept(items[i]) { LoadedIffKept(items[i]); }
      assert Loaded(Plainly(v)) == v <==> forall i :: 0 <= i < |items| ==> back[i] == items[i];
    case Dict(members) =>
      var back := Loaded(Plainly(v)).members;
      forall k | k in members ensures back[k] == members[k] <==> Kept(members[k]) { LoadedIffKept(members[k]); }
      assert Loaded(Plainly(v)) == v <==> forall k :: k in members ==> back[k] == members[k];
  }

  /** The round trip is the identity on exactly the preserved values. */
  lemma RestoredIffPreserved(v: Value)
    ensures Restored(v) == v <==> Preserved(v)
  {
    LoadedIffKept(v);
  }

  /** A list holding one zero-dimensional integer array comes back with a NumPy scalar in its place. */
  lemma ZeroDimensionalArrayIsLost()
    ensures var v := List([Leaf(Array(Integral(8, false), Some([]), [1, 0, 0, 0, 0, 0, 0, 0]))]);
            Accepted(v) && Portable(v) && Restored(v) != v
  {
    var a := Array(Integral(8, false), Some([]), [1, 0, 0, 0, 0, 0, 0, 0]);
    var v := List([Leaf(a)]);
    assert Volume([]) == 1;
    assert Loaded(Plainly(v)).items[0] == Leaf(LoadedArray(a));
  }

  /** A list holding the array `["ab"]` cannot be written, whereas the array on its own can. */
  lemma UnicodeArrayIsRefused(c: Codec)
    ensures var a := Leaf(Array(Unicode(2), Some([1]), [97, 0, 0, 0, 98, 0, 0, 0]));
            && Accepted(a) && Serializable(c, a) && Preserved(a)
            && Accepted(List([a])) && !Serializable(c, List([a]))
  {
    var a := Leaf(Array(Unicode(2), Some([1]), [97, 0, 0, 0, 98, 0, 0, 0]));
    assert [1][..0] == [] && Volume([1]) == Volume([1][..0]) * 1;
    assert StorageOf(List([a]).items[0]) == PureBinary && !Portable(List([a]).items[0]);
  }

  /** Nor can one holding a record with a subarray of unsigned integers. */
  lemma UnsignedSubarrayIsRefused(c: Codec)
    ensures var a := Leaf(Array(Record([Field("a", Integral(1, true), [2])]), None, [1, 2]));
            && Accepted(a) && Serializable(c, a) && Preserved(a)
            && Accepted(List([a])) && !Serializable(c, List([a]))
  {
    var f := Field("a", Integral(1, true), [2]);
    var dt := Record([f]);
    var a := Leaf(Array(dt, None, [1, 2]));
    assert [2][..0] == [] && Volume([2]) == Volume([2][..0]) * 2;
    assert FieldsEnd(dt, 1) == RoundUp(FieldsEnd(dt, 0), 1) + 1 * 2 && FieldsAlignment(dt, 1) == 1;
    assert dt.fields[0] == f && UnsignedSubarray(f);
    assert StorageOf(List([a]).items[0]) == PureBinary && !Portable(List([a]).items[0]);
  }
}
