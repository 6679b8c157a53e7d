/** What the conversions stand for, pair by pair: the buffer itself, or the buffer of a stated value. The statements do
    not depend on the tables of rules, equivalences and chains by which conversions are carried out. */
module ConversionResults {
  import opened Convert
  import opened ConversionMeaning
  import opened ConversionRules
  import opened Prelude

  ghost predicate Succeeds<V>(w: World<V>, m: Sense<V>, s: Celltype, t: Celltype, b: Buffer)
    requires !Deep(s) && !Deep(t)
  {
    exists b' :: Stands(w, m, s, t, b, b')
  }

  /** Every conversion of a valid buffer succeeds exactly if it stands for some buffer, and yields that buffer, the only
      one, under its own checksum. */
  lemma ConversionYields<V(!new)>(w: World<V>, m: Sense<V>, s: Celltype, t: Celltype, b: Buffer)
    requires Fitting(w, m) && Readable(w, b, s) && !Deep(s) && !Deep(t) && !s.ChecksumType?
    ensures Agrees(w, m, s, t, b, ConvertChecksum(w, w.hash(b), s, t, Gives(b)))
    ensures ConvertChecksum(w, w.hash(b), s, t, Gives(b)).result.Done? <==> Succeeds(w, m, s, t, b)
  {
    OrdinaryIsRight(w, m, s, t, b, Lazy(Gives(b), None, 0));
    ChecksumRun(w, s, t, b);
    RightSucceeds(w, m, s, t, b, ConvertOrdinary(w, w.hash(b), s, t, Lazy(Gives(b), None, 0)));
  }

  lemma ChecksumRun<V>(w: World<V>, s: Celltype, t: Celltype, b: Buffer)
    requires !Deep(s) && !Deep(t)
    ensures var r := ConvertChecksum(w, w.hash(b), s, t, Gives(b));
      var ordinary := ConvertOrdinary(w, w.hash(b), s, t, Lazy(Gives(b), None, 0));
      r == ordinary
  {
    if Forbidden(s, t) { ForbiddenRun(w, w.hash(b), s, t, Lazy(Gives(b), None, 0)); }
  }

  lemma ForbiddenRun<V>(w: World<V>, c: Checksum, s: Celltype, t: Celltype, l: Lazy)
    requires !Deep(s) && !Deep(t) && Forbidden(s, t)
    ensures ConvertOrdinary(w, c, s, t, l) == Run(Fail(Refused), l)
  {
    assert s != t && Direct(s, t) by { EveryPairHasOneRule(s, t); }
  }

  lemma RightSucceeds<V>(w: World<V>, m: Sense<V>, s: Celltype, t: Celltype, b: Buffer, r: Run<Converted>)
    requires !Deep(s) && !Deep(t) && Agrees(w, m, s, t, b, r)
    ensures r.result.Done? <==> Succeeds(w, m, s, t, b)
  {
    if r.result.Done? { assert Stands(w, m, s, t, b, ResultOf(r.result.value, b)); }
  }

  /** The buffer stands under the target celltype if the condition holds, or else the conversion fails. */
  ghost predicate KeptIf<V>(w: World<V>, m: Sense<V>, s: Celltype, t: Celltype, b: Buffer, condition: bool)
    requires !Deep(s) && !Deep(t)
  {
    forall b' :: Stands(w, m, s, t, b, b') <==> b' == b && condition
  }

  /** The result is the buffer of `v` as `u`, and reads as `v`; if there is no such buffer, the conversion fails. */
  ghost predicate Yields<V>(w: World<V>, m: Sense<V>, s: Celltype, t: Celltype, b: Buffer, v: V, u: Celltype)
    requires !Deep(s) && !Deep(t)
  {
    && (forall b' :: Stands(w, m, s, t, b, b') <==> Serialized(m, v, u, b'))
    && (forall b' :: Stands(w, m, s, t, b, b') && !Code(u) ==> Read(w, b', u) == Got(m.normal(v, u)))
  }

  predicate Number(t: Celltype) {
    t.Int? || t.Float? || t.Bool?
  }

  ghost predicate Valid<V(!new)>(w: World<V>, m: Sense<V>, s: Celltype, b: Buffer) {
    Fitting(w, m) && Readable(w, b, s)
  }

  lemma SerializedReads<V(!new)>(w: World<V>, m: Sense<V>, v: V, u: Celltype)
    requires Fitting(w, m) && !Code(u)
    ensures forall b' :: Serialized(m, v, u, b') ==> Read(w, b', u) == Got(m.normal(v, u))
  {
    assert SerialAt(w, m, v, u);
  }

  lemma DirectStands<V>(w: World<V>, m: Sense<V>, s: Celltype, t: Celltype, b: Buffer)
    requires !Deep(s) && !Deep(t) && s != t && Direct(s, t) && Readable(w, b, s)
    ensures forall b' :: Stands(w, m, s, t, b, b') <==> StandsDirectly(w, m, s, t, b, b')
  {
  }

  /** A first leg that keeps the buffer if the condition holds. */
  lemma KeptThen<V>(w: World<V>, m: Sense<V>, s: Celltype, t: Celltype, u: Celltype, b: Buffer, condition: bool)
    requires !Deep(s) && !Deep(t) && !Deep(u) && s != t && Equivalent(s, t).None? && Chain(s, t) == Some(u)
    requires KeptIf(w, m, s, u, b, condition)
    ensures forall b' :: Stands(w, m, s, t, b, b') <==> condition && Stands(w, m, u, t, b, b')
  {
    forall b'
      ensures Stands(w, m, s, t, b, b') <==> condition && Stands(w, m, u, t, b, b')
    {
      ChainUnfolds(w, m, s, u, t, b, b');
    }
  }

  // ----- Kept buffers -----

  lemma SubclassRule(s: Celltype, t: Celltype)
    requires !Deep(s) && !s.ChecksumType? && Subclass(s, t) && !Deep(t) && s != t
    requires !((s.Binary? || s.Mixed?) && t.Bytes?) && !(t.Text? && (s.Plain? || s.Str? || Number(s)))
    ensures Chain(s, t).None?
    ensures var (u, v) := if Equivalent(s, t).Some? then Equivalent(s, t).value else (s, t);
      Trivial(u, v) && u != v && Direct(u, v) && Subclass(s, u) && !Deep(u) && !Deep(v)
  {
  }

  /** A superclass keeps the buffer, but for strings that become text and byte arrays that become bytes. */
  lemma SubclassIsKept<V(!new)>(w: World<V>, m: Sense<V>, s: Celltype, t: Celltype, b: Buffer)
    requires Valid(w, m, s, b) && !Deep(s) && !s.ChecksumType? && Subclass(s, t) && !Deep(t)
    requires !((s.Binary? || s.Mixed?) && t.Bytes?) && !(t.Text? && (s.Plain? || s.Str? || Number(s)))
    ensures KeptIf(w, m, s, t, b, true)
  {
    if s != t {
      SubclassRule(s, t);
      var (u, v) := if Equivalent(s, t).Some? then Equivalent(s, t).value else (s, t);
      assert ClassesAt(w, b, s, u);
      DirectStands(w, m, u, v, b);
    }
  }

  predicate Narrows(s: Celltype, t: Celltype) {
    || (s.Bytes? && (t.Text? || t.Plain?)) || (s.Text? && Code(t)) || (s.Mixed? && (t.Binary? || t.Plain?))
    || (s.Plain? && (t.Str? || Number(t))) || (s.Str? && Number(t))
  }

  /** A subclass keeps the buffer as well, if it can be read. */
  lemma SuperclassIsRead<V(!new)>(w: World<V>, m: Sense<V>, s: Celltype, t: Celltype, b: Buffer)
    requires Readable(w, b, s) && Narrows(s, t)
    ensures KeptIf(w, m, s, t, b, Readable(w, b, t))
  {
    assert Reinterpret(s, t) && Direct(s, t) && !Trivial(s, t) && !Forbidden(s, t);
    DirectStands(w, m, s, t, b);
  }

  /** Bytes that are to be a scalar or code must be a document or a text first. */
  lemma BytesAreRead<V(!new)>(w: World<V>, m: Sense<V>, t: Celltype, b: Buffer)
    requires Readable(w, b, Bytes) && (t.Str? || Number(t) || Code(t))
    ensures KeptIf(w, m, Bytes, t, b, Readable(w, b, if Code(t) then Text else Plain) && Readable(w, b, t))
  {
    var mid := if Code(t) then Text else Plain;
    SuperclassIsRead(w, m, Bytes, mid, b);
    KeptThen(w, m, Bytes, t, mid, b, Readable(w, b, mid));
    if Readable(w, b, mid) { SuperclassIsRead(w, m, mid, t, b); }
  }

  /** Neither documents, when they become YAML, nor Python, when it becomes IPython, are parsed again. */
  lemma PythonIsIPython<V>(w: World<V>, m: Sense<V>, b: Buffer)
    requires Readable(w, b, Python)
    ensures KeptIf(w, m, Python, IPython, b, true)
  {
    DirectStands(w, m, Python, IPython, b);
  }

  lemma DocumentIsYaml<V(!new)>(w: World<V>, m: Sense<V>, s: Celltype, b: Buffer)
    requires Valid(w, m, s, b) && (s.Plain? || Number(s))
    ensures KeptIf(w, m, s, Yaml, b, true)
  {
    assert ClassesAt(w, b, s, Plain);
    DirectStands(w, m, Plain, Yaml, b);
    if Number(s) {
      SubclassIsKept(w, m, s, Plain, b);
      KeptThen(w, m, s, Yaml, Plain, b, true);
    }
  }

  // ----- Texts and strings -----

  /** A text, code as well, becomes a string of the same characters, even if it is a JSON document. */
  lemma TextBecomesString<V(!new)>(w: World<V>, m: Sense<V>, s: Celltype, t: Celltype, b: Buffer)
    requires Valid(w, m, s, b)
    requires ((s.Text? || Code(s)) && (t.Str? || t.Mixed?)) || ((s.Python? || s.IPython?) && t.Plain?)
    ensures Readable(w, b, Text) && Yields(w, m, s, t, b, ReadValue(w, b, Text), Str)
  {
    assert ClassesAt(w, b, s, Text);
    DirectStands(w, m, Text, Str, b);
    SerializedReads(w, m, ReadValue(w, b, Text), Str);
  }

  /** A string becomes a text, or code, of the same characters. */
  lemma StringBecomesText<V(!new)>(w: World<V>, m: Sense<V>, t: Celltype, b: Buffer)
    requires Valid(w, m, Str, b) && (t.Text? || Code(t))
    ensures Yields(w, m, Str, t, b, ReadValue(w, b, Str), Text)
  {
    DirectStands(w, m, Str, Text, b);
    SerializedReads(w, m, ReadValue(w, b, Str), Text);
  }

  /** A JSON document becomes the text of its string if it is one; otherwise the document itself is the text. */
  lemma DocumentBecomesText<V(!new)>(w: World<V>, m: Sense<V>, s: Celltype, b: Buffer)
    requires Valid(w, m, s, b) && (s.Plain? || Number(s))
    ensures Readable(w, b, Plain)
    ensures var v := ReadValue(w, b, Plain);
      if w.isString(v) then Yields(w, m, s, Text, b, v, Text) else KeptIf(w, m, s, Text, b, true)
  {
    assert ClassesAt(w, b, s, Plain);
    DirectStands(w, m, Plain, Text, b);
    SerializedReads(w, m, ReadValue(w, b, Plain), Text);
  }

  /** A text becomes the canonical document of the JSON that it holds, or else of the text as a string. */
  lemma TextBecomesDocument<V(!new)>(w: World<V>, m: Sense<V>, b: Buffer)
    requires Valid(w, m, Text, b)
    ensures Yields(w, m, Text, Plain, b, ReadValue(w, b, if Readable(w, b, Plain) then Plain else Text), Plain)
  {
    assert JsonAt(w, b);
    DirectStands(w, m, Text, Plain, b);
    SerializedReads(w, m, w.readJson(ReadValue(w, b, Text)), Plain);
  }

  /** From a document to text and back: the canonical document of its value, unless that is a string whose text holds
      another JSON document. */
  lemma DocumentTextDocument<V(!new)>(w: World<V>, m: Sense<V>, b: Buffer, text: Buffer, b': Buffer)
    requires Valid(w, m, Plain, b) && Stands(w, m, Plain, Text, b, text) && Stands(w, m, Text, Plain, text, b')
    ensures Readable(w, text, Text)
    ensures var v := ReadValue(w, b, Plain);
      if !w.isString(v) then Serialized(m, v, Plain, b') && Read(w, b', Plain) == Got(m.normal(v, Plain))
      else
        var u := m.normal(v, Text);
        && Read(w, text, Text) == Got(u)
        && Serialized(m, if Readable(w, text, Plain) then ReadValue(w, text, Plain) else u, Plain, b')
  {
    ResultIsReadable(w, m, Plain, Text, b, text);
    DocumentBecomesText(w, m, Plain, b);
    TextBecomesDocument(w, m, text);
  }

  // ----- Storage -----

  /** An npy buffer is binary as it is; any other bytes become a byte array. */
  lemma BytesBecomeBinary<V(!new)>(w: World<V>, m: Sense<V>, b: Buffer)
    requires Valid(w, m, Bytes, b)
    ensures
      if w.isNpy(b) && Readable(w, b, Binary) then KeptIf(w, m, Bytes, Binary, b, true)
      else Yields(w, m, Bytes, Binary, b, m.wrap(b), Binary)
  {
    DirectStands(w, m, Bytes, Binary, b);
    SerializedReads(w, m, m.wrap(b), Binary);
  }

  /** What reads as mixed is mixed as it is; other texts become strings, and other bytes become byte arrays. */
  lemma BytesBecomeMixed<V(!new)>(w: World<V>, m: Sense<V>, b: Buffer)
    requires Valid(w, m, Bytes, b)
    ensures
      if Readable(w, b, Mixed) then KeptIf(w, m, Bytes, Mixed, b, true)
      else if Readable(w, b, Text) then Yields(w, m, Bytes, Mixed, b, ReadValue(w, b, Text), Str)
      else Yields(w, m, Bytes, Mixed, b, m.wrap(b), Binary)
  {
    DirectStands(w, m, Bytes, Mixed, b);
    SerializedReads(w, m, m.wrap(b), Binary);
    if Readable(w, b, Text) { SerializedReads(w, m, ReadValue(w, b, Text), Str); }
  }

  /** A byte array becomes its bytes; all other values keep their buffers. */
  lemma StorageBecomesBytes<V(!new)>(w: World<V>, m: Sense<V>, s: Celltype, b: Buffer)
    requires Valid(w, m, s, b) && (s.Binary? || s.Mixed?)
    ensures
      var v := ReadValue(w, b, s);
      if (s.Binary? || w.isNpy(b)) && w.isByteArray(v) then Yields(w, m, s, Bytes, b, m.raw(v), Bytes)
      else KeptIf(w, m, s, Bytes, b, true)
  {
    DirectStands(w, m, s, Bytes, b);
    SerializedReads(w, m, m.raw(ReadValue(w, b, s)), Bytes);
  }

  // ----- Changed values -----

  /** The result is the buffer of what the rule from `u` to `t` makes of `v`, if it makes anything of it. */
  ghost predicate YieldsCast<V>(w: World<V>, m: Sense<V>, s: Celltype, t: Celltype, b: Buffer, v: V, u: Celltype)
    requires !Deep(s) && !Deep(t)
  {
    if m.cast(v, u, t).Got? then Yields(w, m, s, t, b, m.cast(v, u, t).value, t) else KeptIf(w, m, s, t, b, false)
  }

  predicate Casts(s: Celltype, t: Celltype) {
    || ((s.Binary? || s.Mixed?) && Number(t)) || (s.Mixed? && t.Str?)
    || (s.Binary? && t.Plain?) || (s.Plain? && t.Binary?)
    || (s.Bool? && (t.Int? || t.Float?)) || ((s.Int? || s.Float?) && t.Bool?)
    || (s.Yaml? && t.Plain?) || (s.IPython? && t.Python?)
  }

  lemma CastStands<V>(w: World<V>, m: Sense<V>, s: Celltype, t: Celltype, b: Buffer)
    requires Casts(s, t) && Readable(w, b, s)
    ensures var cast := m.cast(ReadValue(w, b, s), s, t);
      forall b' :: Stands(w, m, s, t, b, b') <==> cast.Got? && Serialized(m, cast.value, t, b')
  {
    CastRule(s, t);
    DirectStands(w, m, s, t, b);
  }

  lemma CastRule(s: Celltype, t: Celltype)
    requires Casts(s, t)
    ensures !Deep(s) && !Deep(t) && s != t && Direct(s, t)
    ensures !Forbidden(s, t) && !Trivial(s, t) && !Reinterpret(s, t) && !t.ChecksumType?
  {
    EveryPairHasOneRule(s, t);
  }

  lemma ValueIsCast<V(!new)>(w: World<V>, m: Sense<V>, s: Celltype, t: Celltype, b: Buffer)
    requires Valid(w, m, s, b) && Casts(s, t)
    ensures YieldsCast(w, m, s, t, b, ReadValue(w, b, s), s)
  {
    CastStands(w, m, s, t, b);
    var cast := m.cast(ReadValue(w, b, s), s, t);
    if cast.Got? && !Code(t) { SerializedReads(w, m, cast.value, t); }
  }

  /** A scalar becomes the array of its plain value. */
  lemma ScalarBecomesArray<V(!new)>(w: World<V>, m: Sense<V>, s: Celltype, b: Buffer)
    requires Valid(w, m, s, b) && (s.Str? || Number(s))
    ensures Readable(w, b, Plain) && YieldsCast(w, m, s, Binary, b, ReadValue(w, b, Plain), Plain)
  {
    assert ClassesAt(w, b, s, Plain);
    ValueIsCast(w, m, Plain, Binary, b);
  }

  // ----- Two conversions in a row -----

  /** Converting from `s` to `t` is converting to `u` and then to `t`. */
  ghost predicate Through<V>(w: World<V>, m: Sense<V>, s: Celltype, u: Celltype, t: Celltype, b: Buffer)
    requires !Deep(s) && !Deep(t) && !Deep(u)
  {
    forall b' :: Stands(w, m, s, t, b, b') <==> exists mid :: Stands(w, m, s, u, b, mid) && Stands(w, m, u, t, mid, b')
  }

  predicate GoesThrough(s: Celltype, u: Celltype, t: Celltype) {
    || (u.Plain? && (s.Mixed? || s.Binary?) && t.Text?)
    || (u.Text? && (s.Mixed? || s.Binary?) && Code(t))
    || (u.Text? && s.Plain? && Code(t) && !t.Yaml?)
    || (u.Plain? && (s.Text? || s.Yaml?) && Number(t))
    || (u.Plain? && s.Yaml? && t.Binary?)
    || (u.Bytes? && s.Binary? && t.Str?)
    || (u.Mixed? && (s.Text? || s.Python? || s.IPython?) && t.Binary?)
  }

  /** Stored values reach text as documents and code as texts; texts and YAML reach numbers as documents; an array
      reaches a string by its bytes, and a text becomes an array only as a mixed value. */
  lemma ConvertsThrough<V>(w: World<V>, m: Sense<V>, s: Celltype, u: Celltype, t: Celltype, b: Buffer)
    requires GoesThrough(s, u, t)
    ensures Through(w, m, s, u, t, b)
  {
    if s.Python? || s.IPython? {
      ChainStands(w, m, Text, u, t, b);
      assert forall b' :: Stands(w, m, s, t, b, b') <==> Stands(w, m, Text, t, b, b');
      assert forall b' :: Stands(w, m, s, u, b, b') <==> Stands(w, m, Text, u, b, b');
    } else {
      ChainRule(s, u, t);
      ChainStands(w, m, s, u, t, b);
    }
  }

  lemma ChainRule(s: Celltype, u: Celltype, t: Celltype)
    requires GoesThrough(s, u, t) && !s.Python? && !s.IPython?
    ensures s != t && Equivalent(s, t).None? && Chain(s, t) == Some(u)
  {
  }

  lemma ChainStands<V>(w: World<V>, m: Sense<V>, s: Celltype, u: Celltype, t: Celltype, b: Buffer)
    requires !Deep(s) && !Deep(t) && !Deep(u) && s != t && Equivalent(s, t).None? && Chain(s, t) == Some(u)
    ensures Through(w, m, s, u, t, b)
  {
    forall b'
      ensures Stands(w, m, s, t, b, b') <==> exists mid :: Stands(w, m, s, u, b, mid) && Stands(w, m, u, t, mid, b')
    {
      ChainUnfolds(w, m, s, u, t, b, b');
    }
  }

  // ----- Conversions that do not exist -----

  predicate Unrelated(s: Celltype, t: Celltype) {
    || ((s.Python? || s.IPython?) && (t.Yaml? || Number(t)))
    || ((s.Yaml? || Number(s)) && (t.Python? || t.IPython?))
  }

  lemma UnrelatedFails<V>(w: World<V>, m: Sense<V>, s: Celltype, t: Celltype, b: Buffer)
    requires Unrelated(s, t)
    ensures KeptIf(w, m, s, t, b, false)
  {
  }

  /** The statements above cover every pair of different celltypes but those with checksums. */
  lemma EveryPairIsStated(s: Celltype, t: Celltype)
    requires !Deep(s) && !Deep(t) && !s.ChecksumType? && !t.ChecksumType? && s != t
    ensures Guaranteed(s, t) || Narrows(s, t) || Casts(s, t) || Unrelated(s, t) || (exists u :: GoesThrough(s, u, t))
      || (s.Bytes? && (t.Str? || Number(t) || Code(t))) || ((s.Str? || Number(s)) && t.Binary?)
  {
    if (s.Mixed? || s.Binary?) && t.Text? { assert GoesThrough(s, Plain, t); }
    if (s.Mixed? || s.Binary? || s.Plain?) && Code(t) && !(s.Plain? && t.Yaml?) { assert GoesThrough(s, Text, t); }
    if (s.Text? || s.Yaml?) && Number(t) { assert GoesThrough(s, Plain, t); }
    if s.Yaml? && t.Binary? { assert GoesThrough(s, Plain, t); }
    if s.Binary? && t.Str? { assert GoesThrough(s, Bytes, t); }
    if (s.Text? || s.Python? || s.IPython?) && t.Binary? { assert GoesThrough(s, Mixed, t); }
  }

  // ----- Conversions that always succeed -----

  /** Serializers accept every value that a guaranteed conversion gives them. */
  ghost predicate SerializesAt<V>(w: World<V>, m: Sense<V>, b: Buffer) {
    && m.serial(m.wrap(b), Binary).Got?
    && (Readable(w, b, Text) ==>
          m.serial(ReadValue(w, b, Text), Str).Got? && m.serial(w.readJson(ReadValue(w, b, Text)), Plain).Got?)
    && (Readable(w, b, Str) ==> m.serial(ReadValue(w, b, Str), Text).Got?)
    && (Readable(w, b, Plain) && w.isString(ReadValue(w, b, Plain)) ==> m.serial(ReadValue(w, b, Plain), Text).Got?)
    && (Readable(w, b, Binary) && w.isByteArray(ReadValue(w, b, Binary)) ==>
          m.serial(m.raw(ReadValue(w, b, Binary)), Bytes).Got?)
    && (Readable(w, b, IPython) ==>
          var python := m.cast(ReadValue(w, b, IPython), IPython, Python);
          python.Got? && m.serial(python.value, Python).Got?)
  }

  /** Superclasses, texts and documents as each other, bytes as stored values, and checksums. */
  predicate Guaranteed(s: Celltype, t: Celltype) {
    || Subclass(s, t) || t.ChecksumType? || (s.Bytes? && (t.Binary? || t.Mixed?))
    || ((s.Text? || Code(s)) && (t.Str? || t.Mixed?)) || ((s.Text? || s.Python? || s.IPython?) && t.Plain?)
    || (s.Str? && (t.Text? || Code(t))) || ((s.Plain? || Number(s)) && (t.Yaml? || t.Text?))
    || (s.Python? && t.IPython?) || (s.IPython? && t.Python?)
  }

  lemma KeptSucceeds<V>(w: World<V>, m: Sense<V>, s: Celltype, t: Celltype, b: Buffer)
    requires !Deep(s) && !Deep(t) && KeptIf(w, m, s, t, b, true)
    ensures Succeeds(w, m, s, t, b)
  {
    assert Stands(w, m, s, t, b, b);
  }

  lemma YieldedSucceeds<V>(w: World<V>, m: Sense<V>, s: Celltype, t: Celltype, b: Buffer, v: V, u: Celltype)
    requires !Deep(s) && !Deep(t) && Yields(w, m, s, t, b, v, u) && m.serial(v, u).Got?
    ensures Succeeds(w, m, s, t, b)
  {
    assert Serialized(m, v, u, m.serial(v, u).value);
  }

  lemma ArraysAreGuaranteed<V(!new)>(w: World<V>, m: Sense<V>, b: Buffer)
    requires Valid(w, m, Bytes, b) && SerializesAt(w, m, b)
    ensures Succeeds(w, m, Bytes, Binary, b)
  {
    BytesBecomeBinary(w, m, b);
    if w.isNpy(b) && Readable(w, b, Binary) {
      KeptSucceeds(w, m, Bytes, Binary, b);
    } else {
      YieldedSucceeds(w, m, Bytes, Binary, b, m.wrap(b), Binary);
    }
  }

  lemma BytesAreGuaranteed<V(!new)>(w: World<V>, m: Sense<V>, b: Buffer)
    requires Valid(w, m, Bytes, b) && SerializesAt(w, m, b)
    ensures Succeeds(w, m, Bytes, Mixed, b)
  {
    BytesBecomeMixed(w, m, b);
    if Readable(w, b, Mixed) {
      KeptSucceeds(w, m, Bytes, Mixed, b);
    } else if Readable(w, b, Text) {
      YieldedSucceeds(w, m, Bytes, Mixed, b, ReadValue(w, b, Text), Str);
    } else {
      YieldedSucceeds(w, m, Bytes, Mixed, b, m.wrap(b), Binary);
    }
  }

  lemma StorageIsGuaranteed<V(!new)>(w: World<V>, m: Sense<V>, s: Celltype, b: Buffer)
    requires Valid(w, m, s, b) && (s.Binary? || s.Mixed?) && SerializesAt(w, m, b)
    ensures Succeeds(w, m, s, Bytes, b)
  {
    assert StorageAt(w, b);
    StorageBecomesBytes(w, m, s, b);
    var v := ReadValue(w, b, s);
    if (s.Binary? || w.isNpy(b)) && w.isByteArray(v) {
      YieldedSucceeds(w, m, s, Bytes, b, m.raw(v), Bytes);
    } else {
      KeptSucceeds(w, m, s, Bytes, b);
    }
  }

  lemma TextIsGuaranteed<V(!new)>(w: World<V>, m: Sense<V>, s: Celltype, t: Celltype, b: Buffer)
    requires Valid(w, m, s, b) && SerializesAt(w, m, b)
    requires ((s.Text? || Code(s)) && (t.Str? || t.Mixed?)) || ((s.Text? || s.Python? || s.IPython?) && t.Plain?)
    ensures Succeeds(w, m, s, t, b)
  {
    if s.Text? && t.Plain? {
      assert JsonAt(w, b);
      TextBecomesDocument(w, m, b);
      YieldedSucceeds(w, m, s, t, b, w.readJson(ReadValue(w, b, Text)), Plain);
    } else {
      TextBecomesString(w, m, s, t, b);
      YieldedSucceeds(w, m, s, t, b, ReadValue(w, b, Text), Str);
    }
  }

  lemma CodeIsGuaranteed<V(!new)>(w: World<V>, m: Sense<V>, b: Buffer)
    requires Fitting(w, m) && SerializesAt(w, m, b)
    ensures Readable(w, b, Python) ==> Succeeds(w, m, Python, IPython, b)
    ensures Readable(w, b, IPython) ==> Succeeds(w, m, IPython, Python, b)
  {
    if Readable(w, b, Python) {
      PythonIsIPython(w, m, b);
      KeptSucceeds(w, m, Python, IPython, b);
    }
    if Readable(w, b, IPython) {
      ValueIsCast(w, m, IPython, Python, b);
      YieldedSucceeds(w, m, IPython, Python, b, m.cast(ReadValue(w, b, IPython), IPython, Python).value, Python);
    }
  }

  lemma DocumentIsGuaranteed<V(!new)>(w: World<V>, m: Sense<V>, s: Celltype, t: Celltype, b: Buffer)
    requires Valid(w, m, s, b) && SerializesAt(w, m, b)
    requires (s.Str? && (t.Text? || Code(t))) || ((s.Plain? || Number(s)) && (t.Yaml? || t.Text?))
    ensures Succeeds(w, m, s, t, b)
  {
    if s.Str? {
      StringBecomesText(w, m, t, b);
      YieldedSucceeds(w, m, s, t, b, ReadValue(w, b, Str), Text);
    } else if t.Yaml? {
      DocumentIsYaml(w, m, s, b);
      KeptSucceeds(w, m, s, t, b);
    } else {
      DocumentBecomesText(w, m, s, b);
      var v := ReadValue(w, b, Plain);
      if w.isString(v) { YieldedSucceeds(w, m, s, t, b, v, Text); } else { KeptSucceeds(w, m, s, t, b); }
    }
  }

  lemma GuaranteedStands<V(!new)>(w: World<V>, m: Sense<V>, s: Celltype, t: Celltype, b: Buffer)
    requires Valid(w, m, s, b) && !Deep(s) && !s.ChecksumType? && !Deep(t) && Guaranteed(s, t) && SerializesAt(w, m, b)
    ensures Succeeds(w, m, s, t, b)
  {
    if t.ChecksumType? {
      ChecksumRules(s);
      DirectStands(w, m, s, t, b);
      assert StandsDirectly(w, m, s, t, b, Buffer(w.hash(b).hex));
    } else if s.Bytes? && t.Binary? {
      ArraysAreGuaranteed(w, m, b);
    } else if s.Bytes? && t.Mixed? {
      BytesAreGuaranteed(w, m, b);
    } else if (s.Binary? || s.Mixed?) && t.Bytes? {
      StorageIsGuaranteed(w, m, s, b);
    } else if (s.Text? || Code(s)) && (t.Str? || t.Mixed? || (t.Plain? && !s.Yaml?)) {
      TextIsGuaranteed(w, m, s, t, b);
    } else if (s.Str? && (t.Text? || Code(t))) || ((s.Plain? || Number(s)) && (t.Yaml? || t.Text?)) {
      DocumentIsGuaranteed(w, m, s, t, b);
    } else if Subclass(s, t) {
      SubclassIsKept(w, m, s, t, b);
      KeptSucceeds(w, m, s, t, b);
    } else {
      CodeIsGuaranteed(w, m, b);
    }
  }

  /** What the table calls guaranteed does succeed for every valid source, with the exception of YAML to plain. */
  lemma GuaranteedSucceeds<V(!new)>(w: World<V>, m: Sense<V>, s: Celltype, t: Celltype, b: Buffer)
    requires Valid(w, m, s, b) && !Deep(s) && !s.ChecksumType? && !Deep(t) && Guaranteed(s, t) && SerializesAt(w, m, b)
    ensures ConvertChecksum(w, w.hash(b), s, t, Gives(b)).result.Done?
  {
    GuaranteedStands(w, m, s, t, b);
    ConversionYields(w, m, s, t, b);
  }

  // ----- Checksums -----

  lemma ChecksumRules(t: Celltype)
    requires !Deep(t) && !t.ChecksumType?
    ensures Direct(t, ChecksumType) && Direct(ChecksumType, t) && Values(t, ChecksumType) && Values(ChecksumType, t)
    ensures Categories(t, ChecksumType) == 1 && Categories(ChecksumType, t) == 1
  {
    EveryPairHasOneRule(t, ChecksumType);
    EveryPairHasOneRule(ChecksumType, t);
  }

  /** What a checksum cell says by its digits is what it is converted to. */
  lemma ChecksumIsFollowed<V>(w: World<V>, t: Celltype, digits: Buffer, c: Checksum)
    requires !Deep(t) && !t.ChecksumType? && KnowsAt(w, digits, ChecksumType) && Readable(w, digits, ChecksumType)
    requires w.dereference(ReadValue(w, digits, ChecksumType)) == Got(c)
    ensures ConvertChecksum(w, w.hash(digits), ChecksumType, t, Gives(digits)).result == Done((c, None))
  {
    var l := Lazy(Gives(digits), None, 0);
    ChecksumRules(t);
    ValueIsRead(w, digits, ChecksumType, l);
    assert ApplyRule(w, w.hash(digits), ChecksumType, t, l) == ConvertValues(w, w.hash(digits), ChecksumType, t, l);
  }

  lemma ChecksumIsStated<V>(w: World<V>, s: Celltype, b: Buffer)
    requires !Deep(s) && !s.ChecksumType?
    ensures var digits := Buffer(w.hash(b).hex);
      ConvertChecksum(w, w.hash(b), s, ChecksumType, Gives(b)).result == Done((w.hash(digits), Some(digits)))
  {
    var l := Lazy(Gives(b), None, 0);
    ChecksumRules(s);
    assert ApplyRule(w, w.hash(b), s, ChecksumType, l) == ConvertValues(w, w.hash(b), s, ChecksumType, l);
  }

  /** A checksum cell of any buffer refers back to that buffer, whatever it is then converted to. */
  lemma ChecksumRefersBack<V(!new)>(w: World<V>, m: Sense<V>, s: Celltype, t: Celltype, b: Buffer)
    requires Fitting(w, m) && !Deep(s) && !Deep(t) && !s.ChecksumType? && !t.ChecksumType?
    ensures var digits := Buffer(w.hash(b).hex);
      && ConvertChecksum(w, w.hash(b), s, ChecksumType, Gives(b)).result == Done((w.hash(digits), Some(digits)))
      && ConvertChecksum(w, w.hash(digits), ChecksumType, t, Gives(digits)).result == Done((w.hash(b), None))
  {
    var digits := Buffer(w.hash(b).hex);
    assert DigestAt(w, b) && KnowsAt(w, digits, ChecksumType);
    ChecksumIsStated(w, s, b);
    ChecksumIsFollowed(w, t, digits, w.hash(b));
  }

  // ----- Deep celltypes -----

  /** Deep celltypes convert only among each other and to plain, by keeping their index; only an empty folder becomes
      mixed. The null value is kept where a conversion exists. */
  lemma DeepConversions<V(!new)>(w: World<V>, s: Celltype, t: Celltype, b: Buffer)
    requires Deep(s) || Deep(t)
    ensures var r := ConvertChecksum(w, w.hash(b), s, t, Gives(b)).result;
      if s == t || (s, t) in
          {(DeepCell, Plain), (DeepFolder, Plain), (Folder, DeepFolder), (DeepFolder, Folder), (DeepCell, DeepFolder)}
      then r == Done((w.hash(b), None))
      else if (s, t) != (Folder, Mixed) then r == Fail(Refused)
      else if w.isNull(w.hash(b)) then r == Done((w.hash(b), None))
      else if Readable(w, b, Plain) && w.isEmpty(ReadValue(w, b, Plain)) && w.emptyMixed.Got?
      then r == Done((w.hash(w.emptyMixed.value), Some(w.emptyMixed.value)))
      else r.Fail?
  {
  }
}
