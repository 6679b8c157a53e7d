/** A world whose parts fit together and accept what they admit: a buffer that starts with an A is a byte array, any
    other is a text, and a number as well if it is not empty; the only valid code is `pass`. It shows that the
    assumptions about conversions can be met, and that strings and documents become code without being parsed. */
module ConversionWitness {
  import opened Convert
  import opened ConversionMeaning
  import opened ConversionResults
  import opened ConversionRules
  import opened HashTypes
  import opened Predictions
  import opened Prelude

  predicate Marked(content: string) {
    content != "" && content[0] == 'A'
  }

  predicate Holds(content: string, t: Celltype) {
    if t.Bytes? then true
    else if t.Binary? then Marked(content)
    else if t.Mixed? then content != ""
    else if Code(t) then content == "pass"
    else if t.Text? || t.ChecksumType? then !Marked(content)
    else !t.Bool? && !Deep(t) && content != "" && !Marked(content)
  }

  /** The content of a buffer that holds `v`, or else a stand-in. */
  function Spelled(v: string, t: Celltype): string {
    if Holds(v, t) || Code(t) then v else if t.Binary? then "A" + v else "0"
  }

  function Serial(v: string, t: Celltype): Attempt<Buffer> {
    if t.Bool? || Deep(t) then ValueError else Got(Buffer(Spelled(v, t)))
  }

  function Contents(): World<string> {
    World(
      (b: Buffer) => Checksum("H" + b.content),
      _ => false,
      (_, _) => Got(None),
      (_, _, _) => Got(false),
      (_, _) => false,
      _ => true,
      (b: Buffer, _, t) => if Holds(b.content, t) then Got(b.content) else ValueError,
      (v, _, t) => Serial(v, t),
      _ => true,
      v => Marked(v),
      (b: Buffer) => Marked(b.content),
      v => v,
      (b: Buffer) => Serial("A" + b.content, Binary),
      (b: Buffer) => Serial(b.content, Str),
      v => Got(Checksum(v)),
      v => v == "",
      Got(Buffer("{}")))
  }

  function Sensible(): Sense<string> {
    Sense(Serial, Spelled, (v, _, _) => Got(v), v => v, (b: Buffer) => "A" + b.content)
  }

  function Described(b: Buffer): Content {
    Content(64,
            if Marked(b.content) then NpyFormat(Some((NonNumeric, Scalar, true)))
            else TextFormat(if b.content == "" then None else Some(JNumber)))
  }

  function Shaped(v: string): Shape {
    if Marked(v) then ArrayShape(NonNumeric, Scalar) else if v == "" then OtherShape else ScalarShape(true)
  }

  function Unremarkable(c: Checksum): Class {
    Ordinary
  }

  lemma ReadingFits()
    ensures forall b, t :: KnowsAt(Contents(), b, t)
    ensures forall b :: StorageAt(Contents(), b)
    ensures forall b, s, t :: ClassesAt(Contents(), b, s, t)
    ensures forall b :: JsonAt(Contents(), b)
    ensures forall b :: DigestAt(Contents(), b)
  {
    assert forall b, t, loaded :: KnownAt(Contents(), b, t, loaded);
  }

  lemma WritingFits()
    ensures forall v, t :: SerialAt(Contents(), Sensible(), v, t)
    ensures forall v, s, t :: MakesAt(Contents(), Sensible(), v, s, t)
    ensures forall b :: WrapsAt(Contents(), Sensible(), b)
  {
  }

  lemma FittingWorldExists()
    ensures Fitting(Contents(), Sensible())
  {
    ReadingFits();
    WritingFits();
    forall a, b | Contents().hash(a) == Contents().hash(b)
      ensures a == b
    {
      assert a.content == ("H" + a.content)[1..] && b.content == ("H" + b.content)[1..];
    }
  }

  lemma PartsAccept()
    ensures forall b :: SerializesAt(Contents(), Sensible(), b)
    ensures forall b, t :: ReadsAt(Contents(), Described, Unremarkable, Shaped, b, t)
    ensures forall v, s, t :: CastsAt(Sensible(), Shaped, v, s, t)
  {
  }

  lemma AcceptingWorldExists()
    ensures Accepting(Contents(), Sensible(), Described, Unremarkable, Shaped)
  {
    FittingWorldExists();
    PartsAccept();
  }

  /** In this world any string or document becomes code that cannot be read as such. */
  lemma CodeIsNotParsed(s: Celltype, t: Celltype, content: string)
    requires content !in {"", "pass"} && !Marked(content)
    requires (s.Str? && Code(t)) || ((s.Plain? || s.Int? || s.Float?) && t.Yaml?)
    ensures Readable(Contents(), Buffer(content), s)
    ensures forall b' :: Stands(Contents(), Sensible(), s, t, Buffer(content), b') <==> b' == Buffer(content)
    ensures !Readable(Contents(), Buffer(content), t)
  {
    var w, m, b := Contents(), Sensible(), Buffer(content);
    FittingWorldExists();
    if s.Str? { StringBecomesText(w, m, t, b); } else { DocumentIsYaml(w, m, s, b); }
  }
}
