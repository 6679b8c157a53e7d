/** The table of celltype conversion rules (`checksum/conversion.py`). */
module ConversionRules {
  import opened Prelude

  datatype Celltype =
    | Binary | Mixed | Text | Python | IPython | Plain | Yaml | Str | Bytes | Int | Float | Bool | ChecksumType
    | DeepCell | DeepFolder | Folder

  predicate Deep(t: Celltype) {
    t.DeepCell? || t.DeepFolder? || t.Folder?
  }

  predicate Trivial(s: Celltype, t: Celltype) {
    match s
    case Text => t.Bytes?
    case IPython => t.Text?
    case Python => t.Text? || t.IPython?
    case Yaml => t.Text?
    case Plain => t.Yaml? || t.Bytes? || t.Mixed?
    case Binary => t.Mixed?
    case Str => t.Plain?
    case Int => t.Plain? || t.Float? || t.Str?
    case Float => t.Plain? || t.Int? || t.Str?
    case Bool => t.Plain? || t.Str?
    case _ => false
  }

  /** The reverse of a trivial conversion, unless that is trivial itself or has a rule of its own. */
  predicate Reinterpret(s: Celltype, t: Celltype) {
    Trivial(t, s) && !Trivial(s, t) && !(s.IPython? && t.Python?) && !(s.Yaml? && t.Plain?)
  }

  predicate Reformat(s: Celltype, t: Celltype) {
    match s
    case Bytes => t.Binary? || t.Mixed?
    case Binary => t.Bytes?
    case Mixed => t.Bytes?
    case Plain => t.Text?
    case Text => t.Plain? || t.Str?
    case Str => t.Text?
    case Yaml => t.Plain?
    case IPython => t.Python?
    case _ => false
  }

  predicate Possible(s: Celltype, t: Celltype) {
    match s
    case Binary => t.Int? || t.Float? || t.Bool?
    case Mixed => t.Str? || t.Int? || t.Float? || t.Bool?
    case _ => false
  }

  function Equivalent(s: Celltype, t: Celltype): Option<(Celltype, Celltype)> {
    match (s, t)
    case (Yaml, Str) => Some((Text, Str))
    case (Text, Mixed) => Some((Text, Str))
    case (Yaml, Mixed) => Some((Text, Str))
    case (Python, Str) => Some((Text, Str))
    case (IPython, Str) => Some((Text, Str))
    case (Python, Mixed) => Some((Text, Str))
    case (IPython, Mixed) => Some((Text, Str))
    case (Python, Plain) => Some((Text, Str))
    case (IPython, Plain) => Some((Text, Str))
    case (Str, Yaml) => Some((Str, Text))
    case (Str, Python) => Some((Str, Text))
    case (Str, IPython) => Some((Str, Text))
    case (Python, Bytes) => Some((Python, Text))
    case (IPython, Bytes) => Some((IPython, Text))
    case (Str, Mixed) => Some((Str, Plain))
    case (Int, Mixed) => Some((Int, Plain))
    case (Float, Mixed) => Some((Float, Plain))
    case (Bool, Mixed) => Some((Bool, Plain))
    case (Str, Binary) => Some((Plain, Binary))
    case (Float, Binary) => Some((Plain, Binary))
    case (Int, Binary) => Some((Plain, Binary))
    case (Bool, Binary) => Some((Plain, Binary))
    case (Python, Binary) => Some((Text, Binary))
    case (IPython, Binary) => Some((Text, Binary))
    case (Yaml, Bytes) => Some((Text, Bytes))
    case (Str, Bytes) => Some((Plain, Bytes))
    case (Int, Bytes) => Some((Plain, Bytes))
    case (Float, Bytes) => Some((Plain, Bytes))
    case (Bool, Bytes) => Some((Plain, Bytes))
    case (Int, Text) => Some((Plain, Text))
    case (Float, Text) => Some((Plain, Text))
    case (Bool, Text) => Some((Plain, Text))
    case _ => None
  }

  /** The celltype in between, for conversions in two legs. */
  function Chain(s: Celltype, t: Celltype): Option<Celltype> {
    match (s, t)
    case (Mixed, Text) => Some(Plain)
    case (Mixed, Yaml) => Some(Text)
    case (Mixed, IPython) => Some(Text)
    case (Mixed, Python) => Some(Text)
    case (Binary, Text) => Some(Plain)
    case (Binary, Yaml) => Some(Text)
    case (Binary, IPython) => Some(Text)
    case (Binary, Python) => Some(Text)
    case (Bytes, Str) => Some(Plain)
    case (Bytes, Float) => Some(Plain)
    case (Bytes, Int) => Some(Plain)
    case (Bytes, Bool) => Some(Plain)
    case (Bytes, Yaml) => Some(Text)
    case (Bytes, IPython) => Some(Text)
    case (Bytes, Python) => Some(Text)
    case (Binary, Str) => Some(Bytes)
    case (Plain, Python) => Some(Text)
    case (Plain, IPython) => Some(Text)
    case (Text, Binary) => Some(Mixed)
    case (Text, Float) => Some(Plain)
    case (Text, Int) => Some(Plain)
    case (Text, Bool) => Some(Plain)
    case (Yaml, Binary) => Some(Plain)
    case (Yaml, Int) => Some(Plain)
    case (Yaml, Float) => Some(Plain)
    case (Yaml, Bool) => Some(Plain)
    case (Int, Yaml) => Some(Plain)
    case (Float, Yaml) => Some(Plain)
    case (Bool, Yaml) => Some(Plain)
    case _ => None
  }

  predicate Values(s: Celltype, t: Celltype) {
    match s
    case Binary => t.Plain? || t.ChecksumType?
    case Plain => t.Binary? || t.ChecksumType?
    case Bool => t.Int? || t.Float? || t.ChecksumType?
    case Int => t.Bool? || t.ChecksumType?
    case Float => t.Bool? || t.ChecksumType?
    case ChecksumType => !Deep(t) && !t.ChecksumType?
    case _ => !Deep(s) && t.ChecksumType?
  }

  predicate Forbidden(s: Celltype, t: Celltype) {
    match s
    case Python => t.Yaml? || t.Int? || t.Float? || t.Bool?
    case IPython => t.Yaml? || t.Int? || t.Float? || t.Bool?
    case Yaml => t.Python? || t.IPython?
    case Int => t.Python? || t.IPython?
    case Float => t.Python? || t.IPython?
    case Bool => t.Python? || t.IPython?
    case _ => false
  }

  function One(b: bool): nat {
    if b then 1 else 0
  }

  /** In how many categories of the table a pair is. */
  function Categories(s: Celltype, t: Celltype): nat {
    One(Trivial(s, t)) + One(Reformat(s, t)) + One(Reinterpret(s, t)) + One(Possible(s, t))
    + One(Equivalent(s, t).Some?) + One(Chain(s, t).Some?) + One(Values(s, t)) + One(Forbidden(s, t))
  }

  lemma StorageHasOneRule(s: Celltype, t: Celltype)
    requires !Deep(t) && s != t && (s.Binary? || s.Mixed? || s.Bytes? || s.Plain?)
    ensures Categories(s, t) == 1
  {
    if s.Binary? || s.Mixed? { } else { }
  }

  lemma TextHasOneRule(s: Celltype, t: Celltype)
    requires !Deep(t) && s != t && (s.Text? || s.Python? || s.IPython? || s.Yaml?)
    ensures Categories(s, t) == 1
  {
    if s.Text? || s.Python? { } else { }
  }

  lemma ScalarHasOneRule(s: Celltype, t: Celltype)
    requires !Deep(t) && s != t && (s.Str? || s.Int? || s.Float? || s.Bool? || s.ChecksumType?)
    ensures Categories(s, t) == 1
  {
    if s.Str? || s.Int? { } else { }
  }

  /** The table is complete and without overlap, so no conversion is ever unclassified. */
  lemma EveryPairHasOneRule(s: Celltype, t: Celltype)
    requires !Deep(s) && !Deep(t) && s != t
    ensures Categories(s, t) == 1
  {
    if s.Binary? || s.Mixed? || s.Bytes? || s.Plain? {
      StorageHasOneRule(s, t);
    } else if s.Text? || s.Python? || s.IPython? || s.Yaml? {
      TextHasOneRule(s, t);
    } else {
      ScalarHasOneRule(s, t);
    }
  }

  predicate Direct(s: Celltype, t: Celltype) {
    s == t || (Equivalent(s, t).None? && Chain(s, t).None?)
  }

  predicate NearlyDirect(s: Celltype, t: Celltype) {
    Direct(s, t) || (Equivalent(s, t).Some? && Direct(Equivalent(s, t).value.0, Equivalent(s, t).value.1))
  }

  /** How far a pair is from rules that are carried out directly. */
  function Rank(s: Celltype, t: Celltype): nat {
    if Direct(s, t) then 0
    else if Equivalent(s, t).Some? then if NearlyDirect(s, t) then 1 else 4
    else
      var mid := Chain(s, t).value;
      if NearlyDirect(s, mid) && NearlyDirect(mid, t) then 2 else 3
  }

  /** An equivalence leads to a pair that is closer to a direct rule, among the ordinary celltypes. */
  lemma EquivalenceDescends(s: Celltype, t: Celltype)
    requires !Deep(s) && !Deep(t) && s != t && Equivalent(s, t).Some?
    ensures var (u, v) := Equivalent(s, t).value;
      !Deep(u) && !Deep(v) && Rank(u, v) < Rank(s, t) && (u.ChecksumType? <==> s.ChecksumType?)
  {
  }

  /** So do both legs of a chain. */
  lemma ChainDescends(s: Celltype, t: Celltype)
    requires !Deep(s) && !Deep(t) && s != t && Equivalent(s, t).None? && Chain(s, t).Some?
    ensures var mid := Chain(s, t).value;
      && !Deep(mid) && Rank(s, mid) < Rank(s, t) && Rank(mid, t) < Rank(s, t)
      && !mid.ChecksumType? && !s.ChecksumType?
  {
  }

  /** Following equivalences and chains always ends. */
  lemma RulesAreWellFounded(s: Celltype, t: Celltype)
    requires !Deep(s) && !Deep(t) && s != t
    ensures Equivalent(s, t).Some? ==>
      var (u, v) := Equivalent(s, t).value;
      !Deep(u) && !Deep(v) && Rank(u, v) < Rank(s, t) && (u.ChecksumType? <==> s.ChecksumType?)
    ensures Equivalent(s, t).None? && Chain(s, t).Some? ==>
      var mid := Chain(s, t).value;
      && !Deep(mid) && Rank(s, mid) < Rank(s, t) && Rank(mid, t) < Rank(s, t)
      && !mid.ChecksumType? && !s.ChecksumType?
  {
    if Equivalent(s, t).Some? {
      EquivalenceDescends(s, t);
    } else if Chain(s, t).Some? {
      ChainDescends(s, t);
    }
  }
}
