/** Path strings of structural expressions: printing, parsing and joining
    (`expression_class.py` and the path helpers of `checksum/expression.py`). */
module PathSyntax {
  import opened Prelude
  import opened PathText

  datatype Step =
    | Item(key: Literal)
    | Slice(start: Option<Literal>, stop: Option<Literal>, step: Option<Literal>)

  /** `ast.literal_eval`, as far as a path token is concerned: a literal or an error. */
  type Evaluator = string -> Option<Literal>

  /** The evaluator agrees with Python's grammar on plain integers and plain quoted strings; it may read more. */
  ghost predicate Sound(lit: Evaluator) {
    forall t: string :: ReadLiteral(t).Some? ==> lit(t) == ReadLiteral(t)
  }

  // ----- Identifiers -----

  predicate IsWord(c: char) {
    c == '_' || IsDigit(c) || 'a' <= c <= 'z' || 'A' <= c <= 'Z'
  }

  predicate IsIdentifier(s: string) {
    s != "" && (forall k | 0 <= k < |s| :: IsWord(s[k])) && !IsDigit(s[0])
  }

  /** How many word characters `s` starts with. */
  function WordLength(s: string): (n: nat)
    ensures n <= |s| && (forall k :: 0 <= k < n ==> IsWord(s[k])) && (n < |s| ==> !IsWord(s[n]))
  {
    if s == "" || !IsWord(s[0]) then 0 else 1 + WordLength(s[1..])
  }

  lemma {:induction false} WordPrefix(w: string, rest: string)
    requires forall k :: 0 <= k < |w| ==> IsWord(w[k])
    ensures WordLength(w + rest) == |w| + WordLength(rest)
  {
    if w == "" {
      assert w + rest == rest;
    } else {
      WordPrefix(w[1..], rest);
      assert (w + rest)[1..] == w[1..] + rest;
    }
  }

  // ----- Printing -----

  function AppendItemPath(path: string, key: Literal): string {
    if key.Str? && IsIdentifier(key.s) then path + (if path == "" then "" else ".") + key.s
    else path + "[" + Repr(key) + "]"
  }

  function ReprPart(part: Option<Literal>): string {
    if part.None? then "" else Repr(part.value)
  }

  function SliceToken(s: Step): string
    requires s.Slice?
  {
    ReprPart(s.start) + ":" + (if s.step.None? then ReprPart(s.stop) else ReprPart(s.stop) + ":" + Repr(s.step.value))
  }

  function AppendSlicePath(path: string, s: Step): string
    requires s.Slice?
  {
    path + "[" + SliceToken(s) + "]"
  }

  function Append(path: string, s: Step): string {
    if s.Item? then AppendItemPath(path, s.key) else AppendSlicePath(path, s)
  }

  /** The path that results from appending the steps one after the other to `path`. */
  function PrintFrom(path: string, steps: seq<Step>): string
    decreases |steps|
  {
    if steps == [] then path else PrintFrom(Append(path, steps[0]), steps[1..])
  }

  function Print(steps: seq<Step>): string {
    PrintFrom("", steps)
  }

  // ----- Parsing -----

  datatype Scan = Plain | Quoted(quote: char) | Escaped(quote: char)

  /** One character of `_find_closing_bracket`. */
  function Scanned(state: Scan, c: char): Scan {
    match state
    case Plain => if c == '\'' || c == '\"' then Quoted(c) else Plain
    case Quoted(q) => if c == '\\' then Escaped(q) else if c == q then Plain else state
    case Escaped(q) => Quoted(q)
  }

  /** The position in `s` of the first `]` outside quotes. */
  function ClosingBracket(s: string, state: Scan): (r: Option<nat>)
    ensures r.Some? ==> r.value < |s| && s[r.value] == ']'
    decreases |s|
  {
    if s == "" then None
    else if state.Plain? && s[0] == ']' then Some(0)
    else
      var r := ClosingBracket(s[1..], Scanned(state, s[0]));
      if r.Some? then Some(r.value + 1) else None
  }

  function Split(s: string): (parts: seq<string>)
    ensures |parts| >= 1
    ensures |parts| == 1 <==> ':' !in s
  {
    if s == "" then [""]
    else
      var rest := Split(s[1..]);
      if s[0] == ':' then [""] + rest else [[s[0]] + rest[0]] + rest[1..]
  }

  function ReadParts(lit: Evaluator, parts: seq<string>): Option<seq<Option<Literal>>> {
    if parts == [] then Some([])
    else
      var value := if parts[0] == "" then Some(None) else
        var l := lit(parts[0]);
        if l.Some? then Some(l) else None;
      var rest := ReadParts(lit, parts[1..]);
      if value.Some? && rest.Some? then Some([value.value] + rest.value) else None
  }

  function ParseSlice(lit: Evaluator, token: string): Option<Step> {
    var parts := Split(token);
    if |parts| > 3 then None
    else
      var values := ReadParts(lit, parts);
      if values.None? then None
      else
        var v := values.value + [None, None, None];
        Some(Slice(v[0], v[1], v[2]))
  }

  function ParseToken(lit: Evaluator, token: string): Option<Step> {
    if ':' in token then ParseSlice(lit, token)
    else
      var key := lit(token);
      if key.Some? then Some(Item(key.value)) else None
  }

  /** The step that follows an opening bracket, and the length of its text up to and including the closing one. */
  function ParseBracket(lit: Evaluator, s: string): (r: Option<(Step, nat)>)
    ensures r.Some? ==> 0 < r.value.1 <= |s|
  {
    var stop := ClosingBracket(s, Plain);
    if stop.None? then None
    else
      var step := ParseToken(lit, s[..stop.value]);
      if step.Some? then Some((step.value, stop.value + 1)) else None
  }

  function ParseName(s: string): (r: Option<(Step, nat)>)
    ensures r.Some? ==> 0 < r.value.1 <= |s|
  {
    var n := WordLength(s);
    if IsIdentifier(s[..n]) then Some((Item(Str(s[..n])), n)) else None
  }

  function Shifted(r: Option<(Step, nat)>): Option<(Step, nat)> {
    if r.Some? then Some((r.value.0, r.value.1 + 1)) else None
  }

  /** The first step of a non-empty path and the length of its text. */
  function ParseStep(lit: Evaluator, s: string): (r: Option<(Step, nat)>)
    requires s != ""
    ensures r.Some? ==> 0 < r.value.1 <= |s|
  {
    if s[0] == '[' then Shifted(ParseBracket(lit, s[1..]))
    else if s[0] == '.' then Shifted(ParseName(s[1..]))
    else ParseName(s)
  }

  function Parse(lit: Evaluator, s: string): Option<seq<Step>>
    decreases |s|
  {
    if s == "" then Some([])
    else
      var first := ParseStep(lit, s);
      if first.None? then None else Prefixed([first.value.0], Parse(lit, s[first.value.1..]))
  }

  function Prefixed(steps: seq<Step>, rest: Option<seq<Step>>): Option<seq<Step>> {
    if rest.Some? then Some(steps + rest.value) else None
  }

  // ----- The scanning loops -----

  method FindClosingBracket(path: string, start: nat) returns (stop: Option<nat>)
    requires start < |path|
    ensures var r := ClosingBracket(path[start + 1..], Plain);
      stop == if r.Some? then Some(start + 1 + r.value) else None
  {
    var state, index := Plain, start + 1;
    ghost var whole := ClosingBracket(path[start + 1..], Plain);
    while index < |path|
      invariant start + 1 <= index <= |path|
      invariant var r := ClosingBracket(path[index..], state);
        if r.None? then whole.None? else whole == Some(index - start - 1 + r.value)
    {
      var c := path[index];
      assert path[index..][1..] == path[index + 1..];
      if state.Plain? && c == ']' { return Some(index); }
      state := Scanned(state, c);
      index := index + 1;
    }
    stop := None;
  }

  method ScanWord(path: string, start: nat) returns (index: nat)
    requires start <= |path|
    ensures index == start + WordLength(path[start..])
  {
    index := start;
    while index < |path| && IsWord(path[index])
      invariant start <= index <= |path|
      invariant WordLength(path[start..]) == index - start + WordLength(path[index..])
    {
      assert path[index..][1..] == path[index + 1..];
      index := index + 1;
    }
  }

  /** One turn of the parsing loop: the step at `index` and where the next one starts. */
  method ParseSegment(lit: Evaluator, path: string, index: nat) returns (r: Option<(Step, nat)>)
    requires index < |path|
    ensures var step := ParseStep(lit, path[index..]);
      r == if step.Some? then Some((step.value.0, index + step.value.1)) else None
  {
    ghost var s := path[index..];
    assert path[index + 1..] == s[1..];
    if path[index] == '[' {
      var stop := FindClosingBracket(path, index);
      if stop.None? { return None; }
      assert path[index + 1..stop.value] == s[1..][..stop.value - index - 1];
      var step := ParseToken(lit, path[index + 1..stop.value]);
      if step.None? { return None; }
      return Some((step.value, stop.value + 1));
    }
    var start := if path[index] == '.' then index + 1 else index;
    var end := ScanWord(path, start);
    assert path[start..end] == path[start..][..end - start];
    if !IsIdentifier(path[start..end]) { return None; }
    r := Some((Item(Str(path[start..end])), end));
  }

  method ParsePath(lit: Evaluator, path: string) returns (r: Option<seq<Step>>)
    ensures r == Parse(lit, path)
  {
    var steps, index := [], 0;
    assert path[0..] == path;
    StartFresh(Parse(lit, path));
    while index < |path|
      invariant 0 <= index <= |path|
      invariant Parse(lit, path) == Prefixed(steps, Parse(lit, path[index..]))
    {
      var step := ParseSegment(lit, path, index);
      if step.None? { return None; }
      assert path[index..][step.value.1 - index..] == path[step.value.1..];
      Reassociate(steps, [step.value.0], Parse(lit, path[step.value.1..]));
      steps, index := steps + [step.value.0], step.value.1;
    }
    assert path[index..] == "" && steps + [] == steps;
    r := Some(steps);
  }

  lemma StartFresh(rest: Option<seq<Step>>)
    ensures Prefixed([], rest) == rest
  {
    if rest.Some? { assert [] + rest.value == rest.value; }
  }

  lemma Reassociate(before: seq<Step>, more: seq<Step>, rest: Option<seq<Step>>)
    ensures Prefixed(before, Prefixed(more, rest)) == Prefixed(before + more, rest)
  {
    if rest.Some? { assert before + (more + rest.value) == (before + more) + rest.value; }
  }

  // ----- Joining -----

  /** The fused path of an expression on top of another one. */
  function Join(p: string, q: string): string {
    p + (if p != "" && q != "" && q[0] != '.' && q[0] != '[' then "." + q else q)
  }

  lemma {:induction false} ClosingBracketLocal(s: string, rest: string, state: Scan)
    requires ClosingBracket(s, state).Some?
    ensures ClosingBracket(s + rest, state) == ClosingBracket(s, state)
    decreases |s|
  {
    assert (s + rest)[0] == s[0];
    if !(state.Plain? && s[0] == ']') {
      assert (s + rest)[1..] == s[1..] + rest;
      ClosingBracketLocal(s[1..], rest, Scanned(state, s[0]));
    }
  }

  /** No word character can run over the seam between two joined paths. */
  predicate Seam(rest: string) {
    rest == "" || !IsWord(rest[0])
  }

  lemma BracketLocal(lit: Evaluator, s: string, rest: string)
    requires ParseBracket(lit, s).Some?
    ensures ParseBracket(lit, s + rest) == ParseBracket(lit, s)
  {
    ClosingBracketLocal(s, rest, Plain);
    var stop := ClosingBracket(s, Plain).value;
    assert (s + rest)[..stop] == s[..stop];
  }

  lemma NameLocal(s: string, rest: string)
    requires ParseName(s).Some? && Seam(rest)
    ensures ParseName(s + rest) == ParseName(s)
  {
    var n := WordLength(s);
    var w, tail := s[..n], s[n..] + rest;
    assert s + rest == w + tail;
    WordPrefix(w, tail);
    assert (w + tail)[..n] == w;
  }

  lemma StepLocal(lit: Evaluator, s: string, rest: string)
    requires s != "" && ParseStep(lit, s).Some? && Seam(rest)
    ensures ParseStep(lit, s + rest) == ParseStep(lit, s)
  {
    assert (s + rest)[0] == s[0] && (s + rest)[1..] == s[1..] + rest;
    if s[0] == '[' {
      BracketLocal(lit, s[1..], rest);
    } else if s[0] == '.' {
      NameLocal(s[1..], rest);
    } else {
      NameLocal(s, rest);
    }
  }

  lemma {:induction false} ParseAppend(lit: Evaluator, p: string, rest: string)
    requires Parse(lit, p).Some? && Seam(rest)
    ensures Parse(lit, p + rest) == Prefixed(Parse(lit, p).value, Parse(lit, rest))
    decreases |p|
  {
    if p == "" {
      assert p + rest == rest;
      StartFresh(Parse(lit, rest));
    } else {
      StepLocal(lit, p, rest);
      var first := ParseStep(lit, p).value;
      var tail := p[first.1..];
      assert (p + rest)[first.1..] == tail + rest;
      ParseAppend(lit, tail, rest);
      var ps := Parse(lit, tail).value;
      assert Parse(lit, p) == Some([first.0] + ps);
      Reassociate([first.0], ps, Parse(lit, rest));
    }
  }

  /** A leading dot is optional before a name. */
  lemma DotIsOptional(lit: Evaluator, q: string)
    requires q != "" && q[0] != '.' && q[0] != '['
    ensures Parse(lit, "." + q) == Parse(lit, q)
  {
    var t := "." + q;
    assert t[1..] == q;
    var name := ParseName(q);
    if name.Some? { assert t[1 + name.value.1..] == q[name.value.1..]; }
  }

  /** Joining is a homomorphism: for a valid `p` and any `q`, the fused string parses to the steps of `p` followed by
      those of `q`, and is invalid exactly when `q` is. */
  lemma JoinParses(lit: Evaluator, p: string, q: string)
    requires Parse(lit, p).Some?
    ensures Parse(lit, Join(p, q)) == Prefixed(Parse(lit, p).value, Parse(lit, q))
  {
    if p == "" {
      assert Join(p, q) == q;
      StartFresh(Parse(lit, q));
    } else if q != "" && q[0] != '.' && q[0] != '[' {
      ParseAppend(lit, p, "." + q);
      DotIsOptional(lit, q);
    } else {
      ParseAppend(lit, p, q);
    }
  }

  /** Applying steps in order; the result of one step is the subject of the next, and an error stops the walk. */
  function ApplySteps<V>(apply: (V, Step) -> Option<V>, v: V, steps: seq<Step>): Option<V> {
    if steps == [] then Some(v)
    else
      var next := apply(v, steps[0]);
      if next.None? then None else ApplySteps(apply, next.value, steps[1..])
  }

  lemma {:induction false} ApplyConcat<V>(apply: (V, Step) -> Option<V>, v: V, ps: seq<Step>, qs: seq<Step>)
    ensures ApplySteps(apply, v, ps + qs) ==
      var mid := ApplySteps(apply, v, ps);
      if mid.None? then None else ApplySteps(apply, mid.value, qs)
  {
    if ps == [] {
      assert ps + qs == qs;
    } else {
      assert (ps + qs)[0] == ps[0] && (ps + qs)[1..] == ps[1..] + qs;
      var next := apply(v, ps[0]);
      if next.Some? { ApplyConcat(apply, next.value, ps[1..], qs); }
    }
  }

  /** Fusing two path steps does not change the value reached: the fused path is `p` and then `q`. */
  lemma JoinApplies<V>(lit: Evaluator, apply: (V, Step) -> Option<V>, v: V, p: string, q: string)
    requires Parse(lit, p).Some? && Parse(lit, q).Some?
    ensures Parse(lit, Join(p, q)).Some?
    ensures ApplySteps(apply, v, Parse(lit, Join(p, q)).value) ==
      var mid := ApplySteps(apply, v, Parse(lit, p).value);
      if mid.None? then None else ApplySteps(apply, mid.value, Parse(lit, q).value)
  {
    JoinParses(lit, p, q);
    ApplyConcat(apply, v, Parse(lit, p).value, Parse(lit, q).value);
  }

  // ----- Printing and parsing back -----

  predicate IntOrNone(part: Option<Literal>) {
    part.None? || part.value.Int?
  }

  /** Integer and ASCII string keys, and slices with integer or missing parts. */
  predicate Printable(s: Step) {
    match s
    case Item(key) => key.Int? || (key.Str? && Ascii(key.s))
    case Slice(a, b, c) => IntOrNone(a) && IntOrNone(b) && IntOrNone(c)
  }

  /** A string key that is printed in brackets and would be read as a slice. */
  predicate Ambiguous(s: Step) {
    s.Item? && s.key.Str? && !IsIdentifier(s.key.s) && ':' in s.key.s
  }

  /** The text of one step. */
  function Piece(s: Step, first: bool): string {
    if s.Slice? then "[" + SliceToken(s) + "]"
    else if s.key.Str? && IsIdentifier(s.key.s) then (if first then "" else ".") + s.key.s
    else "[" + Repr(s.key) + "]"
  }

  function Pieces(steps: seq<Step>, first: bool): string {
    if steps == [] then "" else Piece(steps[0], first) + Pieces(steps[1..], false)
  }

  lemma Joined3(a: string, b: string, c: string)
    ensures a + (b + c) == (a + b) + c
  {
  }

  lemma AppendPiece(path: string, s: Step)
    ensures Append(path, s) == path + Piece(s, path == "")
    ensures Piece(s, path == "") != ""
  {
    if s.Slice? {
      assert path + "[" + SliceToken(s) + "]" == path + ("[" + SliceToken(s) + "]");
    } else if s.key.Str? && IsIdentifier(s.key.s) {
      var dot := if path == "" then "" else ".";
      assert path + dot + s.key.s == path + (dot + s.key.s);
    } else {
      assert path + "[" + Repr(s.key) + "]" == path + ("[" + Repr(s.key) + "]");
    }
  }

  /** Appending to a growing path writes the pieces in order; only a first name goes without a dot. */
  lemma {:induction false} PrintIsPieces(path: string, steps: seq<Step>)
    ensures PrintFrom(path, steps) == path + Pieces(steps, path == "")
    decreases |steps|
  {
    if steps == [] {
      assert path + "" == path;
    } else {
      AppendPiece(path, steps[0]);
      var longer := Append(path, steps[0]);
      PrintIsPieces(longer, steps[1..]);
      Joined3(path, Piece(steps[0], path == ""), Pieces(steps[1..], false));
    }
  }

  /** Text without quotes or closing brackets. */
  predicate Bare(s: string) {
    forall k | 0 <= k < |s| :: s[k] != '\'' && s[k] != '\"' && s[k] != ']'
  }

  lemma {:induction false} CloseAfterBare(s: string, rest: string)
    requires Bare(s)
    ensures ClosingBracket(s + "]" + rest, Plain) == Some(|s|)
  {
    var t := s + "]" + rest;
    if s != "" {
      assert t[1..] == s[1..] + "]" + rest;
      CloseAfterBare(s[1..], rest);
    }
  }

  lemma {:induction false} CloseAfterEscape(s: string, quote: char, rest: string)
    requires quote in ['\'', '\"']
    ensures ClosingBracket(Escape(s, quote) + [quote] + "]" + rest, Quoted(quote)) == Some(|Escape(s, quote)| + 1)
    decreases |s|
  {
    var t := Escape(s, quote) + [quote] + "]" + rest;
    if s == "" {
      assert t[1..] == "]" + rest;
    } else {
      var e := EscapeChar(s[0], quote);
      var tail := Escape(s[1..], quote) + [quote] + "]" + rest;
      CloseAfterEscape(s[1..], quote, rest);
      assert t == e + tail;
      SkipEscape(s[0], quote, tail);
    }
  }

  /** A character is printed as itself, as a backslash with one character, or as a hexadecimal escape. */
  lemma EscapeShape(c: char, quote: char)
    requires quote in ['\'', '\"']
    ensures var e := EscapeChar(c, quote);
      || (e == [c] && c != '\\' && c != quote)
      || (|e| == 2 && e == ['\\', e[1]])
      || (|e| == 4 && e == ['\\', 'x', e[2], e[3]] && IsPlainDigit(e[2]) && IsPlainDigit(e[3]))
  {
    if (c as int) < 128 {
      HexIsPlain(c as int / 16);
      HexIsPlain(c as int % 16);
    }
  }

  predicate IsPlainDigit(c: char) {
    c != '\\' && c != '\'' && c != '\"' && c != ']' && c != ':'
  }

  /** A printed character leaves the scan inside the quotes. */
  lemma SkipEscape(c: char, quote: char, tail: string)
    requires quote in ['\'', '\"'] && ClosingBracket(tail, Quoted(quote)).Some?
    ensures ClosingBracket(EscapeChar(c, quote) + tail, Quoted(quote)) ==
      Some(|EscapeChar(c, quote)| + ClosingBracket(tail, Quoted(quote)).value)
  {
    var e := EscapeChar(c, quote);
    EscapeShape(c, quote);
    if |e| == 1 {
      SkipOne(c, Quoted(quote), tail);
    } else if |e| == 2 {
      SkipPair(e[1], quote, tail);
    } else {
      SkipHex(e[2], e[3], quote, tail);
    }
  }

  lemma SkipHex(a: char, b: char, quote: char, tail: string)
    requires quote in ['\'', '\"'] && IsPlainDigit(a) && IsPlainDigit(b) && ClosingBracket(tail, Quoted(quote)).Some?
    ensures ClosingBracket(['\\', 'x', a, b] + tail, Quoted(quote)) ==
      Some(4 + ClosingBracket(tail, Quoted(quote)).value)
  {
    SkipDigits(a, b, quote, tail);
    SkipPair('x', quote, [a] + ([b] + tail));
    FourInFront('\\', 'x', a, b, tail);
  }

  lemma SkipDigits(a: char, b: char, quote: char, tail: string)
    requires quote in ['\'', '\"'] && IsPlainDigit(a) && IsPlainDigit(b) && ClosingBracket(tail, Quoted(quote)).Some?
    ensures ClosingBracket([a] + ([b] + tail), Quoted(quote)) == Some(2 + ClosingBracket(tail, Quoted(quote)).value)
  {
    assert Scanned(Quoted(quote), a) == Scanned(Quoted(quote), b) == Quoted(quote);
    SkipOne(b, Quoted(quote), tail);
    SkipOne(a, Quoted(quote), [b] + tail);
  }

  lemma FourInFront(p: char, q: char, a: char, b: char, tail: string)
    ensures [p, q, a, b] + tail == [p, q] + ([a] + ([b] + tail))
  {
  }

  /** A backslash takes the next character with it. */
  lemma SkipPair(c: char, quote: char, tail: string)
    requires ClosingBracket(tail, Quoted(quote)).Some?
    ensures ClosingBracket(['\\', c] + tail, Quoted(quote)) == Some(2 + ClosingBracket(tail, Quoted(quote)).value)
  {
    SkipOne(c, Escaped(quote), tail);
    SkipOne('\\', Quoted(quote), [c] + tail);
    assert ['\\', c] + tail == ['\\'] + ([c] + tail);
  }

  lemma SkipOne(c: char, state: Scan, tail: string)
    requires !state.Plain? && ClosingBracket(tail, Scanned(state, c)).Some?
    ensures ClosingBracket([c] + tail, state) == Some(1 + ClosingBracket(tail, Scanned(state, c)).value)
  {
    assert ([c] + tail)[1..] == tail;
  }

  lemma HexIsPlain(d: nat)
    requires d < 16
    ensures IsPlainDigit(HexDigit(d))
  {
  }

  lemma DecimalIsBare(n: nat)
    ensures Bare(Decimal(n)) && ':' !in Decimal(n)
  {
  }

  lemma PartIsBare(part: Option<Literal>)
    requires IntOrNone(part)
    ensures Bare(ReprPart(part)) && ':' !in ReprPart(part)
  {
    if part.Some? {
      var i := part.value.i;
      DecimalIsBare(if i < 0 then -i else i);
    }
  }

  lemma TokenIsBare(s: Step)
    requires s.Slice? && Printable(s)
    ensures Bare(SliceToken(s))
  {
    PartIsBare(s.start);
    PartIsBare(s.stop);
    PartIsBare(s.step);
  }

  /** The bracket that closes a printed token is the one the printer wrote. */
  lemma CloseAfterRepr(key: Literal, rest: string)
    requires key.Int? || key.Str?
    ensures ClosingBracket(Repr(key) + "]" + rest, Plain) == Some(|Repr(key)|)
  {
    if key.Int? {
      PartIsBare(Some(key));
      CloseAfterBare(Repr(key), rest);
    } else {
      var q := QuoteFor(key.s);
      CloseAfterEscape(key.s, q, rest);
      var t := Repr(key) + "]" + rest;
      assert t[1..] == Escape(key.s, q) + [q] + "]" + rest;
    }
  }

  lemma {:induction false} EscapeKeepsColons(s: string, quote: char)
    requires quote in ['\'', '\"']
    ensures ':' in Escape(s, quote) <==> ':' in s
  {
    if s != "" {
      EscapeKeepsColons(s[1..], quote);
      assert s == [s[0]] + s[1..];
      EscapeShape(s[0], quote);
      assert ':' in EscapeChar(s[0], quote) <==> s[0] == ':';
    }
  }

  lemma {:induction false} SplitAtColon(a: string, b: string)
    requires ':' !in a
    ensures Split(a) == [a]
    ensures Split(a + ":" + b) == [a] + Split(b)
  {
    var t := a + ":" + b;
    if a == "" {
      assert t[1..] == b;
    } else {
      assert t[1..] == a[1..] + ":" + b;
      SplitAtColon(a[1..], b);
      assert [a[0]] + a[1..] == a;
    }
  }

  lemma PartRoundTrip(lit: Evaluator, part: Option<Literal>, rest: seq<string>)
    requires Sound(lit) && IntOrNone(part) && ReadParts(lit, rest).Some?
    ensures ReadParts(lit, [ReprPart(part)] + rest) == Some([part] + ReadParts(lit, rest).value)
  {
    var parts := [ReprPart(part)] + rest;
    assert parts[1..] == rest;
    if part.Some? {
      LiteralRoundTrip(part.value);
      assert ReprPart(part) != "";
    }
  }

  lemma {:induction false} TwoParts(lit: Evaluator, a: Option<Literal>, b: Option<Literal>)
    requires Sound(lit) && IntOrNone(a) && IntOrNone(b)
    ensures Split(ReprPart(a) + ":" + ReprPart(b)) == [ReprPart(a), ReprPart(b)]
    ensures ReadParts(lit, [ReprPart(a), ReprPart(b)]) == Some([a, b])
  {
    var rest: seq<string> := [];
    PartIsBare(a);
    PartIsBare(b);
    SplitAtColon(ReprPart(a), ReprPart(b));
    SplitAtColon(ReprPart(b), "");
    assert ReadParts(lit, rest) == Some([]);
    PartRoundTrip(lit, b, rest);
    PartRoundTrip(lit, a, [ReprPart(b)] + rest);
    assert [ReprPart(a)] + ([ReprPart(b)] + rest) == [ReprPart(a), ReprPart(b)];
    assert [a] + ([b] + []) == [a, b];
  }

  lemma ThreeParts(lit: Evaluator, a: Option<Literal>, b: Option<Literal>, c: Option<Literal>)
    requires Sound(lit) && IntOrNone(a) && IntOrNone(b) && IntOrNone(c)
    ensures Split(ReprPart(a) + ":" + (ReprPart(b) + ":" + ReprPart(c))) == [ReprPart(a), ReprPart(b), ReprPart(c)]
    ensures ReadParts(lit, [ReprPart(a), ReprPart(b), ReprPart(c)]) == Some([a, b, c])
  {
    TwoParts(lit, b, c);
    PartIsBare(a);
    SplitAtColon(ReprPart(a), ReprPart(b) + ":" + ReprPart(c));
    PartRoundTrip(lit, a, [ReprPart(b), ReprPart(c)]);
    assert [ReprPart(a)] + [ReprPart(b), ReprPart(c)] == [ReprPart(a), ReprPart(b), ReprPart(c)];
    assert [a] + [b, c] == [a, b, c];
  }

  lemma TokenIsSlice(lit: Evaluator, token: string, values: seq<Option<Literal>>)
    requires 2 <= |Split(token)| <= 3 && ReadParts(lit, Split(token)) == Some(values)
    ensures |values| == |Split(token)|
    ensures ParseToken(lit, token) ==
      Some(Slice(values[0], values[1], if |values| == 3 then values[2] else None))
  {
    PartCount(lit, Split(token));
  }

  lemma {:induction false} PartCount(lit: Evaluator, parts: seq<string>)
    requires ReadParts(lit, parts).Some?
    ensures |ReadParts(lit, parts).value| == |parts|
  {
    if parts != [] { PartCount(lit, parts[1..]); }
  }

  lemma SliceRoundTrip(lit: Evaluator, s: Step)
    requires Sound(lit) && s.Slice? && Printable(s)
    ensures ParseToken(lit, SliceToken(s)) == Some(s)
  {
    if s.step.None? {
      TwoParts(lit, s.start, s.stop);
      TokenIsSlice(lit, SliceToken(s), [s.start, s.stop]);
    } else {
      ThreeParts(lit, s.start, s.stop, s.step);
      TokenIsSlice(lit, SliceToken(s), [s.start, s.stop, s.step]);
    }
  }

  lemma KeyToken(lit: Evaluator, key: Literal)
    requires Sound(lit) && Printable(Item(key))
    ensures ':' in Repr(key) <==> key.Str? && ':' in key.s
    ensures ParseToken(lit, Repr(key)) == Some(Item(key)) <==> !(key.Str? && ':' in key.s)
  {
    LiteralRoundTrip(key);
    if key.Int? {
      PartIsBare(Some(key));
    } else {
      EscapeKeepsColons(key.s, QuoteFor(key.s));
    }
  }

  /** A bracketed token is cut out whole, whatever follows. */
  lemma BracketStep(lit: Evaluator, token: string, rest: string)
    requires ClosingBracket(token + "]" + rest, Plain) == Some(|token|)
    ensures var r := ParseStep(lit, "[" + token + "]" + rest);
      var step := ParseToken(lit, token);
      r == if step.Some? then Some((step.value, |token| + 2)) else None
  {
    var t := "[" + token + "]" + rest;
    assert t[1..] == token + "]" + rest;
    assert t[1..][..|token|] == token;
  }

  lemma PieceStep(lit: Evaluator, s: Step, first: bool, rest: string)
    requires Sound(lit) && Printable(s) && Seam(rest)
    ensures Piece(s, first) + rest != ""
    ensures ParseStep(lit, Piece(s, first) + rest) == Some((s, |Piece(s, first)|)) <==> !Ambiguous(s)
    ensures Ambiguous(s) ==>
      ParseStep(lit, Piece(s, first) + rest).None? || ParseStep(lit, Piece(s, first) + rest).value.0 != s
  {
    if s.Slice? {
      SliceStep(lit, s, rest);
    } else if s.key.Str? && IsIdentifier(s.key.s) {
      NamePieceStep(lit, s.key.s, first, rest);
    } else {
      KeyStep(lit, s.key, rest);
    }
  }

  lemma BareTokenStep(lit: Evaluator, token: string, rest: string)
    requires Bare(token) && ParseToken(lit, token).Some?
    ensures var t := "[" + token + "]";
      ParseStep(lit, t + rest) == Some((ParseToken(lit, token).value, |t|))
  {
    CloseAfterBare(token, rest);
    BracketStep(lit, token, rest);
  }

  lemma SliceStep(lit: Evaluator, s: Step, rest: string)
    requires Sound(lit) && s.Slice? && Printable(s)
    ensures var t := "[" + SliceToken(s) + "]";
      ParseStep(lit, t + rest) == Some((s, |t|))
  {
    TokenIsBare(s);
    SliceRoundTrip(lit, s);
    BareTokenStep(lit, SliceToken(s), rest);
  }

  lemma KeyStep(lit: Evaluator, key: Literal, rest: string)
    requires Sound(lit) && Printable(Item(key))
    ensures var t := "[" + Repr(key) + "]";
      var r := ParseStep(lit, t + rest);
      if key.Str? && ':' in key.s then r.None? || r.value.0 != Item(key) else r == Some((Item(key), |t|))
  {
    CloseAfterRepr(key, rest);
    BracketStep(lit, Repr(key), rest);
    KeyToken(lit, key);
  }

  lemma NamePieceStep(lit: Evaluator, w: string, first: bool, rest: string)
    requires IsIdentifier(w) && Seam(rest)
    ensures var t := (if first then "" else ".") + w;
      ParseStep(lit, t + rest) == Some((Item(Str(w)), |t|))
  {
    if first {
      assert "" + w == w;
      FirstNameStep(lit, w, rest);
    } else {
      DottedNameStep(lit, w, rest);
    }
  }

  lemma FirstNameStep(lit: Evaluator, w: string, rest: string)
    requires IsIdentifier(w) && Seam(rest)
    ensures ParseStep(lit, w + rest) == Some((Item(Str(w)), |w|))
  {
    NameStep(w, rest);
    assert (w + rest)[0] == w[0] && IsWord(w[0]);
  }

  lemma DottedNameStep(lit: Evaluator, w: string, rest: string)
    requires IsIdentifier(w) && Seam(rest)
    ensures ParseStep(lit, "." + w + rest) == Some((Item(Str(w)), |w| + 1))
  {
    NameStep(w, rest);
    var t := "." + w + rest;
    assert t[0] == '.' && t[1..] == w + rest;
  }

  lemma NameStep(w: string, rest: string)
    requires IsIdentifier(w) && Seam(rest)
    ensures ParseName(w + rest) == Some((Item(Str(w)), |w|))
  {
    WordPrefix(w, rest);
    assert (w + rest)[..|w|] == w;
  }

  lemma PiecesSeam(steps: seq<Step>)
    ensures Seam(Pieces(steps, false))
  {
    if steps != [] { assert Piece(steps[0], false)[0] in ['.', '[']; }
  }

  lemma {:induction false} PiecesRoundTrip(lit: Evaluator, steps: seq<Step>, first: bool)
    requires Sound(lit) && forall k :: 0 <= k < |steps| ==> Printable(steps[k])
    ensures Parse(lit, Pieces(steps, first)) == Some(steps) <==> forall k :: 0 <= k < |steps| ==> !Ambiguous(steps[k])
  {
    if steps != [] {
      var s, rest := steps[0], Pieces(steps[1..], false);
      PiecesSeam(steps[1..]);
      PieceStep(lit, s, first, rest);
      PiecesRoundTrip(lit, steps[1..], false);
      assert steps == [s] + steps[1..];
      if !Ambiguous(s) {
        var n := |Piece(s, first)|;
        assert Pieces(steps, first)[n..] == rest;
        assert Parse(lit, Pieces(steps, first)) == Prefixed([s], Parse(lit, rest));
      } else {
        assert Ambiguous(steps[0]);
      }
    }
  }

  /** Printing then parsing is the identity exactly when no key that needs brackets contains a colon: quotes,
      escapes, brackets and dots inside keys are all safe. */
  lemma PrintThenParse(lit: Evaluator, steps: seq<Step>)
    requires Sound(lit) && forall k :: 0 <= k < |steps| ==> Printable(steps[k])
    ensures Parse(lit, Print(steps)) == Some(steps) <==> forall k :: 0 <= k < |steps| ==> !Ambiguous(steps[k])
  {
    PrintIsPieces("", steps);
    assert "" + Pieces(steps, true) == Pieces(steps, true);
    PiecesRoundTrip(lit, steps, true);
  }

  /** The item key `a:b` does not survive: its token `['a:b']` is read as a slice. */
  lemma ColonKeyIsLost(lit: Evaluator)
    requires Sound(lit)
    ensures var steps := [Item(Str("a:b"))];
      Parse(lit, Print(steps)) != Some(steps)
  {
    var steps := [Item(Str("a:b"))];
    assert !IsWord("a:b"[1]) && "a:b"[1] == ':';
    assert Ambiguous(steps[0]);
    PrintThenParse(lit, steps);
  }

  lemma ExampleTexts()
    ensures Repr(Int(-1)) == "-1" && Repr(Int(1)) == "1" && Repr(Str("2c")) == "'2c'"
    ensures IsIdentifier("a") && IsIdentifier("b") && !IsIdentifier("2c")
  {
    assert Escape("c", '\'') == "c" by { assert "c"[1..] == ""; }
    assert Escape("2c", '\'') == "2c" by { assert "2c"[1..] == "c"; }
    assert "2c"[0] == '2';
  }

  /** Concrete steps: names stand after dots, except at the start, and all else in brackets. */
  lemma PieceExamples()
    ensures Piece(Item(Str("a")), true) == "a" && Piece(Item(Str("a")), false) == ".a"
    ensures Piece(Item(Int(-1)), true) == Piece(Item(Int(-1)), false) == "[-1]"
    ensures Piece(Item(Str("2c")), false) == "['2c']"
  {
    ExampleTexts();
    assert "[" + "-1" + "]" == "[-1]";
    assert "[" + "'2c'" + "]" == "['2c']";
    assert "" + "a" == "a";
    assert "." + "a" == ".a";
  }

  /** Concrete slices: a missing step goes with its colon. */
  lemma SliceExamples()
    ensures Piece(Slice(Some(Int(1)), None, None), false) == "[1:]"
    ensures Piece(Slice(None, Some(Int(-1)), Some(Int(1))), false) == "[:-1:1]"
  {
    ExampleTexts();
    assert SliceToken(Slice(Some(Int(1)), None, None)) == "1:";
    assert SliceToken(Slice(None, Some(Int(-1)), Some(Int(1)))) == ":-1:1";
  }
}
