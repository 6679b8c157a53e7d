/** Text of single path keys: Python's `repr` of integers and strings, and reading it back. */
module PathText {
  import opened Prelude

  /** A Python literal. `Other` stands for the literals that are neither integers nor strings. */
  datatype Literal = Int(i: int) | Str(s: string) | Other(text: string)

  // ----- Integers -----

  function Digit(d: nat): char
    requires d < 10
  {
    '0' + d as char
  }

  predicate IsDigit(c: char) {
    '0' <= c <= '9'
  }

  function DigitValue(c: char): nat
    requires IsDigit(c)
  {
    c as nat - '0' as nat
  }

  function Decimal(n: nat): (r: string)
    ensures r != "" && forall k :: 0 <= k < |r| ==> IsDigit(r[k])
  {
    if n < 10 then [Digit(n)] else Decimal(n / 10) + [Digit(n % 10)]
  }

  function FromDecimal(s: string): nat
    requires forall k :: 0 <= k < |s| ==> IsDigit(s[k])
  {
    if s == "" then 0 else 10 * FromDecimal(s[..|s| - 1]) + DigitValue(s[|s| - 1])
  }

  lemma {:induction false} DecimalRoundTrip(n: nat)
    ensures FromDecimal(Decimal(n)) == n
    ensures n > 0 ==> Decimal(n)[0] != '0'
  {
    if n < 10 {
      assert [Digit(n)][..0] == "";
    } else {
      DecimalRoundTrip(n / 10);
      assert Decimal(n)[..|Decimal(n)| - 1] == Decimal(n / 10);
    }
  }

  function ReprInt(i: int): string {
    if i < 0 then "-" + Decimal(-i) else Decimal(i)
  }

  predicate AllDigits(s: string) {
    s != "" && (forall k | 0 <= k < |s| :: IsDigit(s[k])) && (s[0] == '0' ==> |s| == 1)
  }

  /** A decimal integer with an optional minus sign and no leading zeros. */
  function ReadInt(t: string): Option<int> {
    if AllDigits(t) then Some(FromDecimal(t))
    else if t != "" && t[0] == '-' && AllDigits(t[1..]) then Some(0 - FromDecimal(t[1..]))
    else None
  }

  lemma IntRoundTrip(i: int)
    ensures ReadInt(ReprInt(i)) == Some(i)
  {
    var n := if i < 0 then -i else i;
    DecimalRoundTrip(n);
    if i < 0 { assert ReprInt(i)[1..] == Decimal(n); }
  }

  // ----- Strings -----

  function HexDigit(d: nat): char
    requires d < 16
  {
    if d < 10 then '0' + d as char else 'a' + (d - 10) as char
  }

  function FromHexDigit(c: char): Option<nat> {
    if '0' <= c <= '9' then Some((c - '0') as nat)
    else if 'a' <= c <= 'f' then Some((c - 'a') as nat + 10)
    else None
  }

  predicate Ascii(s: string) {
    forall k | 0 <= k < |s| :: (s[k] as int) < 128
  }

  /** `repr` prefers single quotes, unless they would need escapes and double quotes would not. */
  function QuoteFor(s: string): char {
    if '\'' in s && '\"' !in s then '\"' else '\''
  }

  function EscapeChar(c: char, quote: char): string {
    if c == '\\' || c == quote then ['\\', c]
    else if c == '\n' then ['\\', 'n']
    else if c == '\r' then ['\\', 'r']
    else if c == '\t' then ['\\', 't']
    else if (c as int) < 32 || c as int == 127 then ['\\', 'x', HexDigit(c as int / 16), HexDigit(c as int % 16)]
    else [c]
  }

  function Escape(s: string, quote: char): string {
    if s == "" then "" else EscapeChar(s[0], quote) + Escape(s[1..], quote)
  }

  function ReprStr(s: string): string {
    [QuoteFor(s)] + Escape(s, QuoteFor(s)) + [QuoteFor(s)]
  }

  /** The character at the start of a literal body and the length of its text. Raw line ends and NUL are
      syntax errors there; of the escapes, only those that `repr` writes are read. */
  function ReadChar(t: string): Option<(char, nat)>
    requires t != ""
  {
    if t[0] == '\n' || t[0] == '\r' || t[0] == '\0' then None
    else if t[0] != '\\' then Some((t[0], 1))
    else if |t| < 2 then None
    else if t[1] == 'x' then
      if |t| < 4 || FromHexDigit(t[2]).None? || FromHexDigit(t[3]).None? then None
      else Some(((16 * FromHexDigit(t[2]).value + FromHexDigit(t[3]).value) as char, 4))
    else if t[1] == 'n' then Some(('\n', 2))
    else if t[1] == 'r' then Some(('\r', 2))
    else if t[1] == 't' then Some(('\t', 2))
    else if t[1] == '\\' || t[1] == '\'' || t[1] == '\"' then Some((t[1], 2))
    else None
  }

  /** The string literal body `t`, up to a closing quote that must end the token. */
  function ReadBody(t: string, quote: char): Option<string>
    decreases |t|
  {
    if t == "" then None
    else if t[0] == quote then (if |t| == 1 then Some("") else None)
    else
      var c := ReadChar(t);
      if c.None? || c.value.1 > |t| then None
      else
        var rest := ReadBody(t[c.value.1..], quote);
        if rest.Some? then Some([c.value.0] + rest.value) else None
  }

  lemma CharRoundTrip(c: char, quote: char, rest: string)
    requires (c as int) < 128 && quote in ['\'', '\"']
    ensures ReadChar(EscapeChar(c, quote) + rest) == Some((c, |EscapeChar(c, quote)|))
    ensures EscapeChar(c, quote)[0] != quote
  {
    if |EscapeChar(c, quote)| == 4 { HexRoundTrip(c as int); }
  }

  lemma {:induction false} BodyRoundTrip(s: string, quote: char)
    requires Ascii(s) && quote in ['\'', '\"']
    ensures ReadBody(Escape(s, quote) + [quote], quote) == Some(s)
  {
    if s != "" {
      var e, rest := EscapeChar(s[0], quote), Escape(s[1..], quote) + [quote];
      BodyRoundTrip(s[1..], quote);
      CharRoundTrip(s[0], quote, rest);
      var t := Escape(s, quote) + [quote];
      assert t == e + rest && t[|e|..] == rest;
      assert [s[0]] + s[1..] == s;
    }
  }

  lemma HexRoundTrip(n: nat)
    requires n < 128
    ensures FromHexDigit(HexDigit(n / 16)) == Some(n / 16) && FromHexDigit(HexDigit(n % 16)) == Some(n % 16)
    ensures 16 * (n / 16) + n % 16 == n
  {
  }

  // ----- Literals -----

  function Repr(l: Literal): string {
    match l
    case Int(i) => ReprInt(i)
    case Str(s) => ReprStr(s)
    case Other(text) => text
  }

  /** The part of `ast.literal_eval` that concerns plain integers and plain quoted strings. */
  function ReadLiteral(t: string): Option<Literal> {
    if t != "" && t[0] in ['\'', '\"'] then
      var body := ReadBody(t[1..], t[0]);
      if body.Some? then Some(Str(body.value)) else None
    else
      var i := ReadInt(t);
      if i.Some? then Some(Int(i.value)) else None
  }

  /** Reading undoes `repr`, quotes and escapes included. */
  lemma LiteralRoundTrip(l: Literal)
    requires !l.Other? && (l.Str? ==> Ascii(l.s))
    ensures ReadLiteral(Repr(l)) == Some(l)
  {
    match l
    case Int(i) => IntRoundTrip(i);
    case Str(s) =>
      BodyRoundTrip(s, QuoteFor(s));
      assert ReprStr(s)[1..] == Escape(s, QuoteFor(s)) + [QuoteFor(s)];
  }
}
