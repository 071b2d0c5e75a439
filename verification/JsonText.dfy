/** The launcher's hand-written JSON string escaping against the string grammar of
    section 7 of RFC 8259. Every evidence file of the launcher is glued together
    from such strings.
 */
module JsonText {
  import opened Types

  /** A UTF-16 code unit. */
  type Symbol = nat
  type Text = seq<Symbol>

  const QUOTE: Symbol := 0x22
  const SLASH: Symbol := 0x2F
  const BACKSLASH: Symbol := 0x5C
  const LOWER_A: Symbol := 0x61
  const LOWER_B: Symbol := 0x62
  const LOWER_F: Symbol := 0x66
  const LOWER_N: Symbol := 0x6E
  const LOWER_R: Symbol := 0x72
  const LOWER_T: Symbol := 0x74
  const LOWER_U: Symbol := 0x75

  // ---------------------------------------------------------------- the reader

  datatype Scan = Scan(value: Text, rest: Text)

  function HexValue(c: Symbol): Option<nat> {
    if 0x30 <= c <= 0x39 then Some(c - 0x30)
    else if 0x41 <= c <= 0x46 then Some(c - 0x41 + 10)
    else if 0x61 <= c <= 0x66 then Some(c - 0x61 + 10)
    else None
  }

  /** The symbol a two-character escape stands for. */
  function ShortEscape(c: Symbol): Option<Symbol> {
    if c == QUOTE || c == BACKSLASH || c == SLASH then Some(c)
    else if c == LOWER_B then Some(0x08)
    else if c == LOWER_F then Some(0x0C)
    else if c == LOWER_N then Some(0x0A)
    else if c == LOWER_R then Some(0x0D)
    else if c == LOWER_T then Some(0x09)
    else None
  }

  function LongEscape(s: Text): Option<Symbol>
    requires |s| == 4
  {
    match (HexValue(s[0]), HexValue(s[1]), HexValue(s[2]), HexValue(s[3]))
    case (Some(a), Some(b), Some(c), Some(d)) => Some(((a * 16 + b) * 16 + c) * 16 + d)
    case _ => None
  }

  function Cons(c: Symbol, tail: Option<Scan>): Option<Scan> {
    match tail
    case Some(scan) => Some(Scan([c] + scan.value, scan.rest))
    case None => None
  }

  /** Reads a string whose opening quote is gone. */
  function ReadBody(s: Text): Option<Scan>
    decreases |s|
  {
    if s == [] || s[0] < 0x20 then None
    else if s[0] == QUOTE then Some(Scan([], s[1..]))
    else if s[0] != BACKSLASH then Cons(s[0], ReadBody(s[1..]))
    else if |s| >= 2 && ShortEscape(s[1]).Some? then Cons(ShortEscape(s[1]).value, ReadBody(s[2..]))
    else if |s| >= 6 && s[1] == LOWER_U && LongEscape(s[2..6]).Some? then
      Cons(LongEscape(s[2..6]).value, ReadBody(s[6..]))
    else None
  }

  /** Reads one JSON string at the front of a text and gives back what follows it. */
  function ReadString(s: Text): Option<Scan> {
    if s != [] && s[0] == QUOTE then ReadBody(s[1..]) else None
  }

  // ---------------------------------------------------------------- the writer

  function HexDigit(n: nat): Symbol
    requires n < 16
  {
    if n < 10 then 0x30 + n else LOWER_A + n - 10
  }

  function EscapeSymbol(c: Symbol): Text {
    if c == QUOTE then [BACKSLASH, QUOTE]
    else if c == BACKSLASH then [BACKSLASH, BACKSLASH]
    else if c == 0x08 then [BACKSLASH, LOWER_B]
    else if c == 0x0C then [BACKSLASH, LOWER_F]
    else if c == 0x0A then [BACKSLASH, LOWER_N]
    else if c == 0x0D then [BACKSLASH, LOWER_R]
    else if c == 0x09 then [BACKSLASH, LOWER_T]
    else if c < 0x20 then [BACKSLASH, LOWER_U, 0x30, 0x30, HexDigit(c / 16), HexDigit(c % 16)]
    else [c]
  }

  function EscapeText(value: Text): Text {
    if value == [] then [] else EscapeSymbol(value[0]) + EscapeText(value[1..])
  }

  function Literal(value: Option<Text>): Text {
    match value
    case None => [LOWER_N, LOWER_U, 0x6C, 0x6C]
    case Some(text) => [QUOTE] + EscapeText(text) + [QUOTE]
  }

  lemma {:induction false} EscapeTextAppend(value: Text, c: Symbol)
    ensures EscapeText(value + [c]) == EscapeText(value) + EscapeSymbol(c)
    decreases |value|
  {
    var longer := value + [c];
    if value == [] {
      assert longer[1..] == [] && EscapeText(longer[1..]) == [];
    } else {
      var tail := value[1..];
      assert longer[0] == value[0] && longer[1..] == tail + [c];
      EscapeTextAppend(tail, c);
      Regroup(EscapeSymbol(value[0]), EscapeText(tail), EscapeSymbol(c));
    }
  }

  lemma Regroup(a: Text, b: Text, c: Text)
    ensures (a + b) + c == a + (b + c)
  {
  }

  method JsonString(value: Option<Text>) returns (output: Text)
    ensures output == Literal(value)
  {
    if value.None? {
      return [LOWER_N, LOWER_U, 0x6C, 0x6C];
    }
    var text := value.value;
    output := [QUOTE];
    for i := 0 to |text|
      invariant output == [QUOTE] + EscapeText(text[..i])
    {
      var c := text[i];
      EscapeTextAppend(text[..i], c);
      assert text[..i + 1] == text[..i] + [c];
      output := output + EscapeSymbol(c);
    }
    assert text[..|text|] == text;
    output := output + [QUOTE];
  }

  // -------------------------------------------------------------- main results

  lemma {:induction false} ReadEscapedSymbol(c: Symbol, rest: Text)
    ensures ReadBody(EscapeSymbol(c) + rest) == Cons(c, ReadBody(rest))
  {
    var escape := EscapeSymbol(c);
    var s := escape + rest;
    assert s[|escape|..] == rest;
    if |escape| == 6 {
      assert s[2..6] == escape[2..6];
    }
  }

  lemma {:induction false} ReadEscapedText(value: Text, rest: Text)
    ensures ReadBody(EscapeText(value) + [QUOTE] + rest) == Some(Scan(value, rest))
  {
    if value == [] {
      assert EscapeText(value) + [QUOTE] + rest == [QUOTE] + rest;
      assert ([QUOTE] + rest)[1..] == rest;
    } else {
      var tail := EscapeText(value[1..]) + [QUOTE] + rest;
      assert EscapeText(value) + [QUOTE] + rest == EscapeSymbol(value[0]) + tail;
      ReadEscapedSymbol(value[0], tail);
      ReadEscapedText(value[1..], rest);
      assert [value[0]] + value[1..] == value;
    }
  }

  /** For every string, and whatever text follows it, a reader finds exactly that
      string and stops exactly behind the closing quote. */
  lemma JsonStringRoundTrip(value: Text, rest: Text)
    ensures ReadString(Literal(Some(value)) + rest) == Some(Scan(value, rest))
  {
    ReadEscapedText(value, rest);
    OpenQuote(EscapeText(value), rest);
  }

  lemma OpenQuote(body: Text, rest: Text)
    ensures var s := [QUOTE] + body + [QUOTE] + rest; s[0] == QUOTE && s[1..] == body + [QUOTE] + rest
  {
  }

  predicate IsPrintable(s: Text) {
    forall i | 0 <= i < |s| :: s[i] >= 0x20
  }

  lemma SymbolIsPrintable(c: Symbol)
    ensures IsPrintable(EscapeSymbol(c))
  {
  }

  lemma {:induction false} TextIsPrintable(value: Text)
    ensures IsPrintable(EscapeText(value))
  {
    if value != [] {
      SymbolIsPrintable(value[0]);
      TextIsPrintable(value[1..]);
      Both(EscapeSymbol(value[0]), EscapeText(value[1..]));
    }
  }

  lemma Both(a: Text, b: Text)
    requires IsPrintable(a) && IsPrintable(b)
    ensures IsPrintable(a + b)
  {
  }

  lemma {:induction false} NoEarlyEnd(value: Text)
    ensures ReadBody(EscapeText(value)) == None
  {
    if value != [] {
      NoEarlyEnd(value[1..]);
      ReadEscapedSymbol(value[0], EscapeText(value[1..]));
    }
  }

  /** No control character is ever written, and the reader cannot stop early. */
  lemma JsonStringIsPrintable(value: Text)
    ensures forall i :: 0 <= i < |EscapeText(value)| ==> EscapeText(value)[i] >= 0x20
    ensures ReadBody(EscapeText(value)) == None
  {
    TextIsPrintable(value);
    NoEarlyEnd(value);
  }

  /** Two strings never share a literal, and null is no string's literal. */
  lemma JsonStringInjective(left: Option<Text>, right: Option<Text>)
    ensures Literal(left) == Literal(right) <==> left == right
  {
    if left.Some? && right.Some? {
      JsonStringRoundTrip(left.value, []);
      JsonStringRoundTrip(right.value, []);
    } else if left.Some? != right.Some? {
      assert Literal(left)[0] != Literal(right)[0];
    }
  }
}
