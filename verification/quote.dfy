/**
  Go's `strconv.Quote`, which the Identifier handler of AstReader applies to
  the identifier text before storing it as the `name` attribute, together with
  a decoder for the literals `Quote` produces. The round trip through that
  decoder, `Unquote(Quote(s)) == Some(s)`, is what makes a stored `name`
  attribute a faithful record of the identifier. The decoder works on
  characters, not bytes: a `\xHH` escape stands for the character with that
  code, where Go's `strconv.Unquote` would give the raw byte.

  Characters are Unicode scalar values. ASCII characters are escaped exactly
  as Go does; every non-ASCII character is kept as it is, i.e. treated as
  printable.
 */
module GoQuote {
  import opened Optional

  const LowerHex: string := "0123456789abcdef"

  /** `strconv.IsPrint` restricted to ASCII: space through tilde. */
  predicate IsPrintableAscii(c: char)
  {
    ' ' <= c <= '~'
  }

  /** A character `Quote` writes as it is: printable ASCII other than the double quote and the backslash. */
  predicate IsPlain(c: char)
  {
    IsPrintableAscii(c) && c != '"' && c != '\\'
  }

  predicate IsAscii(c: char)
  {
    c as int < 128
  }

  /** The escape letter Go uses for the seven control characters that have one. */
  function ControlLetter(c: char): Option<char>
  {
    match c as int
    case 7 => Some('a')
    case 8 => Some('b')
    case 12 => Some('f')
    case 10 => Some('n')
    case 13 => Some('r')
    case 9 => Some('t')
    case 11 => Some('v')
    case _ => None
  }

  /** How one character is written inside the double quotes. */
  function EscapeChar(c: char): string
  {
    if c == '"' || c == '\\' then ['\\', c]
    else if IsPrintableAscii(c) || !IsAscii(c) then [c]
    else if ControlLetter(c).Some? then ['\\', ControlLetter(c).value]
    else ['\\', 'x', LowerHex[c as int / 16], LowerHex[c as int % 16]]
  }

  lemma EscapeCharPrintable(c: char)
    ensures |EscapeChar(c)| >= 1
    ensures IsAscii(c) ==> forall j :: 0 <= j < |EscapeChar(c)| ==> IsPrintableAscii(EscapeChar(c)[j])
  {
  }

  /** The text between the quotes. */
  function QuoteBody(s: string): (b: string)
    ensures |b| >= |s|
    ensures (forall i :: 0 <= i < |s| ==> IsAscii(s[i])) ==>
              forall j :: 0 <= j < |b| ==> IsPrintableAscii(b[j])
    ensures (forall i :: 0 <= i < |s| ==> IsPlain(s[i])) ==> b == s
  {
    if |s| == 0 then []
    else
      EscapeCharPrintable(s[0]);
      EscapeChar(s[0]) + QuoteBody(s[1..])
  }

  function Quote(s: string): (q: string)
    ensures |q| >= |s| + 2
    ensures q[0] == '"' && q[|q| - 1] == '"'
    ensures (forall i :: 0 <= i < |s| ==> IsAscii(s[i])) ==>
              forall j :: 0 <= j < |q| ==> IsPrintableAscii(q[j])
    ensures (forall i :: 0 <= i < |s| ==> IsPlain(s[i])) ==> q == "\"" + s + "\""
  {
    "\"" + QuoteBody(s) + "\""
  }

  function HexValue(c: char): Option<nat>
  {
    if '0' <= c <= '9' then Some(c as int - '0' as int)
    else if 'a' <= c <= 'f' then Some(c as int - 'a' as int + 10)
    else if 'A' <= c <= 'F' then Some(c as int - 'A' as int + 10)
    else None
  }

  /** The character an escape letter stands for, or `None` if the letter is not an escape. */
  function EscapedChar(letter: char): Option<char>
  {
    match letter
    case 'a' => Some(7 as char)
    case 'b' => Some(8 as char)
    case 'f' => Some(12 as char)
    case 'n' => Some(10 as char)
    case 'r' => Some(13 as char)
    case 't' => Some(9 as char)
    case 'v' => Some(11 as char)
    case '\\' => Some('\\')
    case '"' => Some('"')
    case _ => None
  }

  /**
    Decodes the text between the quotes. A bare `"` or newline, a dangling
    backslash, an unknown escape or a malformed `\x` escape is a syntax error.
   */
  function DecodeBody(t: string): Option<string>
    decreases |t|
  {
    if |t| == 0 then Some([])
    else if t[0] == '"' || t[0] == '\n' then None
    else if t[0] != '\\' then
      match DecodeBody(t[1..])
      case None => None
      case Some(rest) => Some([t[0]] + rest)
    else if |t| < 2 then None
    else if t[1] == 'x' then
      if |t| < 4 || HexValue(t[2]).None? || HexValue(t[3]).None? then None
      else
        match DecodeBody(t[4..])
        case None => None
        case Some(rest) => Some([(HexValue(t[2]).value * 16 + HexValue(t[3]).value) as char] + rest)
    else if EscapedChar(t[1]).None? then None
    else
      match DecodeBody(t[2..])
      case None => None
      case Some(rest) => Some([EscapedChar(t[1]).value] + rest)
  }

  /** Decodes a double-quoted literal of the form `Quote` produces. */
  function Unquote(q: string): Option<string>
  {
    if |q| >= 2 && q[0] == '"' && q[|q| - 1] == '"' then DecodeBody(q[1..|q| - 1]) else None
  }

  lemma HexDigitsRoundTrip(c: char)
    requires c as int < 256
    ensures HexValue(LowerHex[c as int / 16]) == Some(c as int / 16)
    ensures HexValue(LowerHex[c as int % 16]) == Some(c as int % 16)
  {
    var d := c as int / 16;
    var e := c as int % 16;
    assert LowerHex[d] as int - (if d < 10 then '0' as int else 'a' as int - 10) == d by {
      assert d < 16;
    }
    assert LowerHex[e] as int - (if e < 10 then '0' as int else 'a' as int - 10) == e;
  }

  /** Decoding an escaped character followed by `t` yields that character followed by the decoding of `t`. */
  lemma DecodeEscapeChar(c: char, t: string)
    ensures DecodeBody(EscapeChar(c) + t) ==
              match DecodeBody(t)
              case None => None
              case Some(rest) => Some([c] + rest)
  {
    var e := EscapeChar(c);
    var u := e + t;
    if c == '"' || c == '\\' {
      assert u[2..] == t;
    } else if IsPrintableAscii(c) || !IsAscii(c) {
      assert u[1..] == t;
    } else if ControlLetter(c).Some? {
      assert u[2..] == t;
    } else {
      assert u[4..] == t;
      HexDigitsRoundTrip(c);
      assert (c as int / 16) * 16 + c as int % 16 == c as int;
    }
  }

  lemma {:induction false} DecodeQuoteBody(s: string)
    ensures DecodeBody(QuoteBody(s)) == Some(s)
  {
    if |s| == 0 {
    } else {
      DecodeQuoteBody(s[1..]);
      DecodeEscapeChar(s[0], QuoteBody(s[1..]));
      assert [s[0]] + s[1..] == s;
    }
  }

  /** Decoding a quoted literal with `Unquote` gives back the text `Quote` was applied to. */
  lemma UnquoteQuote(s: string)
    ensures Unquote(Quote(s)) == Some(s)
  {
    var q := Quote(s);
    assert q[1..|q| - 1] == QuoteBody(s);
    DecodeQuoteBody(s);
  }
}
