/** JSON string tokens (section 7 of RFC 8259): the writer's minimal escaping and the strict reader. */
module JsonStrings {
  import opened Utf8

  const QUOTE: CodePoint := '"' as int
  const BACKSLASH: CodePoint := '\\' as int

  predicate IsHigh(c: CodePoint) {
    0xD800 <= c < 0xDC00
  }

  predicate IsLow(c: CodePoint) {
    0xDC00 <= c < 0xE000
  }

  function HexDigit(d: nat): CodePoint
    requires d < 16
  {
    if d < 10 then '0' as int + d else 'a' as int + (d - 10)
  }

  function HexValue(c: CodePoint): (r: Option<nat>)
    ensures r.Some? ==> r.value < 16
  {
    if '0' as int <= c <= '9' as int then Some(c - '0' as int)
    else if 'a' as int <= c <= 'f' as int then Some(c - 'a' as int + 10)
    else if 'A' as int <= c <= 'F' as int then Some(c - 'A' as int + 10)
    else None
  }

  /** Escape the quote, the backslash and the control characters; everything else stands for itself. */
  function EscapePoint(c: CodePoint): Text {
    if c == QUOTE || c == BACKSLASH then [BACKSLASH, c]
    else if c == 8 then [BACKSLASH, 'b' as int]
    else if c == 9 then [BACKSLASH, 't' as int]
    else if c == 10 then [BACKSLASH, 'n' as int]
    else if c == 12 then [BACKSLASH, 'f' as int]
    else if c == 13 then [BACKSLASH, 'r' as int]
    else if c < 0x20 then
      [BACKSLASH, 'u' as int, '0' as int, '0' as int, HexDigit(c / 16), HexDigit(c % 16)]
    else [c]
  }

  function Escape(s: Text): Text {
    if s == [] then [] else EscapePoint(s[0]) + Escape(s[1..])
  }

  function ShowString(s: Text): Text {
    [QUOTE] + Escape(s) + [QUOTE]
  }

  /** Four hexadecimal digits. */
  function ParseHex(s: Text): (r: Option<CodePoint>)
    ensures r.Some? ==> |s| >= 4 && r.value < 0x1_0000
  {
    if |s| < 4 then None
    else
      match (HexValue(s[0]), HexValue(s[1]), HexValue(s[2]), HexValue(s[3]))
      case (Some(a), Some(b), Some(c), Some(d)) => Some(((a * 16 + b) * 16 + c) * 16 + d)
      case _ => None
  }

  /** The rest of an escape after its backslash; two escaped surrogate halves join into one code point. */
  function ParseEscape(s: Text): (r: Option<(CodePoint, Text)>)
    ensures r.Some? ==> |r.value.1| < |s|
  {
    if s == [] then None
    else if s[0] == QUOTE || s[0] == BACKSLASH || s[0] == '/' as int then Some((s[0], s[1..]))
    else if s[0] == 'b' as int then Some((8, s[1..]))
    else if s[0] == 't' as int then Some((9, s[1..]))
    else if s[0] == 'n' as int then Some((10, s[1..]))
    else if s[0] == 'f' as int then Some((12, s[1..]))
    else if s[0] == 'r' as int then Some((13, s[1..]))
    else if s[0] == 'u' as int then
      match ParseHex(s[1..])
      case None => None
      case Some(unit) =>
        var rest := s[5..];
        if IsHigh(unit) && |rest| >= 2 && rest[0] == BACKSLASH && rest[1] == 'u' as int
           && ParseHex(rest[2..]).Some? && IsLow(ParseHex(rest[2..]).value)
        then Some((0x1_0000 + (unit - 0xD800) * 1024 + (ParseHex(rest[2..]).value - 0xDC00), rest[6..]))
        else Some((unit, rest))
    else None
  }

  /** A string token after its opening quote: its text, and what follows the closing quote. */
  function ParseString(s: Text): (r: Option<(Text, Text)>)
    ensures r.Some? ==> |r.value.1| < |s|
    decreases |s|
  {
    if s == [] then None
    else if s[0] == QUOTE then Some(([], s[1..]))
    else if s[0] == BACKSLASH then
      match ParseEscape(s[1..])
      case None => None
      case Some((c, rest)) => Prepend(c, ParseString(rest))
    else if s[0] < 0x20 then None
    else Prepend(s[0], ParseString(s[1..]))
  }

  function Prepend(c: CodePoint, tail: Option<(Text, Text)>): (r: Option<(Text, Text)>)
    ensures r.Some? <==> tail.Some?
    ensures r.Some? ==> r.value == ([c] + tail.value.0, tail.value.1)
  {
    match tail
    case None => None
    case Some((text, rest)) => Some(([c] + text, rest))
  }
}
