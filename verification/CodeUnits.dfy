/** UTF-16 text as JavaScript sees it: a sequence of 16-bit code units. */
module CodeUnits {
  type CodeUnit = n: nat | n < 0x1_0000
  type Text = seq<CodeUnit>

  const TAB: CodeUnit := 0x09
  const LINE_FEED: CodeUnit := 0x0A
  const CARRIAGE_RETURN: CodeUnit := 0x0D
  const SPACE: CodeUnit := 0x20
  const QUOTE: CodeUnit := 0x22
  const COMMA: CodeUnit := 0x2C
  const SLASH: CodeUnit := 0x2F
  const COLON: CodeUnit := 0x3A
  const OPEN_BRACKET: CodeUnit := 0x5B
  const BACKSLASH: CodeUnit := 0x5C
  const CLOSE_BRACKET: CodeUnit := 0x5D
  const LETTER_B: CodeUnit := 0x62
  const LETTER_F: CodeUnit := 0x66
  const LETTER_N: CodeUnit := 0x6E
  const LETTER_R: CodeUnit := 0x72
  const LETTER_T: CodeUnit := 0x74
  const LETTER_U: CodeUnit := 0x75
  const OPEN_BRACE: CodeUnit := 0x7B
  const CLOSE_BRACE: CodeUnit := 0x7D

  predicate IsWhitespace(c: CodeUnit) {
    c == SPACE || c == LINE_FEED || c == CARRIAGE_RETURN || c == TAB
  }

  predicate IsHex(c: CodeUnit) {
    0x30 <= c <= 0x39 || 0x61 <= c <= 0x66 || 0x41 <= c <= 0x46
  }

  /** The units that stop the plain-text runs of a string: a backslash or a control character. */
  predicate IsContentEscape(c: CodeUnit) {
    c == BACKSLASH || c < SPACE
  }

  function HexDigit(c: CodeUnit): (d: nat)
    requires IsHex(c)
    ensures d < 16
  {
    if c <= 0x39 then c - 0x30 else if c <= 0x46 then c - 0x41 + 10 else c - 0x61 + 10
  }

  predicate AllHex(s: Text) {
    forall i | 0 <= i < |s| :: IsHex(s[i])
  }

  function HexUnit(s: Text): CodeUnit
    requires |s| == 4 && AllHex(s)
  {
    ((HexDigit(s[0]) * 16 + HexDigit(s[1])) * 16 + HexDigit(s[2])) * 16 + HexDigit(s[3])
  }

  /** The concatenation of the fragments of a text. */
  function Concat(fragments: seq<Text>): Text {
    if fragments == [] then [] else Concat(fragments[..|fragments| - 1]) + fragments[|fragments| - 1]
  }
}
