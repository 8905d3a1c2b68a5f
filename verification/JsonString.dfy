/** The body of a JSON string, section 7 of RFC 8259: tokens, incremental decoding and the grammar. */
module JsonString {
  import opened CodeUnits
  import opened Options
  import opened Sequences

  /** What the text at one position of a string body decodes to. */
  datatype Token =
    | Unit(unit: CodeUnit, width: nat)
    | Wait // an escape whose remaining units have not arrived
    | Bad

  function SimpleEscape(letter: CodeUnit): Option<CodeUnit> {
    if letter == QUOTE || letter == BACKSLASH || letter == SLASH then Some(letter)
    else if letter == LETTER_B then Some(0x08)
    else if letter == LETTER_F then Some(0x0C)
    else if letter == LETTER_N then Some(LINE_FEED)
    else if letter == LETTER_R then Some(CARRIAGE_RETURN)
    else if letter == LETTER_T then Some(TAB)
    else None
  }

  /** The token at `at` in a body ending before `end`; an `open` body may still grow past `end`. */
  function TokenAt(text: Text, at: nat, end: nat, open: bool): (t: Token)
    requires at < end <= |text|
    ensures t.Unit? ==> 0 < t.width <= end - at
  {
    var c := text[at];
    if c == BACKSLASH then
      if at + 1 >= end then
        if open then Wait else Bad
      else if text[at + 1] == LETTER_U then
        var hex := text[at + 2..if end <= at + 6 then end else at + 6];
        if !AllHex(hex) then Bad
        else if |hex| < 4 then if open then Wait else Bad
        else Unit(HexUnit(hex), 6)
      else
        match SimpleEscape(text[at + 1])
        case Some(unit) => Unit(unit, 2)
        case None => Bad
    else if c < SPACE then Bad
    else Unit(c, 1)
  }

  /** Decode the body from `at` up to its end, or to the first escape that is unfinished or wrong. */
  function Decode(text: Text, at: nat, end: nat, open: bool): Text
    requires at <= end <= |text|
    decreases end - at
  {
    if at == end then []
    else
      match TokenAt(text, at, end, open)
      case Unit(unit, width) => [unit] + Decode(text, at + width, end, open)
      case _ => []
  }

  /** Whole tokens lead from `start` to `at`. */
  predicate Boundary(text: Text, start: nat, at: nat)
    requires start <= at <= |text|
    decreases at - start
  {
    start == at ||
    var t := TokenAt(text, start, at, false);
    t.Unit? && Boundary(text, start + t.width, at)
  }

  /** The units decoded between two token boundaries. */
  function Decoded(text: Text, start: nat, at: nat): Text
    requires start <= at <= |text|
  {
    Decode(text, start, at, false)
  }

  /** A finished token does not depend on what follows it. */
  lemma TokenStable(text: Text, at: nat, end: nat, open: bool, end': nat, open': bool)
    requires at < end <= |text| && at < end' <= |text|
    requires TokenAt(text, at, end, open).Unit?
    requires at + TokenAt(text, at, end, open).width <= end'
    ensures TokenAt(text, at, end', open') == TokenAt(text, at, end, open)
  {
    var t := TokenAt(text, at, end, open);
    if text[at] == BACKSLASH && text[at + 1] == LETTER_U {
      assert t.width == 6;
    }
  }

  /** A wrong escape stays wrong as an open body grows, and when it closes. */
  lemma BadStable(text: Text, text': Text, at: nat, end: nat, end': nat, open': bool)
    requires at < end <= |text| && end <= end' <= |text'| && text[..end] == text'[..end]
    requires TokenAt(text, at, end, true).Bad?
    ensures TokenAt(text', at, end', open').Bad?
  {
    assert text[at] == text[..end][at] == text'[at];
    if text[at] == BACKSLASH {
      assert text[at + 1] == text[..end][at + 1] == text'[at + 1];
      if text[at + 1] == LETTER_U {
        var stop := if end <= at + 6 then end else at + 6;
        var hex := text[at + 2..stop];
        var i :| 0 <= i < |hex| && !IsHex(hex[i]);
        assert hex[i] == text[..end][at + 2 + i] == text'[at + 2 + i];
        var hex' := text'[at + 2..if end' <= at + 6 then end' else at + 6];
        assert hex'[i] == hex[i];
      }
    }
  }

  /** Token boundaries and their decoding depend only on the text up to the later boundary. */
  lemma {:induction false} BoundaryLocal(text: Text, text': Text, start: nat, at: nat)
    requires start <= at <= |text| && at <= |text'| && text[..at] == text'[..at]
    ensures Boundary(text, start, at) == Boundary(text', start, at)
    ensures Decoded(text, start, at) == Decoded(text', start, at)
    decreases at - start
  {
    if start < at {
      TokenLocal(text, text', start, at, false);
      var t := TokenAt(text, start, at, false);
      if t.Unit? {
        BoundaryLocal(text, text', start + t.width, at);
      }
    }
  }

  lemma TokenLocal(text: Text, text': Text, at: nat, end: nat, open: bool)
    requires at < end <= |text| && end <= |text'| && text[..end] == text'[..end]
    ensures TokenAt(text, at, end, open) == TokenAt(text', at, end, open)
  {
    assert text[at] == text[..end][at] == text'[at];
    if at + 1 < end {
      assert text[at + 1] == text[..end][at + 1] == text'[at + 1];
      var stop := if end <= at + 6 then end else at + 6;
      if at + 2 <= stop {
        SliceOfSlice(text, 0, end, at + 2, stop);
        SliceOfSlice(text', 0, end, at + 2, stop);
        assert text[0..end] == text[..end] && text'[0..end] == text'[..end];
      }
    }
  }

  lemma {:induction false} DecodeLocal(text: Text, text': Text, at: nat, end: nat, open: bool)
    requires at <= end <= |text| && end <= |text'| && text[..end] == text'[..end]
    ensures Decode(text, at, end, open) == Decode(text', at, end, open)
    decreases end - at
  {
    if at < end {
      TokenLocal(text, text', at, end, open);
      var t := TokenAt(text, at, end, open);
      if t.Unit? {
        DecodeLocal(text, text', at + t.width, end, open);
      }
    }
  }

  /** A boundary reached on the way to another one has a finished token. */
  lemma {:induction false} BoundaryBetween(text: Text, start: nat, at: nat, later: nat)
    requires start <= at < later <= |text| && Boundary(text, start, at) && Boundary(text, start, later)
    ensures TokenAt(text, at, later, false).Unit?
    decreases at - start
  {
    if start < at {
      var s := TokenAt(text, start, at, false);
      TokenStable(text, start, at, false, later, false);
      BoundaryBetween(text, start + s.width, at, later);
    }
  }

  /** Decoding can be resumed from any token boundary. */
  lemma {:induction false} DecodeResumes(text: Text, start: nat, at: nat, end: nat, open: bool)
    requires start <= at <= end <= |text| && Boundary(text, start, at)
    ensures Decode(text, start, end, open) == Decoded(text, start, at) + Decode(text, at, end, open)
    decreases at - start
  {
    if start < at {
      var t := TokenAt(text, start, at, false);
      TokenStable(text, start, at, false, end, open);
      DecodeResumes(text, start + t.width, at, end, open);
    }
  }

  /** One more token reaches the next boundary. */
  lemma {:induction false} BoundaryStep(text: Text, start: nat, at: nat, end: nat, open: bool)
    requires start <= at < end <= |text| && Boundary(text, start, at)
    requires TokenAt(text, at, end, open).Unit?
    ensures var t := TokenAt(text, at, end, open);
            && Boundary(text, start, at + t.width)
            && Decoded(text, start, at + t.width) == Decoded(text, start, at) + [t.unit]
    decreases at - start
  {
    var t := TokenAt(text, at, end, open);
    var next := at + t.width;
    TokenStable(text, at, end, open, next, false);
    if start == at {
      assert Decode(text, next, next, false) == [];
    } else {
      var s := TokenAt(text, start, at, false);
      TokenStable(text, start, at, false, next, false);
      BoundaryStep(text, start + s.width, at, end, open);
    }
  }

  lemma PlainToken(text: Text, at: nat, end: nat)
    requires at < end <= |text| && !IsContentEscape(text[at])
    ensures TokenAt(text, at, end, false) == Unit(text[at], 1)
  {
  }

  /** A run without backslashes and control characters is decoded as itself. */
  lemma {:induction false} PlainRun(text: Text, start: nat, at: nat, next: nat)
    requires start <= at <= next <= |text| && Boundary(text, start, at)
    requires forall i | at <= i < next :: !IsContentEscape(text[i])
    ensures Boundary(text, start, next)
    ensures Decoded(text, start, next) == Decoded(text, start, at) + text[at..next]
    decreases next - at
  {
    hide TokenAt, Boundary, Decode;
    if at < next {
      PlainToken(text, at, next);
      BoundaryStep(text, start, at, next, false);
      PlainRun(text, start, at + 1, next);
      assert text[at..next] == [text[at]] + text[at + 1..next];
    } else {
      assert text[at..next] == [];
    }
  }

  /** No boundary lies beyond a wrong escape that is itself at a boundary. */
  lemma {:induction false} BadStops(text: Text, start: nat, bad: nat, end: nat, open: bool, at: nat)
    requires start <= bad < end <= |text| && Boundary(text, start, bad)
    requires TokenAt(text, bad, end, open).Bad?
    requires start <= at <= end && Boundary(text, start, at)
    ensures at <= bad
    decreases bad - start
  {
    if bad < at {
      var s := TokenAt(text, start, at, false);
      TokenStable(text, start, at, false, end, open);
      if start < bad {
        var s' := TokenAt(text, start, bad, false);
        TokenStable(text, start, bad, false, end, open);
        BadStops(text, start + s.width, bad, end, open, at);
      }
    }
  }

  /** The units of an open body so far are exactly the closed decoding up to the last boundary reached. */
  lemma {:induction false} DecodeStops(text: Text, start: nat, at: nat, end: nat, open: bool)
    requires start <= at <= end <= |text| && Boundary(text, start, at)
    requires at == end || !TokenAt(text, at, end, open).Unit?
    ensures Decode(text, start, end, open) == Decoded(text, start, at)
  {
    DecodeResumes(text, start, at, end, open);
  }

  // --- the grammar of section 7 ---------------------------------------------------------------

  /** The two-character escapes: the letter behind the backslash and the unit it stands for. */
  const ESCAPES: map<CodeUnit, CodeUnit> := map[
    '"' as int := 0x22, '\\' as int := 0x5C, '/' as int := 0x2F, 'b' as int := 0x08,
    'f' as int := 0x0C, 'n' as int := 0x0A, 'r' as int := 0x0D, 't' as int := 0x09]

  /** A hexadecimal digit in either letter case. */
  function Digit(d: nat, upper: bool): CodeUnit
    requires d < 16
  {
    (if upper then "0123456789ABCDEF" else "0123456789abcdef")[d] as int
  }

  /** The four digits of a unit; every digit has its own letter case. */
  function FourDigits(unit: CodeUnit, upper: seq<bool>): (digits: Text)
    requires |upper| == 4
    ensures |digits| == 4
  {
    [Digit(unit / 0x1000, upper[0]), Digit(unit / 0x100 % 16, upper[1]),
     Digit(unit / 0x10 % 16, upper[2]), Digit(unit % 16, upper[3])]
  }

  /** One `char` production: unescaped, a two-character escape, or `\u` with the four digits of a unit. */
  datatype Piece = Plain(c: CodeUnit) | Simple(letter: CodeUnit) | Hex(unit: CodeUnit, upper: seq<bool>)
  {
    predicate Valid() {
      match this
      case Plain(c) => c >= 0x20 && c != '"' as int && c != '\\' as int
      case Simple(letter) => letter in ESCAPES
      case Hex(_, upper) => |upper| == 4
    }

    function Printed(): (s: Text)
      ensures s != []
    {
      match this
      case Plain(c) => [c]
      case Simple(letter) => ['\\' as int, letter]
      case Hex(unit, upper) => ['\\' as int, 'u' as int] + if |upper| == 4 then FourDigits(unit, upper) else []
    }

    /** The unit a valid piece stands for; the value for other pieces is of no interest. */
    function Meaning(): CodeUnit {
      match this
      case Plain(c) => c
      case Simple(letter) => if letter in ESCAPES then ESCAPES[letter] else letter
      case Hex(unit, _) => unit
    }
  }

  lemma EscapeRead(letter: CodeUnit)
    ensures SimpleEscape(letter) == if letter in ESCAPES then Some(ESCAPES[letter]) else None
    ensures LETTER_U !in ESCAPES
  {
  }

  lemma EscapeLetter(letter: CodeUnit)
    requires letter in ESCAPES
    ensures letter >= SPACE
  {
  }

  lemma DigitRead(d: nat, upper: bool)
    requires d < 16
    ensures IsHex(Digit(d, upper)) && HexDigit(Digit(d, upper)) == d
  {
  }

  lemma DigitPrinted(c: CodeUnit) returns (upper: bool)
    requires IsHex(c)
    ensures Digit(HexDigit(c), upper) == c
  {
    upper := c <= 0x46;
  }

  /** Four digits in any letter case are read as the unit they were printed for. */
  lemma HexRead(unit: CodeUnit, upper: seq<bool>)
    requires |upper| == 4
    ensures AllHex(FourDigits(unit, upper)) && HexUnit(FourDigits(unit, upper)) == unit
  {
    hide Digit, HexDigit, IsHex;
    Nibbles(unit);
    var a, b, c, d := unit / 0x1000, unit / 0x100 % 16, unit / 0x10 % 16, unit % 16;
    DigitRead(a, upper[0]);
    DigitRead(b, upper[1]);
    DigitRead(c, upper[2]);
    DigitRead(d, upper[3]);
    Read([Digit(a, upper[0]), Digit(b, upper[1]), Digit(c, upper[2]), Digit(d, upper[3])], a, b, c, d);
  }

  lemma Nibbles(unit: CodeUnit)
    ensures unit / 0x1000 < 16
    ensures ((unit / 0x1000 * 16 + unit / 0x100 % 16) * 16 + unit / 0x10 % 16) * 16 + unit % 16 == unit
  {
    var a, b, c := unit / 0x10, unit / 0x100, unit / 0x1000;
    assert unit == a * 16 + unit % 16 && a == b * 16 + a % 16 && b == c * 16 + b % 16;
  }

  lemma Read(digits: Text, a: nat, b: nat, c: nat, d: nat)
    requires |digits| == 4 && AllHex(digits)
    requires HexDigit(digits[0]) == a && HexDigit(digits[1]) == b
    requires HexDigit(digits[2]) == c && HexDigit(digits[3]) == d
    ensures HexUnit(digits) == ((a * 16 + b) * 16 + c) * 16 + d
  {
    hide HexDigit, IsHex;
  }

  /** All digits that are read are printed for the unit they are read as. */
  lemma HexPrinted(digits: Text) returns (upper: seq<bool>)
    requires |digits| == 4 && AllHex(digits)
    ensures |upper| == 4 && FourDigits(HexUnit(digits), upper) == digits
  {
    hide Digit, HexDigit, IsHex;
    var a := DigitPrinted(digits[0]);
    var b := DigitPrinted(digits[1]);
    var c := DigitPrinted(digits[2]);
    var d := DigitPrinted(digits[3]);
    upper := [a, b, c, d];
  }

  predicate ValidPieces(pieces: seq<Piece>) {
    forall p <- pieces :: p.Valid()
  }

  function PrintPieces(pieces: seq<Piece>): Text {
    if pieces == [] then [] else pieces[0].Printed() + PrintPieces(pieces[1..])
  }

  function PiecesMeaning(pieces: seq<Piece>): (t: Text)
    ensures |t| == |pieces|
  {
    if pieces == [] then [] else [pieces[0].Meaning()] + PiecesMeaning(pieces[1..])
  }

  /** `JSON.parse` of the body between two quotes. */
  function ParseString(raw: Text): Option<Text> {
    if raw == [] then Some([])
    else if raw[0] == QUOTE then None
    else
      match TokenAt(raw, 0, |raw|, false)
      case Unit(unit, width) =>
        (match ParseString(raw[width..])
         case Some(rest) => Some([unit] + rest)
         case None => None)
      case _ => None
  }

  /** Parsing accepts exactly the sentences of the grammar and returns what they mean. */
  lemma ParseStringIsGrammar(raw: Text, value: Text)
    ensures ParseString(raw) == Some(value) <==>
            exists pieces :: ValidPieces(pieces) && PrintPieces(pieces) == raw && PiecesMeaning(pieces) == value
  {
    if ParseString(raw) == Some(value) {
      var pieces := ParseSound(raw);
    }
    forall pieces | ValidPieces(pieces) && PrintPieces(pieces) == raw && PiecesMeaning(pieces) == value
      ensures ParseString(raw) == Some(value)
    {
      ParsePrinted(pieces);
    }
  }

  lemma {:induction false} ParseSound(raw: Text) returns (pieces: seq<Piece>)
    requires ParseString(raw).Some?
    ensures ValidPieces(pieces) && PrintPieces(pieces) == raw && PiecesMeaning(pieces) == ParseString(raw).value
    decreases |raw|
  {
    hide TokenAt, ESCAPES, FourDigits, Piece.Printed, Piece.Meaning, Piece.Valid;
    if raw == [] {
      pieces := [];
    } else {
      var p := FirstPiece(raw);
      var rest := ParseSound(raw[|p.Printed()|..]);
      pieces := [p] + rest;
      assert pieces[1..] == rest;
    }
  }

  lemma FirstPiece(raw: Text) returns (p: Piece)
    requires raw != [] && raw[0] != QUOTE && TokenAt(raw, 0, |raw|, false).Unit?
    ensures p.Valid() && p.Printed() <= raw
    ensures TokenAt(raw, 0, |raw|, false) == Unit(p.Meaning(), |p.Printed()|)
  {
    if raw[0] != BACKSLASH {
      p := Plain(raw[0]);
    } else if raw[1] == LETTER_U {
      var upper := HexPrinted(raw[2..6]);
      p := Hex(HexUnit(raw[2..6]), upper);
      assert raw[..6] == [BACKSLASH, LETTER_U] + raw[2..6];
    } else {
      EscapeRead(raw[1]);
      p := Simple(raw[1]);
      assert raw[..2] == p.Printed();
    }
  }

  lemma {:induction false} ParsePrinted(pieces: seq<Piece>)
    requires ValidPieces(pieces)
    ensures ParseString(PrintPieces(pieces)) == Some(PiecesMeaning(pieces))
  {
    if pieces != [] {
      var p, raw := pieces[0], PrintPieces(pieces);
      var rest := PrintPieces(pieces[1..]);
      PieceToken(p, rest);
      assert raw[|p.Printed()|..] == rest;
      ParsePrinted(pieces[1..]);
    }
  }

  lemma PieceToken(p: Piece, rest: Text)
    requires p.Valid()
    ensures var raw := p.Printed() + rest;
            && raw[0] != QUOTE
            && TokenAt(raw, 0, |raw|, false) == Unit(p.Meaning(), |p.Printed()|)
  {
    hide HexUnit, FourDigits;
    var raw := p.Printed() + rest;
    match p {
      case Plain(_) =>
      case Simple(letter) => EscapeRead(letter);
      case Hex(unit, upper) =>
        HexRead(unit, upper);
        assert raw[2..6] == FourDigits(unit, upper);
    }
  }

  /** A body that parses is decoded completely, to the same units. */
  lemma {:induction false} ParseDecodes(text: Text, start: nat, end: nat)
    requires start <= end <= |text| && ParseString(text[start..end]).Some?
    ensures Boundary(text, start, end)
    ensures Decoded(text, start, end) == ParseString(text[start..end]).value
    decreases end - start
  {
    if start < end {
      var raw := text[start..end];
      var t := TokenAt(raw, 0, |raw|, false);
      TokenShift(text, start, end);
      assert raw[t.width..] == text[start + t.width..end];
      ParseDecodes(text, start + t.width, end);
    }
  }

  lemma TokenShift(text: Text, start: nat, end: nat)
    requires start < end <= |text|
    ensures TokenAt(text[start..end], 0, end - start, false) == TokenAt(text, start, end, false)
  {
    var stop := if end <= start + 6 then end else start + 6;
    if start + 2 <= stop {
      SliceOfSlice(text, start, end, 2, stop - start);
    }
  }
}
