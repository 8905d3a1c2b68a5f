/**
 The field index of printed JSON objects: every object of sections 4 to 7 of RFC 8259, with any white space
 and any choice of escapes, is indexed as the grammar reads it.
 */
module PrintedObjects {
  import opened CodeUnits
  import opened JsonString
  import opened FieldIndex
  import opened Sequences

  /** A JSON text as a tree that keeps its spelling. Literals and numbers are tokens of the units they use. */
  datatype Json =
    | JString(pieces: seq<Piece>)
    | JToken(text: Text)
    | JArray(items: seq<Item>, blank: Text)
    | JObject(members: seq<Member>, blank: Text)

  datatype Item = Item(before: Text, value: Json, after: Text)

  datatype Member = Member(before: Text, name: seq<Piece>, gap: Text, pad: Text, value: Json, after: Text)

  /** White space: space, tab, line feed and carriage return. */
  predicate IsBlank(c: CodeUnit) {
    c == 0x20 || c == 0x09 || c == 0x0A || c == 0x0D
  }

  predicate Blank(s: Text) {
    forall c <- s :: IsBlank(c)
  }

  /** Digits, letters, signs and the decimal point: every literal and number is spelled with these. */
  predicate IsTokenUnit(c: CodeUnit) {
    0x30 <= c <= 0x39 || 0x61 <= c <= 0x7A || 0x41 <= c <= 0x5A || c == 0x2B || c == 0x2D || c == 0x2E
  }

  predicate IsToken(s: Text) {
    s != [] && forall c <- s :: IsTokenUnit(c)
  }

  predicate ValidJson(json: Json) {
    match json
    case JString(pieces) => ValidPieces(pieces)
    case JToken(text) => IsToken(text)
    case JArray(items, blank) =>
      Blank(blank) && forall item <- items :: Blank(item.before) && Blank(item.after) && ValidJson(item.value)
    case JObject(members, blank) =>
      Blank(blank) && forall m <- members :: ValidMember(m)
  }

  predicate ValidMember(m: Member) {
    Blank(m.before) && ValidPieces(m.name) && Blank(m.gap) && Blank(m.pad) && Blank(m.after) && ValidJson(m.value)
  }

  function Quoted(pieces: seq<Piece>): Text {
    ['"' as int] + PrintPieces(pieces) + ['"' as int]
  }

  function Print(json: Json): Text
    decreases json, 1
  {
    match json
    case JString(pieces) => Quoted(pieces)
    case JToken(text) => text
    case JArray(items, blank) =>
      ['[' as int] + (if items == [] then blank else PrintItems(items)) + [']' as int]
    case JObject(members, blank) =>
      ['{' as int] + (if members == [] then blank else PrintMembers(members)) + ['}' as int]
  }

  function PrintItems(items: seq<Item>): Text
    requires items != []
    decreases items, 0
  {
    var first := items[0].before + Print(items[0].value) + items[0].after;
    if |items| == 1 then first else first + [',' as int] + PrintItems(items[1..])
  }

  function PrintMember(m: Member): Text
    decreases m, 2
  {
    m.before + Quoted(m.name) + m.gap + [':' as int] + m.pad + Print(m.value) + m.after
  }

  function PrintMembers(members: seq<Member>): Text
    requires members != []
    decreases members, 3
  {
    var first := PrintMember(members[0]);
    if |members| == 1 then first else first + [',' as int] + PrintMembers(members[1..])
  }

  // --- reading on -------------------------------------------------------------------------------

  lemma ReadUnit(before: Text, c: CodeUnit)
    requires !Scan(before).lexer.mode.Invalid?
    ensures Scan(before + [c]) == Scan(before).Step(before + [c])
  {
    assert (before + [c])[..|before|] == before;
  }

  /** The modes in which white space is passed over. */
  predicate SkipsBlank(lexer: Lexer) {
    match lexer.mode
    case Key | InString | Scalar | Invalid => false
    case Nested => !lexer.nestedInString
    case _ => true
  }

  lemma {:induction false} ReadBlank(before: Text, blank: Text)
    requires Blank(blank) && SkipsBlank(Scan(before).lexer)
    ensures Scan(before + blank) == Scan(before).(consumed := |before| + |blank|)
  {
    hide Scan;
    if blank == [] {
      assert before + blank == before;
    } else {
      var init, c := blank[..|blank| - 1], blank[|blank| - 1];
      assert c in blank && IsBlank(c);
      ReadBlank(before, init);
      assert before + blank == (before + init) + [c];
      ReadUnit(before + init, c);
      BlankStep(Scan(before + init), c, before + blank);
    }
  }

  lemma BlankStep(ix: Index, c: CodeUnit, text: Text)
    requires ix.Ready() && IsBlank(c) && SkipsBlank(ix.lexer)
    requires ix.consumed < |text| && text[ix.consumed] == c
    ensures ix.Step(text) == ix.(consumed := ix.consumed + 1)
  {
  }

  /** A printed string body closes nothing and leaves no escape open. */
  lemma {:induction false} PiecesQuiet(pieces: seq<Piece>)
    requires ValidPieces(pieces)
    ensures Quiet(PrintPieces(pieces), false) && !EscapeAfter(PrintPieces(pieces), false)
  {
    if pieces != [] {
      var p, rest := pieces[0].Printed(), PrintPieces(pieces[1..]);
      PieceQuiet(pieces[0]);
      PiecesQuiet(pieces[1..]);
      QuietConcat(p, rest, false);
      EscapeConcat(p, rest, false);
    }
  }

  lemma PieceQuiet(p: Piece)
    requires p.Valid()
    ensures Quiet(p.Printed(), false) && !EscapeAfter(p.Printed(), false)
  {
    var s := p.Printed();
    match p {
      case Plain(c) =>
        assert s[..0] == [];
      case Simple(letter) =>
        SimpleQuiet(letter);
      case Hex(unit, upper) =>
        hide FourDigits, HexUnit;
        HexRead(unit, upper);
        var digits := FourDigits(unit, upper);
        HexQuiet(digits, |digits|);
        assert s == [BACKSLASH, LETTER_U] + digits[..4];
    }
  }

  lemma SimpleQuiet(letter: CodeUnit)
    ensures Quiet([BACKSLASH, letter], false) && !EscapeAfter([BACKSLASH, letter], false)
  {
    var s := [BACKSLASH, letter];
    assert s[..1] == [BACKSLASH] && s[..1][..0] == [];
    assert EscapeAfter(s[..1], false);
  }

  lemma {:induction false} HexQuiet(digits: Text, n: nat)
    requires n <= |digits| && AllHex(digits)
    ensures var s := [BACKSLASH, LETTER_U] + digits[..n]; Quiet(s, false) && !EscapeAfter(s, false)
  {
    var s := [BACKSLASH, LETTER_U] + digits[..n];
    if n == 0 {
      assert s == [BACKSLASH, LETTER_U] && s[..1] == [BACKSLASH] && s[..1][..0] == [];
    } else {
      HexQuiet(digits, n - 1);
      assert s[..|s| - 1] == [BACKSLASH, LETTER_U] + digits[..n - 1];
      assert IsHex(digits[n - 1]);
    }
  }

  /** A printed string body inside quotes. */
  lemma ReadBody(before: Text, pieces: seq<Piece>)
    requires ValidPieces(pieces)
    requires Scan(before).lexer.InQuotes() && !Scan(before).lexer.escape
    ensures Scan(before + PrintPieces(pieces)) == InQuotesAfter(Scan(before), PrintPieces(pieces))
    ensures !Scan(before + PrintPieces(pieces)).lexer.escape
  {
    var body := PrintPieces(pieces);
    var text := before + body;
    PiecesQuiet(pieces);
    assert text[..|before|] == before && text[|before|..|text|] == body && text[..|text|] == text;
    ScanQuiet(text, |before|, |text|, Scan(before));
  }

  // --- nested values ----------------------------------------------------------------------------

  /** Inside a nested value, outside its strings. */
  predicate BetweenTokens(lexer: Lexer) {
    lexer.mode.Nested? && !lexer.nestedInString && !lexer.escape
  }

  lemma ReadNestedQuote(before: Text)
    requires Scan(before).lexer.mode.Nested? && !Scan(before).lexer.escape
    ensures var ix := Scan(before);
            Scan(before + [QUOTE]) ==
            Index(|before| + 1, ix.lexer.(nestedInString := !ix.lexer.nestedInString), ix.table)
  {
    hide Scan, Index.Step;
    ReadUnit(before, QUOTE);
    StepInNested(Scan(before), before + [QUOTE]);
  }

  lemma ReadNestedString(before: Text, pieces: seq<Piece>)
    requires ValidPieces(pieces) && BetweenTokens(Scan(before).lexer)
    ensures Scan(before + Quoted(pieces)) == Scan(before).(consumed := |before| + |Quoted(pieces)|)
  {
    hide Scan, Index.Step, PrintPieces, EscapeAfter, HasContentEscape, Quiet;
    var begun, body := before + [QUOTE], PrintPieces(pieces);
    ReadNestedQuote(before);
    ReadBody(begun, pieces);
    ReadNestedQuote(begun + body);
    Regroup(before, [QUOTE], body);
    Regroup(before, [QUOTE] + body, [QUOTE]);
  }

  lemma {:induction false} ReadNestedToken(before: Text, token: Text)
    requires (forall c <- token :: IsTokenUnit(c)) && BetweenTokens(Scan(before).lexer)
    ensures Scan(before + token) == Scan(before).(consumed := |before| + |token|)
  {
    hide Scan, Index.Step;
    if token == [] {
      assert before + token == before;
    } else {
      var init, c := token[..|token| - 1], token[|token| - 1];
      ReadNestedToken(before, init);
      assert before + token == (before + init) + [c];
      assert IsTokenUnit(c);
      ReadUnit(before + init, c);
      StepInNested(Scan(before + init), before + token);
    }
  }

  /** A bracket inside a nested value opens a level, which its closer leaves again. */
  lemma ReadOpen(before: Text, c: CodeUnit)
    requires BetweenTokens(Scan(before).lexer) && (c == OPEN_BRACE || c == OPEN_BRACKET)
    ensures var ix := Scan(before);
            Scan(before + [c]) ==
            Index(|before| + 1, ix.lexer.(nestedEnds := ix.lexer.nestedEnds + [Closer(c)]), ix.table)
  {
    hide Scan, Index.Step;
    ReadUnit(before, c);
    StepInNested(Scan(before), before + [c]);
  }

  lemma ReadClose(before: Text, c: CodeUnit, outer: seq<CodeUnit>)
    requires BetweenTokens(Scan(before).lexer) && (c == OPEN_BRACE || c == OPEN_BRACKET) && outer != []
    requires Scan(before).lexer.nestedEnds == outer + [Closer(c)]
    ensures var ix := Scan(before);
            Scan(before + [Closer(c)]) == Index(|before| + 1, ix.lexer.(nestedEnds := outer), ix.table)
  {
    hide Scan, Index.Step;
    ReadUnit(before, Closer(c));
    StepInNested(Scan(before), before + [Closer(c)]);
    assert (outer + [Closer(c)])[..|outer|] == outer;
  }

  /** Commas and colons between nested values change nothing. */
  lemma ReadSeparator(before: Text, c: CodeUnit)
    requires BetweenTokens(Scan(before).lexer) && (c == COMMA || c == COLON)
    ensures Scan(before + [c]) == Scan(before).(consumed := |before| + 1)
  {
    hide Scan, Index.Step, Index.StepNested, Lexer.StepNested;
    ReadUnit(before, c);
    StepOverSeparator(Scan(before), before + [c]);
  }

  lemma StepOverSeparator(ix: Index, text: Text)
    requires ix.Ready() && BetweenTokens(ix.lexer) && ix.consumed < |text|
    requires text[ix.consumed] == COMMA || text[ix.consumed] == COLON
    ensures ix.Step(text) == ix.(consumed := ix.consumed + 1)
  {
    hide Index.Step;
    StepInNested(ix, text);
  }

  /** A bracketed group whose inside leaves the scanner between tokens. */
  lemma ReadBracketed(before: Text, c: CodeUnit, inner: Text)
    requires BetweenTokens(Scan(before).lexer) && Scan(before).lexer.nestedEnds != []
    requires c == OPEN_BRACE || c == OPEN_BRACKET
    requires Scan(before + [c] + inner) == Scan(before + [c]).(consumed := |before| + 1 + |inner|)
    ensures Scan(before + ([c] + inner + [Closer(c)])) == Scan(before).(consumed := |before| + |inner| + 2)
  {
    hide Scan, Index.Step;
    ReadOpen(before, c);
    ReadClose(before + [c] + inner, c, Scan(before).lexer.nestedEnds);
    Regroup(before, [c], inner);
    Regroup(before, [c] + inner, [Closer(c)]);
  }

  /** What an array or object holds between its brackets. */
  function Inside(json: Json): Text
    requires json.JArray? || json.JObject?
  {
    match json
    case JArray(items, blank) => if items == [] then blank else PrintItems(items)
    case JObject(members, blank) => if members == [] then blank else PrintMembers(members)
  }

  lemma {:induction false} ReadInside(before: Text, json: Json)
    requires ValidJson(json) && BetweenTokens(Scan(before).lexer) && (json.JArray? || json.JObject?)
    ensures Scan(before + Inside(json)) == Scan(before).(consumed := |before| + |Inside(json)|)
    decreases json, 0
  {
    hide Scan, PrintItems, PrintMembers;
    match json {
      case JArray(items, blank) =>
        if items == [] {
          ReadBlank(before, blank);
        } else {
          ReadNestedItems(before, items);
        }
      case JObject(members, blank) =>
        if members == [] {
          ReadBlank(before, blank);
        } else {
          ReadNestedMembers(before, members);
        }
    }
  }

  /** A whole value inside a nested one leaves the scanner where it was. */
  lemma {:induction false} ReadNested(before: Text, json: Json)
    requires ValidJson(json) && BetweenTokens(Scan(before).lexer)
    ensures Scan(before + Print(json)) == Scan(before).(consumed := |before| + |Print(json)|)
    decreases json, 1
  {
    hide Scan, Index.Step, PrintPieces, PrintItems, PrintMembers, ValidJson, Inside;
    match json {
      case JString(pieces) =>
        assert ValidPieces(pieces) by { StringValid(json); }
        ReadNestedString(before, pieces);
      case JToken(text) =>
        assert IsToken(text) by { StringValid(json); }
        ReadNestedToken(before, text);
      case _ =>
        var c := if json.JArray? then OPEN_BRACKET else OPEN_BRACE;
        ReadOpen(before, c);
        ReadInside(before + [c], json);
        ReadBracketed(before, c, Inside(json));
        PrintBracketed(json);
    }
  }

  lemma StringValid(json: Json)
    requires ValidJson(json)
    ensures json.JString? ==> ValidPieces(json.pieces)
    ensures json.JToken? ==> IsToken(json.text)
  {
  }

  lemma PrintBracketed(json: Json)
    requires json.JArray? || json.JObject?
    ensures var c := if json.JArray? then OPEN_BRACKET else OPEN_BRACE;
            Print(json) == [c] + Inside(json) + [Closer(c)]
  {
  }

  lemma {:induction false} ReadNestedItems(before: Text, items: seq<Item>)
    requires items != [] && BetweenTokens(Scan(before).lexer)
    requires forall item <- items :: Blank(item.before) && Blank(item.after) && ValidJson(item.value)
    ensures Scan(before + PrintItems(items)) == Scan(before).(consumed := |before| + |PrintItems(items)|)
    decreases items, 0
  {
    hide Scan, ValidJson, Print, PrintItems, Index.Step;
    var item := items[0];
    var a := before + item.before;
    var b := a + Print(item.value);
    var c := b + item.after;
    ReadBlank(before, item.before);
    ReadNested(a, item.value);
    ReadBlank(b, item.after);
    ItemsPrinted(before, items);
    if |items| > 1 {
      ReadSeparator(c, COMMA);
      ReadNestedItems(c + [COMMA], items[1..]);
    }
  }

  lemma ItemsPrinted(before: Text, items: seq<Item>)
    requires items != []
    ensures var front := before + items[0].before + Print(items[0].value) + items[0].after;
            before + PrintItems(items) == if |items| == 1 then front else front + [COMMA] + PrintItems(items[1..])
  {
    hide Print;
    var a, b, c := items[0].before, Print(items[0].value), items[0].after;
    if |items| > 1 {
      Regroup(before, a + b + c + [COMMA], PrintItems(items[1..]));
      Regroup(before, a + b + c, [COMMA]);
    }
    Regroup(before, a + b, c);
    Regroup(before, a, b);
  }

  lemma {:induction false} ReadNestedMember(before: Text, m: Member)
    requires ValidMember(m) && BetweenTokens(Scan(before).lexer)
    ensures Scan(before + PrintMember(m)) == Scan(before).(consumed := |before| + |PrintMember(m)|)
    decreases m, 2
  {
    hide Scan, ValidJson, Print, PrintPieces;
    var a := before + m.before;
    var b := a + Quoted(m.name);
    var c := b + m.gap;
    var d := c + [COLON];
    var e := d + m.pad;
    var f := e + Print(m.value);
    ReadBlank(before, m.before);
    ReadNestedString(a, m.name);
    ReadBlank(b, m.gap);
    ReadSeparator(c, COLON);
    ReadBlank(d, m.pad);
    ReadNested(e, m.value);
    ReadBlank(f, m.after);
    assert before + PrintMember(m) == f + m.after;
  }

  lemma {:induction false} ReadNestedMembers(before: Text, members: seq<Member>)
    requires members != [] && BetweenTokens(Scan(before).lexer)
    requires forall m <- members :: ValidMember(m)
    ensures Scan(before + PrintMembers(members)) == Scan(before).(consumed := |before| + |PrintMembers(members)|)
    decreases members, 3
  {
    hide Scan, ValidJson, Print, PrintMember;
    var c := before + PrintMember(members[0]);
    ReadNestedMember(before, members[0]);
    if |members| == 1 {
      assert before + PrintMembers(members) == c;
    } else {
      ReadSeparator(c, COMMA);
      ReadNestedMembers(c + [COMMA], members[1..]);
      assert before + PrintMembers(members) == c + [COMMA] + PrintMembers(members[1..]);
    }
  }
}
