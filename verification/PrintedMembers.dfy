/** What the scanner finds in a printed object: its names in order, and each name's last value. */
module PrintedMembers {
  import opened CodeUnits
  import opened Options
  import opened Sequences
  import opened JsonString
  import opened FieldIndex
  import opened PrintedObjects

  /** A whole JSON text that is one object. */
  datatype Document = Document(lead: Text, members: seq<Member>, blank: Text, trail: Text)
  {
    predicate Valid() {
      Blank(lead) && Blank(blank) && Blank(trail) && forall m <- members :: ValidMember(m)
    }

    function Print(): Text {
      lead + ['{' as int] + (if members == [] then blank else PrintMembers(members)) + ['}' as int] + trail
    }
  }

  function NameOf(m: Member): Text
  {
    PiecesMeaning(m.name)
  }

  /** The distinct names in first-appearance order. */
  function FirstAppearances(members: seq<Member>): (names: seq<Text>)
  {
    if members == [] then []
    else
      var n := |members| - 1;
      var before, name := FirstAppearances(members[..n]), NameOf(members[n]);
      if name in before then before else before + [name]
  }

  /** The value of the last member with a name. */
  function LastValue(members: seq<Member>, name: Text): Option<Json>
  {
    if members == [] then None
    else
      var n := |members| - 1;
      if NameOf(members[n]) == name then Some(members[n].value) else LastValue(members[..n], name)
  }

  /** A closed field that lies on the printed form of a value: inside the quotes of a string, on all of another. */
  predicate Shows(text: Text, field: Field, value: Json) {
    && field.end.Some? && field.start <= field.end.value <= |text|
    && var lies := text[field.start..field.end.value];
       match value
       case JString(pieces) => field.StringField? && lies == PrintPieces(pieces)
       case _ => field.ValueField? && lies == PrintedObjects.Print(value)
  }

  ghost predicate TableShows(text: Text, members: seq<Member>, table: Table)
  {
    && table.current.None?
    && table.order == FirstAppearances(members)
    && (forall name :: name in table.fields <==> LastValue(members, name).Some?)
    && (forall name | name in table.fields :: Shows(text, table.fields[name], LastValue(members, name).value))
  }

  lemma ShowsLonger(text: Text, longer: Text, field: Field, value: Json)
    requires Shows(text, field, value) && text <= longer
    ensures Shows(longer, field, value)
  {
    hide PrintedObjects.Print, PrintPieces;
    assert longer[field.start..field.end.value] == text[field.start..field.end.value];
  }

  lemma TableShowsLonger(text: Text, longer: Text, members: seq<Member>, table: Table)
    requires TableShows(text, members, table) && text <= longer
    ensures TableShows(longer, members, table)
  {
    hide Shows, LastValue, FirstAppearances;
    forall name | name in table.fields
      ensures Shows(longer, table.fields[name], LastValue(members, name).value)
    {
      ShowsLonger(text, longer, table.fields[name], LastValue(members, name).value);
    }
  }

  /** One more member appends its name unless it is known, and replaces that name's value. */
  lemma TableSnoc(text: Text, members: seq<Member>, table: Table, m: Member, field: Field)
    requires TableShows(text, members, table) && Shows(text, field, m.value)
    ensures var name := NameOf(m);
            var order := if name in table.fields then table.order else table.order + [name];
            TableShows(text, members + [m], Table(table.fields[name := field], order, None))
  {
    hide Shows, NameOf;
    var longer := members + [m];
    assert longer[..|members|] == members && longer[|members|] == m;
    NamesAppear(members, NameOf(m));
  }

  lemma {:induction false} NamesAppear(members: seq<Member>, name: Text)
    ensures name in FirstAppearances(members) <==> LastValue(members, name).Some?
  {
    if members != [] {
      NamesAppear(members[..|members| - 1], name);
    }
  }

  // --- names --------------------------------------------------------------------------------------

  predicate AllPlain(pieces: seq<Piece>) {
    forall p <- pieces :: p.Plain?
  }

  lemma {:induction false} PlainIsMeaning(pieces: seq<Piece>)
    requires ValidPieces(pieces) && AllPlain(pieces)
    ensures PrintPieces(pieces) == PiecesMeaning(pieces)
  {
    if pieces != [] {
      PlainIsMeaning(pieces[1..]);
    }
  }

  /** Inside a name, between two of its pieces. */
  predicate InName(lexer: Lexer) {
    lexer.mode.Key? && !lexer.escape
  }

  lemma StepInKey(ix: Index, text: Text)
    requires ix.Ready() && ix.lexer.mode.Key? && ix.consumed < |text|
    ensures ix.Step(text) == ix.Settle(ix.lexer.StepKey(text[ix.consumed], ix.consumed, text))
  {
  }

  predicate IsNameUnit(c: CodeUnit) {
    c >= SPACE && c != QUOTE && c != BACKSLASH
  }

  lemma ReadNameUnit(before: Text, c: CodeUnit)
    requires InName(Scan(before).lexer) && IsNameUnit(c)
    ensures Scan(before + [c]) == Scan(before).(consumed := |before| + 1)
  {
    hide Scan, Index.Step;
    ReadUnit(before, c);
    StepInKey(Scan(before), before + [c]);
  }

  /** Units of a name that are neither control characters, escapes nor quotes. */
  lemma {:induction false} ReadPlainName(before: Text, run: Text)
    requires InName(Scan(before).lexer)
    requires forall c <- run :: IsNameUnit(c)
    ensures Scan(before + run) == Scan(before).(consumed := |before| + |run|)
  {
    hide Scan, Index.Step;
    if run == [] {
      assert before + run == before;
    } else {
      var init, c := run[..|run| - 1], run[|run| - 1];
      assert forall c <- init :: c in run;
      ReadPlainName(before, init);
      assert before + run == (before + init) + [c];
      assert c in run && IsNameUnit(c);
      ReadNameUnit(before + init, c);
    }
  }

  lemma ReadNameEscape(before: Text, letter: CodeUnit)
    requires InName(Scan(before).lexer) && letter >= SPACE
    ensures var ix := Scan(before);
            Scan(before + [BACKSLASH, letter]) == Index(|before| + 2, ix.lexer.(keyEscaped := true), ix.table)
  {
    hide Scan, Index.Step;
    var slash := before + [BACKSLASH];
    ReadUnit(before, BACKSLASH);
    StepInKey(Scan(before), slash);
    ReadUnit(slash, letter);
    StepInKey(Scan(slash), slash + [letter]);
    assert before + [BACKSLASH, letter] == slash + [letter];
  }

  lemma ReadNameHex(before: Text, digits: Text)
    requires InName(Scan(before).lexer) && AllHex(digits)
    ensures var ix := Scan(before);
            Scan(before + ([BACKSLASH, LETTER_U] + digits)) ==
            Index(|before| + 2 + |digits|, ix.lexer.(keyEscaped := true), ix.table)
  {
    hide Scan, Index.Step;
    ReadNameEscape(before, LETTER_U);
    assert forall c <- digits :: IsHex(c) && IsNameUnit(c);
    ReadPlainName(before + [BACKSLASH, LETTER_U], digits);
    Regroup(before, [BACKSLASH, LETTER_U], digits);
  }

  lemma ReadNamePiece(before: Text, p: Piece)
    requires InName(Scan(before).lexer) && p.Valid()
    ensures var ix := Scan(before);
            Scan(before + p.Printed()) ==
            Index(|before| + |p.Printed()|, ix.lexer.(keyEscaped := ix.lexer.keyEscaped || !p.Plain?), ix.table)
  {
    hide Scan, Index.Step, Index.Ready, Lexer.StepKey, FourDigits, HexUnit, ESCAPES;
    match p {
      case Plain(c) => ReadNameUnit(before, c);
      case Simple(letter) =>
        EscapeLetter(letter);
        ReadNameEscape(before, letter);
      case Hex(unit, upper) =>
        HexRead(unit, upper);
        ReadNameHex(before, FourDigits(unit, upper));
    }
  }

  lemma {:induction false} ReadNamePieces(before: Text, pieces: seq<Piece>)
    requires InName(Scan(before).lexer) && ValidPieces(pieces)
    ensures var ix := Scan(before);
            Scan(before + PrintPieces(pieces)) ==
            Index(|before| + |PrintPieces(pieces)|,
                  ix.lexer.(keyEscaped := ix.lexer.keyEscaped || !AllPlain(pieces)), ix.table)
    decreases |pieces|
  {
    hide Scan, Index.Step;
    if pieces == [] {
      assert before + PrintPieces(pieces) == before;
    } else {
      var p := pieces[0];
      ReadNamePiece(before, p);
      ReadNamePieces(before + p.Printed(), pieces[1..]);
      Regroup(before, p.Printed(), PrintPieces(pieces[1..]));
      assert AllPlain(pieces) == (p.Plain? && AllPlain(pieces[1..]));
    }
  }

  /** A quoted name where one may begin. */
  lemma ReadName(before: Text, pieces: seq<Piece>)
    requires ValidPieces(pieces)
    requires Scan(before).lexer.mode.KeyOrEnd? || Scan(before).lexer.mode.KeyOnly?
    ensures var ix, next := Scan(before), Scan(before + Quoted(pieces));
            && next.consumed == |before| + |Quoted(pieces)| && next.table == ix.table
            && next.lexer.mode.Colon? && next.lexer.key == PiecesMeaning(pieces)
  {
    hide Scan, Index.Step, PrintPieces, PiecesMeaning, AllPlain;
    var begun, body := before + [QUOTE], PrintPieces(pieces);
    BeginName(before);
    ReadNamePieces(begun, pieces);
    EndName(begun, pieces);
    Regroup(before, [QUOTE], body);
    Regroup(before, [QUOTE] + body, [QUOTE]);
  }

  lemma BeginName(before: Text)
    requires Scan(before).lexer.mode.KeyOrEnd? || Scan(before).lexer.mode.KeyOnly?
    ensures Scan(before + [QUOTE]) == Index(|before| + 1, Scan(before).lexer.BeginKey(|before|), Scan(before).table)
  {
    hide Scan;
    ReadUnit(before, QUOTE);
  }

  lemma EndName(begun: Text, pieces: seq<Piece>)
    requires ValidPieces(pieces)
    requires var ix := Scan(begun + PrintPieces(pieces));
             && InName(ix.lexer) && ix.consumed == |begun| + |PrintPieces(pieces)|
             && ix.lexer.keyStart == |begun| && ix.lexer.keyEscaped == !AllPlain(pieces)
    ensures var ix, next := Scan(begun + PrintPieces(pieces)), Scan(begun + PrintPieces(pieces) + [QUOTE]);
            next == Index(ix.consumed + 1, ix.lexer.(mode := Colon, key := PiecesMeaning(pieces)), ix.table)
  {
    hide Scan, Index.Step, PrintPieces, PiecesMeaning, AllPlain;
    var body := begun + PrintPieces(pieces);
    var text := body + [QUOTE];
    ReadUnit(body, QUOTE);
    StepInKey(Scan(body), text);
    assert text[|begun|..|body|] == PrintPieces(pieces);
    ParsePrinted(pieces);
    if AllPlain(pieces) {
      PlainIsMeaning(pieces);
    }
  }

  // --- values -------------------------------------------------------------------------------------

  lemma StepInValue(ix: Index, text: Text)
    requires ix.Ready() && ix.lexer.mode.Value? && ix.consumed < |text|
    ensures ix.Step(text) == ix.BeginValue(text[ix.consumed])
  {
  }

  lemma StepInScalar(ix: Index, text: Text)
    requires ix.Ready() && ix.lexer.mode.Scalar? && ix.consumed < |text|
    ensures ix.Step(text) == ix.StepScalar(text[ix.consumed])
  {
  }

  /** The table after a member's value, whose field is closed. */
  function With(table: Table, key: Text, field: Field): Table {
    Table(table.fields[key := field], if key in table.fields then table.order else table.order + [key], None)
  }

  /** A string value from its opening to its closing quote. */
  lemma ReadStringValue(before: Text, pieces: seq<Piece>) returns (field: Field)
    requires ValidPieces(pieces) && Scan(before).lexer.mode.Value?
    ensures var ix, text := Scan(before), before + Quoted(pieces);
            var next := Scan(text);
            && next.consumed == |text| && next.lexer.mode.CommaOrEnd?
            && next.table == With(ix.table, ix.lexer.key, field)
            && Shows(text, field, JString(pieces))
  {
    hide Scan, Index.Step, PrintPieces, EscapeAfter, HasContentEscape, Quiet;
    var begun, body := before + [QUOTE], PrintPieces(pieces);
    var inside := begun + body;
    var text := inside + [QUOTE];
    ReadUnit(before, QUOTE);
    StepInValue(Scan(before), begun);
    ReadBody(begun, pieces);
    ReadUnit(inside, QUOTE);
    StepInString(Scan(inside), text);
    field := StringField(|begun|, Some(|inside|), HasContentEscape(body));
    assert text[|begun|..|inside|] == body;
    Regroup(before, [QUOTE], body);
    Regroup(before, [QUOTE] + body, [QUOTE]);
  }

  /** An array or object value from its opening to its closing bracket. */
  lemma ReadNestedValue(before: Text, json: Json) returns (field: Field)
    requires ValidJson(json) && (json.JArray? || json.JObject?) && Scan(before).lexer.mode.Value?
    ensures var ix, text := Scan(before), before + PrintedObjects.Print(json);
            var next := Scan(text);
            && next.consumed == |text| && next.lexer.mode.CommaOrEnd?
            && next.table == With(ix.table, ix.lexer.key, field)
            && Shows(text, field, json)
  {
    hide Scan, Index.Step, ValidJson, PrintedObjects.Print, Inside;
    var c := if json.JArray? then OPEN_BRACKET else OPEN_BRACE;
    var begun, body := before + [c], Inside(json);
    var inside := begun + body;
    var text := inside + [Closer(c)];
    ReadUnit(before, c);
    StepInValue(Scan(before), begun);
    ReadInside(begun, json);
    ReadUnit(inside, Closer(c));
    StepInNested(Scan(inside), text);
    field := ValueField(|before|, Some(|text|));
    PrintBracketed(json);
    Regroup(before, [c], body);
    Regroup(before, [c] + body, [Closer(c)]);
    assert text == before + PrintedObjects.Print(json);
    Behind(before, PrintedObjects.Print(json));
  }

  lemma Behind(before: Text, more: Text)
    ensures (before + more)[|before|..|before + more|] == more
  {
  }

  lemma {:induction false} ReadScalarUnits(before: Text, token: Text)
    requires Scan(before).lexer.mode.Scalar? && forall c <- token :: IsTokenUnit(c)
    ensures Scan(before + token) == Scan(before).(consumed := |before| + |token|)
  {
    hide Scan, Index.Step;
    if token == [] {
      assert before + token == before;
    } else {
      var init, c := token[..|token| - 1], token[|token| - 1];
      assert forall u <- init :: u in token;
      ReadScalarUnits(before, init);
      assert before + token == (before + init) + [c];
      ReadUnit(before + init, c);
      StepInScalar(Scan(before + init), before + token);
      assert c in token && IsTokenUnit(c);
    }
  }

  lemma ReadTokenUnits(before: Text, token: Text)
    requires IsToken(token) && Scan(before).lexer.mode.Value?
    ensures var ix := Scan(before);
            Scan(before + token) ==
            Index(|before| + |token|, ix.lexer.Go(Scalar), ix.table.Open(ix.lexer.key, ValueField(|before|, None)))
  {
    hide Scan, Index.Step;
    var first, rest := token[0], token[1..];
    var begun := before + [first];
    assert IsTokenUnit(first);
    ReadUnit(before, first);
    StepInValue(Scan(before), begun);
    assert forall u <- rest :: u in token;
    ReadScalarUnits(begun, rest);
    assert token == [first] + rest;
    Regroup(before, [first], rest);
  }

  /** A literal or number, which only the unit after it closes. */
  lemma ReadTokenThen(before: Text, token: Text, c: CodeUnit) returns (field: Field)
    requires IsToken(token) && Scan(before).lexer.mode.Value? && EndsScalar(c)
    ensures var ix, text := Scan(before), before + token + [c];
            var next := Scan(text);
            && next.consumed == |text|
            && next.lexer.mode == (if c == COMMA then KeyOnly else if c == CLOSE_BRACE then Closed else CommaOrEnd)
            && next.table == With(ix.table, ix.lexer.key, field)
            && Shows(text, field, JToken(token))
  {
    hide Scan, Index.Step;
    ReadTokenUnits(before, token);
    var scalar := before + token;
    ReadUnit(scalar, c);
    StepInScalar(Scan(scalar), scalar + [c]);
    field := ValueField(|before|, Some(|scalar|));
    assert (scalar + [c])[|before|..|scalar|] == token;
  }

  lemma StepInEnd(ix: Index, text: Text)
    requires ix.Ready() && ix.lexer.mode.CommaOrEnd? && ix.consumed < |text|
    requires text[ix.consumed] == COMMA || text[ix.consumed] == CLOSE_BRACE
    ensures ix.Step(text)
            == Index(ix.consumed + 1, ix.lexer.Go(if text[ix.consumed] == COMMA then KeyOnly else Closed), ix.table)
  {
  }

  /** The comma or brace after a member's value. */
  lemma ReadEnd(before: Text, c: CodeUnit)
    requires Scan(before).lexer.mode.CommaOrEnd? && (c == COMMA || c == CLOSE_BRACE)
    ensures var ix := Scan(before);
            Scan(before + [c]) == Index(|before| + 1, ix.lexer.Go(if c == COMMA then KeyOnly else Closed), ix.table)
  {
    hide Scan, Index.Step;
    ReadUnit(before, c);
    StepInEnd(Scan(before), before + [c]);
  }

  /** A member's value with the comma or brace after it. */
  lemma ReadValueThen(before: Text, json: Json, after: Text, c: CodeUnit) returns (field: Field)
    requires ValidJson(json) && Blank(after) && Scan(before).lexer.mode.Value?
    requires c == COMMA || c == CLOSE_BRACE
    ensures var ix, text := Scan(before), before + PrintedObjects.Print(json) + after + [c];
            var next := Scan(text);
            && next.consumed == |text| && next.lexer.mode == (if c == COMMA then KeyOnly else Closed)
            && next.table == With(ix.table, ix.lexer.key, field)
            && Shows(text, field, json)
  {
    hide Scan, Index.Step, ValidJson, Shows, PrintPieces, PrintItems, PrintMembers;
    StringValid(json);
    var value := before + PrintedObjects.Print(json);
    var text := value + after + [c];
    if json.JToken? {
      if after == [] {
        assert value + after == value;
        field := ReadTokenThen(before, json.text, c);
        return;
      }
      assert after == [after[0]] + after[1..] && after[0] in after && IsBlank(after[0]);
      field := ReadTokenThen(before, json.text, after[0]);
      Regroup(value, [after[0]], after[1..]);
      assert forall u <- after[1..] :: u in after;
      ReadBlank(value + [after[0]], after[1..]);
      ReadEnd(value + after, c);
      ShowsLonger(value + [after[0]], text, field, json);
    } else {
      if json.JString? {
        field := ReadStringValue(before, json.pieces);
      } else {
        field := ReadNestedValue(before, json);
      }
      ReadBlank(value, after);
      ReadEnd(value + after, c);
      ShowsLonger(value, text, field, json);
    }
  }

  /** A member with the comma or brace after it. */
  lemma ReadMemberThen(before: Text, m: Member, c: CodeUnit) returns (field: Field)
    requires ValidMember(m) && (c == COMMA || c == CLOSE_BRACE)
    requires Scan(before).lexer.mode.KeyOrEnd? || Scan(before).lexer.mode.KeyOnly?
    ensures var ix, text := Scan(before), before + PrintMember(m) + [c];
            var next := Scan(text);
            && next.consumed == |text| && next.lexer.mode == (if c == COMMA then KeyOnly else Closed)
            && next.table == With(ix.table, NameOf(m), field)
            && Shows(text, field, m.value)
  {
    hide Scan, Index.Step, ValidJson, Shows, PrintPieces, PrintedObjects.Print, Quoted, PiecesMeaning, With;
    var a := before + m.before;
    var b := a + Quoted(m.name);
    var d := b + m.gap;
    var e := d + [COLON];
    var f := e + m.pad;
    ReadBlank(before, m.before);
    ReadName(a, m.name);
    ReadBlank(b, m.gap);
    ReadColon(d);
    ReadBlank(e, m.pad);
    field := ReadValueThen(f, m.value, m.after, c);
    MemberRegrouped(before, m);
  }

  lemma ReadColon(before: Text)
    requires Scan(before).lexer.mode.Colon?
    ensures Scan(before + [COLON]) == Index(|before| + 1, Scan(before).lexer.Go(Value), Scan(before).table)
  {
    hide Scan;
    ReadUnit(before, COLON);
  }

  lemma MemberRegrouped(before: Text, m: Member)
    ensures before + PrintMember(m) ==
            before + m.before + Quoted(m.name) + m.gap + [COLON] + m.pad + PrintedObjects.Print(m.value) + m.after
  {
    hide PrintedObjects.Print, Quoted;
  }

  lemma {:induction false} ReadMembersThen(before: Text, done: seq<Member>, rest: seq<Member>)
    requires rest != [] && forall m <- rest :: ValidMember(m)
    requires Scan(before).lexer.mode.KeyOrEnd? || Scan(before).lexer.mode.KeyOnly?
    requires TableShows(before, done, Scan(before).table)
    ensures var text := before + PrintMembers(rest) + [CLOSE_BRACE];
            Scan(text).lexer.mode.Closed? && Scan(text).consumed == |text|
                && TableShows(text, done + rest, Scan(text).table)
    decreases |rest|
  {
    hide Scan, ValidMember, Shows, PrintMember, LastValue, FirstAppearances;
    var m := rest[0];
    var c := if |rest| == 1 then CLOSE_BRACE else COMMA;
    var text := before + PrintMember(m) + [c];
    assert ValidMember(m) by {
      assert m in rest;
    }
    var table := Scan(before).table;
    var field := ReadMemberThen(before, m, c);
    TableShowsLonger(before, text, done, table);
    TableSnoc(text, done, table, m, field);
    if |rest| == 1 {
      assert rest == [m];
    } else {
      assert done + rest == done + [m] + rest[1..];
      assert forall x <- rest[1..] :: x in rest;
      ReadMembersThen(text, done + [m], rest[1..]);
      assert before + PrintMembers(rest) + [CLOSE_BRACE] == text + PrintMembers(rest[1..]) + [CLOSE_BRACE];
    }
  }

  /**
   For every printed object the scanner closes, lists the distinct names in first-appearance order, and keeps for
   each name exactly the printed form of its last value.
   */
  lemma ScannerReadsObject(d: Document)
    requires d.Valid()
    ensures var ix := Scan(d.Print());
            ix.lexer.mode.Closed? && ix.consumed == |d.Print()| && TableShows(d.Print(), d.members, ix.table)
  {
    hide Scan, Shows, PrintMembers, LastValue;
    var begun := d.lead + [OPEN_BRACE];
    ReadStart(d.lead);
    NoMembers(begun);
    if d.members == [] {
      ReadBlank(begun, d.blank);
      ReadEmptyEnd(begun + d.blank);
      TableShowsLonger(begun, begun + d.blank + [CLOSE_BRACE], [], START.table);
    } else {
      ReadMembersThen(begun, [], d.members);
      assert [] + d.members == d.members;
    }
    var closed := begun + (if d.members == [] then d.blank else PrintMembers(d.members)) + [CLOSE_BRACE];
    ReadBlank(closed, d.trail);
    TableShowsLonger(closed, closed + d.trail, d.members, Scan(closed).table);
  }

  lemma NoMembers(text: Text)
    ensures TableShows(text, [], START.table)
  {
  }

  lemma ScanNothing()
    ensures Scan([]) == START
  {
  }

  lemma ReadStart(lead: Text)
    requires Blank(lead)
    ensures var ix := Scan(lead + [OPEN_BRACE]);
            ix.lexer.mode.KeyOrEnd? && ix.consumed == |lead| + 1 && ix.table == START.table
  {
    hide Scan;
    ScanNothing();
    ReadBlank([], lead);
    assert [] + lead == lead;
    ReadUnit(lead, OPEN_BRACE);
  }

  lemma ReadEmptyEnd(before: Text)
    requires Scan(before).lexer.mode.KeyOrEnd?
    ensures Scan(before + [CLOSE_BRACE]) == Index(|before| + 1, Scan(before).lexer.Go(Closed), Scan(before).table)
  {
    hide Scan;
    ReadUnit(before, CLOSE_BRACE);
  }

  /** What a reader is told about a name: the decoded string of its last value, or where another kind of value lies. */
  lemma ReadersMeetGrammar(d: Document, name: Text)
    requires d.Valid()
    ensures TextOf(d.Print(), name) ==
            match LastValue(d.members, name)
            case Some(JString(pieces)) => Some(PiecesMeaning(pieces))
            case _ => None
    ensures var fields, last := Scan(d.Print()).table.fields, LastValue(d.members, name);
            && (name in fields <==> last.Some?)
            && (last.Some? && !last.value.JString? ==>
                  var field := fields[name];
                  && field.ValueField? && field.end.Some? && field.start <= field.end.value <= |d.Print()|
                  && d.Print()[field.start..field.end.value] == PrintedObjects.Print(last.value))
  {
    var text, ix := d.Print(), Scan(d.Print());
    ScannerReadsObject(d);
    LastValueValid(d.members, name);
    if name in ix.table.fields && ix.table.fields[name].StringField? {
      var field := ix.table.fields[name];
      var pieces := LastValue(d.members, name).value.pieces;
      ParsePrinted(pieces);
      ParseDecodes(text, field.start, field.end.value);
    }
  }

  lemma {:induction false} LastValueValid(members: seq<Member>, name: Text)
    requires forall m <- members :: ValidMember(m)
    ensures LastValue(members, name).Some? ==> ValidJson(LastValue(members, name).value)
  {
    if members != [] {
      var n := |members| - 1;
      assert members[n] in members;
      LastValueValid(members[..n], name);
    }
  }
}
