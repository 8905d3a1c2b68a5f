/** What a reader is shown of a string that is still arriving, and how that grows. */
module StreamedStrings {
  import opened CodeUnits
  import opened Options
  import opened Sequences
  import opened JsonString
  import opened FieldIndex
  import opened PrintedObjects
  import opened PrintedMembers

  /**
   The front of a printed object that ends inside a string value: whole members, the name of the next one, and of its
   string some whole pieces and perhaps the beginning of another.
   */
  datatype Front = Front(
    lead: Text, done: seq<Member>, before: Text, name: seq<Piece>, gap: Text, pad: Text,
    pieces: seq<Piece>, next: Piece, tail: Text)
  {
    predicate Valid() {
      && Blank(lead) && Blank(before) && Blank(gap) && Blank(pad)
      && (forall m <- done :: ValidMember(m))
      && ValidPieces(name) && ValidPieces(pieces) && next.Valid() && tail < next.Printed()
    }

    /** Everything in front of the string's opening quote. */
    function Until(): Text {
      lead + ['{' as int] + Finished(done) + before + Quoted(name) + gap + [':' as int] + pad
    }

    function Print(): Text {
      Until() + ['"' as int] + PrintPieces(pieces) + tail
    }
  }

  /** Members with the comma behind each. */
  function Finished(members: seq<Member>): Text {
    if members == [] then [] else PrintMember(members[0]) + [',' as int] + Finished(members[1..])
  }

  lemma {:induction false} ReadFinished(before: Text, known: seq<Member>, done: seq<Member>)
    requires forall m <- done :: ValidMember(m)
    requires Scan(before).lexer.mode.KeyOrEnd? || Scan(before).lexer.mode.KeyOnly?
    requires Scan(before).consumed == |before| && TableShows(before, known, Scan(before).table)
    ensures var text := before + Finished(done);
            && (Scan(text).lexer.mode.KeyOrEnd? || Scan(text).lexer.mode.KeyOnly?)
            && Scan(text).consumed == |text| && TableShows(text, known + done, Scan(text).table)
    decreases |done|
  {
    hide Scan, ValidMember, TableShows, PrintMember;
    if done == [] {
      assert before + Finished(done) == before && known + done == known;
    } else {
      var m := done[0];
      assert m in done && ValidMember(m);
      var text := before + PrintMember(m) + [COMMA];
      var table := Scan(before).table;
      var field := ReadMemberThen(before, m, COMMA);
      TableShowsLonger(before, text, known, table);
      MemberShown(text, known, table, m, field);
      assert forall x <- done[1..] :: x in done;
      ReadFinished(text, known + [m], done[1..]);
      assert known + done == known + [m] + done[1..];
      assert before + Finished(done) == text + Finished(done[1..]);
    }
  }

  lemma MemberShown(text: Text, known: seq<Member>, table: Table, m: Member, field: Field)
    requires TableShows(text, known, table) && Shows(text, field, m.value)
    ensures TableShows(text, known + [m], With(table, NameOf(m), field))
  {
    hide Shows, NameOf, LastValue, FirstAppearances;
    TableSnoc(text, known, table, m, field);
  }

  /** Up to the opening quote: a value is expected under the name, and the members so far are shown. */
  lemma ReadUntil(f: Front)
    requires f.Valid()
    ensures var ix := Scan(f.Until());
            && ix.lexer.mode.Value? && ix.consumed == |f.Until()| && ix.lexer.key == PiecesMeaning(f.name)
            && TableShows(f.Until(), f.done, ix.table)
  {
    hide Scan, TableShows, Quoted, PrintPieces, PiecesMeaning, Finished;
    var begun := f.lead + [OPEN_BRACE];
    var a := begun + Finished(f.done);
    var b := a + f.before;
    var c := b + Quoted(f.name);
    var d := c + f.gap;
    var e := d + [COLON];
    ReadStart(f.lead);
    NoMembers(begun);
    ReadFinished(begun, [], f.done);
    assert [] + f.done == f.done;
    ReadBlank(a, f.before);
    ReadName(b, f.name);
    ReadBlank(c, f.gap);
    ReadColon(d);
    ReadBlank(e, f.pad);
    TableShowsLonger(a, f.Until(), f.done, Scan(a).table);
  }

  lemma {:induction false} QuietFront(run: Text, n: nat, escape: bool)
    requires n <= |run| && Quiet(run, escape)
    ensures Quiet(run[..n], escape)
  {
    if n < |run| {
      assert run[..|run| - 1][..n] == run[..n];
      QuietFront(run[..|run| - 1], n, escape);
    } else {
      assert run[..n] == run;
    }
  }

  /** What has arrived of the string closes nothing. */
  lemma BodyQuiet(pieces: seq<Piece>, next: Piece, tail: Text)
    requires ValidPieces(pieces) && next.Valid() && tail < next.Printed()
    ensures Quiet(PrintPieces(pieces) + tail, false)
  {
    hide Quiet, PrintPieces;
    PiecesQuiet(pieces);
    PieceQuiet(next);
    QuietFront(next.Printed(), |tail|, false);
    assert next.Printed()[..|tail|] == tail;
    QuietConcat(PrintPieces(pieces), tail, false);
  }

  /** The beginning of an escape is waited for. */
  lemma TailWaits(before: Text, next: Piece, tail: Text)
    requires next.Valid() && tail < next.Printed() && tail != []
    ensures TokenAt(before + tail, |before|, |before + tail|, true).Wait?
  {
    hide HexUnit, FourDigits, ESCAPES;
    var text := before + tail;
    assert text[|before|] == tail[0] == next.Printed()[0];
    if next.Hex? {
      HexRead(next.unit, next.upper);
      if |tail| >= 2 {
        assert text[|before| + 1] == tail[1] == next.Printed()[1];
        var hex := text[|before| + 2..];
        forall i | 0 <= i < |hex|
          ensures IsHex(hex[i])
        {
          assert hex[i] == tail[2 + i] == next.Printed()[2 + i] == FourDigits(next.unit, next.upper)[i];
        }
      }
    }
  }

  /** An open body is decoded up to the piece that has not finished. */
  lemma {:induction false} DecodeFront(before: Text, pieces: seq<Piece>, next: Piece, tail: Text)
    requires ValidPieces(pieces) && next.Valid() && tail < next.Printed()
    ensures var text := before + PrintPieces(pieces) + tail;
            Decode(text, |before|, |text|, true) == PiecesMeaning(pieces)
    decreases |pieces|
  {
    hide TokenAt, Decode, Piece.Printed, Piece.Meaning;
    var text := before + PrintPieces(pieces) + tail;
    if pieces == [] {
      assert text == before + tail;
      if tail != [] {
        TailWaits(before, next, tail);
      }
      DecodeEnd(text, |before|);
    } else {
      var p := pieces[0];
      var rest := PrintPieces(pieces[1..]) + tail;
      assert text == before + (p.Printed() + rest);
      PieceInside(before, p, rest);
      assert text == before + p.Printed() + PrintPieces(pieces[1..]) + tail;
      DecodeFront(before + p.Printed(), pieces[1..], next, tail);
      DecodeOne(text, |before|);
    }
  }

  lemma DecodeEnd(text: Text, at: nat)
    requires at == |text| || (at < |text| && !TokenAt(text, at, |text|, true).Unit?)
    ensures Decode(text, at, |text|, true) == []
  {
  }

  lemma DecodeOne(text: Text, at: nat)
    requires at < |text| && TokenAt(text, at, |text|, true).Unit?
    ensures var t := TokenAt(text, at, |text|, true);
            Decode(text, at, |text|, true) == [t.unit] + Decode(text, at + t.width, |text|, true)
  {
  }

  lemma PieceInside(before: Text, p: Piece, rest: Text)
    requires p.Valid()
    ensures var text := before + (p.Printed() + rest);
            TokenAt(text, |before|, |text|, true) == Unit(p.Meaning(), |p.Printed()|)
  {
    hide TokenAt;
    var raw := p.Printed() + rest;
    var text := before + raw;
    PieceToken(p, rest);
    TokenShift(text, |before|, |text|);
    assert text[|before|..|text|] == raw;
    TokenStable(text, |before|, |text|, false, |text|, true);
  }

  /** The field of the string that is arriving: it begins behind the quote and has no end. */
  lemma ReadFront(f: Front)
    requires f.Valid()
    ensures var ix, name := Scan(f.Print()), PiecesMeaning(f.name);
            && ix.lexer.mode.InString? && ix.consumed == |f.Print()| && name in ix.table.fields
            && ix.table.fields[name].StringField? && ix.table.fields[name].start == |f.Until()| + 1
            && ix.table.fields[name].end == None
    ensures var ix, name := Scan(f.Print()), PiecesMeaning(f.name);
            forall other | other != name :: (other in ix.table.fields <==> LastValue(f.done, other).Some?)
                                         && (other in ix.table.fields ==>
                                               Shows(f.Print(), ix.table.fields[other], LastValue(f.done, other).value))
  {
    hide Scan, Index.Step, Quiet, PiecesMeaning, PrintPieces, Shows, LastValue, FirstAppearances;
    hide EscapeAfter, HasContentEscape, Quoted, Finished;
    var until := f.Until();
    var begun, body := until + [QUOTE], PrintPieces(f.pieces) + f.tail;
    ReadUntil(f);
    ReadUnit(until, QUOTE);
    StepInValue(Scan(until), begun);
    BodyQuiet(f.pieces, f.next, f.tail);
    var text := begun + body;
    assert text == f.Print() && text[..|begun|] == begun && text[|begun|..|text|] == body && text[..|text|] == text;
    ScanQuiet(text, |begun|, |text|, Scan(begun));
    forall other | other in Scan(until).table.fields
      ensures Shows(text, Scan(until).table.fields[other], LastValue(f.done, other).value)
    {
      ShowsLonger(until, text, Scan(until).table.fields[other], LastValue(f.done, other).value);
    }
  }

  /**
   A reader is shown the meaning of every whole piece that has arrived; the beginning of another one is held back.
   Members that are complete are shown as they are.
   */
  lemma FrontIsShown(f: Front)
    requires f.Valid()
    ensures TextOf(f.Print(), PiecesMeaning(f.name)) == Some(PiecesMeaning(f.pieces))
    ensures forall other | other != PiecesMeaning(f.name) ::
              TextOf(f.Print(), other) == match LastValue(f.done, other)
                                          case Some(JString(pieces)) => Some(PiecesMeaning(pieces))
                                          case _ => None
  {
    hide Scan, Decode, PrintPieces, Shows, LastValue;
    ReadFront(f);
    DecodeFront(f.Until() + [QUOTE], f.pieces, f.next, f.tail);
    forall other | other != PiecesMeaning(f.name)
      ensures TextOf(f.Print(), other) == match LastValue(f.done, other)
                                          case Some(JString(pieces)) => Some(PiecesMeaning(pieces))
                                          case _ => None
    {
      LastValueValid(f.done, other);
      OtherShown(f.Print(), other, LastValue(f.done, other));
    }
  }

  lemma OtherShown(text: Text, name: Text, value: Option<Json>)
    requires name in Scan(text).table.fields <==> value.Some?
    requires value.Some? ==> ValidJson(value.value) && Shows(text, Scan(text).table.fields[name], value.value)
    ensures TextOf(text, name) == match value
                                  case Some(JString(pieces)) => Some(PiecesMeaning(pieces))
                                  case _ => None
  {
    hide Scan;
    if value.Some? && value.value.JString? {
      var field := Scan(text).table.fields[name];
      ParsePrinted(value.value.pieces);
      ParseDecodes(text, field.start, field.end.value);
    }
  }

  // --- growing ----------------------------------------------------------------------------------------

  /** What one more unit does to a string field: nothing, or it grows or closes, or its name begins another value. */
  lemma FieldStep(ix: Index, text: Text, key: Text)
    requires ix.Ready() && ix.WellFormed() && ix.consumed < |text| && !ix.lexer.mode.Invalid?
    requires key in ix.table.fields && ix.table.fields[key].StringField?
    ensures var next := ix.Step(text);
            key in next.table.fields && Later(ix.table.fields[key], next.table.fields[key], ix.consumed)
  {
    hide Lexer.StepKey, Lexer.StepPunctuation, Lexer.StepNested, BeginsNoValue, EndsScalar, IsContentEscape;
  }

  /** A later field of the same name. */
  predicate Later(field: Field, next: Field, consumed: nat) {
    || next.start > field.start
    || (&& next.StringField? == field.StringField? && next.start == field.start
        && (if field.end.Some? then next.end == field.end else next.end.None? || next.end.value >= consumed))
  }

  lemma StartStep(ix: Index, text: Text, key: Text)
    requires ix.Ready() && ix.WellFormed() && ix.consumed < |text| && !ix.lexer.mode.Invalid?
    requires key in ix.table.fields
    ensures key in ix.Step(text).table.fields && ix.Step(text).table.fields[key].start >= ix.table.fields[key].start
    ensures ix.Step(text).consumed == ix.consumed + 1
  {
    hide Lexer.StepKey, Lexer.StepPunctuation, Lexer.StepNested, BeginsNoValue, EndsScalar, IsContentEscape;
  }

  /** A field of a longer text: it begins no earlier, and if it begins where it did it is the same one. */
  ghost predicate Follows(before: Index, after: Index, key: Text)
    requires key in before.table.fields
  {
    && before.consumed <= after.consumed
    && key in after.table.fields
    && var field, next := before.table.fields[key], after.table.fields[key];
       next.start >= field.start && (next.start == field.start ==> Later(field, next, before.consumed))
  }

  lemma FollowsStep(before: Index, ix: Index, text: Text, key: Text)
    requires key in before.table.fields && before.table.fields[key].StringField? && Follows(before, ix, key)
    requires ix.Ready() && ix.WellFormed() && ix.consumed < |text| && !ix.lexer.mode.Invalid?
    ensures Follows(before, ix.Step(text), key)
  {
    hide Index.Step, Index.Ready, Index.WellFormed;
    StartStep(ix, text, key);
    if ix.table.fields[key].start == before.table.fields[key].start {
      FieldStep(ix, text, key);
    }
  }

  lemma {:induction false} FieldLater(text: Text, longer: Text, key: Text)
    requires text <= longer && key in Scan(text).table.fields && Scan(text).table.fields[key].StringField?
    ensures Follows(Scan(text), Scan(longer), key)
    decreases |longer|
  {
    hide Scan, Index.Step, Index.WellFormed, Index.Ready;
    if text != longer {
      var n := |longer| - 1;
      FieldLater(text, longer[..n], key);
      assert longer[..n + 1] == longer;
      ScanNext(longer, n);
      ScanWellFormed(longer[..n]);
      if !Scan(longer[..n]).lexer.mode.Invalid? {
        FollowsStep(Scan(text), Scan(longer[..n]), longer, key);
      }
    }
  }

  /** What is decoded of an open body stays when the body grows or closes. */
  lemma {:induction false} DecodeGrows(text: Text, longer: Text, at: nat, end: nat, later: nat, open: bool)
    requires at <= end <= |text| && end <= later <= |longer| && text <= longer
    ensures Decode(text, at, end, true) <= Decode(longer, at, later, open)
    decreases end - at
  {
    if at < end {
      var t := TokenAt(text, at, end, true);
      if t.Unit? {
        assert text[..end] == longer[..end];
        TokenLocal(text, longer, at, end, true);
        TokenStable(longer, at, end, true, later, open);
        DecodeGrows(text, longer, at + t.width, end, later, open);
      }
    }
  }

  /** As more text arrives, a string that is not begun anew only grows, and once it has closed it stays as it is. */
  lemma TextGrows(text: Text, longer: Text, key: Text)
    requires text <= longer && key in Scan(text).table.fields && Scan(text).table.fields[key].StringField?
    ensures key in Scan(longer).table.fields
    ensures var field, next := Scan(text).table.fields[key], Scan(longer).table.fields[key];
            next.start == field.start ==>
              && TextOf(text, key).Some? && TextOf(longer, key).Some?
              && TextOf(text, key).value <= TextOf(longer, key).value
              && (field.end.Some? ==> TextOf(text, key) == TextOf(longer, key))
  {
    hide Scan, Decode;
    FieldLater(text, longer, key);
    var ix, after := Scan(text), Scan(longer);
    var field, next := ix.table.fields[key], after.table.fields[key];
    if next.start == field.start {
      ScanWellFormed(text);
      ScanWellFormed(longer);
      if field.end.Some? {
        assert text[..field.end.value] == longer[..field.end.value];
        DecodeLocal(text, longer, field.start, field.end.value, false);
      } else {
        DecodeGrows(text, longer, field.start, ix.consumed, EndOf(after, next), next.end.None?);
      }
    }
  }
}
