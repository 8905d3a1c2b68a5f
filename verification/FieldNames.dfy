/** Every field of every text, well-formed or not, is a member: a quoted name, a colon and a value with its end. */
module FieldNames {
  import opened CodeUnits
  import opened Options
  import opened Sequences
  import opened JsonString
  import opened FieldIndex
  import opened PrintedObjects

  predicate BlankBetween(text: Text, lo: nat, hi: nat) {
    lo <= hi <= |text| && forall i :: lo <= i < hi ==> IsBlank(text[i])
  }

  /** A place behind the opening brace or a comma. */
  ghost predicate Led(text: Text, at: nat) {
    exists p: nat :: p < at && BlankBetween(text, p + 1, at) && (text[p] == '{' as int || text[p] == ',' as int)
  }

  /** A quoted name between two places. */
  ghost predicate NameAt(text: Text, open: nat, close: nat, name: Text) {
    && open < close < |text| && text[open] == text[close] == '"' as int && Led(text, open)
    && ParseString(text[open + 1..close]) == Some(name)
  }

  ghost predicate NamedUntil(text: Text, name: Text, at: nat) {
    exists open: nat, close: nat :: NameAt(text, open, close, name) && BlankBetween(text, close + 1, at)
  }

  /** A place where the value of a name is expected. */
  ghost predicate ValueAt(text: Text, name: Text, at: nat) {
    exists c: nat :: c < |text| && NamedUntil(text, name, c) && text[c] == ':' as int && BlankBetween(text, c + 1, at)
  }

  /** A string from behind its opening quote up to its closing one, the first that no backslash escapes. */
  predicate StringBetween(text: Text, start: nat, end: Option<nat>, upTo: nat) {
    var stop := if end.Some? then end.value else upTo;
    && 0 < start <= stop <= upTo <= |text| && text[start - 1] == '"' as int && Quiet(text[start..stop], false)
    && (end.Some? ==> stop < upTo && text[stop] == '"' as int && !EscapeAfter(text[start..stop], false))
  }

  /** A value that is no string: not empty, and closed by the first unit that ends it, or by a bracket of its own. */
  predicate OtherBetween(text: Text, start: nat, end: Option<nat>, upTo: nat) {
    var stop := if end.Some? then end.value else upTo;
    && start < stop <= upTo <= |text| && !IsBlank(text[start]) && text[start] != '"' as int
    && !(text[start] in [',' as int, ':' as int, '}' as int, ']' as int])
    && if text[start] == '{' as int || text[start] == '[' as int then
         end.Some? ==> text[stop - 1] == '}' as int || text[stop - 1] == ']' as int
       else
         && (forall i :: start <= i < stop ==> !Ends(text[i]))
         && (end.Some? ==> stop < upTo && Ends(text[stop]))
  }

  predicate Ends(c: CodeUnit) {
    c == ',' as int || c == '}' as int || IsBlank(c)
  }

  ghost predicate Member(text: Text, name: Text, field: Field, upTo: nat) {
    match field
    case StringField(start, end, _) =>
      0 < start && ValueAt(text, name, start - 1) && StringBetween(text, start, end, upTo)
    case ValueField(start, end) => ValueAt(text, name, start) && OtherBetween(text, start, end, upTo)
  }

  /** What each mode of the scanner says of the text in front of it. */
  ghost predicate Stands(text: Text, ix: Index)
    requires ix.consumed <= |text|
  {
    var lexer, n := ix.lexer, ix.consumed;
    match lexer.mode
    case Root => BlankBetween(text, 0, n)
    case KeyOrEnd => Led(text, n)
    case KeyOnly => Led(text, n)
    case Key =>
      && 0 < lexer.keyStart <= n && text[lexer.keyStart - 1] == '"' as int && Led(text, lexer.keyStart - 1)
      && (!lexer.keyEscaped ==>
            !lexer.escape && forall i :: lexer.keyStart <= i < n ==>
              text[i] >= 0x20 && text[i] != '"' as int && text[i] != '\\' as int)
    case Colon => NamedUntil(text, lexer.key, n)
    case Value => ValueAt(text, lexer.key, n)
    case InString =>
      ix.table.ReadingString() && var start := ix.table.fields[ix.table.current.value].start;
      start <= n && lexer.escape == EscapeAfter(text[start..n], false)
    case Scalar =>
      ix.table.Reading() && var start := ix.table.fields[ix.table.current.value].start;
      start < n && text[start] != '{' as int && text[start] != '[' as int
    case Nested =>
      ix.table.Reading() && var start := ix.table.fields[ix.table.current.value].start;
      start < n && (text[start] == '{' as int || text[start] == '[' as int)
    case _ => true
  }

  ghost predicate Members(text: Text, ix: Index) {
    forall name <- ix.table.fields :: Member(text, name, ix.table.fields[name], ix.consumed)
  }

  ghost predicate Explained(text: Text, ix: Index) {
    ix.consumed <= |text| && Stands(text, ix) && Members(text, ix)
  }

  // --- one unit ---------------------------------------------------------------------------------------

  lemma BlankOn(text: Text, lo: nat, hi: nat)
    requires BlankBetween(text, lo, hi) && hi < |text| && IsBlank(text[hi])
    ensures BlankBetween(text, lo, hi + 1)
  {
  }

  lemma LedOn(text: Text, at: nat)
    requires Led(text, at) && at < |text| && IsBlank(text[at])
    ensures Led(text, at + 1)
  {
    var p: nat :| p < at && BlankBetween(text, p + 1, at) && (text[p] == '{' as int || text[p] == ',' as int);
    BlankOn(text, p + 1, at);
  }

  lemma LedBy(text: Text, at: nat)
    requires at < |text| && (text[at] == '{' as int || text[at] == ',' as int)
    ensures Led(text, at + 1)
  {
    assert BlankBetween(text, at + 1, at + 1);
  }

  lemma NamedOn(text: Text, name: Text, at: nat)
    requires NamedUntil(text, name, at) && at < |text| && IsBlank(text[at])
    ensures NamedUntil(text, name, at + 1)
  {
    var open: nat, close: nat :| NameAt(text, open, close, name) && BlankBetween(text, close + 1, at);
    BlankOn(text, close + 1, at);
  }

  lemma ValueOn(text: Text, name: Text, at: nat)
    requires ValueAt(text, name, at) && at < |text| && IsBlank(text[at])
    ensures ValueAt(text, name, at + 1)
  {
    hide NamedUntil;
    var c: nat :| c < |text| && NamedUntil(text, name, c) && text[c] == ':' as int && BlankBetween(text, c + 1, at);
    BlankOn(text, c + 1, at);
  }

  lemma ValueBy(text: Text, name: Text, at: nat)
    requires NamedUntil(text, name, at) && at < |text| && text[at] == ':' as int
    ensures ValueAt(text, name, at + 1)
  {
    hide NamedUntil;
    assert BlankBetween(text, at + 1, at + 1);
  }

  lemma {:induction false} PlainParses(raw: Text)
    requires forall i :: 0 <= i < |raw| ==> raw[i] >= 0x20 && raw[i] != '"' as int && raw[i] != '\\' as int
    ensures ParseString(raw) == Some(raw)
  {
    if raw != [] {
      PlainParses(raw[1..]);
      assert raw == [raw[0]] + raw[1..];
    }
  }

  /** A field that is not touched is the member it was. */
  lemma MemberOn(text: Text, name: Text, field: Field, upTo: nat)
    requires Member(text, name, field, upTo) && field.end.Some? && upTo < |text|
    ensures Member(text, name, field, upTo + 1)
  {
    hide ValueAt;
  }

  lemma MembersOn(text: Text, ix: Index, next: Index)
    requires Members(text, ix) && ix.consumed < |text| && next.consumed == ix.consumed + 1
    requires next.table.fields == ix.table.fields && forall name <- ix.table.fields :: ix.table.fields[name].end.Some?
    ensures Members(text, next)
  {
    hide Member;
    forall name <- ix.table.fields
      ensures Member(text, name, ix.table.fields[name], next.consumed)
    {
      MemberOn(text, name, ix.table.fields[name], ix.consumed);
    }
  }

  /** One field is new or has changed; the others have an end. */
  lemma MembersBut(text: Text, ix: Index, next: Index, key: Text)
    requires Members(text, ix) && ix.consumed < |text| && next.consumed == ix.consumed + 1
    requires key in next.table.fields && next.table.fields == ix.table.fields[key := next.table.fields[key]]
    requires Member(text, key, next.table.fields[key], next.consumed)
    requires forall name <- ix.table.fields :: name == key || ix.table.fields[name].end.Some?
    ensures Members(text, next)
  {
    hide Member;
    forall name <- next.table.fields
      ensures Member(text, name, next.table.fields[name], next.consumed)
    {
      if name != key {
        MemberOn(text, name, ix.table.fields[name], ix.consumed);
      }
    }
  }

  /** Outside values every field has an end; inside one, every other field has. */
  lemma OthersEnd(ix: Index)
    requires ix.WellFormed() && !ix.lexer.mode.Invalid?
    ensures forall name <- ix.table.fields :: ix.table.fields[name].end.None? ==> ix.table.current == Some(name)
    ensures !ix.lexer.mode.HasCurrent() ==> forall name <- ix.table.fields :: ix.table.fields[name].end.Some?
  {
  }

  lemma PunctuationExplained(text: Text, ix: Index)
    requires ix.Ready() && ix.WellFormed() && Explained(text, ix) && ix.consumed < |text|
    requires !ix.lexer.mode.HasCurrent() && !ix.lexer.mode.Key? && !ix.lexer.mode.Value? && !ix.lexer.mode.Invalid?
    ensures Explained(text, ix.Step(text))
  {
    hide Members, Led, NamedUntil, Index.WellFormed;
    var n, c := ix.consumed, text[ix.consumed];
    OthersEnd(ix);
    MembersOn(text, ix, ix.Step(text));
    if IsBlank(c) {
      if ix.lexer.mode.KeyOrEnd? || ix.lexer.mode.KeyOnly? {
        LedOn(text, n);
      } else if ix.lexer.mode.Colon? {
        NamedOn(text, ix.lexer.key, n);
      }
    } else if c == ':' as int && ix.lexer.mode.Colon? {
      ValueBy(text, ix.lexer.key, n);
    } else if c == '{' as int || c == ',' as int {
      LedBy(text, n);
    }
  }

  lemma KeyExplained(text: Text, ix: Index)
    requires ix.Ready() && ix.WellFormed() && Explained(text, ix) && ix.consumed < |text| && ix.lexer.mode.Key?
    ensures Explained(text, ix.Step(text))
  {
    hide Members, Led, Index.WellFormed, ParseString;
    var n, lexer := ix.consumed, ix.lexer;
    OthersEnd(ix);
    MembersOn(text, ix, ix.Step(text));
    if ix.Step(text).lexer.mode.Colon? {
      if !lexer.keyEscaped {
        PlainParses(text[lexer.keyStart..n]);
      }
      assert NameAt(text, lexer.keyStart - 1, n, ix.Step(text).lexer.key);
      assert BlankBetween(text, n + 1, n + 1);
    }
  }

  lemma ValueExplained(text: Text, ix: Index)
    requires ix.Ready() && ix.WellFormed() && Explained(text, ix) && ix.consumed < |text| && ix.lexer.mode.Value?
    ensures Explained(text, ix.Step(text))
  {
    hide Members, Led, NamedUntil, ValueAt, Index.WellFormed;
    var n, c, next := ix.consumed, text[ix.consumed], ix.Step(text);
    OthersEnd(ix);
    if IsBlank(c) {
      ValueOn(text, ix.lexer.key, n);
      MembersOn(text, ix, next);
    } else if c == '"' as int {
      assert text[n + 1..n + 1] == [];
      MembersBut(text, ix, next, ix.lexer.key);
    } else if next.lexer.mode.Invalid? {
      MembersOn(text, ix, next);
    } else {
      MembersBut(text, ix, next, ix.lexer.key);
    }
  }

  lemma BodySnoc(text: Text, start: nat, n: nat)
    requires start <= n < |text|
    ensures var before, after := text[start..n], text[start..n + 1];
            && EscapeAfter(after, false) == (!EscapeAfter(before, false) && text[n] == BACKSLASH)
            && (Quiet(after, false) <==> Quiet(before, false) && (text[n] == QUOTE ==> EscapeAfter(before, false)))
  {
    assert text[start..n + 1][..n - start] == text[start..n];
  }

  lemma StringExplained(text: Text, ix: Index)
    requires ix.Ready() && ix.WellFormed() && Explained(text, ix) && ix.consumed < |text| && ix.lexer.mode.InString?
    ensures Explained(text, ix.Step(text))
  {
    hide Led, NamedUntil, ValueAt, Index.WellFormed, EscapeAfter, Quiet;
    OthersEnd(ix);
    var key := ix.table.current.value;
    assert Member(text, key, ix.table.fields[key], ix.consumed);
    CurrentHasNoEnd(ix);
    BodySnoc(text, ix.table.fields[key].start, ix.consumed);
    MembersBut(text, ix, ix.Step(text), key);
  }

  lemma CurrentHasNoEnd(ix: Index)
    requires ix.WellFormed() && ix.table.current.Some?
    ensures ix.table.Reading() && ix.table.fields[ix.table.current.value].end.None?
    ensures ix.table.ReadingString() ==> ix.lexer.mode.InString?
  {
  }

  /** A unit of a literal or number belongs to it, or ends it. */
  lemma ScalarStep(ix: Index, text: Text)
    requires ix.Ready() && ix.WellFormed() && ix.consumed < |text| && ix.lexer.mode.Scalar?
    ensures var next, n, key := ix.Step(text), ix.consumed, ix.table.current.value;
            && next.consumed == n + 1 && key in ix.table.fields && key in next.table.fields
            && ix.table.fields[key].ValueField? && ix.table.fields[key].end.None?
            && next.table.fields == ix.table.fields[key := next.table.fields[key]]
            && var field := next.table.fields[key];
               && field.ValueField? && field.start == ix.table.fields[key].start
               && if Ends(text[n]) then
                    && field.end == Some(n)
                    && next.lexer.mode == (if text[n] == ',' as int then KeyOnly
                                           else if text[n] == '}' as int then Closed else CommaOrEnd)
                  else next.lexer.mode.Scalar? && field.end.None? && next.table.current == Some(key)
  {
    CurrentHasNoEnd(ix);
    assert Ends(text[ix.consumed]) == EndsScalar(text[ix.consumed]);
  }

  lemma ScalarExplained(text: Text, ix: Index)
    requires ix.Ready() && ix.WellFormed() && Explained(text, ix) && ix.consumed < |text| && ix.lexer.mode.Scalar?
    ensures Explained(text, ix.Step(text))
  {
    hide Led, NamedUntil, ValueAt, Index.WellFormed, Index.Step;
    OthersEnd(ix);
    ScalarStep(ix, text);
    var n, key := ix.consumed, ix.table.current.value;
    assert Member(text, key, ix.table.fields[key], n);
    if text[n] == ',' as int {
      LedBy(text, n);
    }
    MembersBut(text, ix, ix.Step(text), key);
  }

  /** A unit of a nested value leaves it open, or closes it as the bracket it is. */
  lemma NestedStep(ix: Index, text: Text)
    requires ix.Ready() && ix.WellFormed() && ix.consumed < |text| && ix.lexer.mode.Nested?
    ensures var next, n, key := ix.Step(text), ix.consumed, ix.table.current.value;
            && next.consumed == n + 1 && key in ix.table.fields && key in next.table.fields
            && ix.table.fields[key].ValueField? && ix.table.fields[key].end.None?
            && next.table.fields == ix.table.fields[key := next.table.fields[key]]
            && var field := next.table.fields[key];
               && field.ValueField? && field.start == ix.table.fields[key].start
               && (|| (next.lexer.mode.Nested? && field.end.None? && next.table.current == Some(key))
                   || (next.lexer.mode.Invalid? && field.end.None?)
                   || (next.lexer.mode.CommaOrEnd? && field.end == Some(n + 1)
                       && (text[n] == '}' as int || text[n] == ']' as int)))
  {
    StepInNested(ix, text);
    CurrentHasNoEnd(ix);
  }

  lemma NestedExplained(text: Text, ix: Index)
    requires ix.Ready() && ix.WellFormed() && Explained(text, ix) && ix.consumed < |text| && ix.lexer.mode.Nested?
    ensures Explained(text, ix.Step(text))
  {
    hide Led, NamedUntil, ValueAt, Index.WellFormed, Index.Step;
    OthersEnd(ix);
    NestedStep(ix, text);
    var key := ix.table.current.value;
    assert Member(text, key, ix.table.fields[key], ix.consumed);
    MembersBut(text, ix, ix.Step(text), key);
  }

  lemma StepExplained(text: Text, ix: Index)
    requires ix.Ready() && ix.WellFormed() && Explained(text, ix) && ix.consumed < |text|
    ensures Explained(text, ix.Step(text))
  {
    hide Explained, Index.WellFormed, Index.Ready, Index.Step;
    match ix.lexer.mode
    case Key => KeyExplained(text, ix);
    case Value => ValueExplained(text, ix);
    case InString => StringExplained(text, ix);
    case Scalar => ScalarExplained(text, ix);
    case Nested => NestedExplained(text, ix);
    case Invalid => InvalidStays(text, ix);
    case _ => PunctuationExplained(text, ix);
  }

  lemma InvalidStays(text: Text, ix: Index)
    requires ix.Ready() && ix.lexer.mode.Invalid? && ix.consumed < |text|
    ensures ix.Step(text) == ix
  {
  }

  lemma StartExplained(text: Text)
    ensures Explained(text, START)
  {
  }

  lemma {:induction false} FrontExplained(text: Text, n: nat)
    requires n <= |text|
    ensures Explained(text, Scan(text[..n]))
  {
    hide Scan, Explained, Index.WellFormed, Index.Ready, Index.Step;
    if n == 0 {
      assert text[..n] == [];
      ScanOfNothing();
      StartExplained(text);
    } else {
      FrontExplained(text, n - 1);
      ScanNext(text, n - 1);
      ScanWellFormed(text[..n - 1]);
      if !Scan(text[..n - 1]).lexer.mode.Invalid? {
        StepExplained(text, Scan(text[..n - 1]));
      }
    }
  }

  lemma ScanOfNothing()
    ensures Scan([]) == START
  {
  }

  /**
   Every field the scanner finds, in any text, lies where a member's value does: behind a comma or the opening brace
   comes the quoted name that means the key, then a colon, then the value; a string ends at its first quote that no
   backslash escapes, a literal at the first unit that ends one, anything else with a closing bracket.
   */
  lemma FieldsAreMembers(text: Text, name: Text)
    requires name in Scan(text).table.fields
    ensures Member(text, name, Scan(text).table.fields[name], Scan(text).consumed)
  {
    hide Scan, Member;
    FrontExplained(text, |text|);
    assert text[..|text|] == text;
  }

  /** What the scanner does not accept where it stands; a bad escape in a name is noticed at its end. */
  lemma RefusedUnits(text: Text, n: nat)
    requires n < |text| && !Scan(text[..n]).lexer.mode.Invalid?
    ensures var lexer, c := Scan(text[..n]).lexer, text[n];
            Scan(text[..n + 1]).lexer.mode.Invalid? <==>
            match lexer.mode
            case Root => !IsBlank(c) && c != '{' as int
            case KeyOrEnd => !IsBlank(c) && c != '"' as int && c != '}' as int
            case KeyOnly => !IsBlank(c) && c != '"' as int
            case Key =>
              || c < 0x20
              || (c == '"' as int && !lexer.escape && lexer.keyEscaped && lexer.keyStart <= n
                  && ParseString(text[lexer.keyStart..n]).None?)
            case Colon => !IsBlank(c) && c != ':' as int
            case Value => c == ',' as int || c == ':' as int || c == '}' as int || c == ']' as int
            case Nested =>
              && !lexer.nestedInString && (c == '}' as int || c == ']' as int)
              && lexer.nestedEnds != [] && lexer.nestedEnds[|lexer.nestedEnds| - 1] != c
            case CommaOrEnd => !IsBlank(c) && c != ',' as int && c != '}' as int
            case Closed => !IsBlank(c)
            case _ => false
  {
    hide Scan, ParseString;
    ScanNext(text, n);
  }
}
