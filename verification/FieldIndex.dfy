/** The field index of one JSON object's text, one unit at a time. */
module FieldIndex {
  import opened CodeUnits
  import opened Options
  import opened JsonString
  import opened Sequences

  datatype Mode =
    | Root | KeyOrEnd | KeyOnly | Key | Colon | Value | InString | Scalar | Nested | CommaOrEnd | Closed | Invalid
  {
    /** The modes inside a value, which have a current field. */
    predicate HasCurrent() {
      InString? || Scalar? || Nested?
    }
  }

  /** Where a field's value lies; a string excludes its quotes, and an open field has no end yet. */
  datatype Field =
    | StringField(start: nat, end: Option<nat>, needsDecoding: bool)
    | ValueField(start: nat, end: Option<nat>)

  /** The fields found, the order in which their names came first, and the one still being read. */
  datatype Table = Table(fields: map<Text, Field>, order: seq<Text>, current: Option<Text>)
  {
    predicate Reading() {
      current.Some? && current.value in fields
    }

    predicate ReadingString() {
      Reading() && fields[current.value].StringField?
    }

    function Open(key: Text, field: Field): Table {
      Table(fields[key := field], if key in fields then order else order + [key], Some(key))
    }

    function Close(end: nat): Table
      requires Reading()
    {
      Table(fields[current.value := fields[current.value].(end := Some(end))], order, None)
    }

    /** Remember that the current string holds something other than plain units. */
    function Mark(needs: bool): Table
      requires ReadingString()
    {
      var field := fields[current.value];
      this.(fields := fields[current.value := field.(needsDecoding := field.needsDecoding || needs)])
    }

    function Drop(): Table {
      this.(current := None)
    }

    /** Fields lie in the consumed text; only the current one, or one that scanning failed in, is open. */
    ghost predicate Fits(consumed: nat, failed: bool) {
      && (current.Some? ==> current.value in fields && fields[current.value].end.None?)
      && (forall k | k in fields ::
            && fields[k].start <= consumed
            && (if fields[k].end.Some? then fields[k].start <= fields[k].end.value <= consumed
                else current == Some(k) || (failed && fields[k].ValueField?))
            && (fields[k].StringField? && fields[k].end.Some? ==>
                  fields[k].end.value < if failed then consumed - 1 else consumed))
      && (forall k <- order :: k in fields)
      && (forall k | k in fields :: k in order)
    }

    lemma OpenFits(key: Text, field: Field, consumed: nat)
      requires Fits(consumed, false) && current.None? && field.end.None? && field.start <= consumed + 1
      ensures Open(key, field).Fits(consumed + 1, false)
    {
      assert key in order + [key];
    }

    lemma CloseFits(end: nat, consumed: nat)
      requires Fits(consumed, false) && Reading()
      requires fields[current.value].start <= end <= consumed + 1
      requires fields[current.value].StringField? ==> end == consumed
      ensures Close(end).Fits(consumed + 1, false)
    {
      assert Close(end).fields.Keys == fields.Keys;
    }

    lemma MarkFits(needs: bool, consumed: nat)
      requires Fits(consumed, false) && ReadingString()
      ensures Mark(needs).Fits(consumed + 1, false)
    {
      assert Mark(needs).fields.Keys == fields.Keys;
    }

    lemma MoveFits(consumed: nat)
      requires Fits(consumed, false)
      ensures Fits(consumed + 1, false)
      ensures !ReadingString() ==> Drop().Fits(consumed + 1, true)
    {
    }
  }

  /** The scanner's control state. */
  datatype Lexer = Lexer(
    mode: Mode,
    escape: bool,
    keyStart: nat,
    keyEscaped: bool,
    key: Text,
    nestedEnds: seq<CodeUnit>,
    nestedInString: bool)
  {
    predicate InQuotes() {
      mode.InString? || (mode.Nested? && nestedInString)
    }

    function Go(next: Mode): Lexer {
      this.(mode := next)
    }

    function BeginKey(at: nat): Lexer {
      this.(mode := Key, keyStart := at + 1, keyEscaped := false, escape := false)
    }

    /** One unit of a member name: a plain run is taken as it is, any other through `JSON.parse`. */
    function StepKey(c: CodeUnit, at: nat, text: Text): Lexer
      requires keyStart <= at <= |text|
    {
      if c < SPACE then Go(Invalid)
      else if escape then this.(escape := false)
      else if c == BACKSLASH then this.(escape := true, keyEscaped := true)
      else if c != QUOTE then this
      else
        var raw := text[keyStart..at];
        if !keyEscaped then this.(key := raw, mode := Colon)
        else
          match ParseString(raw)
          case Some(k) => this.(key := k, mode := Colon)
          case None => Go(Invalid)
    }

    /** One unit between or around members. */
    function StepPunctuation(c: CodeUnit, at: nat): Lexer
      requires !mode.HasCurrent() && !mode.Key? && !mode.Value? && !mode.Invalid?
    {
      if IsWhitespace(c) then this
      else
        match mode
        case Root => Go(if c == OPEN_BRACE then KeyOrEnd else Invalid)
        case KeyOrEnd => if c == QUOTE then BeginKey(at) else Go(if c == CLOSE_BRACE then Closed else Invalid)
        case KeyOnly => if c == QUOTE then BeginKey(at) else Go(Invalid)
        case Colon => Go(if c == COLON then Value else Invalid)
        case CommaOrEnd => Go(if c == COMMA then KeyOnly else if c == CLOSE_BRACE then Closed else Invalid)
        case Closed => Go(Invalid)
    }

    /** One unit of a nested object or array; only brackets outside its strings matter. */
    function StepNested(c: CodeUnit): Lexer
      requires mode.Nested? && nestedEnds != []
    {
      if nestedInString then
        if c == QUOTE && !escape then this.(nestedInString := false)
        else this.(escape := !escape && c == BACKSLASH)
      else if c == QUOTE then this.(nestedInString := true)
      else if c == OPEN_BRACE || c == OPEN_BRACKET then this.(nestedEnds := nestedEnds + [Closer(c)])
      else if c == CLOSE_BRACE || c == CLOSE_BRACKET then
        var rest := nestedEnds[..|nestedEnds| - 1];
        this.(nestedEnds := rest,
              mode := if nestedEnds[|rest|] != c then Invalid else if rest == [] then CommaOrEnd else Nested)
      else this
    }
  }

  function Closer(c: CodeUnit): CodeUnit {
    if c == OPEN_BRACE then CLOSE_BRACE else CLOSE_BRACKET
  }

  /** The units that can follow a member's colon and begin no value. */
  predicate BeginsNoValue(c: CodeUnit) {
    c == CLOSE_BRACE || c == COMMA || c == COLON || c == CLOSE_BRACKET
  }

  predicate EndsScalar(c: CodeUnit) {
    c == COMMA || c == CLOSE_BRACE || IsWhitespace(c)
  }

  /** Everything the scanner knows after consuming a prefix of the text. */
  datatype Index = Index(consumed: nat, lexer: Lexer, table: Table)
  {
    /** What a step reads. */
    predicate Ready() {
      && (lexer.mode.Key? ==> lexer.keyStart <= consumed)
      && (lexer.mode.HasCurrent() ==> table.Reading())
      && (lexer.mode.InString? ==> table.ReadingString())
      && (lexer.mode.Nested? ==> lexer.nestedEnds != [])
    }

    ghost predicate WellFormed() {
      && (lexer.mode.HasCurrent() <==> table.current.Some?)
      && (table.ReadingString() ==> lexer.mode.InString?)
      && (lexer.mode.Invalid? ==> 0 < consumed)
      && table.Fits(consumed, lexer.mode.Invalid?)
    }

    /** Failing anywhere leaves no current field. */
    function Settle(next: Lexer): Index {
      Index(consumed + 1, next, if next.mode.Invalid? then table.Drop() else table)
    }

    function BeginValue(c: CodeUnit): Index {
      if IsWhitespace(c) then Settle(lexer)
      else if c == QUOTE then
        Index(consumed + 1, lexer.(escape := false, mode := InString),
              table.Open(lexer.key, StringField(consumed + 1, None, false)))
      else if BeginsNoValue(c) then Settle(lexer.Go(Invalid))
      else
        var next :=
          if c == OPEN_BRACE || c == OPEN_BRACKET then
            lexer.(mode := Nested, nestedEnds := [Closer(c)], nestedInString := false, escape := false)
          else lexer.Go(Scalar);
        Index(consumed + 1, next, table.Open(lexer.key, ValueField(consumed, None)))
    }

    /** One unit of a string value: the closing quote is the first one no backslash escapes. */
    function StepString(c: CodeUnit): Index
      requires table.ReadingString()
    {
      if c == QUOTE && !lexer.escape then Index(consumed + 1, lexer.Go(CommaOrEnd), table.Close(consumed))
      else
        Index(consumed + 1, lexer.(escape := !lexer.escape && c == BACKSLASH), table.Mark(IsContentEscape(c)))
    }

    function StepScalar(c: CodeUnit): Index
      requires table.Reading()
    {
      if !EndsScalar(c) then Settle(lexer)
      else
        Index(consumed + 1,
              lexer.Go(if c == COMMA then KeyOnly else if c == CLOSE_BRACE then Closed else CommaOrEnd),
              table.Close(consumed))
    }

    function StepNested(c: CodeUnit): Index
      requires table.Reading() && lexer.mode.Nested? && lexer.nestedEnds != []
    {
      var next := lexer.StepNested(c);
      if next.mode.CommaOrEnd? then Index(consumed + 1, next, table.Close(consumed + 1))
      else Settle(next)
    }

    /** Consume the next unit; a failure consumes its unit and then nothing more is read. */
    function Step(text: Text): Index
      requires Ready() && consumed < |text|
    {
      var c := text[consumed];
      match lexer.mode
      case Key => Settle(lexer.StepKey(c, consumed, text))
      case Value => BeginValue(c)
      case InString => StepString(c)
      case Scalar => StepScalar(c)
      case Nested => StepNested(c)
      case Invalid => this
      case _ => Settle(lexer.StepPunctuation(c, consumed))
    }
  }

  const START := Index(0, Lexer(Root, false, 0, false, [], [], false), Table(map[], [], None))

  lemma StepReady(ix: Index, text: Text)
    requires ix.Ready() && ix.consumed < |text|
    ensures ix.Step(text).Ready()
    ensures ix.lexer.mode.Invalid? || ix.Step(text).consumed == ix.consumed + 1
  {
    hide ParseString, IsWhitespace, BeginsNoValue, EndsScalar, Closer;
    match ix.lexer.mode
    case Key => StepKeyReady(ix, text);
    case Value => StepValueReady(ix, text);
    case InString =>
    case Nested => StepNestedReady(ix, text);
    case _ =>
  }

  lemma StepNestedReady(ix: Index, text: Text)
    requires ix.Ready() && ix.consumed < |text| && ix.lexer.mode.Nested?
    ensures ix.Step(text).Ready() && ix.Step(text).consumed == ix.consumed + 1
  {
    hide ParseString, IsWhitespace;
  }

  lemma StepKeyReady(ix: Index, text: Text)
    requires ix.Ready() && ix.consumed < |text| && ix.lexer.mode.Key?
    ensures ix.Step(text).Ready() && ix.Step(text).consumed == ix.consumed + 1
  {
    hide ParseString;
  }

  lemma StepValueReady(ix: Index, text: Text)
    requires ix.Ready() && ix.consumed < |text| && ix.lexer.mode.Value?
    ensures ix.Step(text).Ready() && ix.Step(text).consumed == ix.consumed + 1
  {
    hide IsWhitespace, BeginsNoValue, Closer;
  }

  /** The index of a whole text: the meaning every fragmentation must agree with. */
  function Scan(text: Text): (ix: Index)
    ensures ix.Ready()
    ensures ix.consumed <= |text| && (ix.consumed == |text| || ix.lexer.mode.Invalid?)
  {
    if text == [] then START
    else
      var before := Scan(text[..|text| - 1]);
      if before.lexer.mode.Invalid? then before
      else
        StepReady(before, text);
        before.Step(text)
  }

  lemma StepKeyWellFormed(ix: Index, text: Text)
    requires ix.Ready() && ix.WellFormed() && ix.consumed < |text| && ix.lexer.mode.Key?
    ensures ix.Step(text).WellFormed()
  {
    ix.table.MoveFits(ix.consumed);
  }

  lemma BeginValueWellFormed(ix: Index, text: Text)
    requires ix.Ready() && ix.WellFormed() && ix.consumed < |text| && ix.lexer.mode.Value?
    ensures ix.Step(text).WellFormed()
  {
    ix.table.MoveFits(ix.consumed);
    ix.table.OpenFits(ix.lexer.key, StringField(ix.consumed + 1, None, false), ix.consumed);
    ix.table.OpenFits(ix.lexer.key, ValueField(ix.consumed, None), ix.consumed);
  }

  lemma StepStringWellFormed(ix: Index, text: Text)
    requires ix.Ready() && ix.WellFormed() && ix.consumed < |text| && ix.lexer.mode.InString?
    ensures ix.Step(text).WellFormed()
  {
    ix.table.CloseFits(ix.consumed, ix.consumed);
    ix.table.MarkFits(IsContentEscape(text[ix.consumed]), ix.consumed);
  }

  lemma StepScalarWellFormed(ix: Index, text: Text)
    requires ix.Ready() && ix.WellFormed() && ix.consumed < |text| && ix.lexer.mode.Scalar?
    ensures ix.Step(text).WellFormed()
  {
    ix.table.MoveFits(ix.consumed);
    ix.table.CloseFits(ix.consumed, ix.consumed);
  }

  lemma StepNestedWellFormed(ix: Index, text: Text)
    requires ix.Ready() && ix.WellFormed() && ix.consumed < |text| && ix.lexer.mode.Nested?
    ensures ix.Step(text).WellFormed()
  {
    ix.table.MoveFits(ix.consumed);
    ix.table.CloseFits(ix.consumed + 1, ix.consumed);
  }

  lemma StepPunctuationWellFormed(ix: Index, text: Text)
    requires ix.Ready() && ix.WellFormed() && ix.consumed < |text|
    requires !ix.lexer.mode.HasCurrent() && !ix.lexer.mode.Key? && !ix.lexer.mode.Value? && !ix.lexer.mode.Invalid?
    ensures ix.Step(text).WellFormed()
  {
    ix.table.MoveFits(ix.consumed);
  }

  lemma StepWellFormed(ix: Index, text: Text)
    requires ix.Ready() && ix.WellFormed() && ix.consumed < |text|
    ensures ix.Step(text).WellFormed()
  {
    match ix.lexer.mode
    case Key => StepKeyWellFormed(ix, text);
    case Value => BeginValueWellFormed(ix, text);
    case InString => StepStringWellFormed(ix, text);
    case Scalar => StepScalarWellFormed(ix, text);
    case Nested => StepNestedWellFormed(ix, text);
    case Invalid =>
    case _ => StepPunctuationWellFormed(ix, text);
  }

  lemma {:induction false} ScanWellFormed(text: Text)
    ensures Scan(text).WellFormed()
  {
    if text != [] {
      var before := Scan(text[..|text| - 1]);
      ScanWellFormed(text[..|text| - 1]);
      if !before.lexer.mode.Invalid? {
        StepWellFormed(before, text);
      }
    }
  }

  /** The field being read has no end yet. */
  lemma CurrentOpen(text: Text)
    ensures var table := Scan(text).table;
            table.current.Some? ==> table.Reading() && table.fields[table.current.value].end.None?
  {
    ScanWellFormed(text);
  }

  /** Scanning one unit more of a longer text. */
  lemma ScanNext(text: Text, i: nat)
    requires i < |text|
    ensures var before := Scan(text[..i]);
            Scan(text[..i + 1]) == if before.lexer.mode.Invalid? then before else before.Step(text)
  {
    var prefix := text[..i + 1];
    assert prefix[..i] == text[..i];
    var before := Scan(text[..i]);
    if !before.lexer.mode.Invalid? {
      assert prefix[i] == text[i];
      if before.lexer.mode.Key? {
        SliceOfSlice(text, 0, i + 1, before.lexer.keyStart, i);
        assert text[0..i + 1] == prefix;
      }
    }
  }

  /** Nothing after the failing unit is read. */
  lemma {:induction false} ScanFrozen(text: Text, i: nat)
    requires i <= |text| && Scan(text[..i]).lexer.mode.Invalid?
    ensures Scan(text) == Scan(text[..i])
    decreases |text| - i
  {
    if i < |text| {
      ScanNext(text, i);
      ScanFrozen(text, i + 1);
    } else {
      assert text[..i] == text;
    }
  }

  // --- runs inside quotes ---------------------------------------------------------------------

  /** Escape parity after a run, from the parity before it. */
  function EscapeAfter(run: Text, escape: bool): bool {
    if run == [] then escape
    else
      var before := EscapeAfter(run[..|run| - 1], escape);
      !before && run[|run| - 1] == BACKSLASH
  }

  predicate HasContentEscape(run: Text) {
    run != [] && (HasContentEscape(run[..|run| - 1]) || IsContentEscape(run[|run| - 1]))
  }

  lemma {:induction false} ContentEscapeExists(run: Text)
    ensures HasContentEscape(run) <==> exists i :: 0 <= i < |run| && IsContentEscape(run[i])
  {
    if run != [] {
      var init := run[..|run| - 1];
      ContentEscapeExists(init);
      assert forall i | 0 <= i < |init| :: init[i] == run[i];
    }
  }

  lemma {:induction false} ContentEscapeConcat(a: Text, b: Text)
    ensures HasContentEscape(a + b) == (HasContentEscape(a) || HasContentEscape(b))
  {
    if b == [] {
      assert a + b == a;
    } else {
      assert (a + b)[..|a + b| - 1] == a + b[..|b| - 1];
      ContentEscapeConcat(a, b[..|b| - 1]);
    }
  }

  /** An index inside quotes after a run that did not close them. */
  function InQuotesAfter(ix: Index, run: Text): Index
    requires ix.Ready() && ix.lexer.InQuotes()
  {
    Index(ix.consumed + |run|,
          ix.lexer.(escape := EscapeAfter(run, ix.lexer.escape)),
          if ix.lexer.mode.InString? then ix.table.Mark(HasContentEscape(run)) else ix.table)
  }

  /** A run is quiet when each of its quotes is escaped. */
  predicate Quiet(run: Text, escape: bool) {
    run == [] ||
    var init := run[..|run| - 1];
    Quiet(init, escape) && (run[|run| - 1] == QUOTE ==> EscapeAfter(init, escape))
  }

  lemma {:induction false} QuietWithoutQuotes(run: Text, escape: bool)
    requires QUOTE !in run
    ensures Quiet(run, escape)
  {
    if run != [] {
      QuietWithoutQuotes(run[..|run| - 1], escape);
    }
  }

  lemma {:induction false} QuietConcat(a: Text, b: Text, escape: bool)
    requires Quiet(a, escape) && Quiet(b, EscapeAfter(a, escape))
    ensures Quiet(a + b, escape)
  {
    if b == [] {
      assert a + b == a;
    } else {
      var init := b[..|b| - 1];
      assert (a + b)[..|a + b| - 1] == a + init;
      QuietConcat(a, init, escape);
      EscapeConcat(a, init, escape);
    }
  }

  lemma StepInString(ix: Index, text: Text)
    requires ix.Ready() && ix.lexer.mode.InString? && ix.consumed < |text|
    ensures ix.Step(text) == ix.StepString(text[ix.consumed])
  {
  }

  lemma StepInNested(ix: Index, text: Text)
    requires ix.Ready() && ix.lexer.mode.Nested? && ix.consumed < |text|
    ensures ix.Step(text) == ix.StepNested(text[ix.consumed])
  {
  }

  lemma QuietStringStep(ix: Index, run: Text, c: CodeUnit)
    requires ix.Ready() && ix.lexer.mode.InString?
    requires c == QUOTE ==> EscapeAfter(run, ix.lexer.escape)
    ensures InQuotesAfter(ix, run).StepString(c) == InQuotesAfter(ix, run + [c])
  {
    assert (run + [c])[..|run|] == run;
  }

  lemma QuietNestedStep(ix: Index, run: Text, c: CodeUnit)
    requires ix.Ready() && ix.lexer.mode.Nested? && ix.lexer.nestedInString
    requires c == QUOTE ==> EscapeAfter(run, ix.lexer.escape)
    ensures InQuotesAfter(ix, run).StepNested(c) == InQuotesAfter(ix, run + [c])
  {
    assert (run + [c])[..|run|] == run;
  }

  /** One more unit of a quiet run. */
  lemma ScanQuietString(text: Text, j: nat, ix: Index, run: Text)
    requires ix.Ready() && ix.lexer.mode.InString? && j < |text| && ix.consumed + |run| == j
    requires Scan(text[..j]) == InQuotesAfter(ix, run)
    requires text[j] == QUOTE ==> EscapeAfter(run, ix.lexer.escape)
    ensures Scan(text[..j + 1]) == InQuotesAfter(ix, run + [text[j]])
  {
    ScanNext(text, j);
    StepInString(InQuotesAfter(ix, run), text);
    QuietStringStep(ix, run, text[j]);
  }

  lemma ScanQuietNested(text: Text, j: nat, ix: Index, run: Text)
    requires ix.Ready() && ix.lexer.mode.Nested? && ix.lexer.nestedInString && j < |text| && ix.consumed + |run| == j
    requires Scan(text[..j]) == InQuotesAfter(ix, run)
    requires text[j] == QUOTE ==> EscapeAfter(run, ix.lexer.escape)
    ensures Scan(text[..j + 1]) == InQuotesAfter(ix, run + [text[j]])
  {
    ScanNext(text, j);
    StepInNested(InQuotesAfter(ix, run), text);
    QuietNestedStep(ix, run, text[j]);
  }

  lemma ScanQuietUnit(text: Text, j: nat, ix: Index, run: Text)
    requires ix.Ready() && ix.lexer.InQuotes() && j < |text| && ix.consumed + |run| == j
    requires Scan(text[..j]) == InQuotesAfter(ix, run)
    requires text[j] == QUOTE ==> EscapeAfter(run, ix.lexer.escape)
    ensures Scan(text[..j + 1]) == InQuotesAfter(ix, run + [text[j]])
  {
    if ix.lexer.mode.InString? {
      ScanQuietString(text, j, ix, run);
    } else {
      ScanQuietNested(text, j, ix, run);
    }
  }

  lemma QuietNothing(ix: Index)
    requires ix.Ready() && ix.lexer.InQuotes()
    ensures InQuotesAfter(ix, []) == ix
  {
    if ix.lexer.mode.InString? {
      assert ix.table.Mark(false) == ix.table;
    }
  }

  lemma QuietInit(text: Text, i: nat, j: nat, escape: bool)
    requires i < j <= |text| && Quiet(text[i..j], escape)
    ensures Quiet(text[i..j - 1], escape)
    ensures text[j - 1] == QUOTE ==> EscapeAfter(text[i..j - 1], escape)
  {
    var run := text[i..j];
    assert run[..|run| - 1] == text[i..j - 1] && run[|run| - 1] == text[j - 1];
  }

  lemma SliceSnoc(text: Text, i: nat, j: nat)
    requires i <= j < |text|
    ensures text[i..j + 1] == text[i..j] + [text[j]]
  {
  }

  lemma ScanQuietSnoc(text: Text, i: nat, j: nat, ix: Index, run: Text)
    requires i <= j < |text| && ix.Ready() && ix.lexer.InQuotes() && ix.consumed == i && run == text[i..j]
    requires Scan(text[..j]) == InQuotesAfter(ix, run)
    requires text[j] == QUOTE ==> EscapeAfter(run, ix.lexer.escape)
    ensures Scan(text[..j + 1]) == InQuotesAfter(ix, text[i..j + 1])
  {
    SliceSnoc(text, i, j);
    ScanQuietUnit(text, j, ix, run);
  }

  /** Scanning a quiet run keeps the quotes open and only moves parity and the decoding flag. */
  lemma {:induction false} ScanQuiet(text: Text, i: nat, j: nat, ix: Index)
    requires i <= j <= |text|
    requires ix == Scan(text[..i]) && ix.lexer.InQuotes()
    requires Quiet(text[i..j], ix.lexer.escape)
    ensures Scan(text[..j]) == InQuotesAfter(ix, text[i..j])
    decreases j - i
  {
    hide Scan, Quiet, InQuotesAfter;
    if i == j {
      assert text[i..j] == [];
      QuietNothing(ix);
    } else {
      QuietInit(text, i, j, ix.lexer.escape);
      ScanQuiet(text, i, j - 1, ix);
      ScanQuietSnoc(text, i, j - 1, ix, text[i..j - 1]);
    }
  }

  /** The length of the run of backslashes at the end of a text. */
  function TrailingSlashes(run: Text): (n: nat)
    ensures n <= |run|
  {
    if run == [] || run[|run| - 1] != BACKSLASH then 0 else 1 + TrailingSlashes(run[..|run| - 1])
  }

  /** Parity can be read off the trailing backslashes; only a run of nothing else inherits the old parity. */
  lemma {:induction false} EscapeByCounting(run: Text, escape: bool)
    ensures EscapeAfter(run, escape) ==
            ((TrailingSlashes(run) % 2 == 1) != (TrailingSlashes(run) == |run| && escape))
  {
    if run != [] {
      EscapeByCounting(run[..|run| - 1], escape);
    }
  }

  lemma {:induction false} EscapeConcat(a: Text, b: Text, escape: bool)
    ensures EscapeAfter(a + b, escape) == EscapeAfter(b, EscapeAfter(a, escape))
  {
    if b == [] {
      assert a + b == a;
    } else {
      assert (a + b)[..|a + b| - 1] == a + b[..|b| - 1];
      EscapeConcat(a, b[..|b| - 1], escape);
    }
  }

  // --- what the decoding flag means ------------------------------------------------------------

  /** The flag of each string tells whether its body so far holds a content escape. */
  ghost predicate Marked(table: Table, text: Text, consumed: nat)
    requires consumed <= |text|
  {
    forall k | k in table.fields && table.fields[k].StringField? ::
      var field := table.fields[k];
      var end := if field.end.Some? then field.end.value else consumed;
      field.start <= end <= consumed && field.needsDecoding == HasContentEscape(text[field.start..end])
  }

  /** What one unit does to a string field: nothing, open it, close it, or read one unit of it. */
  lemma StepField(ix: Index, text: Text, k: Text)
    requires ix.Ready() && ix.WellFormed() && ix.consumed < |text| && !ix.lexer.mode.Invalid?
    requires k in ix.Step(text).table.fields && ix.Step(text).table.fields[k].StringField?
    ensures var c, field := text[ix.consumed], ix.Step(text).table.fields[k];
            || (k in ix.table.fields && ix.table.fields[k] == field && field.end.Some?)
            || field == StringField(ix.consumed + 1, None, false)
            || (&& k in ix.table.fields && ix.table.fields[k].StringField? && ix.table.fields[k].end.None?
                && field == (if c == QUOTE && !ix.lexer.escape then ix.table.fields[k].(end := Some(ix.consumed))
                             else ix.table.fields[k].(needsDecoding := ix.table.fields[k].needsDecoding
                                 || IsContentEscape(c))))
  {
    hide Lexer.StepKey, Lexer.StepPunctuation, Lexer.StepNested, BeginsNoValue, EndsScalar, IsContentEscape;
  }

  lemma StepMarks(ix: Index, text: Text)
    requires ix.Ready() && ix.WellFormed() && ix.consumed < |text| && !ix.lexer.mode.Invalid?
    requires Marked(ix.table, text, ix.consumed)
    ensures Marked(ix.Step(text).table, text, ix.consumed + 1)
  {
    hide Index.Step, Index.WellFormed, Index.Ready;
    var next := ix.Step(text);
    forall k | k in next.table.fields && next.table.fields[k].StringField?
      ensures var field := next.table.fields[k];
              var end := if field.end.Some? then field.end.value else ix.consumed + 1;
              field.start <= end <= ix.consumed + 1 && field.needsDecoding == HasContentEscape(text[field.start..end])
    {
      var field := next.table.fields[k];
      StepField(ix, text, k);
      if field == StringField(ix.consumed + 1, None, false) {
        assert text[field.start..ix.consumed + 1] == [];
      } else if field.end.None? {
        var before := text[field.start..ix.consumed];
        assert text[field.start..ix.consumed + 1][..|before|] == before;
      }
    }
  }

  lemma NothingMarked()
    ensures Marked(START.table, [], 0)
  {
  }

  lemma {:induction false} ScanMarks(text: Text)
    ensures Marked(Scan(text).table, text, Scan(text).consumed)
  {
    if text == [] {
      NothingMarked();
    } else {
      hide Marked, Index.WellFormed, Index.Ready, Index.Step, Scan;
      var n := |text| - 1;
      var before := Scan(text[..n]);
      ScanMarks(text[..n]);
      ScanWellFormed(text[..n]);
      MarkedLonger(before.table, text[..n], text, before.consumed);
      assert text[..n + 1] == text;
      ScanNext(text, n);
      if !before.lexer.mode.Invalid? {
        StepMarks(before, text);
        StepReady(before, text);
      }
    }
  }

  lemma MarkedLonger(table: Table, text: Text, longer: Text, consumed: nat)
    requires consumed <= |text| && text <= longer && Marked(table, text, consumed)
    ensures Marked(table, longer, consumed)
  {
    forall k | k in table.fields && table.fields[k].StringField?
      ensures var field := table.fields[k];
              var end := if field.end.Some? then field.end.value else consumed;
              text[field.start..end] == longer[field.start..end]
    {
    }
  }

  // --- the answers of the view ------------------------------------------------------------------

  /** The end of a field's value so far. */
  function EndOf(ix: Index, field: Field): nat {
    match field.end
    case Some(end) => end
    case None => ix.consumed
  }

  /** What is decoded of a string field; nothing for a field that is missing or no string. */
  function TextOf(text: Text, key: Text): Option<Text> {
    var ix := Scan(text);
    if key in ix.table.fields && ix.table.fields[key].StringField? then
      var field := ix.table.fields[key];
      ScanWellFormed(text);
      Some(Decode(text, field.start, EndOf(ix, field), field.end.None?))
    else None
  }

  function Prefix(text: Text, limit: nat): Text {
    if |text| <= limit then text else text[..limit]
  }
}
