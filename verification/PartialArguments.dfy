/** A view of the fields of one JSON object: text arrives in fragments and is read only once a field is asked for. */
module PartialArguments {
  import opened CodeUnits
  import opened Options
  import opened JsonString
  import opened FieldIndex
  import opened Fragments
  import opened Sequences

  /** A resumable decoding position; only cursors that materialize keep the text. */
  datatype Cursor = Cursor(at: nat, length: nat, text: Text)

  /** One field with the answers its readers left behind. */
  datatype Entry =
    | StringEntry(start: nat, end: Option<nat>, needsDecoding: bool, invalidAt: Option<nat>,
                  length: Option<Cursor>, whole: Option<Cursor>, prefixes: map<nat, Cursor>)
    | ValueEntry(start: nat, end: Option<nat>)
  {
    function ToField(): Field {
      match this
      case StringEntry(start, end, needs, _, _, _, _) => StringField(start, end, needs)
      case ValueEntry(start, end) => ValueField(start, end)
    }

    function EndIn(consumed: nat): nat {
      if end.Some? then end.value else consumed
    }

    /** What the caches of this entry say is true of the scanned text. */
    ghost predicate Sound(text: Text) {
      var stop := EndIn(|text|);
      && start <= stop <= |text|
      && (StringEntry? ==>
            && (length.Some? ==> CountsAt(text, start, stop, length.value))
            && (whole.Some? ==> TextAt(text, start, stop, whole.value))
            && (forall m | m in prefixes :: TextAt(text, start, stop, prefixes[m]) && prefixes[m].length <= m)
            && (invalidAt.Some? ==>
                  && start <= invalidAt.value < stop
                  && Boundary(text, start, invalidAt.value)
                  && TokenAt(text, invalidAt.value, stop, end.None?).Bad?))
    }
  }

  ghost predicate CountsAt(text: Text, start: nat, end: nat, c: Cursor)
    requires start <= end <= |text|
  {
    start <= c.at <= end && Boundary(text, start, c.at) && c.length == |Decoded(text, start, c.at)|
  }

  ghost predicate TextAt(text: Text, start: nat, end: nat, c: Cursor)
    requires start <= end <= |text|
  {
    CountsAt(text, start, end, c) && c.text == Decoded(text, start, c.at)
  }

  lemma CountsLonger(text: Text, longer: Text, start: nat, end: nat, end': nat, c: Cursor)
    requires start <= end <= |text| && end <= end' <= |longer| && text <= longer
    ensures CountsAt(text, start, end, c) ==> CountsAt(longer, start, end', c)
    ensures TextAt(text, start, end, c) ==> TextAt(longer, start, end', c)
  {
    if CountsAt(text, start, end, c) {
      assert longer[..c.at] == text[..c.at];
      BoundaryLocal(text, longer, start, c.at);
    }
  }

  /** Caches stay true while an open string grows, when it closes, and ever after. */
  lemma SoundLonger(entry: Entry, text: Text, longer: Text, entry': Entry)
    requires entry.Sound(text) && text <= longer
    requires entry.StringEntry? ==>
               && entry'.StringEntry?
               && entry' == entry.(end := entry'.end, needsDecoding := entry'.needsDecoding)
    requires entry.ValueEntry? ==> entry'.ValueEntry? && entry'.start == entry.start
    requires entry.end.Some? ==> entry'.end == entry.end
    requires entry.EndIn(|text|) <= entry'.EndIn(|longer|) <= |longer|
    ensures entry'.Sound(longer)
  {
    if entry.StringEntry? {
      var start, stop, stop' := entry.start, entry.EndIn(|text|), entry'.EndIn(|longer|);
      if entry.length.Some? {
        CountsLonger(text, longer, start, stop, stop', entry.length.value);
      }
      if entry.whole.Some? {
        CountsLonger(text, longer, start, stop, stop', entry.whole.value);
      }
      forall m | m in entry.prefixes
        ensures TextAt(longer, start, stop', entry.prefixes[m])
      {
        CountsLonger(text, longer, start, stop, stop', entry.prefixes[m]);
      }
      if entry.invalidAt.Some? {
        var p := entry.invalidAt.value;
        assert longer[..p] == text[..p] && longer[..stop] == text[..stop];
        BoundaryLocal(text, longer, start, p);
        if entry.end.None? {
          BadStable(text, longer, p, stop, stop', entry'.end.None?);
        } else {
          TokenLocal(text, longer, p, stop, false);
        }
      }
    }
  }

  lemma AllSoundLonger(entries: map<Text, Entry>, text: Text, longer: Text)
    requires AllSound(entries, text) && text <= longer
    ensures AllSound(entries, longer)
  {
    forall k | k in entries
      ensures entries[k].Sound(longer)
    {
      assert entries[k].Sound(text);
      SoundLonger(entries[k], text, longer, entries[k]);
    }
  }

  function FieldsOf(entries: map<Text, Entry>): map<Text, Field> {
    map k | k in entries :: entries[k].ToField()
  }

  ghost predicate AllSound(entries: map<Text, Entry>, text: Text) {
    forall k {:trigger entries[k].Sound(text)} | k in entries :: entries[k].Sound(text)
  }

  function FreshString(start: nat): Entry {
    StringEntry(start, None, false, None, None, None, map[])
  }

  class PartialArguments {
    var chunks: seq<Text>
    var isSealed: bool
    var ends: seq<nat>
    var size: nat
    var consumed: nat
    var lexer: Lexer
    var entries: map<Text, Entry>
    var order: seq<Text>
    var current: Option<Text>

    /** The text appended so far. */
    ghost function Source(): Text
      reads this`chunks
    {
      Concat(chunks)
    }

    ghost function Scanned(): Text
      requires consumed <= |Source()|
      reads this`chunks, this`consumed
    {
      Source()[..consumed]
    }

    ghost function State(): Index
      reads this`consumed, this`lexer, this`entries, this`order, this`current
    {
      Index(consumed, lexer, Table(FieldsOf(entries), order, current))
    }

    ghost predicate Stored()
      reads this`chunks, this`ends, this`size, this`consumed
    {
      Indexed(chunks, ends) && size == BaseOf(ends, |ends|) && size == |Source()| && consumed <= size
    }

    /** The view holds the index of the prefix it has scanned, and true caches. */
    ghost predicate Valid()
      reads this
    {
      Stored() && State() == Scan(Scanned()) && AllSound(entries, Scanned())
    }

    constructor ()
      ensures Valid() && Source() == [] && !isSealed
    {
      chunks, isSealed, ends, size, consumed := [], false, [], 0, 0;
      lexer, entries, order, current := START.lexer, map[], [], None;
      new;
      assert FieldsOf(entries) == map[];
      assert Scanned() == [];
    }

    constructor FromText(text: Text)
      ensures Valid() && Source() == text && isSealed
    {
      chunks, ends := if text == [] then [] else [text], if text == [] then [] else [|text|];
      isSealed, size, consumed := true, |text|, 0;
      lexer, entries, order, current := START.lexer, map[], [], None;
      new;
      assert FieldsOf(entries) == map[];
      if text != [] {
        ConcatOne([], text);
        assert [] + chunks == chunks;
      }
      assert Scanned() == [];
    }

    /** Keep one more fragment, unread; a sealed view takes none. */
    method Append(fragment: Text) returns (ok: bool)
      requires Valid()
      modifies this
      ensures Valid() && ok == !old(isSealed) && isSealed == old(isSealed)
      ensures Source() == if ok then old(Source()) + fragment else old(Source())
      ensures consumed == old(consumed)
    {
      if isSealed {
        return false;
      }
      ok := true;
      if |fragment| == 0 {
        return;
      }
      ghost var before, scanned := Source(), Scanned();
      ConcatOne(chunks, fragment);
      chunks := chunks + [fragment];
      size := size + |fragment|;
      ends := ends + [size];
      assert Source() == before + fragment;
      assert Scanned() == scanned;
    }

    /** End the stream with the whole text: the view itself if its fragments spell it, else a new one. */
    method Settle(text: Text) returns (view: PartialArguments)
      requires Valid()
      modifies this
      ensures view.Valid() && view.Source() == text && view.isSealed
      ensures old(Source()) == text ==> view == this && consumed == old(consumed) && entries == old(entries)
      ensures old(Source()) != text ==> fresh(view) && unchanged(this)
    {
      hide FieldIndex.Scan, AllSound;
      ghost var scanned := Scanned();
      var same := false;
      if |text| == size {
        same := SpelledBy(chunks, ends, text);
      }
      if !same {
        view := new PartialArguments.FromText(text);
        return;
      }
      chunks := if |text| == 0 then [] else [text];
      ends := if |text| == 0 then [] else [|text|];
      isSealed := true;
      if |text| > 0 {
        ConcatOne([], text);
        assert [] + chunks == chunks;
      }
      assert Source() == text && Scanned() == scanned;
      view := this;
    }

    // --- scanning ---------------------------------------------------------------------------

    /** Change the current string's flag, as `Table.Mark` does on its field. */
    method MarkCurrent(needs: bool)
      requires Flaggable(entries, lexer.mode, current)
      modifies this`entries
      ensures entries == Flagged(old(entries), lexer.mode, current, needs)
    {
      if lexer.mode.InString? && needs && !entries[current.value].needsDecoding {
        entries := entries[current.value := entries[current.value].(needsDecoding := true)];
      } else if lexer.mode.InString? {
        assert entries == Flagged(entries, lexer.mode, current, needs);
      }
    }

    /** Pass over a quote-free run: flag its contents and count the backslashes it ends in. */
    method ToQuote(fragment: Text, at: nat) returns (end: nat, escaped: bool)
      requires at <= |fragment| && Flaggable(entries, lexer.mode, current)
      modifies this`entries
      ensures at <= end <= |fragment| && QUOTE !in fragment[at..end]
      ensures end < |fragment| ==> fragment[end] == QUOTE
      ensures entries == Flagged(old(entries), lexer.mode, current, HasContentEscape(fragment[at..end]))
      ensures var slashes := TrailingSlashes(fragment[at..end]);
              escaped == ((slashes % 2 == 1) != (slashes == end - at && lexer.escape))
    {
      end := FindQuote(fragment, at);
      var run := fragment[at..end];
      MarkCurrent(HasContentEscape(run));
      var slashes := CountTrailingSlashes(run);
      escaped := (slashes % 2 == 1) != (slashes == |run| && lexer.escape);
    }

    /** Jump from quote to quote: the parity of the backslashes in front of one tells whether it closes the string. */
    method StringBoundary(fragment: Text, start: nat) returns (end: nat)
      requires start <= |fragment| && lexer.InQuotes() && Flaggable(entries, lexer.mode, current)
      modifies this`lexer, this`entries
      ensures start <= end <= |fragment|
      ensures var run := fragment[start..end];
              && Quiet(run, old(lexer).escape)
              && lexer == old(lexer).(escape := EscapeAfter(run, old(lexer).escape))
              && entries == Flagged(old(entries), lexer.mode, current, HasContentEscape(run))
      ensures end < |fragment| ==> fragment[end] == QUOTE && !lexer.escape
    {
      var at := start;
      ghost var before, marks := lexer, entries;
      assert fragment[start..at] == [];
      FlaggedNothing(marks, lexer.mode, current);
      while true
        invariant start <= at <= |fragment|
        invariant Quiet(fragment[start..at], before.escape)
        invariant lexer == before.(escape := EscapeAfter(fragment[start..at], before.escape))
        invariant entries == Flagged(marks, before.mode, current, HasContentEscape(fragment[start..at]))
        decreases |fragment| - at
      {
        var escaped;
        end, escaped := ToQuote(fragment, at);
        ExtendRun(fragment, start, at, end, before.escape);
        FlaggedTwice(marks, before.mode, current, HasContentEscape(fragment[start..at]),
            HasContentEscape(fragment[at..end]));
        lexer := lexer.(escape := end == |fragment| && escaped);
        if end == |fragment| || !escaped {
          return;
        }
        ExtendByQuote(fragment, start, end, before.escape);
        at := end + 1;
      }
    }

    // --- one unit -----------------------------------------------------------------------------

    method OpenEntry(entry: Entry)
      modifies this`entries, this`order, this`current
      ensures lexer.key == old(lexer).key && entries == old(entries)[lexer.key := entry]
      ensures Table(FieldsOf(entries), order, current) ==
              old(Table(FieldsOf(entries), order, current)).Open(lexer.key, entry.ToField())
    {
      if lexer.key !in entries {
        order := order + [lexer.key];
      }
      FieldsOfUpdate(entries, lexer.key, entry);
      entries := entries[lexer.key := entry];
      current := Some(lexer.key);
    }

    method CloseEntry(end: nat)
      requires current.Some? && current.value in entries
      modifies this`entries, this`current
      ensures entries == old(entries)[old(current).value := old(entries[current.value]).(end := Some(end))]
      ensures Table(FieldsOf(entries), order, current) == old(Table(FieldsOf(entries), order, current)).Close(end)
    {
      var entry := entries[current.value].(end := Some(end));
      FieldsOfUpdate(entries, current.value, entry);
      entries := entries[current.value := entry];
      current := None;
    }

    method Fail()
      modifies this`lexer, this`current
      ensures lexer == old(lexer).Go(Invalid) && current == None
    {
      lexer := lexer.(mode := Invalid);
      current := None;
    }

    /** The next unit can be consumed. */
    ghost predicate CanStep(c: CodeUnit)
      reads this
    {
      Stored() && consumed < size && c == Source()[consumed] && State().Ready()
    }

    method StepKey(c: CodeUnit)
      requires CanStep(c) && lexer.mode.Key?
      modifies this`lexer, this`current
      ensures State().(consumed := consumed + 1) == old(State()).Step(Source())
    {
      if c < SPACE {
        Fail();
      } else if lexer.escape {
        lexer := lexer.(escape := false);
      } else if c == BACKSLASH {
        lexer := lexer.(escape := true, keyEscaped := true);
      } else if c == QUOTE {
        var raw := Slice(chunks, ends, lexer.keyStart, consumed);
        assert raw == Source()[lexer.keyStart..consumed];
        if lexer.keyEscaped {
          match ParseString(raw) {
            case Some(k) => lexer := lexer.(key := k, mode := Colon);
            case None => Fail();
          }
        } else {
          lexer := lexer.(key := raw, mode := Colon);
        }
      }
    }

    method BeginValue(c: CodeUnit)
      requires CanStep(c) && lexer.mode.Value?
      modifies this`lexer, this`entries, this`order, this`current
      ensures State().(consumed := consumed + 1) == old(State()).Step(Source())
      ensures Evolves(old(entries), entries, old(lexer).key, old(current), consumed)
    {
      if IsWhitespace(c) {
        return;
      }
      if c == QUOTE {
        OpenEntry(FreshString(consumed + 1));
        lexer := lexer.(escape := false, mode := InString);
        return;
      }
      if BeginsNoValue(c) {
        Fail();
        return;
      }
      OpenEntry(ValueEntry(consumed, None));
      if c == OPEN_BRACE || c == OPEN_BRACKET {
        lexer := lexer.(mode := Nested, nestedEnds := [Closer(c)], nestedInString := false, escape := false);
      } else {
        lexer := lexer.(mode := Scalar);
      }
    }

    method CloseString(c: CodeUnit)
      requires CanStep(c) && lexer.mode.InString? && c == QUOTE && !lexer.escape
      modifies this`lexer, this`entries, this`current
      ensures State().(consumed := consumed + 1) == old(State()).Step(Source())
      ensures Evolves(old(entries), entries, old(lexer).key, old(current), consumed)
    {
      CloseEntry(consumed);
      lexer := lexer.(mode := CommaOrEnd);
    }

    method StepScalar(c: CodeUnit)
      requires CanStep(c) && lexer.mode.Scalar?
      modifies this`lexer, this`entries, this`current
      ensures State().(consumed := consumed + 1) == old(State()).Step(Source())
      ensures Evolves(old(entries), entries, old(lexer).key, old(current), consumed)
    {
      if !EndsScalar(c) {
        return;
      }
      CloseEntry(consumed);
      lexer := lexer.(mode := if c == COMMA then KeyOnly else if c == CLOSE_BRACE then Closed else CommaOrEnd);
    }

    method StepNested(c: CodeUnit)
      requires CanStep(c) && lexer.mode.Nested?
      modifies this`lexer, this`entries, this`current
      ensures State().(consumed := consumed + 1) == old(State()).Step(Source())
      ensures Evolves(old(entries), entries, old(lexer).key, old(current), consumed)
    {
      lexer := lexer.StepNested(c);
      if lexer.mode.CommaOrEnd? {
        CloseEntry(consumed + 1);
      } else if lexer.mode.Invalid? {
        current := None;
      }
    }

    method StepPunctuation(c: CodeUnit)
      requires CanStep(c)
      requires !lexer.mode.HasCurrent() && !lexer.mode.Key? && !lexer.mode.Value? && !lexer.mode.Invalid?
      modifies this`lexer, this`current
      ensures State().(consumed := consumed + 1) == old(State()).Step(Source())
    {
      lexer := lexer.StepPunctuation(c, consumed);
      if lexer.mode.Invalid? {
        current := None;
      }
    }

    /** React to one unit; inside quotes it is the quote that closes them. */
    method StepUnit(c: CodeUnit)
      requires CanStep(c) && !lexer.mode.Invalid?
      requires lexer.InQuotes() ==> c == QUOTE && !lexer.escape
      modifies this`lexer, this`entries, this`order, this`current
      ensures State().(consumed := consumed + 1) == old(State()).Step(Source())
      ensures Evolves(old(entries), entries, old(lexer).key, old(current), consumed)
    {
      if lexer.mode.Key? {
        StepKey(c);
      } else if lexer.mode.Value? {
        BeginValue(c);
      } else if lexer.mode.InString? {
        CloseString(c);
      } else if lexer.mode.Scalar? {
        StepScalar(c);
      } else if lexer.mode.Nested? {
        StepNested(c);
      } else {
        StepPunctuation(c);
      }
    }

    method ScanUnit(c: CodeUnit)
      requires Valid() && consumed < size && c == Source()[consumed] && !lexer.mode.Invalid?
      requires lexer.InQuotes() ==> c == QUOTE && !lexer.escape
      modifies this`lexer, this`entries, this`order, this`current, this`consumed
      ensures Valid() && consumed == old(consumed) + 1
    {
      hide FieldIndex.Scan, Concat, AllSound, Index.WellFormed;
      ghost var text, longer, was := Scanned(), Source()[..consumed + 1], entries;
      ghost var key, open, at := lexer.key, current, consumed;
      CurrentOpen(text);
      StepUnit(c);
      consumed := consumed + 1;
      ScanNext(Source(), at);
      StepSound(was, text, longer, entries, key, open);
    }

    /** Pass over the rest of a quoted run in one fragment. */
    method ScanRun(fragment: Text, start: nat) returns (end: nat)
      requires Valid() && lexer.InQuotes() && start < |fragment|
      requires consumed + |fragment| - start <= size
      requires fragment[start..] == Source()[consumed..consumed + |fragment| - start]
      modifies this`lexer, this`entries, this`consumed
      ensures Valid() && start <= end <= |fragment| && consumed == old(consumed) + end - start
      ensures end < |fragment| ==> lexer.InQuotes() && fragment[end] == QUOTE && !lexer.escape
      ensures lexer.mode == old(lexer).mode
    {
      hide FieldIndex.Scan, Concat;
      ghost var before, was, source := State(), entries, Source();
      ReadyFlaggable(before, was);
      end := StringBoundary(fragment, start);
      ghost var run := fragment[start..end];
      var next := consumed + (end - start);
      assert Source() == source;
      RunIsSlice(fragment, start, end, source, consumed);
      RunIndexed(source, next, before, was, run);
      RunSound(source, next, before, was, HasContentEscape(run));
      ghost var after := Flagged(was, before.lexer.mode, before.table.current, HasContentEscape(run));
      assert entries == after;
      consumed := next;
      assert Scanned() == source[..next];
      assert State() == Index(next, before.lexer.(escape := EscapeAfter(run, before.lexer.escape)),
                  Table(FieldsOf(after), before.table.order, before.table.current));
    }

    /** Take the scanner through one fragment, as far as no unit is refused. */
    method ScanChunk(pending: Text, base: nat)
      requires Valid() && base <= consumed < base + |pending| <= size
      requires pending == Source()[base..base + |pending|]
      modifies this`lexer, this`entries, this`order, this`current, this`consumed
      ensures Valid() && old(consumed) <= consumed <= base + |pending|
      ensures consumed == base + |pending| || lexer.mode.Invalid?
    {
      hide FieldIndex.Scan, Concat;
      var index := consumed - base;
      while index < |pending| && !lexer.mode.Invalid?
        invariant Valid() && index <= |pending| && consumed == base + index
      {
        if lexer.InQuotes() {
          PieceOfPiece(Source(), base, pending, index);
          index := ScanRun(pending, index);
          if index == |pending| {
            break;
          }
        }
        assert pending[index] == Source()[consumed];
        ScanUnit(pending[index]);
        index := index + 1;
      }
    }

    /** Everything appended was scanned, up to a failure. */
    predicate CaughtUp()
      reads this`consumed, this`size, this`lexer
    {
      consumed == size || lexer.mode.Invalid?
    }

    /** Scan what one fragment adds. */
    method ScanFragment(i: nat)
      requires Valid() && i < |chunks| && BaseOf(ends, i) <= consumed < ends[i]
      modifies this`lexer, this`entries, this`order, this`current, this`consumed
      ensures Valid() && (consumed == ends[i] || lexer.mode.Invalid?)
    {
      ChunkIsSlice(chunks, ends, i);
      ScanChunk(chunks[i], BaseOf(ends, i));
    }

    /** Catch up with everything appended. */
    method CatchUp()
      requires Valid()
      modifies this`lexer, this`entries, this`order, this`current, this`consumed
      ensures Valid() && CaughtUp()
    {
      hide FieldIndex.Scan, Concat;
      if consumed == size {
        return;
      }
      var i := ChunkAt(chunks, ends, consumed);
      while i < |chunks| && !lexer.mode.Invalid?
        invariant Valid() && i <= |chunks|
        invariant lexer.mode.Invalid? ||
                  (if i == |chunks| then consumed == size else BaseOf(ends, i) <= consumed < ends[i])
      {
        ScanFragment(i);
        i := i + 1;
        if i < |chunks| {
          EndsAscend(chunks, ends, i - 1, i);
        }
      }
    }

    // --- reading ------------------------------------------------------------------------------

    /** The token of an escape, which its own or the following fragments may hold. */
    method ReadToken(at: nat, stop: nat, open: bool, chunkIndex: nat, remaining: Text) returns (t: Token)
      requires Stored() && at < stop <= consumed && IsContentEscape(Source()[at])
      requires chunkIndex < |chunks| && BaseOf(ends, chunkIndex) <= at < ends[chunkIndex]
      requires remaining == Source()[at..if ends[chunkIndex] <= stop then ends[chunkIndex] else stop]
      ensures t == TokenAt(Source(), at, stop, open)
    {
      hide Concat, TokenAt;
      ghost var text := Source();
      TokenCases(text, at, stop, open);
      if remaining[0] != BACKSLASH {
        return Bad;
      }
      if at + 1 >= stop {
        return if open then Wait else Bad;
      }
      var letter;
      if |remaining| > 1 {
        letter := remaining[1];
      } else {
        NextFragment(chunks, ends, chunkIndex);
        letter := chunks[chunkIndex + 1][0];
      }
      assert letter == text[at + 1];
      if letter == LETTER_U {
        var hex := Slice(chunks, ends, at + 2, if stop <= at + 6 then stop else at + 6);
        if !AllHex(hex) {
          return Bad;
        }
        if |hex| < 4 {
          return if open then Wait else Bad;
        }
        return Unit(HexUnit(hex), 6);
      }
      match SimpleEscape(letter) {
        case Some(unit) => return Unit(unit, 2);
        case None => return Bad;
      }
    }

    /** What one fragment holds between a position and a stop. */
    method Remaining(at: nat, stop: nat, chunkIndex: nat) returns (remaining: Text)
      requires Stored() && at < stop <= consumed
      requires chunkIndex < |chunks| && BaseOf(ends, chunkIndex) <= at < ends[chunkIndex]
      ensures remaining == Source()[at..if ends[chunkIndex] <= stop then ends[chunkIndex] else stop]
      ensures remaining != [] && remaining[0] == Source()[at]
    {
      var base := BaseOf(ends, chunkIndex);
      var until := if ends[chunkIndex] <= stop then ends[chunkIndex] else stop;
      PieceIsSlice(chunks, ends, chunkIndex, at, until);
      remaining := chunks[chunkIndex][at - base..until - base];
      assert remaining[0] == Source()[at..until][0];
    }

    /** Read the plain run, or else the escape, at a cursor. */
    method ReadOnce(start: nat, stop: nat, open: bool, read: Cursor, limit: Option<nat>, chunkIndex: nat,
        materialize: bool)
      returns (next: Cursor, t: Token)
      requires Stored() && start <= stop <= consumed && CountsAt(Source(), start, stop, read) && read.at < stop
      requires limit.Some? ==> read.length < limit.value
      requires chunkIndex < |chunks| && BaseOf(ends, chunkIndex) <= read.at < ends[chunkIndex]
      ensures t.Unit? ==> && CountsAt(Source(), start, stop, next) && read.at < next.at
                          && Kept(Source(), start, read, next, materialize)
                          && (limit.Some? ==> next.length <= limit.value)
      ensures !t.Unit? ==> next == read && t == TokenAt(Source(), read.at, stop, open)
    {
      hide HasContentEscape, Decode, Boundary, TokenAt, Concat;
      ghost var text := Source();
      var remaining := Remaining(read.at, stop, chunkIndex);
      var boundary := PlainLength(remaining);
      var length := if limit.Some? && limit.value - read.length < boundary then limit.value - read.length else boundary;
      if length > 0 {
        SliceOfSlice(text, read.at, read.at + |remaining|, 0, length);
        PlainForward(text, start, stop, read, remaining[..length], materialize);
        return Forward(read, remaining[..length], length, materialize), Unit(remaining[0], length);
      }
      t := ReadToken(read.at, stop, open, chunkIndex, remaining);
      next := read;
      if t.Unit? {
        BoundaryStep(text, start, read.at, stop, open);
        next := Forward(read, [t.unit], t.width, materialize);
      }
    }

    /** The fragment a later position lies in. */
    method AdvanceChunk(from: nat, at: nat) returns (chunkIndex: nat)
      requires Stored() && from <= |chunks| && BaseOf(ends, from) <= at
      ensures from <= chunkIndex <= |chunks| && BaseOf(ends, chunkIndex) <= at
      ensures chunkIndex < |chunks| ==> at < ends[chunkIndex]
    {
      chunkIndex := from;
      while chunkIndex < |chunks| && at >= ends[chunkIndex]
        invariant from <= chunkIndex <= |chunks| && BaseOf(ends, chunkIndex) <= at
      {
        chunkIndex := chunkIndex + 1;
      }
    }

    /** Advance one cursor of a string through escapes, up to a limit or as far as the text goes. */
    method ReadEscaped(start: nat, end: nat, open: bool, stop: nat, read: Cursor, limit: Option<nat>, materialize: bool)
      returns (next: Cursor, bad: bool)
      requires Stored() && start <= stop <= end <= consumed && CountsAt(Source(), start, stop, read)
      requires stop < end ==> Boundary(Source(), start, stop) && TokenAt(Source(), stop, end, open).Bad?
      ensures ReadTo(Source(), start, end, open, next, limit) && next.at <= stop
      ensures Kept(Source(), start, read, next, materialize)
      ensures limit.Some? && read.length <= limit.value ==> next.length <= limit.value
      ensures bad ==> next.at < stop == end && TokenAt(Source(), next.at, end, open).Bad?
    {
      hide Decode, Boundary, TokenAt, Concat;
      ghost var text := Source();
      next, bad := read, false;
      var chunkIndex := ChunkAt(chunks, ends, next.at);
      while next.at < stop && (limit.None? || next.length < limit.value)
        invariant CountsAt(text, start, stop, next)
        invariant Kept(text, start, read, next, materialize)
        invariant limit.Some? && read.length <= limit.value ==> next.length <= limit.value
        invariant 0 <= chunkIndex <= |chunks| && BaseOf(ends, chunkIndex) <= next.at
        invariant chunkIndex < |chunks| ==> next.at < ends[chunkIndex]
        decreases stop - next.at
      {
        var t;
        ghost var before := next;
        next, t := ReadOnce(start, stop, open, next, limit, chunkIndex, materialize);
        if !t.Unit? {
          Stopped(text, start, next.at, stop, end, open);
          bad := t.Bad?;
          return;
        }
        chunkIndex := AdvanceChunk(chunkIndex, next.at);
      }
      ReadEnough(text, start, end, open, stop, next, limit);
    }

    /** Advance one cursor through a body that holds no escapes. */
    method ReadPlain(start: nat, end: nat, open: bool, stop: nat, read: Cursor, limit: Option<nat>, materialize: bool)
      returns (next: Cursor)
      requires Stored() && start <= stop <= end <= consumed && CountsAt(Source(), start, stop, read)
      requires stop < end ==> Boundary(Source(), start, stop) && TokenAt(Source(), stop, end, open).Bad?
      requires !HasContentEscape(Source()[start..end])
      ensures ReadTo(Source(), start, end, open, next, limit)
      ensures Kept(Source(), start, read, next, materialize)
      ensures limit.Some? && read.length <= limit.value ==> next.length <= limit.value
    {
      hide HasContentEscape, Decode, Boundary, TokenAt, Concat;
      var left := stop - read.at;
      var length := if limit.Some? && limit.value - read.length < left then limit.value - read.length else left;
      next := read;
      if length > 0 {
        ghost var run := Source()[read.at..read.at + length];
        NoEscapes(Source(), start, end, read.at, read.at + length);
        PlainForward(Source(), start, stop, read, run, materialize);
        var piece := [];
        if materialize {
          piece := Slice(chunks, ends, read.at, read.at + length);
        }
        next := Cursor(read.at + length, read.length + length, read.text + piece);
        assert next == Forward(read, run, length, materialize);
      }
      ReadEnough(Source(), start, end, open, stop, next, limit);
    }

    /** Advance one cursor of a string entry; also report the first wrong escape known so far. */
    method ReadString(entry: Entry, read: Cursor, limit: Option<nat>, materialize: bool)
      returns (next: Cursor, invalidAt: Option<nat>)
      requires Stored() && Readable(entry, Source(), consumed)
      requires CountsAt(Source(), entry.start, entry.EndIn(size), read)
      ensures ReadTo(Source(), entry.start, entry.EndIn(size), entry.end.None?, next, limit)
      ensures Kept(Source(), entry.start, read, next, materialize)
      ensures limit.Some? && read.length <= limit.value ==> next.length <= limit.value
      ensures entry.(invalidAt := invalidAt).Sound(Source())
    {
      var open, end := entry.end.None?, entry.EndIn(size);
      var stop := if entry.invalidAt.Some? && entry.invalidAt.value < end then entry.invalidAt.value else end;
      invalidAt := entry.invalidAt;
      if entry.invalidAt.Some? {
        BadStops(Source(), entry.start, stop, end, open, read.at);
      }
      if entry.needsDecoding {
        var bad;
        next, bad := ReadEscaped(entry.start, end, open, stop, read, limit, materialize);
        if bad {
          invalidAt := Some(next.at);
        }
      } else {
        next := ReadPlain(entry.start, end, open, stop, read, limit, materialize);
      }
    }

    /** Put back an entry whose caches moved on. */
    method StoreCaches(key: Text, entry: Entry)
      requires Valid() && CaughtUp() && key in entries && entry.StringEntry? && entry.Sound(Source())
      requires entry.ToField() == entries[key].ToField()
      modifies this`entries
      ensures Valid()
    {
      FieldsOfUpdate(entries, key, entry);
      assert FieldsOf(entries)[key := entry.ToField()] == FieldsOf(entries);
      AnswerOf(Source(), consumed, State(), entries, key);
      SoundScanned(entry, Scanned(), Source());
      entries := entries[key := entry];
    }

    /** A closed string without a known error is decoded by `JSON.parse` when that accepts it. */
    method ParseWhole(entry: Entry) returns (parsed: Entry)
      requires Stored() && Readable(entry, Source(), consumed)
      ensures Readable(parsed, Source(), consumed) && parsed == entry.(whole := parsed.whole)
    {
      parsed := entry;
      if entry.whole.None? && entry.end.Some? && entry.needsDecoding && entry.invalidAt.None? {
        var raw := Slice(chunks, ends, entry.start, entry.end.value);
        assert raw == Source()[entry.start..entry.end.value];
        match ParseString(raw) {
          case Some(text) =>
            ParseDecodes(Source(), entry.start, entry.end.value);
            parsed := entry.(whole := Some(Cursor(entry.end.value, |text|, text)));
          case None =>
        }
      }
    }

    /** The decoded text of one entry so far, and the entry with what was learned. */
    method EntryText(entry: Entry) returns (read: Entry, text: Text)
      requires Stored() && Readable(entry, Source(), consumed)
      ensures read.StringEntry? && read.Sound(Source()) && read.ToField() == entry.ToField()
      ensures text == Decode(Source(), entry.start, entry.EndIn(size), entry.end.None?)
    {
      var parsed := ParseWhole(entry);
      var cursor := if parsed.whole.Some? then parsed.whole.value else Cursor(entry.start, 0, []);
      var next, invalidAt := ReadString(parsed, cursor, None, true);
      CachedWhole(parsed, next, invalidAt, Source());
      read, text := parsed.(whole := Some(next), invalidAt := invalidAt), next.text;
      assert next.text == Decoded(Source(), entry.start, next.at);
    }

    /** What is decoded of a string field. */
    method ReadText(key: Text) returns (answer: Option<Text>)
      requires Valid()
      modifies this
      ensures Valid() && chunks == old(chunks) && isSealed == old(isSealed)
      ensures answer == TextOf(Source(), key)
    {
      hide FieldIndex.Scan, Concat;
      CatchUp();
      AnswerOf(Source(), consumed, State(), entries, key);
      if key !in entries || !entries[key].StringEntry? {
        return None;
      }
      var entry, text := EntryText(entries[key]);
      StoreCaches(key, entry);
      answer := Some(text);
    }

    /** How many units of one entry are decoded so far, counted at least up to a limit. */
    method EntryLength(entry: Entry, limit: Option<nat>) returns (read: Entry, count: nat)
      requires Stored() && Readable(entry, Source(), consumed)
      ensures read.StringEntry? && read.Sound(Source()) && read.ToField() == entry.ToField()
      ensures var text := Decode(Source(), entry.start, entry.EndIn(size), entry.end.None?);
              count <= |text| && (count == |text| || (limit.Some? && limit.value <= count))
    {
      if entry.whole.Some? && Some(entry.whole.value.at) == entry.end {
        WholeRead(entry, Source());
        return entry, entry.whole.value.length;
      }
      var cursor := if entry.length.Some? then entry.length.value else Cursor(entry.start, 0, []);
      var next, invalidAt := ReadString(entry, cursor, limit, false);
      CachedLength(entry, next, invalidAt, Source());
      read, count := entry.(length := Some(next), invalidAt := invalidAt), next.length;
    }

    /** The length of a string field, for which no text is built. */
    method ReadLength(key: Text) returns (answer: Option<nat>)
      requires Valid()
      modifies this
      ensures Valid() && chunks == old(chunks) && isSealed == old(isSealed)
      ensures answer.Some? == TextOf(Source(), key).Some?
      ensures answer.Some? ==> answer.value == |TextOf(Source(), key).value|
    {
      hide FieldIndex.Scan, Concat;
      CatchUp();
      AnswerOf(Source(), consumed, State(), entries, key);
      if key !in entries || !entries[key].StringEntry? {
        return None;
      }
      var entry, count := EntryLength(entries[key], None);
      StoreCaches(key, entry);
      answer := Some(count);
    }

    /** Whether a string is longer than a limit; decoding ends one unit behind it. */
    method Exceeds(key: Text, maxLength: int) returns (answer: bool)
      requires Valid()
      modifies this
      ensures Valid() && chunks == old(chunks) && isSealed == old(isSealed)
      ensures var text := TextOf(Source(), key);
              answer == (text.Some? && |text.value| > if maxLength < 0 then 0 else maxLength)
    {
      hide FieldIndex.Scan, Concat;
      CatchUp();
      AnswerOf(Source(), consumed, State(), entries, key);
      if key !in entries || !entries[key].StringEntry? {
        return false;
      }
      var limit := if maxLength < 0 then 0 else maxLength;
      var entry, count := EntryLength(entries[key], Some(limit + 1));
      StoreCaches(key, entry);
      answer := count > limit;
    }

    /** The first units of one entry so far. */
    method EntryPrefix(entry: Entry, limit: nat) returns (read: Entry, text: Text)
      requires Stored() && Readable(entry, Source(), consumed)
      ensures read.StringEntry? && read.Sound(Source()) && read.ToField() == entry.ToField()
      ensures text == Prefix(Decode(Source(), entry.start, entry.EndIn(size), entry.end.None?), limit)
    {
      var cursor := if limit in entry.prefixes then entry.prefixes[limit] else Cursor(entry.start, 0, []);
      var next, invalidAt := ReadString(entry, cursor, Some(limit), true);
      CachedPrefix(entry, limit, next, invalidAt, Source());
      read, text := entry.(prefixes := entry.prefixes[limit := next], invalidAt := invalidAt), next.text;
    }

    /** The front of a string, no longer than asked for. */
    method ReadPrefix(key: Text, maxLength: int) returns (answer: Option<Text>)
      requires Valid()
      modifies this
      ensures Valid() && chunks == old(chunks) && isSealed == old(isSealed)
      ensures answer.Some? == TextOf(Source(), key).Some?
      ensures answer.Some? ==>
                answer.value == Prefix(TextOf(Source(), key).value, if maxLength < 1 then 1 else maxLength)
    {
      hide FieldIndex.Scan, Concat;
      CatchUp();
      AnswerOf(Source(), consumed, State(), entries, key);
      if key !in entries || !entries[key].StringEntry? {
        return None;
      }
      var entry, text := EntryPrefix(entries[key], if maxLength < 1 then 1 else maxLength);
      StoreCaches(key, entry);
      answer := Some(text);
    }

    /** The names found, each where it came first. */
    method Keys() returns (keys: seq<Text>)
      requires Valid()
      modifies this
      ensures Valid() && chunks == old(chunks) && isSealed == old(isSealed)
      ensures keys == FieldIndex.Scan(Source()).table.order
    {
      CatchUp();
      Settled(Source(), consumed);
      keys := order;
    }

    /** Where a field's value lies; absent before the value begins. */
    method RangeOf(key: Text) returns (range: Option<Field>)
      requires Valid()
      modifies this
      ensures Valid() && chunks == old(chunks) && isSealed == old(isSealed)
      ensures var fields := FieldIndex.Scan(Source()).table.fields;
              range == if key in fields then Some(fields[key]) else None
    {
      CatchUp();
      Settled(Source(), consumed);
      range := if key in entries then Some(entries[key].ToField()) else None;
    }

    /** Whether the fields found are all there will be. */
    method IsClosed() returns (closed: bool)
      requires Valid()
      modifies this
      ensures Valid() && chunks == old(chunks) && isSealed == old(isSealed)
      ensures var mode := FieldIndex.Scan(Source()).lexer.mode;
              closed == (isSealed || mode.Closed? || mode.Invalid?)
    {
      CatchUp();
      Settled(Source(), consumed);
      closed := isSealed || lexer.mode.Closed? || lexer.mode.Invalid?;
    }
  }

  /** The token of an escape or of a control character, case by case. */
  lemma TokenCases(text: Text, at: nat, stop: nat, open: bool)
    requires at < stop <= |text| && IsContentEscape(text[at])
    ensures var unfinished := if open then Wait else Bad;
            TokenAt(text, at, stop, open) ==
            if text[at] != BACKSLASH then Bad
            else if at + 1 >= stop then unfinished
            else if text[at + 1] == LETTER_U then
              var hex := text[at + 2..if stop <= at + 6 then stop else at + 6];
              if !AllHex(hex) then Bad else if |hex| < 4 then unfinished else Unit(HexUnit(hex), 6)
            else
              match SimpleEscape(text[at + 1])
              case Some(unit) => Unit(unit, 2)
              case None => Bad
  {
  }

  /** The unit behind a fragment is the first of the next one. */
  lemma NextFragment(chunks: seq<Text>, ends: seq<nat>, i: nat)
    requires Indexed(chunks, ends) && i < |chunks| && ends[i] < |Concat(chunks)|
    ensures i + 1 < |chunks| && chunks[i + 1] != [] && chunks[i + 1][0] == Concat(chunks)[ends[i]]
  {
    TotalLength(chunks, ends);
    ChunkIsSlice(chunks, ends, i + 1);
    assert chunks[i + 1][0] == Concat(chunks)[ends[i]..ends[i + 1]][0];
  }

  /** Two views of one text agree on everything once both are read, however it was fragmented and read before. */
  lemma SameSourceSameState(a: PartialArguments, b: PartialArguments)
    requires a.Valid() && b.Valid() && a.Source() == b.Source() && a.CaughtUp() && b.CaughtUp()
    ensures a.State() == b.State() == FieldIndex.Scan(a.Source())
  {
    Settled(a.Source(), a.consumed);
    Settled(b.Source(), b.consumed);
  }

  lemma WholeRead(entry: Entry, source: Text)
    requires entry.StringEntry? && entry.Sound(source)
    requires entry.whole.Some? && Some(entry.whole.value.at) == entry.end
    ensures entry.whole.value.length == |Decode(source, entry.start, entry.EndIn(|source|), false)|
  {
  }

  lemma CachedLength(entry: Entry, next: Cursor, invalidAt: Option<nat>, source: Text)
    requires entry.StringEntry? && entry.(invalidAt := invalidAt).Sound(source)
    requires CountsAt(source, entry.start, entry.EndIn(|source|), next)
    ensures entry.(length := Some(next), invalidAt := invalidAt).Sound(source)
  {
  }

  lemma CachedPrefix(entry: Entry, limit: nat, next: Cursor, invalidAt: Option<nat>, source: Text)
    requires entry.StringEntry? && entry.(invalidAt := invalidAt).Sound(source)
    requires TextAt(source, entry.start, entry.EndIn(|source|), next) && next.length <= limit
    ensures entry.(prefixes := entry.prefixes[limit := next], invalidAt := invalidAt).Sound(source)
  {
  }

  lemma CachedWhole(entry: Entry, next: Cursor, invalidAt: Option<nat>, source: Text)
    requires entry.StringEntry? && entry.(invalidAt := invalidAt).Sound(source)
    requires TextAt(source, entry.start, entry.EndIn(|source|), next)
    ensures entry.(whole := Some(next), invalidAt := invalidAt).Sound(source)
  {
  }

  /** A step opens or closes at most the current field. */
  ghost predicate Evolves(was: map<Text, Entry>, entries: map<Text, Entry>, key: Text, current: Option<Text>, at: nat) {
    || entries == was
    || entries == was[key := FreshString(at + 1)]
    || entries == was[key := ValueEntry(at, None)]
    || (current.Some? && current.value in was &&
        (|| entries == was[current.value := was[current.value].(end := Some(at))]
         || entries == was[current.value := was[current.value].(end := Some(at + 1))]))
  }

  /** A step keeps every cache true. */
  lemma StepSound(was: map<Text, Entry>, text: Text, longer: Text, entries: map<Text, Entry>, key: Text,
      current: Option<Text>)
    requires AllSound(was, text) && text <= longer && |longer| == |text| + 1
    requires current.Some? && current.value in was ==> was[current.value].end.None?
    requires Evolves(was, entries, key, current, |text|)
    ensures AllSound(entries, longer)
  {
    AllSoundLonger(was, text, longer);
    if current.Some? && current.value in was {
      var entry := was[current.value];
      SoundLonger(entry, text, longer, entry.(end := Some(|text|)));
      SoundLonger(entry, text, longer, entry.(end := Some(|longer|)));
    }
  }

  lemma FieldsOfUpdate(entries: map<Text, Entry>, k: Text, entry: Entry)
    ensures FieldsOf(entries[k := entry]) == FieldsOf(entries)[k := entry.ToField()]
  {
  }

  /** Inside a string value the current entry is that string. */
  predicate Flaggable(entries: map<Text, Entry>, mode: Mode, current: Option<Text>) {
    mode.InString? ==> current.Some? && current.value in entries && entries[current.value].StringEntry?
  }

  /** The entries after a run of the current string, or of a nested value, was passed over. */
  function Flagged(entries: map<Text, Entry>, mode: Mode, current: Option<Text>, needs: bool): (r: map<Text, Entry>)
    requires Flaggable(entries, mode, current)
    ensures Flaggable(r, mode, current)
  {
    if !mode.InString? then entries
    else
      var entry := entries[current.value];
      entries[current.value := entry.(needsDecoding := entry.needsDecoding || needs)]
  }

  lemma FlaggedNothing(entries: map<Text, Entry>, mode: Mode, current: Option<Text>)
    requires Flaggable(entries, mode, current)
    ensures Flagged(entries, mode, current, false) == entries
  {
  }

  lemma FlaggedTwice(entries: map<Text, Entry>, mode: Mode, current: Option<Text>, a: bool, b: bool)
    requires Flaggable(entries, mode, current)
    ensures Flagged(Flagged(entries, mode, current, a), mode, current, b) == Flagged(entries, mode, current, a || b)
  {
  }

  /** Flagging the entries is what passing over a quiet run does to the index. */
  lemma FlaggedState(before: Index, entries: map<Text, Entry>, run: Text)
    requires before.Ready() && before.lexer.InQuotes() && before.table.fields == FieldsOf(entries)
    ensures Flaggable(entries, before.lexer.mode, before.table.current)
    ensures var after := Flagged(entries, before.lexer.mode, before.table.current, HasContentEscape(run));
            InQuotesAfter(before, run) ==
            Index(before.consumed + |run|,
                  before.lexer.(escape := EscapeAfter(run, before.lexer.escape)),
                  Table(FieldsOf(after), before.table.order, before.table.current))
  {
    var current, needs := before.table.current, HasContentEscape(run);
    if before.lexer.mode.InString? {
      var entry := entries[current.value];
      FieldsOfUpdate(entries, current.value, entry.(needsDecoding := entry.needsDecoding || needs));
    }
  }

  lemma ReadyFlaggable(before: Index, entries: map<Text, Entry>)
    requires before.Ready() && before.table.fields == FieldsOf(entries)
    ensures Flaggable(entries, before.lexer.mode, before.table.current)
  {
  }

  /** Passing over a quiet run of the source reaches its next index. */
  lemma RunIndexed(source: Text, next: nat, before: Index, was: map<Text, Entry>, run: Text)
    requires before.consumed <= next <= |source| && run == source[before.consumed..next]
    requires before == Scan(source[..before.consumed]) && before.lexer.InQuotes()
    requires before.table.fields == FieldsOf(was)
    requires Quiet(run, before.lexer.escape)
    ensures Flaggable(was, before.lexer.mode, before.table.current)
    ensures var after := Flagged(was, before.lexer.mode, before.table.current, HasContentEscape(run));
            Scan(source[..next]) ==
            Index(next, before.lexer.(escape := EscapeAfter(run, before.lexer.escape)),
                  Table(FieldsOf(after), before.table.order, before.table.current))
  {
    ScanQuiet(source, before.consumed, next, before);
    FlaggedState(before, was, run);
  }

  /** Passing over a quiet run keeps every cache true. */
  lemma RunSound(source: Text, next: nat, before: Index, was: map<Text, Entry>, needs: bool)
    requires before.consumed <= next <= |source|
    requires before == Scan(source[..before.consumed]) && before.table.fields == FieldsOf(was)
    requires AllSound(was, source[..before.consumed])
    ensures Flaggable(was, before.lexer.mode, before.table.current)
    ensures AllSound(Flagged(was, before.lexer.mode, before.table.current, needs), source[..next])
  {
    ReadyFlaggable(before, was);
    CurrentOpen(source[..before.consumed]);
    FlaggedSound(was, before.lexer.mode, before.table.current, needs, source[..before.consumed], source[..next]);
  }

  lemma FlaggedSound(entries: map<Text, Entry>, mode: Mode, current: Option<Text>, needs: bool, text: Text,
      longer: Text)
    requires Flaggable(entries, mode, current) && AllSound(entries, text) && text <= longer
    requires mode.InString? ==> entries[current.value].end.None?
    ensures AllSound(Flagged(entries, mode, current, needs), longer)
  {
    AllSoundLonger(entries, text, longer);
    if mode.InString? {
      var entry := entries[current.value];
      SoundLonger(entry, text, longer, entry.(needsDecoding := entry.needsDecoding || needs));
    }
  }

  lemma RunIsSlice(fragment: Text, start: nat, end: nat, source: Text, at: nat)
    requires start <= end <= |fragment| && at + |fragment| - start <= |source|
    requires fragment[start..] == source[at..at + |fragment| - start]
    ensures source[at..at + end - start] == fragment[start..end]
  {
    assert fragment[start..][..end - start] == fragment[start..end];
    assert source[at..at + |fragment| - start][..end - start] == source[at..at + end - start];
  }

  lemma PieceOfPiece(source: Text, base: nat, pending: Text, index: nat)
    requires index <= |pending| && base + |pending| <= |source| && pending == source[base..base + |pending|]
    ensures pending[index..] == source[base + index..base + |pending|]
  {
  }

  /** A string entry whose caches are true of the whole source. */
  ghost predicate Readable(entry: Entry, source: Text, consumed: nat) {
    && entry.StringEntry? && entry.Sound(source)
    && entry.EndIn(|source|) <= consumed
    && (!entry.needsDecoding ==> !HasContentEscape(source[entry.start..entry.EndIn(|source|)]))
  }

  lemma NoEscapes(text: Text, start: nat, end: nat, i: nat, j: nat)
    requires start <= i <= j <= end <= |text| && !HasContentEscape(text[start..end])
    ensures forall k | 0 <= k < j - i :: !IsContentEscape(text[i..j][k])
  {
    ContentEscapeExists(text[start..end]);
    forall k | 0 <= k < j - i
      ensures !IsContentEscape(text[i..j][k])
    {
      assert text[i..j][k] == text[start..end][i - start + k];
    }
  }

  /** Once scanning has caught up, the index of the scanned prefix is the index of the source. */
  lemma Settled(source: Text, consumed: nat)
    requires consumed <= |source|
    requires consumed == |source| || Scan(source[..consumed]).lexer.mode.Invalid?
    ensures Scan(source[..consumed]) == Scan(source)
  {
    if consumed == |source| {
      assert source[..consumed] == source;
    } else {
      ScanFrozen(source, consumed);
    }
  }

  /** Where a string field lies, and what its decoding flag says. */
  lemma StringPlace(source: Text, key: Text)
    requires key in Scan(source).table.fields && Scan(source).table.fields[key].StringField?
    ensures var ix := Scan(source);
            var field := ix.table.fields[key];
            && field.start <= EndOf(ix, field) <= ix.consumed
            && (field.end.None? ==> ix.consumed == |source|)
            && field.needsDecoding == HasContentEscape(source[field.start..EndOf(ix, field)])
  {
    ScanWellFormed(source);
    ScanMarks(source);
  }

  /** Truth of closed caches does not depend on what follows the scanned text. */
  lemma SoundScanned(entry: Entry, text: Text, source: Text)
    requires text <= source && entry.StringEntry?
    requires entry.start <= entry.EndIn(|text|) <= |text| && (entry.end.None? ==> |text| == |source|)
    ensures entry.Sound(text) == entry.Sound(source)
  {
    var stop := entry.EndIn(|text|);
    forall at | entry.start <= at <= stop
      ensures Boundary(text, entry.start, at) == Boundary(source, entry.start, at)
      ensures Decoded(text, entry.start, at) == Decoded(source, entry.start, at)
    {
      assert text[..at] == source[..at];
      BoundaryLocal(text, source, entry.start, at);
    }
    assert text[..stop] == source[..stop];
    if entry.invalidAt.Some? && entry.invalidAt.value < stop {
      TokenLocal(text, source, entry.invalidAt.value, stop, entry.end.None?);
    }
  }

  /** What a caught-up view can answer about a key. */
  lemma AnswerOf(source: Text, consumed: nat, state: Index, entries: map<Text, Entry>, key: Text)
    requires consumed <= |source| && state == Scan(source[..consumed]) && state.consumed == consumed
    requires consumed == |source| || state.lexer.mode.Invalid?
    requires state.table.fields == FieldsOf(entries) && AllSound(entries, source[..consumed])
    ensures key in entries && entries[key].StringEntry? ==>
              var entry := entries[key];
              && Readable(entry, source, consumed)
              && (entry.end.None? ==> consumed == |source|)
              && TextOf(source, key) == Some(Decode(source, entry.start, entry.EndIn(|source|), entry.end.None?))
    ensures key !in entries || !entries[key].StringEntry? ==> TextOf(source, key) == None
  {
    hide FieldIndex.Scan, Decode;
    Settled(source, consumed);
    if key in entries && entries[key].StringEntry? {
      StringPlace(source, key);
      assert entries[key].Sound(source[..consumed]);
      SoundScanned(entries[key], source[..consumed], source);
    }
  }

  /** A cursor has read everything there is, or as much as was asked. */
  ghost predicate ReadTo(text: Text, start: nat, end: nat, open: bool, c: Cursor, limit: Option<nat>)
    requires start <= end <= |text|
  {
    var whole := Decode(text, start, end, open);
    && CountsAt(text, start, end, c)
    && c.length <= |whole|
    && Decoded(text, start, c.at) == whole[..c.length]
    && (c.length == |whole| || (limit.Some? && limit.value <= c.length))
  }

  /** Reading on keeps the text of a cursor that has it, and leaves the text of one that does not. */
  ghost predicate Kept(text: Text, start: nat, read: Cursor, next: Cursor, materialize: bool)
    requires start <= read.at <= |text| && start <= next.at <= |text|
  {
    if materialize then read.text == Decoded(text, start, read.at) ==> next.text == Decoded(text, start, next.at)
    else next.text == read.text
  }

  /** A cursor after some units of a given width in the text. */
  function Forward(read: Cursor, units: Text, width: nat, materialize: bool): Cursor {
    Cursor(read.at + width, read.length + |units|, if materialize then read.text + units else read.text)
  }

  lemma PlainForward(text: Text, start: nat, stop: nat, read: Cursor, run: Text, materialize: bool)
    requires start <= stop <= |text| && CountsAt(text, start, stop, read)
    requires read.at + |run| <= stop && run == text[read.at..read.at + |run|]
    requires forall i | 0 <= i < |run| :: !IsContentEscape(run[i])
    ensures var next := Forward(read, run, |run|, materialize);
            CountsAt(text, start, stop, next) && Kept(text, start, read, next, materialize)
  {
    forall i | read.at <= i < read.at + |run|
      ensures !IsContentEscape(text[i])
    {
      assert text[i] == run[i - read.at];
    }
    PlainRun(text, start, read.at, read.at + |run|);
  }

  /** An unfinished or wrong escape ends what can be decoded; none lies before a known wrong one. */
  lemma Stopped(text: Text, start: nat, at: nat, stop: nat, end: nat, open: bool)
    requires start <= at < stop <= end <= |text| && Boundary(text, start, at)
    requires stop < end ==> Boundary(text, start, stop)
    requires !TokenAt(text, at, stop, open).Unit?
    ensures stop == end && Decode(text, start, end, open) == Decoded(text, start, at)
  {
    if stop < end {
      BoundaryBetween(text, start, at, stop);
      TokenStable(text, at, stop, false, stop, open);
      assert false;
    }
    DecodeStops(text, start, at, end, open);
  }

  lemma ReadEnough(text: Text, start: nat, end: nat, open: bool, stop: nat, c: Cursor, limit: Option<nat>)
    requires start <= stop <= end <= |text| && CountsAt(text, start, stop, c)
    requires stop < end ==> Boundary(text, start, stop) && TokenAt(text, stop, end, open).Bad?
    requires c.at == stop || (limit.Some? && limit.value <= c.length)
    ensures ReadTo(text, start, end, open, c, limit)
  {
    DecodeResumes(text, start, c.at, end, open);
    if c.at == stop {
      DecodeStops(text, start, c.at, end, open);
    }
  }

  /** The length of the plain run at the start of a text. */
  method PlainLength(s: Text) returns (n: nat)
    ensures n <= |s| && (forall i | 0 <= i < n :: !IsContentEscape(s[i]))
    ensures n < |s| ==> IsContentEscape(s[n])
  {
    n := 0;
    while n < |s| && !IsContentEscape(s[n])
      invariant n <= |s| && forall i | 0 <= i < n :: !IsContentEscape(s[i])
    {
      n := n + 1;
    }
  }

  method FindQuote(fragment: Text, from: nat) returns (at: nat)
    requires from <= |fragment|
    ensures from <= at <= |fragment| && QUOTE !in fragment[from..at]
    ensures at < |fragment| ==> fragment[at] == QUOTE
  {
    at := from;
    while at < |fragment| && fragment[at] != QUOTE
      invariant from <= at <= |fragment|
      invariant QUOTE !in fragment[from..at]
    {
      assert fragment[from..at + 1] == fragment[from..at] + [fragment[at]];
      at := at + 1;
    }
  }

  method CountTrailingSlashes(run: Text) returns (n: nat)
    ensures n == TrailingSlashes(run)
  {
    var start := |run|;
    assert run[..start] == run;
    while start > 0 && run[start - 1] == BACKSLASH
      invariant 0 <= start <= |run|
      invariant TrailingSlashes(run) == |run| - start + TrailingSlashes(run[..start])
    {
      assert run[..start][..start - 1] == run[..start - 1];
      start := start - 1;
    }
    n := |run| - start;
  }

  /** A quote-free run after a quiet one: the parity at its end can be counted. */
  lemma ExtendRun(fragment: Text, start: nat, at: nat, end: nat, escape: bool)
    requires start <= at <= end <= |fragment| && QUOTE !in fragment[at..end]
    requires Quiet(fragment[start..at], escape)
    ensures Quiet(fragment[start..end], escape)
    ensures var slashes := TrailingSlashes(fragment[at..end]);
            EscapeAfter(fragment[start..end], escape) ==
            ((slashes % 2 == 1) != (slashes == end - at && EscapeAfter(fragment[start..at], escape)))
    ensures HasContentEscape(fragment[start..end]) ==
            (HasContentEscape(fragment[start..at]) || HasContentEscape(fragment[at..end]))
  {
    var a, b := fragment[start..at], fragment[at..end];
    assert fragment[start..end] == a + b;
    EscapeConcat(a, b, escape);
    EscapeByCounting(b, EscapeAfter(a, escape));
    ContentEscapeConcat(a, b);
    QuietWithoutQuotes(b, EscapeAfter(a, escape));
    QuietConcat(a, b, escape);
  }

  /** An escaped quote neither ends the string nor leaves the next unit escaped. */
  lemma ExtendByQuote(fragment: Text, start: nat, end: nat, escape: bool)
    requires start <= end < |fragment| && fragment[end] == QUOTE
    requires Quiet(fragment[start..end], escape) && EscapeAfter(fragment[start..end], escape)
    ensures Quiet(fragment[start..end + 1], escape) && !EscapeAfter(fragment[start..end + 1], escape)
    ensures HasContentEscape(fragment[start..end + 1]) == HasContentEscape(fragment[start..end])
  {
    var run := fragment[start..end + 1];
    assert run[..|run| - 1] == fragment[start..end];
  }
}
