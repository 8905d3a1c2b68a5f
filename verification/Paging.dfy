/** Host pages: message-aligned backward cuts of a Session log. */
module Paging {
  import opened Options

  /** What paging sees of an event; a message cites the earlier events it was made from. */
  datatype LogEvent =
    | TurnStart
    | Message(appended: bool, sources: seq<nat>)
    | Unpaged
  {
    predicate Counts() {
      Message? && appended
    }
  }

  datatype TurnWindow = TurnWindow(minMessages: nat, minTurns: nat)

  /** The append messages in a range. */
  function CountMessages(log: seq<LogEvent>, lo: nat, hi: nat): (n: nat)
    requires lo <= hi <= |log|
    ensures n <= hi - lo
    decreases hi - lo
  {
    if lo == hi then 0 else (if log[lo].Counts() then 1 else 0) + CountMessages(log, lo + 1, hi)
  }

  function CountTurns(log: seq<LogEvent>, lo: nat, hi: nat): nat
    requires lo <= hi <= |log|
    decreases hi - lo
  {
    if lo == hi then 0 else (if log[lo].TurnStart? then 1 else 0) + CountTurns(log, lo + 1, hi)
  }

  /** The least of a position and the sources it cites. */
  function Earliest(sources: seq<nat>, at: nat): (least: nat)
    ensures least <= at && (least == at || least in sources) && forall s <- sources :: least <= s
  {
    if sources == [] then at
    else
      var init := sources[..|sources| - 1];
      assert sources == init + [sources[|sources| - 1]];
      var rest := Earliest(init, at);
      if sources[|sources| - 1] < rest then sources[|sources| - 1] else rest
  }

  /** The message that fills the budget. */
  predicate FillsBudget(log: seq<LogEvent>, at: nat, end: nat, maxMessages: nat)
    requires at < end <= |log|
  {
    log[at].Counts() && CountMessages(log, at, end) == maxMessages
  }

  /** A turn start behind which both minima are met. */
  predicate MeetsMinima(log: seq<LogEvent>, at: nat, end: nat, window: Option<TurnWindow>)
    requires at < end <= |log|
  {
    && window.Some? && log[at].TurnStart?
    && CountMessages(log, at, end) >= window.value.minMessages
    && CountTurns(log, at, end) >= window.value.minTurns
  }

  predicate Stops(log: seq<LogEvent>, at: nat, end: nat, maxMessages: nat, window: Option<TurnWindow>)
    requires at < end <= |log|
  {
    FillsBudget(log, at, end, maxMessages) || MeetsMinima(log, at, end, window)
  }

  /** Where a page that stops at an event is cut: at the turn start, or before the message's earliest source. */
  function CutAt(log: seq<LogEvent>, at: nat): (cut: nat)
    requires at < |log|
    ensures cut <= at
  {
    if log[at].Message? then Earliest(log[at].sources, at) else at
  }

  /** A page's cut: that of the last event that stops it, or 0. */
  ghost predicate IsCut(log: seq<LogEvent>, end: nat, maxMessages: nat, window: Option<TurnWindow>, cut: nat)
    requires end <= |log|
  {
    || (cut == 0 && forall i :: 0 <= i < end ==> !Stops(log, i, end, maxMessages, window))
    || (exists at: nat :: LastStop(log, at, end, maxMessages, window) && cut == CutAt(log, at))
  }

  /** The last event that stops a page. */
  ghost predicate LastStop(log: seq<LogEvent>, at: nat, end: nat, maxMessages: nat, window: Option<TurnWindow>)
    requires end <= |log|
  {
    && at < end && Stops(log, at, end, maxMessages, window)
    && forall i :: at < i < end ==> !Stops(log, i, end, maxMessages, window)
  }

  lemma CutUnique(log: seq<LogEvent>, end: nat, maxMessages: nat, window: Option<TurnWindow>, a: nat, b: nat)
    requires end <= |log| && IsCut(log, end, maxMessages, window, a) && IsCut(log, end, maxMessages, window, b)
    ensures a == b && (a < end || end == 0)
  {
    if i: nat, j: nat :| LastStop(log, i, end, maxMessages, window) && a == CutAt(log, i)
                         && LastStop(log, j, end, maxMessages, window) && b == CutAt(log, j) {
      assert i == j;
    }
  }

  /** The page that ends at a bound, read backwards until it has messages or turns enough. */
  method Paginate(events: seq<LogEvent>, beforeSeq: Option<nat>, maxMessages: nat, throughSeq: int,
      window: Option<TurnWindow>)
    returns (page: seq<LogEvent>, hasMore: bool)
    requires maxMessages >= 1 && -1 <= throughSeq < |events|
    ensures var end := if beforeSeq.Some? && beforeSeq.value < throughSeq + 1 then beforeSeq.value else throughSeq + 1;
            var cut := Cut(events, end, maxMessages, window);
            page == events[cut..end] && hasMore == (cut > 0)
  {
    var end := if beforeSeq.Some? && beforeSeq.value < throughSeq + 1 then beforeSeq.value else throughSeq + 1;
    var count, turns, from := 0, 0, 0;
    var index := end;
    while index > 0
      invariant 0 <= index <= end && from == 0
      invariant count == CountMessages(events, index, end) < maxMessages
      invariant window.Some? ==> turns == CountTurns(events, index, end)
      invariant forall i :: index <= i < end ==> !Stops(events, i, end, maxMessages, window)
    {
      index := index - 1;
      var event := events[index];
      if window.Some? && event.TurnStart? {
        turns := turns + 1;
        if count >= window.value.minMessages && turns >= window.value.minTurns {
          from := index;
          assert LastStop(events, index, end, maxMessages, window);
          break;
        }
      }
      if !event.Counts() {
        continue;
      }
      count := count + 1;
      var groupStart := index;
      for k := 0 to |event.sources|
        invariant groupStart == Earliest(event.sources[..k], index)
      {
        assert event.sources[..k + 1][..k] == event.sources[..k];
        if event.sources[k] < groupStart {
          groupStart := event.sources[k];
        }
      }
      assert event.sources[..|event.sources|] == event.sources;
      if count >= maxMessages {
        from := groupStart;
        assert LastStop(events, index, end, maxMessages, window);
        break;
      }
    }
    CutUnique(events, end, maxMessages, window, from, Cut(events, end, maxMessages, window));
    page, hasMore := events[from..end], from > 0;
  }

  /** The one cut of a page. */
  function Cut(log: seq<LogEvent>, end: nat, maxMessages: nat, window: Option<TurnWindow>): (cut: nat)
    requires end <= |log|
    ensures IsCut(log, end, maxMessages, window, cut) && cut <= end && (end > 0 ==> cut < end)
  {
    CutFrom(log, end, end, maxMessages, window)
  }

  function CutFrom(log: seq<LogEvent>, index: nat, end: nat, maxMessages: nat, window: Option<TurnWindow>): (cut: nat)
    requires index <= end <= |log|
    requires forall i :: index <= i < end ==> !Stops(log, i, end, maxMessages, window)
    ensures IsCut(log, end, maxMessages, window, cut) && cut <= end && (end > 0 ==> cut < end)
    decreases index
  {
    if index == 0 then 0
    else if Stops(log, index - 1, end, maxMessages, window) then CutAt(log, index - 1)
    else CutFrom(log, index - 1, end, maxMessages, window)
  }

  // --- tiling -------------------------------------------------------------------------------------------

  /** The pages read backwards from an end, each beginning where the next one stops; newest first. */
  function Pages(log: seq<LogEvent>, end: nat, maxMessages: nat, window: Option<TurnWindow>): seq<seq<LogEvent>>
    requires end <= |log|
    decreases end
  {
    if end == 0 then []
    else
      var cut := Cut(log, end, maxMessages, window);
      [log[cut..end]] + Pages(log, cut, maxMessages, window)
  }

  /** Pages joined oldest first. */
  function OldestFirst<T>(pages: seq<seq<T>>): seq<T> {
    if pages == [] then [] else OldestFirst(pages[1..]) + pages[0]
  }

  /** Reading page after page ends, yields no empty page, and gives back exactly the prefix. */
  lemma {:induction false} PagesTile(log: seq<LogEvent>, end: nat, maxMessages: nat, window: Option<TurnWindow>)
    requires end <= |log|
    ensures OldestFirst(Pages(log, end, maxMessages, window)) == log[..end]
    ensures forall page <- Pages(log, end, maxMessages, window) :: page != []
    decreases end
  {
    if end > 0 {
      var cut := Cut(log, end, maxMessages, window);
      PagesTile(log, cut, maxMessages, window);
      assert log[..cut] + log[cut..end] == log[..end];
    }
  }

  lemma {:induction false} CountSplit(log: seq<LogEvent>, lo: nat, mid: nat, hi: nat)
    requires lo <= mid <= hi <= |log|
    ensures CountMessages(log, lo, hi) == CountMessages(log, lo, mid) + CountMessages(log, mid, hi)
    decreases mid - lo
  {
    if lo < mid {
      CountSplit(log, lo + 1, mid, hi);
    }
  }

  lemma {:induction false} CountNone(log: seq<LogEvent>, lo: nat, hi: nat)
    requires lo <= hi <= |log|
    ensures CountMessages(log, lo, hi) == 0 <==> forall i :: lo <= i < hi ==> !log[i].Counts()
    decreases hi - lo
  {
    if lo < hi {
      CountNone(log, lo + 1, hi);
    }
  }

  /** Without a stop after an index, the budget is not yet used up there. */
  lemma {:induction false} BelowBudget(log: seq<LogEvent>, index: nat, end: nat, maxMessages: nat)
    requires index <= end <= |log| && maxMessages >= 1
    requires forall i :: index <= i < end ==> !FillsBudget(log, i, end, maxMessages)
    ensures CountMessages(log, index, end) < maxMessages
    decreases end - index
  {
    if index < end {
      assert !FillsBudget(log, index, end, maxMessages);
      BelowBudget(log, index + 1, end, maxMessages);
    }
  }

  lemma NotFilled(log: seq<LogEvent>, index: nat, end: nat, maxMessages: nat, window: Option<TurnWindow>)
    requires index <= end <= |log|
    requires forall i :: index <= i < end ==> !Stops(log, i, end, maxMessages, window)
    ensures forall i :: index <= i < end ==> !FillsBudget(log, i, end, maxMessages)
  {
    forall i | index <= i < end
      ensures !FillsBudget(log, i, end, maxMessages)
    {
      assert !Stops(log, i, end, maxMessages, window);
    }
  }

  /**
   A page exceeds its message budget exactly when the message that fills it cites a source with another message
   between the two.
   */
  lemma PageOverBudget(log: seq<LogEvent>, end: nat, maxMessages: nat, window: Option<TurnWindow>)
    requires end <= |log| && maxMessages >= 1
    ensures CountMessages(log, Cut(log, end, maxMessages, window), end) > maxMessages <==>
            exists at, i :: && 0 <= at < end && LastStop(log, at, end, maxMessages, window)
                            && FillsBudget(log, at, end, maxMessages)
                            && CutAt(log, at) <= i < at && log[i].Counts()
  {
    var cut := Cut(log, end, maxMessages, window);
    if at: nat :| LastStop(log, at, end, maxMessages, window) && cut == CutAt(log, at) {
      CountSplit(log, cut, at, end);
      CountNone(log, cut, at);
      NotFilled(log, at + 1, end, maxMessages, window);
      BelowBudget(log, at + 1, end, maxMessages);
    } else {
      NotFilled(log, 0, end, maxMessages, window);
      BelowBudget(log, 0, end, maxMessages);
    }
  }

  /**
   A page that does not begin at the beginning was stopped: by the message that fills its budget, before which it takes
   all of that message's sources, or at a turn start with messages and turns enough.
   */
  lemma PageStopped(log: seq<LogEvent>, end: nat, maxMessages: nat, window: Option<TurnWindow>)
    requires end <= |log| && maxMessages >= 1
    ensures var cut := Cut(log, end, maxMessages, window);
            cut > 0 ==>
              exists at: nat ::
                && LastStop(log, at, end, maxMessages, window) && cut <= at
                && (|| (&& log[at].Message? && log[at].appended && CountMessages(log, at, end) == maxMessages
                        && (forall s <- log[at].sources :: cut <= s) && (cut == at || cut in log[at].sources))
                    || (&& log[at].TurnStart? && cut == at && window.Some?
                        && CountMessages(log, cut, end) >= window.value.minMessages
                        && CountTurns(log, cut, end) >= window.value.minTurns))
  {
    var cut := Cut(log, end, maxMessages, window);
    if cut > 0 {
      var at: nat :| LastStop(log, at, end, maxMessages, window) && cut == CutAt(log, at);
    }
  }

  /** A page reaches the beginning if its messages are within the budget and no turn start has enough behind it. */
  lemma PageReachesBeginning(log: seq<LogEvent>, end: nat, maxMessages: nat, window: Option<TurnWindow>)
    requires end <= |log| && CountMessages(log, 0, end) < maxMessages
    requires window.Some? ==> forall i :: 0 <= i < end && log[i].TurnStart? ==>
               CountMessages(log, i, end) < window.value.minMessages || CountTurns(log, i, end) < window.value.minTurns
    ensures Cut(log, end, maxMessages, window) == 0
  {
    forall i | 0 <= i < end
      ensures !Stops(log, i, end, maxMessages, window)
    {
      CountSplit(log, 0, i, end);
    }
  }

  /** Every appended message counts, and nothing else. */
  lemma CountsOne(log: seq<LogEvent>, lo: nat, hi: nat)
    requires lo < hi <= |log|
    ensures CountMessages(log, lo, hi) == CountMessages(log, lo + 1, hi)
                                          + if log[lo].Message? && log[lo].appended then 1 else 0
    ensures CountTurns(log, lo, hi) == CountTurns(log, lo + 1, hi) + if log[lo] == TurnStart then 1 else 0
  {
  }

  /** A page for one message that holds two: the one that fills it cites a source in front of the other. */
  lemma PageOverBudgetWitness() returns (log: seq<LogEvent>)
    ensures var cut := Cut(log, |log|, 1, None);
            CountMessages(log, cut, |log|) > 1
  {
    log := [Message(true, []), Message(true, []), Message(true, [0])];
    var message := log[2];
    assert message.sources[..0] == [];
    assert Earliest(message.sources, 2) == 0;
    assert FillsBudget(log, 2, 3, 1);
    assert LastStop(log, 2, 3, 1, None);
    CutUnique(log, 3, 1, None, 0, Cut(log, 3, 1, None));
  }
}
