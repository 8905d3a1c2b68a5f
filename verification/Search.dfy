/** The bounded Session search: one answer from many provider pages, whatever the provider does. */
module Search {
  import opened CodeUnits
  import opened Options

  type SessionId = string
  type Cursor = string

  const RESULT_LIMIT := 20
  const CALL_LIMIT := 100
  const SNIPPET_CODE_POINTS := 240

  // --- snippets -----------------------------------------------------------------------------------------

  /** How many code units the code point at the front of a text has. */
  function FirstLength(text: Text): (n: nat)
    requires text != []
    ensures 1 <= n <= |text| && n <= 2
  {
    if |text| >= 2 && 0xD800 <= text[0] < 0xDC00 <= text[1] < 0xE000 then 2 else 1
  }

  function CountCodePoints(text: Text): nat {
    if text == [] then 0 else 1 + CountCodePoints(text[FirstLength(text)..])
  }

  /** A cut between code points, with some number of them in front of it. */
  predicate IsCut(text: Text, end: nat, count: nat)
    requires end <= |text|
    decreases count
  {
    if count == 0 then end == 0
    else text != [] && FirstLength(text) <= end && IsCut(text[FirstLength(text)..], end - FirstLength(text), count - 1)
  }

  lemma {:induction false} CutFurther(text: Text, end: nat, count: nat)
    requires end < |text| && IsCut(text, end, count)
    ensures IsCut(text, end + FirstLength(text[end..]), count + 1)
    decreases count
  {
    if count > 0 {
      var n := FirstLength(text);
      assert text[n..][end - n..] == text[end..];
      CutFurther(text[n..], end - n, count - 1);
    }
  }

  lemma {:induction false} CutAll(text: Text, count: nat)
    requires IsCut(text, |text|, count)
    ensures CountCodePoints(text) == count
    decreases count
  {
    if count > 0 {
      CutAll(text[FirstLength(text)..], count - 1);
    }
  }

  lemma {:induction false} CutIsUnique(text: Text, a: nat, b: nat, count: nat)
    requires a <= |text| && b <= |text| && IsCut(text, a, count) && IsCut(text, b, count)
    ensures a == b
    decreases count
  {
    if count > 0 {
      CutIsUnique(text[FirstLength(text)..], a - FirstLength(text), b - FirstLength(text), count - 1);
    }
  }

  /** A cut text has as many code points as were counted. */
  lemma {:induction false} CutCounts(text: Text, end: nat, count: nat)
    requires end <= |text| && IsCut(text, end, count)
    ensures CountCodePoints(text[..end]) == count
    decreases count
  {
    if count > 0 {
      var n := FirstLength(text);
      assert text[..end][n..] == text[n..][..end - n];
      assert FirstLength(text[..end]) == n by {
        if n == 1 && end >= 2 {
          assert text[..end][0] == text[0] && text[..end][1] == text[1];
        }
      }
      CutCounts(text[n..], end - n, count - 1);
    }
  }

  /** The front of a text, up to some number of code points. */
  function Truncated(text: Text, maximum: nat): Text {
    if text == [] || maximum == 0 then []
    else text[..FirstLength(text)] + Truncated(text[FirstLength(text)..], maximum - 1)
  }

  /** Truncation keeps whole code points, as many as there are or as allowed. */
  lemma {:induction false} TruncatedIsLongest(text: Text, maximum: nat)
    ensures var kept := Truncated(text, maximum);
            && kept <= text
            && (CountCodePoints(text) <= maximum ==> kept == text)
            && (CountCodePoints(text) > maximum ==> IsCut(text, |kept|, maximum) && CountCodePoints(kept) == maximum)
  {
    if text != [] && maximum > 0 {
      var n := FirstLength(text);
      TruncatedIsLongest(text[n..], maximum - 1);
      assert text == text[..n] + text[n..];
    }
    var kept := Truncated(text, maximum);
    if CountCodePoints(text) > maximum {
      CutCounts(text, |kept|, maximum);
      assert kept == text[..|kept|];
    }
  }

  /** Two units that are one code point: a high surrogate and the low one behind it. */
  predicate IsPair(a: CodeUnit, b: CodeUnit) {
    0xD800 <= a <= 0xDBFF && 0xDC00 <= b <= 0xDFFF
  }

  function PairsIn(text: Text): nat {
    if |text| < 2 then 0
    else PairsIn(text[..|text| - 1]) + if IsPair(text[|text| - 2], text[|text| - 1]) then 1 else 0
  }

  /** A text has as many code points as units, but that each surrogate pair counts once. */
  lemma {:induction false} CountIsUnitsLessPairs(text: Text)
    ensures CountCodePoints(text) + PairsIn(text) == |text|
  {
    if text != [] {
      CountIsUnitsLessPairs(text[FirstLength(text)..]);
      PairsBehindFirst(text);
    }
  }

  lemma {:induction false} PairsBehindFirst(text: Text)
    requires text != []
    ensures PairsIn(text) == PairsIn(text[FirstLength(text)..]) + FirstLength(text) - 1
  {
    var n := FirstLength(text);
    if |text| > 2 {
      var init := text[..|text| - 1];
      assert FirstLength(init) == n;
      PairsBehindFirst(init);
      assert init[n..] == text[n..][..|text| - n - 1];
    }
  }

  lemma {:induction false} CutSplitsNoPair(text: Text, end: nat, count: nat)
    requires 0 < end < |text| && IsCut(text, end, count)
    ensures !IsPair(text[end - 1], text[end])
    decreases count
  {
    var n := FirstLength(text);
    if n < end {
      CutSplitsNoPair(text[n..], end - n, count - 1);
    }
  }

  /** Truncation never takes a surrogate pair apart. */
  lemma TruncatedSplitsNoPair(text: Text, maximum: nat)
    ensures var n := |Truncated(text, maximum)|; 0 < n < |text| ==> !IsPair(text[n - 1], text[n])
  {
    var n := |Truncated(text, maximum)|;
    TruncatedIsLongest(text, maximum);
    if 0 < n < |text| {
      CutSplitsNoPair(text, n, maximum);
    }
  }

  /** The longest prefix with at most some number of code points. */
  method TruncateUnicodeCodePoints(text: Text, maximum: nat) returns (prefix: Text)
    ensures prefix == Truncated(text, maximum)
  {
    TruncatedIsLongest(text, maximum);
    var count, end := 0, 0;
    while end < |text|
      invariant end <= |text| && IsCut(text, end, count) && count <= maximum
      decreases |text| - end
    {
      if count == maximum {
        MoreBehind(text, end, count);
        CutIsUnique(text, end, |Truncated(text, maximum)|, maximum);
        return text[..end];
      }
      CutFurther(text, end, count);
      count, end := count + 1, end + FirstLength(text[end..]);
    }
    CutAll(text, count);
    prefix := text;
  }

  lemma {:induction false} MoreBehind(text: Text, end: nat, count: nat)
    requires end < |text| && IsCut(text, end, count)
    ensures CountCodePoints(text) > count
    decreases count
  {
    if count > 0 {
      MoreBehind(text[FirstLength(text)..], end - FirstLength(text), count - 1);
    }
  }

  // --- pages --------------------------------------------------------------------------------------------

  datatype Hit = Hit(id: SessionId, matchId: SessionId, current: bool, message: bool, snippet: Text)

  datatype Item = Item(id: SessionId, snippet: Text)

  /** What the provider makes of one call. */
  datatype Reply =
    | Page(items: seq<Hit>, next: Option<Cursor>)
    | InvalidLimit
    | StaleCursor
    | OtherError

  datatype Result = Found(items: seq<Item>, hasMore: bool) | SearchFailed

  predicate Eligible(hit: Hit, visible: set<SessionId>) {
    hit.id in visible && hit.matchId == hit.id && hit.current && hit.message
  }

  function ItemOf(hit: Hit): Item {
    Item(hit.id, Truncated(hit.snippet, SNIPPET_CODE_POINTS))
  }

  predicate Listed(items: seq<Item>, id: SessionId) {
    exists k :: 0 <= k < |items| && items[k].id == id
  }

  /** The eligible hits of a page, each Session once, behind what earlier pages gave. */
  function Gathered(before: seq<Item>, hits: seq<Hit>, visible: set<SessionId>): seq<Item> {
    if hits == [] then before
    else
      var rest, hit := Gathered(before, hits[..|hits| - 1], visible), hits[|hits| - 1];
      if Eligible(hit, visible) && !Listed(rest, hit.id) then rest + [ItemOf(hit)] else rest
  }

  /** All eligible Sessions of some replies, in provider order. */
  function Collected(replies: seq<Reply>, visible: set<SessionId>): seq<Item> {
    if replies == [] then []
    else
      var rest := Collected(replies[..|replies| - 1], visible);
      match replies[|replies| - 1]
      case Page(hits, _) => Gathered(rest, hits, visible)
      case _ => rest
  }

  function First(items: seq<Item>, n: nat): seq<Item> {
    if |items| <= n then items else items[..n]
  }

  predicate DistinctSessions(items: seq<Item>) {
    forall i, j :: 0 <= i < j < |items| ==> items[i].id != items[j].id
  }

  lemma {:induction false} GatheredGrows(before: seq<Item>, hits: seq<Hit>, visible: set<SessionId>)
    ensures before <= Gathered(before, hits, visible)
    ensures DistinctSessions(before) ==> DistinctSessions(Gathered(before, hits, visible))
    ensures (forall item <- before :: item.id in visible) ==>
            forall item <- Gathered(before, hits, visible) :: item.id in visible
  {
    if hits != [] {
      GatheredGrows(before, hits[..|hits| - 1], visible);
    }
  }

  /** A hit of a page is listed exactly if it is eligible or was listed before. */
  lemma {:induction false} GatheredAll(before: seq<Item>, hits: seq<Hit>, visible: set<SessionId>, id: SessionId)
    ensures Listed(Gathered(before, hits, visible), id)
            <==> Listed(before, id) || exists k :: 0 <= k < |hits| && hits[k].id == id && Eligible(hits[k], visible)
  {
    if hits != [] {
      var init := hits[..|hits| - 1];
      GatheredAll(before, init, visible, id);
      var rest, after := Gathered(before, init, visible), Gathered(before, hits, visible);
      if k :| 0 <= k < |init| && init[k].id == id && Eligible(init[k], visible) {
        assert hits[k] == init[k];
      }
      if k :| 0 <= k < |rest| && rest[k].id == id {
        assert after[k].id == id;
      }
      if k :| 0 <= k < |hits| && hits[k].id == id && Eligible(hits[k], visible) {
        if k < |init| {
          assert init[k] == hits[k];
        } else if !Listed(rest, id) {
          assert after[|rest|].id == id;
        }
      }
      if k :| 0 <= k < |after| && after[k].id == id {
        assert k < |rest| ==> rest[k].id == id;
      }
    }
  }

  /** A hit on a message that the Session itself now shows. */
  predicate ShowsMessageOf(hit: Hit, id: SessionId) {
    hit.id == hit.matchId == id && hit.current && hit.message
  }

  ghost predicate Offers(reply: Reply, visible: set<SessionId>, id: SessionId) {
    reply.Page? && exists k :: 0 <= k < |reply.items| && ShowsMessageOf(reply.items[k], id) && id in visible
  }

  /** The collected Sessions are distinct, visible, and exactly those that some page offered. */
  lemma {:induction false} CollectedAll(replies: seq<Reply>, visible: set<SessionId>, id: SessionId)
    ensures DistinctSessions(Collected(replies, visible))
    ensures forall item <- Collected(replies, visible) :: item.id in visible
    ensures Listed(Collected(replies, visible), id) <==>
            exists r :: 0 <= r < |replies| && Offers(replies[r], visible, id)
  {
    if replies != [] {
      var init, last := replies[..|replies| - 1], replies[|replies| - 1];
      CollectedAll(init, visible, id);
      if last.Page? {
        GatheredGrows(Collected(init, visible), last.items, visible);
        GatheredAll(Collected(init, visible), last.items, visible, id);
      }
      if r :| 0 <= r < |init| && Offers(init[r], visible, id) {
        assert replies[r] == init[r];
      }
      if r :| 0 <= r < |replies| && Offers(replies[r], visible, id) {
        assert r < |init| ==> init[r] == replies[r];
      }
    }
  }

  /** What is collected stays in front as more replies come: Sessions are in the order of their first offer. */
  lemma {:induction false} CollectedGrows(replies: seq<Reply>, n: nat, visible: set<SessionId>)
    requires n <= |replies|
    ensures Collected(replies[..n], visible) <= Collected(replies, visible)
  {
    if n == |replies| {
      assert replies[..n] == replies;
    } else {
      var init, last := replies[..|replies| - 1], replies[|replies| - 1];
      assert init[..n] == replies[..n];
      CollectedGrows(init, n, visible);
      if last.Page? {
        GatheredGrows(Collected(init, visible), last.items, visible);
      }
    }
  }

  /** A listed item is that of an offered hit, its snippet cut to 240 code points. */
  ghost predicate Offered(replies: seq<Reply>, visible: set<SessionId>, item: Item) {
    exists r, k :: && 0 <= r < |replies| && replies[r].Page? && 0 <= k < |replies[r].items|
                   && ShowsMessageOf(replies[r].items[k], item.id) && item.id in visible
                   && item.snippet == Truncated(replies[r].items[k].snippet, 240)
  }

  lemma {:induction false} GatheredOffered(before: seq<Item>, hits: seq<Hit>, visible: set<SessionId>)
    ensures forall item <- Gathered(before, hits, visible) :: item in before || exists k ::
              0 <= k < |hits| && ShowsMessageOf(hits[k], item.id) && item.id in visible
              && item.snippet == Truncated(hits[k].snippet, 240)
  {
    hide Truncated;
    if hits != [] {
      var init := hits[..|hits| - 1];
      GatheredOffered(before, init, visible);
      forall item <- Gathered(before, hits, visible)
        ensures item in before || exists k :: 0 <= k < |hits| && ShowsMessageOf(hits[k], item.id) && item.id in visible
                                              && item.snippet == Truncated(hits[k].snippet, 240)
      {
        if item in Gathered(before, init, visible) && item !in before {
          var k :| 0 <= k < |init| && ShowsMessageOf(init[k], item.id) && item.id in visible
                   && item.snippet == Truncated(init[k].snippet, 240);
          assert hits[k] == init[k];
        } else if item !in before {
          assert ShowsMessageOf(hits[|hits| - 1], item.id);
        }
      }
    }
  }

  lemma {:induction false} CollectedOffered(replies: seq<Reply>, visible: set<SessionId>)
    ensures forall item <- Collected(replies, visible) :: Offered(replies, visible, item)
  {
    hide Truncated, ShowsMessageOf;
    if replies != [] {
      var init, last := replies[..|replies| - 1], replies[|replies| - 1];
      CollectedOffered(init, visible);
      if last.Page? {
        GatheredOffered(Collected(init, visible), last.items, visible);
      }
      forall item <- Collected(replies, visible)
        ensures Offered(replies, visible, item)
      {
        if item in Collected(init, visible) {
          var r, k :| && 0 <= r < |init| && init[r].Page? && 0 <= k < |init[r].items|
                      && ShowsMessageOf(init[r].items[k], item.id) && item.id in visible
                      && item.snippet == Truncated(init[r].items[k].snippet, 240);
          assert replies[r] == init[r];
        } else {
          var k :| 0 <= k < |last.items| && ShowsMessageOf(last.items[k], item.id) && item.id in visible
                   && item.snippet == Truncated(last.items[k].snippet, 240);
          assert replies[|replies| - 1] == last;
        }
      }
    }
  }

  // --- the loop -----------------------------------------------------------------------------------------

  /** Add the eligible hits of a page while one more than the result limit is not yet reached. */
  method AcceptPage(
      authorized: seq<Item>, acceptedIds: set<SessionId>, hits: seq<Hit>, visible: set<SessionId>, ghost all: seq<Item>)
    returns (items: seq<Item>, ids: set<SessionId>)
    requires authorized == First(all, RESULT_LIMIT + 1) && forall id :: id in acceptedIds <==> Listed(authorized, id)
    ensures items == First(Gathered(all, hits, visible), RESULT_LIMIT + 1)
    ensures forall id :: id in ids <==> Listed(items, id)
  {
    items, ids := authorized, acceptedIds;
    assert hits[..0] == [];
    for k := 0 to |hits|
      invariant items == First(Gathered(all, hits[..k], visible), RESULT_LIMIT + 1)
      invariant forall id :: id in ids <==> Listed(items, id)
    {
      assert hits[..k + 1][..k] == hits[..k];
      if |items| > RESULT_LIMIT {
        continue;
      }
      var hit := hits[k];
      if !Eligible(hit, visible) || hit.id in ids {
        continue;
      }
      var snippet := TruncateUnicodeCodePoints(hit.snippet, SNIPPET_CODE_POINTS);
      ListedMore(items, Item(hit.id, snippet));
      ids := ids + {hit.id};
      items := items + [Item(hit.id, snippet)];
    }
    assert hits[..|hits|] == hits;
  }

  lemma ListedMore(items: seq<Item>, item: Item)
    ensures forall id :: Listed(items + [item], id) <==> Listed(items, id) || id == item.id
  {
    var after := items + [item];
    forall id
      ensures Listed(after, id) <==> Listed(items, id) || id == item.id
    {
      if k :| 0 <= k < |items| && items[k].id == id {
        assert after[k].id == id;
      }
      assert after[|items|].id == item.id;
      if k :| 0 <= k < |after| && after[k].id == id {
        assert k < |items| ==> items[k].id == id;
      }
    }
  }

  lemma CollectNext(replies: seq<Reply>, restart: nat, calls: nat, visible: set<SessionId>)
    requires restart <= calls < |replies|
    ensures var before := Collected(replies[restart..calls], visible);
            Collected(replies[restart..calls + 1], visible)
            == match replies[calls]
               case Page(hits, _) => Gathered(before, hits, visible)
               case _ => before
  {
    assert replies[restart..calls + 1][..calls - restart] == replies[restart..calls];
  }

  lemma NothingCollected(replies: seq<Reply>, calls: nat, visible: set<SessionId>)
    requires calls <= |replies|
    ensures Collected(replies[calls..calls], visible) == [] && forall id :: !Listed([], id)
  {
  }

  // --- the outcome --------------------------------------------------------------------------------------

  /** The call a search last started over from. */
  function StartOf(replies: seq<Reply>, call: nat): (start: nat)
    requires call <= |replies|
    ensures start <= call && (start > 0 ==> replies[start - 1].StaleCursor?)
    ensures forall r :: start <= r < call ==> !replies[r].StaleCursor?
  {
    if call == 0 || replies[call - 1].StaleCursor? then call else StartOf(replies, call - 1)
  }

  /** The page size a call asks for: every refused one is halved. */
  function LimitOf(replies: seq<Reply>, call: nat): (limit: nat)
    requires call <= |replies|
    ensures 1 <= limit <= RESULT_LIMIT
  {
    if call == 0 then RESULT_LIMIT
    else
      var limit := LimitOf(replies, call - 1);
      if replies[call - 1].InvalidLimit? && limit > 1 then limit / 2 else limit
  }

  /** Some page since the start has given this cursor. */
  ghost predicate Given(replies: seq<Reply>, start: nat, call: nat, cursor: Cursor)
    requires call <= |replies|
  {
    exists r :: start <= r < call && replies[r].Page? && replies[r].next == Some(cursor)
  }

  /** A call without a cursor: no page has come since the start. */
  ghost predicate Fresh(replies: seq<Reply>, start: nat, call: nat)
    requires call <= |replies|
  {
    forall r :: start <= r < call ==> !replies[r].Page?
  }

  /** What the search does not put up with. */
  ghost predicate Fault(replies: seq<Reply>, call: nat)
    requires call < |replies|
  {
    var start := StartOf(replies, call);
    match replies[call]
    case InvalidLimit => !Fresh(replies, start, call) || LimitOf(replies, call) == 1
    case StaleCursor => Fresh(replies, start, call)
    case OtherError => true
    case Page(items, next) =>
      |items| > LimitOf(replies, call) || (next.Some? && Given(replies, start, call, next.value))
  }

  /** A page behind which nothing more is needed. */
  ghost predicate Suffices(visible: set<SessionId>, replies: seq<Reply>, call: nat)
    requires call < |replies|
  {
    && replies[call].Page?
    && (replies[call].next == None || |Collected(replies[StartOf(replies, call)..call + 1], visible)| > RESULT_LIMIT)
  }

  /** Calls that neither fail the search nor finish it. */
  ghost predicate GoesOn(visible: set<SessionId>, replies: seq<Reply>, calls: nat)
    requires calls <= |replies|
  {
    forall r :: 0 <= r < calls ==> !Fault(replies, r) && !Suffices(visible, replies, r)
  }

  /** The search fails at the first call that does not go on, or for want of calls. */
  ghost predicate Fails(visible: set<SessionId>, replies: seq<Reply>) {
    || GoesOn(visible, replies, |replies|)
    || exists call :: 0 <= call < |replies| && GoesOn(visible, replies, call) && Fault(replies, call)
  }

  /** The calls that contribute to an answer: those since a stale cursor last restarted the search. */
  ghost predicate Contributes(replies: seq<Reply>, restart: nat, calls: nat) {
    && restart <= calls <= |replies| && (restart > 0 ==> replies[restart - 1].StaleCursor?)
    && forall r :: restart <= r < calls ==> replies[r].Page? || replies[r].InvalidLimit?
  }

  /**
   The search is answered by the first call that does not go on, if a page came that is not at fault: with what the
   pages since the last restart gave, up to the limit.
   */
  ghost predicate Answers(visible: set<SessionId>, replies: seq<Reply>, call: nat, result: Result)
    requires call < |replies|
  {
    && GoesOn(visible, replies, call) && !Fault(replies, call) && Suffices(visible, replies, call)
    && var all := Collected(replies[StartOf(replies, call)..call + 1], visible);
       result == Found(First(all, RESULT_LIMIT), |all| > RESULT_LIMIT)
  }

  /** Visible Sessions and replies determine the answer. */
  lemma AnswerUnique(visible: set<SessionId>, replies: seq<Reply>, call: nat, result: Result, other: nat,
      another: Result)
    requires call < |replies| && other < |replies|
    requires Answers(visible, replies, call, result) && Answers(visible, replies, other, another)
    ensures call == other && result == another
  {
    hide StartOf, Fault, Suffices, Collected;
  }

  /** The calls behind an answer are pages, and refusals of a page size, since the last restart. */
  lemma AnswerContributes(visible: set<SessionId>, replies: seq<Reply>, call: nat, result: Result)
    requires call < |replies| && Answers(visible, replies, call, result)
    ensures Contributes(replies, StartOf(replies, call), call + 1)
  {
    hide Collected, LimitOf, Given, Fresh;
    var start := StartOf(replies, call);
    forall r | start <= r < call
      ensures replies[r].Page? || replies[r].InvalidLimit?
    {
      assert !Fault(replies, r);
    }
  }

  lemma OffersSince(replies: seq<Reply>, start: nat, stop: nat, visible: set<SessionId>, id: SessionId)
    requires start <= stop <= |replies|
    ensures var since := replies[start..stop];
            (exists r :: 0 <= r < |since| && Offers(since[r], visible, id))
            <==> exists r :: start <= r < stop && Offers(replies[r], visible, id)
  {
    hide Offers;
    var since := replies[start..stop];
    if r :| start <= r < stop && Offers(replies[r], visible, id) {
      assert since[r - start] == replies[r];
    }
    if r :| 0 <= r < |since| && Offers(since[r], visible, id) {
      assert replies[start + r] == since[r];
    }
  }

  /** An answer that announces no more lists exactly the Sessions that were offered since the last restart. */
  lemma AnswerIsAll(visible: set<SessionId>, replies: seq<Reply>, call: nat, result: Result, id: SessionId)
    requires call < |replies| && Answers(visible, replies, call, result)
    ensures !result.hasMore ==>
              && replies[call].next == None
              && (Listed(result.items, id) <==>
                  exists r :: StartOf(replies, call) <= r < call + 1 && Offers(replies[r], visible, id))
    ensures |result.items| <= 20 && (result.hasMore ==> |result.items| == 20)
  {
    hide Collected, StartOf, Fault, GoesOn, Listed, Offers;
    CollectedAll(replies[StartOf(replies, call)..call + 1], visible, id);
    OffersSince(replies, StartOf(replies, call), call + 1, visible, id);
  }

  lemma AnswersAt(visible: set<SessionId>, replies: seq<Reply>, call: nat, authorized: seq<Item>, result: Result)
    requires call < |replies| && replies[call].Page? && GoesOn(visible, replies, call) && !Fault(replies, call)
    requires authorized == First(Collected(replies[StartOf(replies, call)..call + 1], visible), RESULT_LIMIT + 1)
    requires |authorized| > RESULT_LIMIT || replies[call].next == None
    requires result == Found(First(authorized, RESULT_LIMIT), |authorized| > RESULT_LIMIT)
    ensures Answers(visible, replies, call, result) && !Fails(visible, replies)
  {
    hide Collected, StartOf, Fault, GoesOn, Fails;
    FailsAt(visible, replies, call);
  }

  lemma FailsAt(visible: set<SessionId>, replies: seq<Reply>, call: nat)
    requires call < |replies| && GoesOn(visible, replies, call)
             && (Fault(replies, call) || Suffices(visible, replies, call))
    ensures Fails(visible, replies) <==> Fault(replies, call)
  {
    hide StartOf, Fault, Suffices;
    if other :| 0 <= other < |replies| && GoesOn(visible, replies, other) && Fault(replies, other) {
      assert other == call;
    }
  }

  lemma NoCalls(visible: set<SessionId>, replies: seq<Reply>)
    ensures GoesOn(visible, replies, 0)
  {
  }

  lemma OutOfCalls(visible: set<SessionId>, replies: seq<Reply>)
    requires GoesOn(visible, replies, |replies|)
    ensures Fails(visible, replies)
  {
  }

  lemma OneMore(visible: set<SessionId>, replies: seq<Reply>, call: nat)
    requires call < |replies| && GoesOn(visible, replies, call)
    requires !Fault(replies, call) && !Suffices(visible, replies, call)
    ensures GoesOn(visible, replies, call + 1)
  {
  }

  lemma AfterPage(replies: seq<Reply>, call: nat)
    requires call < |replies| && replies[call].Page?
    ensures var start := StartOf(replies, call);
            && StartOf(replies, call + 1) == start && LimitOf(replies, call + 1) == LimitOf(replies, call)
            && !Fresh(replies, start, call + 1)
            && forall c :: Given(replies, start, call + 1, c) <==>
                           Given(replies, start, call, c) || replies[call].next == Some(c)
  {
  }

  lemma AfterRefusal(replies: seq<Reply>, call: nat)
    requires call < |replies| && replies[call].InvalidLimit?
    ensures var start, limit := StartOf(replies, call), LimitOf(replies, call);
            && StartOf(replies, call + 1) == start
            && LimitOf(replies, call + 1) == (if limit > 1 then limit / 2 else limit)
            && (Fresh(replies, start, call + 1) <==> Fresh(replies, start, call))
            && forall c :: Given(replies, start, call + 1, c) <==> Given(replies, start, call, c)
  {
  }

  lemma AtStart(replies: seq<Reply>, call: nat)
    requires call <= |replies| && (call == 0 || replies[call - 1].StaleCursor?)
    ensures StartOf(replies, call) == call && Fresh(replies, call, call) && forall c :: !Given(replies, call, call, c)
    ensures LimitOf(replies, call) == if call == 0 then RESULT_LIMIT else LimitOf(replies, call - 1)
  {
  }

  /** A provider that keeps to the page size, gives new cursors and comes to an end in time is always answered. */
  lemma HonestProviderAnswered(visible: set<SessionId>, replies: seq<Reply>, last: nat)
    requires last < |replies| && replies[last].Page? && replies[last].next == None
    requires forall r :: 0 <= r <= last ==> replies[r].Page? && |replies[r].items| <= RESULT_LIMIT
    requires forall q, r :: 0 <= q < r < last && replies[r].next.Some? ==> replies[q].next != replies[r].next
    ensures !Fails(visible, replies)
  {
    forall r | 0 <= r <= last
      ensures !Fault(replies, r)
    {
      FullLimit(replies, r);
    }
    assert Suffices(visible, replies, last);
  }

  lemma {:induction false} FullLimit(replies: seq<Reply>, call: nat)
    requires call <= |replies| && forall r :: 0 <= r < call ==> replies[r].Page?
    ensures LimitOf(replies, call) == RESULT_LIMIT
  {
    if call > 0 {
      FullLimit(replies, call - 1);
    }
  }

  /** Search with any provider, given what it replies to each of the calls that are allowed. */
  method SearchSessions(visible: set<SessionId>, replies: seq<Reply>) returns (result: Result)
    requires |replies| == 100
    ensures visible == {} ==> result == Found([], false)
    ensures visible != {} ==> (result == SearchFailed <==> Fails(visible, replies))
    ensures visible != {} && result.Found? ==>
            exists call :: 0 <= call < |replies| && Answers(visible, replies, call, result)
  {
    hide Collected, Gathered, Eligible, Listed, Truncated, StartOf, LimitOf, Fresh, Given, GoesOn, Fails, Answers;
    ghost var restart := 0;
    if visible == {} {
      return Found([], false);
    }
    var authorized: seq<Item>, acceptedIds: set<SessionId>, seenCursors: set<Cursor> := [], {}, {};
    NothingCollected(replies, 0, visible);
    AtStart(replies, 0);
    NoCalls(visible, replies);
    var cursor: Option<Cursor> := None;
    var providerCalls, pageLimit := 0, RESULT_LIMIT;
    while |authorized| <= RESULT_LIMIT
      invariant providerCalls <= CALL_LIMIT
      invariant restart == StartOf(replies, providerCalls) && pageLimit == LimitOf(replies, providerCalls)
      invariant authorized == First(Collected(replies[restart..providerCalls], visible), RESULT_LIMIT + 1)
      invariant forall id :: id in acceptedIds <==> Listed(authorized, id)
      invariant cursor == None <==> Fresh(replies, restart, providerCalls)
      invariant forall c :: c in seenCursors <==> Given(replies, restart, providerCalls, c)
      invariant GoesOn(visible, replies, providerCalls)
      invariant |authorized| <= RESULT_LIMIT
      decreases CALL_LIMIT - providerCalls
    {
      if providerCalls >= CALL_LIMIT {
        OutOfCalls(visible, replies);
        return SearchFailed;
      }
      var reply := replies[providerCalls];
      CollectNext(replies, restart, providerCalls, visible);
      providerCalls := providerCalls + 1;
      match reply
      case InvalidLimit =>
        if cursor.Some? || pageLimit <= 1 {
          FailsAt(visible, replies, providerCalls - 1);
          return SearchFailed;
        }
        AfterRefusal(replies, providerCalls - 1);
        OneMore(visible, replies, providerCalls - 1);
        pageLimit := if pageLimit / 2 > 1 then pageLimit / 2 else 1;
      case StaleCursor =>
        if cursor.None? {
          FailsAt(visible, replies, providerCalls - 1);
          return SearchFailed;
        }
        authorized, acceptedIds, seenCursors, cursor := [], {}, {}, None;
        restart := providerCalls;
        NothingCollected(replies, providerCalls, visible);
        AtStart(replies, providerCalls);
        OneMore(visible, replies, providerCalls - 1);
      case OtherError =>
        FailsAt(visible, replies, providerCalls - 1);
        return SearchFailed;
      case Page(items, next) =>
        if |items| > pageLimit {
          FailsAt(visible, replies, providerCalls - 1);
          return SearchFailed;
        }
        authorized, acceptedIds :=
          AcceptPage(authorized, acceptedIds, items, visible, Collected(replies[restart..providerCalls - 1], visible));
        if next.Some? {
          if next.value in seenCursors {
            FailsAt(visible, replies, providerCalls - 1);
            return SearchFailed;
          }
          seenCursors := seenCursors + {next.value};
        }
        if |authorized| > RESULT_LIMIT || next.None? {
          result := Found(First(authorized, RESULT_LIMIT), |authorized| > RESULT_LIMIT);
          AnswersAt(visible, replies, providerCalls - 1, authorized, result);
          return;
        }
        AfterPage(replies, providerCalls - 1);
        OneMore(visible, replies, providerCalls - 1);
        cursor := next;
    }
    assert false;
  }
}
