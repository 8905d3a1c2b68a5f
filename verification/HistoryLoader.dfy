/** A Session's contiguous history window and the loaders that grow it backwards, page by awaited page. */
module HistoryLoader {
  import opened Options
  import opened Paging

  const PAGE_MESSAGES := 500
  const HISTORY_WINDOW := Some(TurnWindow(50, 2))
  const JUMP_WINDOW := Some(TurnWindow(200, 2))

  /** Pages a running jump holds back until it ends, newest first. */
  datatype Pending = Pending(beforeSeq: nat, hasMore: bool, pages: seq<seq<LogEvent>>)

  lemma {:induction false} OldestFirstSnoc(pages: seq<seq<LogEvent>>, page: seq<LogEvent>)
    ensures OldestFirst(pages + [page]) == page + OldestFirst(pages)
    decreases |pages|
  {
    if pages == [] {
      assert ([page])[1..] == [];
    } else {
      assert (pages + [page])[1..] == pages[1..] + [page];
      OldestFirstSnoc(pages[1..], page);
    }
  }

  lemma Adjacent(log: seq<LogEvent>, lo: nat, mid: nat, hi: nat)
    requires lo <= mid <= hi <= |log|
    ensures log[lo..mid] + log[mid..hi] == log[lo..hi]
  {
  }

  class SessionHistory {
    ghost var log: seq<LogEvent>
    var window: seq<LogEvent>
    var baseSeq: nat
    var hasMore: bool
    var loadingOlder: bool
    var jumpTargetSeq: Option<nat>
    var pendingHistory: Option<Pending>
    var asked: nat // the exclusive bound of the page being awaited
    ghost var requested: set<nat> // every seq the running jump was asked to reach
    ghost var expected: bool // no window replacement since the awaited page was asked for

    ghost predicate HoldsWindow()
      reads this
    {
      && baseSeq + |window| <= |log| && window == log[baseSeq..baseSeq + |window|]
      && hasMore == (baseSeq > 0)
    }

    ghost predicate HoldsPages()
      reads this
    {
      && (jumpTargetSeq.Some? <==> pendingHistory.Some?)
      && (jumpTargetSeq.Some? ==>
            var p, target := pendingHistory.value, jumpTargetSeq.value;
            && loadingOlder
            && p.beforeSeq <= baseSeq <= |log| && p.hasMore == (p.beforeSeq > 0)
            && OldestFirst(p.pages) == log[p.beforeSeq..baseSeq]
            && (forall page <- p.pages :: page != [])
            && target in requested && (forall s <- requested :: target <= s)
            && (expected ==> asked == p.beforeSeq && target < p.beforeSeq))
    }

    ghost predicate Valid()
      reads this
    {
      HoldsWindow() && HoldsPages() && asked <= |log|
      && (loadingOlder && jumpTargetSeq.None? && expected ==> asked == baseSeq && baseSeq > 0)
    }

    constructor (ghost log: seq<LogEvent>, page: seq<LogEvent>, hasMore: bool, base: nat)
      requires base + |page| == |log| && page == log[base..] && hasMore == (base > 0)
      ensures Valid() && !loadingOlder && jumpTargetSeq == None && this.log == log
      ensures window == page && baseSeq == base && this.hasMore == hasMore
    {
      this.log, window, baseSeq, this.hasMore := log, page, base, hasMore;
      loadingOlder, jumpTargetSeq, pendingHistory, asked := false, None, None, 0;
      requested, expected := {}, true;
    }

    /** A live event extends the log and the window behind it. */
    method AppendLive(event: LogEvent)
      requires Valid() && baseSeq + |window| == |log|
      modifies this`log, this`window
      ensures Valid() && window == old(window) + [event] && log == old(log) + [event]
    {
      ghost var before := log;
      log := log + [event];
      window := window + [event];
      if pendingHistory.Some? {
        assert log[pendingHistory.value.beforeSeq..baseSeq] == before[pendingHistory.value.beforeSeq..baseSeq];
      }
    }

    /** Prepend one page, or hold it back while a jump is running. */
    method PrependWindow(page: seq<LogEvent>, first: nat, more: bool)
      requires HoldsWindow() && first + |page| == baseSeq && page == log[first..baseSeq] && more == (first > 0)
      modifies this`window, this`baseSeq, this`hasMore
      ensures HoldsWindow() && baseSeq == first && window == page + old(window)
    {
      window, baseSeq, hasMore := page + window, first, more;
    }

    /** The jump loop's guard: ask for the next page, or end and show what was held back. */
    method ContinueJump()
      requires HoldsWindow() && asked <= |log| && jumpTargetSeq.Some? && pendingHistory.Some? && loadingOlder
      requires var p := pendingHistory.value;
               && p.beforeSeq <= baseSeq <= |log| && p.hasMore == (p.beforeSeq > 0)
               && OldestFirst(p.pages) == log[p.beforeSeq..baseSeq]
               && (forall page <- p.pages :: page != [])
               && jumpTargetSeq.value in requested && (forall s <- requested :: jumpTargetSeq.value <= s)
      modifies this
      ensures Valid() && log == old(log) && requested == old(requested)
      ensures baseSeq + |window| == old(baseSeq + |window|)
      ensures jumpTargetSeq.None? ==> !loadingOlder && baseSeq == old(pendingHistory.value.beforeSeq)
      ensures jumpTargetSeq.None? ==> !hasMore || forall s <- requested :: baseSeq <= s
      ensures jumpTargetSeq.Some? <==>
              old(pendingHistory.value.hasMore && pendingHistory.value.beforeSeq > jumpTargetSeq.value)
      ensures jumpTargetSeq.Some? ==> && expected && pendingHistory == old(pendingHistory)
                                      && window == old(window) && baseSeq == old(baseSeq)
                                      && asked == old(pendingHistory.value.beforeSeq)
                                      && jumpTargetSeq == old(jumpTargetSeq)
    {
      var p := pendingHistory.value;
      if p.hasMore && p.beforeSeq > jumpTargetSeq.value {
        asked, expected := p.beforeSeq, true;
      } else {
        EndJump();
      }
    }

    /** Whatever ended the loop, the held pages become visible and the loader is free again. */
    method EndJump()
      requires HoldsWindow() && asked <= |log| && jumpTargetSeq.Some? && pendingHistory.Some?
      requires var p := pendingHistory.value;
               && p.beforeSeq <= baseSeq <= |log| && p.hasMore == (p.beforeSeq > 0)
               && OldestFirst(p.pages) == log[p.beforeSeq..baseSeq]
               && (forall page <- p.pages :: page != [])
      modifies this`window, this`baseSeq, this`hasMore, this`jumpTargetSeq, this`pendingHistory, this`loadingOlder
      ensures Valid() && jumpTargetSeq.None? && !loadingOlder && baseSeq == old(pendingHistory.value.beforeSeq)
      ensures baseSeq + |window| == old(baseSeq + |window|)
    {
      var p := pendingHistory.value;
      jumpTargetSeq, pendingHistory, loadingOlder := None, None, false;
      if p.pages == [] {
        assert log[p.beforeSeq..baseSeq] == [];
      } else {
        var all := Flatten(p.pages);
        PrependWindow(all, p.beforeSeq, p.hasMore);
      }
    }

    /** Start a jump to a seq in front of the window, or lower the target of the one that is running. */
    method LoadThrough(target: nat)
      requires Valid()
      modifies this
      ensures Valid() && window == old(window) && baseSeq == old(baseSeq) && log == old(log)
      ensures !hasMore || baseSeq <= target ==> jumpTargetSeq == old(jumpTargetSeq) && loadingOlder == old(loadingOlder)
      ensures old(jumpTargetSeq).Some? && old(hasMore) && target < baseSeq ==>
                && requested == old(requested) + {target} && pendingHistory == old(pendingHistory)
                && asked == old(asked)
                && jumpTargetSeq == Some(if target < old(jumpTargetSeq).value then target else old(jumpTargetSeq).value)
      ensures !old(loadingOlder) && old(hasMore) && target < baseSeq ==>
                && jumpTargetSeq == Some(target) && requested == {target} && expected && asked == baseSeq
                && pendingHistory == Some(Pending(baseSeq, hasMore, []))
    {
      if !hasMore || baseSeq <= target {
        return;
      }
      if jumpTargetSeq.Some? {
        jumpTargetSeq := Some(if target < jumpTargetSeq.value then target else jumpTargetSeq.value);
        requested := requested + {target};
        return;
      }
      if loadingOlder {
        return;
      }
      pendingHistory := Some(Pending(baseSeq, hasMore, []));
      jumpTargetSeq, loadingOlder, requested, expected := Some(target), true, {target}, true;
      ContinueJump();
    }

    /** Ask for one ordinary older page. */
    method LoadOlder()
      requires Valid()
      modifies this`loadingOlder, this`asked, this`expected
      ensures Valid() && (old(loadingOlder) || !hasMore ==> loadingOlder == old(loadingOlder))
      ensures !old(loadingOlder) && hasMore ==> loadingOlder && asked == baseSeq
    {
      if !hasMore || loadingOlder {
        return;
      }
      loadingOlder, asked, expected := true, baseSeq, true;
    }

    /**
     The awaited page arrives. A jump that ends here without disturbance has reached every seq it was asked for,
     or the beginning of the log.
     */
    method PageArrived(page: seq<LogEvent>, first: nat, more: bool)
      requires Valid() && loadingOlder && expected && asked > 0
      requires var window := if jumpTargetSeq.Some? then JUMP_WINDOW else HISTORY_WINDOW;
               first == Cut(log, asked, PAGE_MESSAGES, window) && page == log[first..asked] && more == (first > 0)
      modifies this
      ensures Valid() && log == old(log) && baseSeq + |window| == old(baseSeq + |window|)
      ensures baseSeq <= old(baseSeq)
      ensures old(jumpTargetSeq).None? ==> !loadingOlder && baseSeq == first < old(baseSeq)
      ensures old(jumpTargetSeq).Some? && jumpTargetSeq.Some? ==>
                && window == old(window) && asked == first < old(asked) && jumpTargetSeq.value < first
                && expected && requested == old(requested) && pendingHistory.value.beforeSeq == first
      ensures old(jumpTargetSeq).Some? && jumpTargetSeq.None? ==>
                !loadingOlder && baseSeq == first && (!hasMore || forall s <- old(requested) :: baseSeq <= s)
    {
      hide OldestFirst;
      if pendingHistory.Some? {
        var p := pendingHistory.value;
        OldestFirstSnoc(p.pages, page);
        Adjacent(log, first, asked, baseSeq);
        pendingHistory := Some(Pending(first, more, p.pages + [page]));
        ContinueJump();
      } else {
        PrependWindow(page, first, more);
        loadingOlder := false;
      }
    }

    /** Replace the whole window, as a reconnect does; a running jump forgets its pages and counts from the new base. */
    method InstallWindow(page: seq<LogEvent>, base: nat, more: bool)
      requires Valid() && base + |page| <= |log| && page == log[base..base + |page|] && more == (base > 0)
      modifies this
      ensures Valid() && window == page && baseSeq == base && log == old(log) && loadingOlder == old(loadingOlder)
      ensures jumpTargetSeq == old(jumpTargetSeq) && asked == old(asked) && requested == old(requested) && !expected
      ensures pendingHistory == if old(pendingHistory).Some? then Some(Pending(base, more, [])) else None
    {
      window, baseSeq, hasMore, expected := page, base, more, false;
      if pendingHistory.Some? {
        pendingHistory := Some(Pending(base, more, []));
      }
    }

    /**
     An awaited page that the journal dropped when the window was replaced. A jump goes on from the new base if that
     is before the page it asked for; it ends short of a seq it was asked for exactly if the new base is not, while
     there is more history and the seq is not covered.
     */
    method PageDropped()
      requires Valid() && loadingOlder && !expected
      modifies this
      ensures Valid() && log == old(log) && requested == old(requested) && baseSeq + |window| == old(baseSeq + |window|)
      ensures old(jumpTargetSeq).None? ==> !loadingOlder && window == old(window) && baseSeq == old(baseSeq)
      ensures old(jumpTargetSeq).Some? ==>
                var p, target := old(pendingHistory).value, old(jumpTargetSeq).value;
                var missing := p.hasMore && target < p.beforeSeq;
                && (jumpTargetSeq.Some? <==> missing && p.beforeSeq < old(asked))
                && (jumpTargetSeq.Some? ==> && expected && asked == p.beforeSeq && jumpTargetSeq == old(jumpTargetSeq)
                                            && pendingHistory == old(pendingHistory))
                && (jumpTargetSeq.None? ==>
                      && !loadingOlder && baseSeq == p.beforeSeq
                      && ((hasMore && exists s <- old(requested) :: s < baseSeq) <==>
                          missing && p.beforeSeq >= old(asked)))
    {
      if pendingHistory.Some? {
        if pendingHistory.value.beforeSeq >= asked {
          EndJump();
        } else {
          ContinueJump();
        }
      } else {
        loadingOlder := false;
      }
    }

    /** A failed read ends the loader with the pages it already has. */
    method PageFailed()
      requires Valid() && loadingOlder
      modifies this
      ensures Valid() && !loadingOlder && jumpTargetSeq.None? && log == old(log)
      ensures baseSeq + |window| == old(baseSeq + |window|)
      ensures baseSeq == if old(pendingHistory).Some? then old(pendingHistory.value.beforeSeq) else old(baseSeq)
    {
      if pendingHistory.Some? {
        EndJump();
      } else {
        loadingOlder := false;
      }
    }
  }

  method Flatten(pages: seq<seq<LogEvent>>) returns (all: seq<LogEvent>)
    ensures all == OldestFirst(pages)
  {
    all := [];
    var i := |pages|;
    while i > 0
      invariant 0 <= i <= |pages| && all == OldestFirst(pages[i..])
    {
      i := i - 1;
      assert pages[i..][1..] == pages[i + 1..];
      all := all + pages[i];
    }
  }

  /** A jump that nothing disturbs ends, having reached its seq or the beginning of the log. */
  method JumpUndisturbed(history: SessionHistory, hostLog: seq<LogEvent>, target: nat)
    requires history.Valid() && !history.loadingOlder && hostLog == history.log && hostLog != []
    modifies history
    ensures history.Valid() && !history.loadingOlder
    ensures history.baseSeq <= target || !history.hasMore
    ensures history.baseSeq + |history.window| == old(history.baseSeq + |history.window|)
  {
    history.LoadThrough(target);
    while history.jumpTargetSeq.Some?
      invariant history.Valid() && history.log == hostLog
      invariant history.baseSeq + |history.window| == old(history.baseSeq + |history.window|)
      invariant history.jumpTargetSeq.Some? ==>
                  history.expected && target in history.requested && 0 < history.asked <= |hostLog|
      invariant history.jumpTargetSeq.None? ==>
                  !history.loadingOlder && (history.baseSeq <= target || !history.hasMore)
      decreases history.jumpTargetSeq.Some?, history.asked
    {
      var page, more := Paginate(hostLog, Some(history.asked), PAGE_MESSAGES, |hostLog| - 1, JUMP_WINDOW);
      history.PageArrived(page, history.asked - |page|, more);
    }
  }

  /** A jump that a window replacement at the same base cuts short, with more history before its seq. */
  method JumpCutShort() returns (history: SessionHistory, target: nat)
    ensures history.Valid() && !history.loadingOlder
    ensures target in history.requested && target < history.baseSeq && history.hasMore
  {
    var log := [Unpaged, Unpaged, Unpaged];
    history := new SessionHistory(log, log[2..], true, 2);
    target := 0;
    history.LoadThrough(target);
    history.InstallWindow(log[2..], 2, true);
    history.PageDropped();
  }
}
