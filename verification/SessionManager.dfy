/** The Session list's manager: pulls, replayed mutations and the engagements that keep a Session from looking blank. */
module SessionManager {
  import opened Options
  import opened OrderedMerge
  import opened SessionList
  import opened SessionFields

  /** One list pull: the order it started from and what happened to the list since. */
  class Pull {
    const established: seq<Summary>
    ghost const since: nat
    var mutations: seq<Mutation>

    constructor (established: seq<Summary>, ghost since: nat)
      ensures this.established == established && this.since == since && mutations == []
    {
      this.established, this.since, mutations := established, since, [];
    }
  }

  /** An instance of an opened Session, of which an id may have one after the other. */
  class Resident {
    const id: Key

    constructor (id: Key)
      ensures this.id == id
    {
      this.id := id;
    }
  }

  function Ids(summaries: seq<Summary>): set<Key> {
    KeySet(summaries)
  }

  /** Ids a pull reports as running that were not removed while it was in flight. */
  function StillRunning(baseline: seq<Summary>, mutations: seq<Mutation>): set<Key> {
    set i | 0 <= i < |baseline| && baseline[i].value.running && Remove(baseline[i].key) !in mutations :: baseline[i].key
  }

  class SessionManager {
    var summaries: seq<Summary>
    var ready: bool
    var listMutations: Pull?
    var engagedSessions: set<Key>
    var sessions: map<Key, Resident>
    var addresses: set<Key> // retained subagent addresses
    var disposed: bool
    ghost var recorded: seq<Mutation>
    ghost var seen: set<Key> // seen running or accepted, and retained ever since

    ghost predicate Valid()
      reads this, listMutations
    {
      && DistinctKeys(summaries) && seen <= engagedSessions * Retained()
      && (listMutations != null ==> DistinctKeys(listMutations.established)) && Tracked()
    }

    /** The pull in flight knows every mutation since it began. */
    ghost predicate Tracked()
      reads this`recorded, this`listMutations, listMutations
    {
      listMutations != null ==>
        listMutations.since <= |recorded| && listMutations.mutations == recorded[listMutations.since..]
    }

    /** Ids that something still holds: a row, a resident Session or an address. */
    function Retained(): set<Key>
      reads this`summaries, this`sessions, this`addresses
    {
      Ids(summaries) + sessions.Keys + addresses
    }

    /** Whether a listed Session is shown as blank. */
    predicate ShownBlank(id: Key)
      reads this`summaries, this`engagedSessions
    {
      RowOf(summaries, id).Some? && RowOf(summaries, id).value.blank && id !in engagedSessions
    }

    /** What retains an id: a row of it, an instance or an address. */
    lemma RetainedExactly(id: Key)
      ensures id in Retained() <==> RowOf(summaries, id).Some? || id in sessions || id in addresses
    {
      NoRow(summaries, id);
    }

    /** A Session seen running or accepted, and retained since, is not shown blank. */
    lemma NeverBlankAgain(id: Key)
      requires Valid() && id in seen
      ensures !ShownBlank(id)
    {
    }

    constructor ()
      ensures Valid() && summaries == [] && !ready && listMutations == null && !disposed && seen == {} && recorded == []
    {
      summaries, ready, listMutations, disposed := [], false, null, false;
      engagedSessions, sessions, addresses := {}, map[], {};
      recorded, seen := [], {};
    }

    /** Apply a mutation at once and keep it for the pull in flight. */
    method RecordMutation(mutation: Mutation)
      requires DistinctKeys(summaries)
      requires Tracked()
      modifies this`summaries, this`recorded, listMutations
      ensures disposed ==> summaries == old(summaries) && recorded == old(recorded)
      ensures !disposed ==>
                && summaries == ApplyMutation(old(summaries), mutation)
                && recorded == old(recorded) + [mutation]
      ensures DistinctKeys(summaries) && Tracked()
    {
      hide ApplyMutation, DistinctKeys, RowOf, ApplyRow;
      if disposed {
        return;
      }
      ApplyOneRow(summaries, mutation, "");
      recorded := recorded + [mutation];
      if listMutations != null {
        listMutations.mutations := listMutations.mutations + [mutation];
      }
      summaries := ApplyMutation(summaries, mutation);
    }

    /** Start a pull, or join the one in flight. */
    method RefreshList() returns (pull: Pull)
      requires Valid()
      modifies this`listMutations
      ensures Valid() && listMutations == pull
      ensures old(listMutations) != null ==> pull == old(listMutations)
      ensures old(listMutations) == null ==>
                fresh(pull) && pull.established == summaries && pull.since == |recorded| && pull.mutations == []
    {
      if listMutations != null {
        return listMutations;
      }
      pull := new Pull(summaries, |recorded|);
      listMutations := pull;
    }

    /**
     The Host's answer to a pull: a superseded one changes nothing; the current one yields the merged baseline with
     every mutation recorded since the pull began.
     */
    method CompletePull(pull: Pull, items: seq<Summary>)
      requires Valid() && DistinctKeys(items)
      modifies this`summaries, this`ready, this`listMutations, this`engagedSessions, this`seen
      ensures Valid() && recorded == old(recorded) && !(listMutations == pull)
      ensures old(listMutations) != pull ==>
                && summaries == old(summaries) && ready == old(ready) && engagedSessions == old(engagedSessions)
                && listMutations == old(listMutations) && seen == old(seen)
      ensures old(listMutations) == pull ==>
                var baseline := if old(ready) then Merge(pull.established, items) else items;
                var running := StillRunning(baseline, recorded[pull.since..]);
                && summaries == Replay(baseline, recorded[pull.since..]) && ready
                && engagedSessions == (old(engagedSessions) + running) * Retained()
                && seen == (old(seen) + running) * Retained()
      ensures old(listMutations) == pull ==>
                PullEngages(items, recorded[pull.since..], old(engagedSessions), engagedSessions, Retained())
    {
      hide StillRunning, PullEngages, Merge, Replay, DistinctKeys, HasKey;
      if listMutations != pull {
        return;
      }
      var baseline := items;
      if ready {
        baseline := MergeOrderedBaseline(pull.established, items);
      }
      engagedSessions := engagedSessions + StillRunning(baseline, pull.mutations);
      seen := seen + StillRunning(baseline, pull.mutations);
      ReplayRows(baseline, pull.mutations, "");
      summaries := Replay(baseline, pull.mutations);
      engagedSessions := engagedSessions * Retained();
      seen := seen * Retained();
      ready := true;
      listMutations := null;
      PullEngaged(baseline, items, pull.mutations, old(engagedSessions), Retained());
    }

    method FailPull(pull: Pull)
      requires Valid()
      modifies this`listMutations
      ensures Valid() && listMutations == if old(listMutations) == pull then null else old(listMutations)
    {
      if listMutations == pull {
        listMutations := null;
      }
    }

    /** A new Host generation supersedes the pull in flight. */
    method HandleConnected() returns (pull: Pull)
      requires Valid()
      modifies this`listMutations
      ensures Valid() && listMutations == pull && fresh(pull)
      ensures pull.established == summaries && pull.since == |recorded| && pull.mutations == []
    {
      listMutations := null;
      pull := RefreshList();
    }

    /** Forget an engagement nothing retains. */
    method PruneEngagement(id: Key)
      modifies this`engagedSessions
      ensures engagedSessions == if id in Retained() then old(engagedSessions) else old(engagedSessions) - {id}
    {
      if id !in Retained() {
        engagedSessions := engagedSessions - {id};
      }
    }

    method HandleSessionAdded(summary: Summary)
      requires Valid()
      modifies this`summaries, this`recorded, this`engagedSessions, this`seen, listMutations
      ensures Valid() && seen >= old(seen) && (!disposed && summary.value.running ==> summary.key in seen)
      ensures disposed ==> summaries == old(summaries) && recorded == old(recorded)
      ensures !disposed ==>
                && summaries == ApplyMutation(old(summaries), Upsert(summary))
                && recorded == old(recorded) + [Upsert(summary)]
      ensures engagedSessions == old(engagedSessions) + if !disposed && summary.value.running then {summary.key} else {}
    {
      hide ApplyMutation, ApplyRow, RowOf, DistinctKeys;
      ghost var before := summaries;
      UpsertListed(summaries, summary);
      RecordMutation(Upsert(summary));
      KeysGrow(before, Upsert(summary));
      if !disposed && summary.value.running {
        engagedSessions := engagedSessions + {summary.key};
        seen := seen + {summary.key};
      }
    }

    /** Create and fork show a placeholder before the Host's own summary arrives. */
    method AddPlaceholder(summary: Summary)
      requires Valid()
      modifies this`summaries, this`recorded, listMutations
      ensures Valid()
      ensures disposed ==> summaries == old(summaries) && recorded == old(recorded)
      ensures !disposed ==>
                && summaries == ApplyMutation(old(summaries), Placeholder(summary))
                && recorded == old(recorded) + [Placeholder(summary)]
    {
      hide ApplyMutation, ApplyRow, RowOf, DistinctKeys;
      ghost var before := summaries;
      RecordMutation(Placeholder(summary));
      KeysGrow(before, Placeholder(summary));
    }

    method HandleSessionStatus(id: Key, running: bool)
      requires Valid()
      modifies this`summaries, this`recorded, this`engagedSessions, this`seen, listMutations
      ensures Valid() && seen >= old(seen) && (!disposed && running && id in Retained() ==> id in seen)
      ensures disposed ==> summaries == old(summaries) && recorded == old(recorded)
      ensures !disposed ==>
                && summaries == ApplyMutation(old(summaries), Status(id, running, true))
                && recorded == old(recorded) + [Status(id, running, true)]
      ensures engagedSessions == old(engagedSessions) + if !disposed && running then {id} else {}
    {
      hide ApplyMutation, ApplyRow, RowOf, DistinctKeys;
      if !disposed && running {
        engagedSessions := engagedSessions + {id};
      }
      ghost var before := summaries;
      RecordMutation(Status(id, running, true));
      KeysGrow(before, Status(id, running, true));
      if !disposed && running && id in Retained() {
        seen := seen + {id};
      }
    }

    method HandleSessionActivity(id: Key, updatedAt: int)
      requires Valid()
      modifies this`summaries, this`recorded, listMutations
      ensures Valid()
      ensures disposed ==> summaries == old(summaries) && recorded == old(recorded)
      ensures !disposed ==>
                && summaries == ApplyMutation(old(summaries), Activity(id, updatedAt))
                && recorded == old(recorded) + [Activity(id, updatedAt)]
    {
      hide ApplyMutation, ApplyRow, RowOf, DistinctKeys;
      ghost var before := summaries;
      RecordMutation(Activity(id, updatedAt));
      KeysGrow(before, Activity(id, updatedAt));
    }

    /** A prompt was accepted: the Session is engaged while anything retains it. */
    method OnEngaged(id: Key)
      requires Valid()
      modifies this`summaries, this`recorded, this`engagedSessions, this`seen, listMutations
      ensures Valid() && seen >= old(seen) && (!disposed && id in old(Retained()) ==> id in seen)
      ensures engagedSessions == old(engagedSessions) + if !disposed && id in old(Retained()) then {id} else {}
      ensures var engaged := !disposed && id in old(Retained()) && id !in old(engagedSessions);
              && summaries == (if engaged then ApplyMutation(old(summaries), Engaged(id)) else old(summaries))
              && recorded == old(recorded) + if engaged then [Engaged(id)] else []
    {
      hide ApplyMutation, ApplyRow, RowOf, DistinctKeys;
      if disposed || id !in Retained() {
        return;
      }
      ghost var before := summaries;
      if id !in engagedSessions {
        engagedSessions := engagedSessions + {id};
        RecordMutation(Engaged(id));
        KeysGrow(before, Engaged(id));
      }
      seen := seen + {id};
    }

    /** Whether an id is known as a durable subagent's: by its address, a parent's catalog or its row. */
    predicate DurableSubagent(id: Key, catalogued: bool)
      reads this`addresses, this`summaries
    {
      || id in addresses || catalogued
      || exists i :: 0 <= i < |summaries| && summaries[i].key == id && summaries[i].value.origin == Some("subagent")
    }

    /** A removal drops the row; of a durable subagent it only ends the run. */
    method HandleSessionRemoved(id: Key, catalogued: bool)
      requires Valid()
      modifies this`summaries, this`recorded, this`engagedSessions, this`seen, listMutations
      ensures Valid() && old(seen) * Retained() <= seen
      ensures disposed ==> summaries == old(summaries) && recorded == old(recorded)
      ensures var mutation := if old(DurableSubagent(id, catalogued)) then Status(id, false, false) else Remove(id);
              !disposed ==>
                && summaries == ApplyMutation(old(summaries), mutation)
                && recorded == old(recorded) + [mutation]
      ensures var row := old(RowOf(summaries, id));
              !disposed ==>
                (RowOf(summaries, id).Some? <==>
                 row.Some? && (id in addresses || catalogued || row.value.origin == Some("subagent")))
      ensures engagedSessions == if id in Retained() then old(engagedSessions) else old(engagedSessions) - {id}
    {
      hide ApplyMutation, ApplyRow, RowOf, DistinctKeys;
      ghost var before := summaries;
      if DurableSubagent(id, catalogued) {
        RecordMutation(Status(id, false, false));
        KeysGrow(before, Status(id, false, false));
      } else {
        RecordMutation(Remove(id));
      }
      PruneEngagement(id);
      KeysOf(before, id);
      DurableRow(before, id);
      ghost var mutation := if old(DurableSubagent(id, catalogued)) then Status(id, false, false) else Remove(id);
      ApplyOneRow(before, mutation, id);
      RowsComeAndGo(RowOf(before, id), mutation);
      seen := seen * Retained();
    }

    /** A subagent's address is kept from its first use on. */
    method RetainAddress(id: Key)
      requires Valid()
      modifies this`addresses
      ensures Valid() && addresses == old(addresses) + {id}
    {
      addresses := addresses + {id};
    }

    /** The instance of an id, made when there is none. */
    method Get(id: Key) returns (session: Resident)
      requires Valid()
      modifies this`sessions
      ensures Valid() && sessions == old(sessions)[id := session]
      ensures if id in old(sessions) then session == old(sessions)[id] else fresh(session) && session.id == id
    {
      if id in sessions {
        return sessions[id];
      }
      session := new Resident(id);
      sessions := sessions[id := session];
    }

    /** Give up one instance, and its address; an instance that came after it stays. */
    method Drop(id: Key, expected: Resident)
      requires Valid()
      modifies this`sessions, this`addresses, this`engagedSessions, this`seen
      ensures Valid() && seen == old(seen) * Retained()
      ensures var resident := id in old(sessions) && old(sessions)[id] == expected;
              && sessions == (if resident then old(sessions) - {id} else old(sessions))
              && addresses == (if resident then old(addresses) - {id} else old(addresses))
              && engagedSessions == old(engagedSessions) - if resident && id !in Retained() then {id} else {}
    {
      if id in sessions && sessions[id] == expected {
        sessions := sessions - {id};
        addresses := addresses - {id};
        PruneEngagement(id);
      }
      seen := seen * Retained();
    }

    method Dispose()
      requires Valid()
      modifies this`disposed, this`listMutations, this`engagedSessions, this`sessions, this`addresses, this`seen
      ensures Valid() && disposed && listMutations == null && summaries == old(summaries)
      ensures engagedSessions == addresses == {} && sessions == map[]
    {
      disposed, listMutations, engagedSessions, sessions, addresses, seen := true, null, {}, map[], {}, {};
    }
  }

  /** A pulled row of a running Session that was not removed while the pull was in flight. */
  predicate Reported(row: Summary, mutations: seq<Mutation>) {
    row.value.running && Remove(row.key) !in mutations
  }

  /** A pull engages what it reports and something holds, and nothing else. */
  ghost predicate PullEngages(items: seq<Summary>, mutations: seq<Mutation>, before: set<Key>, after: set<Key>,
      retained: set<Key>)
  {
    && (forall row <- items :: Reported(row, mutations) && row.key in retained ==> row.key in after)
    && forall id <- after :: id in before || exists row <- items :: row.key == id && Reported(row, mutations)
  }

  lemma PullEngaged(baseline: seq<Summary>, items: seq<Summary>, mutations: seq<Mutation>, before: set<Key>,
      retained: set<Key>)
    requires forall row :: row in baseline <==> row in items
    ensures PullEngages(items, mutations, before, (before + StillRunning(baseline, mutations)) * retained, retained)
  {
    forall row <- items | Reported(row, mutations)
      ensures row.key in StillRunning(baseline, mutations)
    {
      assert row in baseline;
      var i :| 0 <= i < |baseline| && baseline[i] == row;
    }
    forall id <- StillRunning(baseline, mutations)
      ensures exists row <- items :: row.key == id && Reported(row, mutations)
    {
      var i :| 0 <= i < |baseline| && baseline[i].value.running && Remove(baseline[i].key) !in mutations
               && baseline[i].key == id;
      assert baseline[i] in baseline && baseline[i] in items;
    }
  }

  /** Among distinct rows, a subagent's row of an id is the row of that id. */
  lemma DurableRow(summaries: seq<Summary>, id: Key)
    requires DistinctKeys(summaries)
    ensures (exists i ::
               0 <= i < |summaries| && summaries[i].key == id && summaries[i].value.origin == Some("subagent"))
            <==> RowOf(summaries, id).Some? && RowOf(summaries, id).value.origin == Some("subagent")
  {
    if i :| 0 <= i < |summaries| && summaries[i].key == id {
      RowAt(summaries, i);
    } else {
      NoRow(summaries, id);
    }
  }

  /** Only a removal takes an id out of the list. */
  lemma KeysGrow(summaries: seq<Summary>, mutation: Mutation)
    requires DistinctKeys(summaries) && !mutation.Remove?
    ensures Ids(summaries) <= Ids(ApplyMutation(summaries, mutation))
  {
    forall x | x in Ids(summaries)
      ensures x in Ids(ApplyMutation(summaries, mutation))
    {
      ApplyOneRow(summaries, mutation, x);
      NoRow(summaries, x);
      NoRow(ApplyMutation(summaries, mutation), x);
    }
  }

  lemma UpsertListed(summaries: seq<Summary>, summary: Summary)
    requires DistinctKeys(summaries)
    ensures summary.key in Ids(ApplyMutation(summaries, Upsert(summary)))
  {
    ApplyOneRow(summaries, Upsert(summary), summary.key);
    NoRow(ApplyMutation(summaries, Upsert(summary)), summary.key);
  }

  lemma KeysOf(summaries: seq<Summary>, id: Key)
    requires DistinctKeys(summaries)
    ensures Ids(summaries) <= Ids(ApplyMutation(summaries, Remove(id))) + {id}
  {
    forall x | x in Ids(summaries) && x != id
      ensures x in Ids(ApplyMutation(summaries, Remove(id)))
    {
      ApplyOneRow(summaries, Remove(id), x);
      NoRow(summaries, x);
      NoRow(ApplyMutation(summaries, Remove(id)), x);
    }
  }
}
