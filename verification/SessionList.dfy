/** The Session list a client shows: live mutations replayed over list pulls that may overlap or be superseded. */
module SessionList {
  import opened Options
  import opened OrderedMerge

  /** The fields of one Session summary; its id is the row's key. */
  datatype Info = Info(
    blank: bool,
    running: bool,
    agentAvailable: bool,
    updatedAt: int,
    cwd: Option<string>,
    parent: Option<Key>,
    origin: Option<string>,
    formatStatus: Option<string>)

  type Summary = Row<Info>

  datatype Mutation =
    | Upsert(summary: Summary)
    | Placeholder(summary: Summary)
    | Remove(id: Key)
    | Status(id: Key, running: bool, agentAvailable: bool)
    | Activity(id: Key, updatedAt: int)
    | Engaged(id: Key)

  function Or<T>(a: Option<T>, b: Option<T>): Option<T> {
    if a.Some? then a else b
  }

  /** An existing row takes live state from a Host summary and only missing metadata from any summary. */
  function Filled(existing: Info, added: Info, live: bool): Info {
    Info(
      existing.blank && added.blank,
      if live then added.running else existing.running,
      if live then added.agentAvailable else existing.agentAvailable,
      existing.updatedAt,
      Or(existing.cwd, added.cwd),
      Or(existing.parent, added.parent),
      Or(existing.origin, added.origin),
      if live then Or(added.formatStatus, existing.formatStatus) else existing.formatStatus)
  }

  function WithStatus(info: Info, running: bool, agentAvailable: bool): Info {
    if info.running != running || info.agentAvailable != agentAvailable || (running && info.blank) then
      info.(running := running, agentAvailable := agentAvailable, blank := info.blank && !running)
    else info
  }

  /** Change the row of one id. */
  function Change(summaries: seq<Summary>, id: Key, info: Info): seq<Summary> {
    if summaries == [] then []
    else [if summaries[0].key == id then Row(id, info) else summaries[0]] + Change(summaries[1..], id, info)
  }

  function Without(summaries: seq<Summary>, id: Key): seq<Summary> {
    if summaries == [] then []
    else if summaries[0].key == id then Without(summaries[1..], id)
    else [summaries[0]] + Without(summaries[1..], id)
  }

  function Merged(summaries: seq<Summary>, summary: Summary, live: bool): seq<Summary> {
    var p := Place(summaries, summary.key);
    if p == |summaries| then [summary] + summaries
    else
      var filled := Filled(summaries[p].value, summary.value, live);
      if filled == summaries[p].value then summaries else Change(summaries, summary.key, filled)
  }

  /** What one live change makes of the rows; where rows are shown is no matter here. */
  function ApplyMutation(summaries: seq<Summary>, mutation: Mutation): seq<Summary> {
    match mutation
    case Upsert(summary) => Merged(summaries, summary, true)
    case Placeholder(summary) => Merged(summaries, summary, false)
    case Remove(id) => Without(summaries, id)
    case Status(id, running, agentAvailable) =>
      var p := Place(summaries, id);
      if p < |summaries| then Change(summaries, id, WithStatus(summaries[p].value, running, agentAvailable))
          else summaries
    case Activity(id, updatedAt) =>
      var p := Place(summaries, id);
      if p < |summaries| && updatedAt > summaries[p].value.updatedAt then
        Change(summaries, id, summaries[p].value.(updatedAt := updatedAt))
      else summaries
    case Engaged(id) =>
      var p := Place(summaries, id);
      if p < |summaries| && summaries[p].value.blank then Change(summaries, id, summaries[p].value.(blank := false))
          else summaries
  }

  function Replay(summaries: seq<Summary>, mutations: seq<Mutation>): seq<Summary> {
    if mutations == [] then summaries
    else ApplyMutation(Replay(summaries, mutations[..|mutations| - 1]), mutations[|mutations| - 1])
  }

  // --- what one row goes through ------------------------------------------------------------------------

  function RowOf(summaries: seq<Summary>, id: Key): Option<Info> {
    var p := Place(summaries, id);
    if p < |summaries| then Some(summaries[p].value) else None
  }

  function IdOf(mutation: Mutation): Key {
    match mutation
    case Upsert(summary) => summary.key
    case Placeholder(summary) => summary.key
    case Remove(id) => id
    case Status(id, _, _) => id
    case Activity(id, _) => id
    case Engaged(id) => id
  }

  /** One mutation of one row, wherever the row is in the list. */
  function ApplyRow(row: Option<Info>, mutation: Mutation): Option<Info> {
    match mutation
    case Upsert(summary) => Some(if row.Some? then Filled(row.value, summary.value, true) else summary.value)
    case Placeholder(summary) => Some(if row.Some? then Filled(row.value, summary.value, false) else summary.value)
    case Remove(_) => None
    case Status(_, running, agentAvailable) =>
      if row.Some? then Some(WithStatus(row.value, running, agentAvailable)) else None
    case Activity(_, updatedAt) =>
      if row.Some? && updatedAt > row.value.updatedAt then Some(row.value.(updatedAt := updatedAt)) else row
    case Engaged(_) =>
      if row.Some? then Some(row.value.(blank := false)) else None
  }

  function ReplayRow(row: Option<Info>, id: Key, mutations: seq<Mutation>): Option<Info> {
    if mutations == [] then row
    else
      var before, last := ReplayRow(row, id, mutations[..|mutations| - 1]), mutations[|mutations| - 1];
      if IdOf(last) == id then ApplyRow(before, last) else before
  }

  lemma {:induction false} ChangeRows(summaries: seq<Summary>, id: Key, info: Info)
    requires DistinctKeys(summaries)
    ensures |Change(summaries, id, info)| == |summaries|
    ensures forall i :: 0 <= i < |summaries| ==>
              Change(summaries, id, info)[i] == if summaries[i].key == id then Row(id, info) else summaries[i]
    ensures DistinctKeys(Change(summaries, id, info))
  {
    if summaries != [] {
      ChangeRows(summaries[1..], id, info);
    }
  }

  lemma RowAt(summaries: seq<Summary>, i: nat)
    requires DistinctKeys(summaries) && i < |summaries|
    ensures RowOf(summaries, summaries[i].key) == Some(summaries[i].value)
  {
    PlaceUnique(summaries, i);
  }

  lemma NoRow(summaries: seq<Summary>, id: Key)
    ensures RowOf(summaries, id) == None <==> !HasKey(summaries, id)
  {
  }

  lemma ChangedRow(summaries: seq<Summary>, id: Key, info: Info, x: Key)
    requires DistinctKeys(summaries) && HasKey(summaries, id)
    ensures RowOf(Change(summaries, id, info), x) == if x == id then Some(info) else RowOf(summaries, x)
  {
    ChangeRows(summaries, id, info);
    var after := Change(summaries, id, info);
    if HasKey(summaries, x) {
      var i :| 0 <= i < |summaries| && summaries[i].key == x;
      RowAt(summaries, i);
      assert after[i].key == x;
      RowAt(after, i);
    } else {
      assert !HasKey(after, x);
    }
  }

  lemma {:induction false} WithoutRow(summaries: seq<Summary>, id: Key, x: Key)
    ensures RowOf(Without(summaries, id), x) == if x == id then None else RowOf(summaries, x)
  {
    if summaries != [] {
      WithoutRow(summaries[1..], id, x);
      if summaries[0].key != id {
        assert ([summaries[0]] + Without(summaries[1..], id))[1..] == Without(summaries[1..], id);
      }
    }
  }

  lemma {:induction false} WithoutDistinct(summaries: seq<Summary>, id: Key)
    requires DistinctKeys(summaries)
    ensures DistinctKeys(Without(summaries, id)) && forall row <- Without(summaries, id) :: row in summaries
  {
    if summaries != [] {
      var first, rest := summaries[0], summaries[1..];
      var kept := Without(rest, id);
      assert forall i :: 0 <= i < |rest| ==> rest[i] == summaries[i + 1];
      WithoutDistinct(rest, id);
      forall row <- kept
        ensures row in summaries && row.key != first.key
      {
        var i :| 0 <= i < |rest| && rest[i] == row;
        assert summaries[i + 1] == row;
      }
      if first.key != id {
        ConsDistinct(first, kept);
      }
    }
  }

  lemma ConsDistinct(first: Summary, rest: seq<Summary>)
    requires DistinctKeys(rest) && forall row <- rest :: row.key != first.key
    ensures DistinctKeys([first] + rest)
  {
    var all := [first] + rest;
    forall i, j | 0 <= i < j < |all|
      ensures all[i].key != all[j].key
    {
      assert all[j] == rest[j - 1] && rest[j - 1] in rest;
    }
  }

  lemma AddedRow(summaries: seq<Summary>, summary: Summary)
    requires DistinctKeys(summaries) && !HasKey(summaries, summary.key)
    ensures DistinctKeys([summary] + summaries)
    ensures forall x :: RowOf([summary] + summaries, x) == if x == summary.key then Some(summary.value)
            else RowOf(summaries, x)
  {
    assert ([summary] + summaries)[1..] == summaries;
  }

  /** A mutation changes the row it names as it would on its own, keeps every other row, and keeps rows one per id. */
  lemma ApplyOneRow(summaries: seq<Summary>, mutation: Mutation, x: Key)
    requires DistinctKeys(summaries)
    ensures DistinctKeys(ApplyMutation(summaries, mutation))
    ensures RowOf(ApplyMutation(summaries, mutation), x)
            == if x == IdOf(mutation) then ApplyRow(RowOf(summaries, x), mutation) else RowOf(summaries, x)
  {
    hide Change, ApplyRow, Without, RowOf;
    var id := IdOf(mutation);
    if mutation.Remove? {
      hide ApplyMutation;
      assert ApplyMutation(summaries, mutation) == Without(summaries, id)
          && ApplyRow(RowOf(summaries, x), mutation) == None by {
        RemoveIs(summaries, mutation, x);
      }
      WithoutDistinct(summaries, id);
      WithoutRow(summaries, id, x);
    } else if HasKey(summaries, id) {
      ApplyHit(summaries, mutation, x);
    } else {
      ApplyMiss(summaries, mutation, x);
    }
  }

  lemma RemoveIs(summaries: seq<Summary>, mutation: Mutation, x: Key)
    requires mutation.Remove?
    ensures ApplyMutation(summaries, mutation) == Without(summaries, IdOf(mutation))
    ensures ApplyRow(RowOf(summaries, x), mutation) == None
  {
  }

  lemma ApplyMiss(summaries: seq<Summary>, mutation: Mutation, x: Key)
    requires DistinctKeys(summaries) && !mutation.Remove? && !HasKey(summaries, IdOf(mutation))
    ensures DistinctKeys(ApplyMutation(summaries, mutation))
    ensures RowOf(ApplyMutation(summaries, mutation), x)
            == if x == IdOf(mutation) then ApplyRow(RowOf(summaries, x), mutation) else RowOf(summaries, x)
  {
    if mutation.Upsert? || mutation.Placeholder? {
      AddedRow(summaries, mutation.summary);
    }
  }

  /** On a listed row, a mutation is a change of that row, or nothing when the row already is so. */
  lemma ApplyIsChange(summaries: seq<Summary>, mutation: Mutation)
    requires !mutation.Remove? && HasKey(summaries, IdOf(mutation))
    ensures var row := RowOf(summaries, IdOf(mutation));
            && row.Some? && ApplyRow(row, mutation).Some?
            && (ApplyMutation(summaries, mutation) == Change(summaries, IdOf(mutation), ApplyRow(row, mutation).value)
                || (ApplyMutation(summaries, mutation) == summaries && ApplyRow(row, mutation) == row))
  {
    hide Change;
  }

  lemma ApplyHit(summaries: seq<Summary>, mutation: Mutation, x: Key)
    requires DistinctKeys(summaries) && !mutation.Remove? && HasKey(summaries, IdOf(mutation))
    ensures DistinctKeys(ApplyMutation(summaries, mutation))
    ensures RowOf(ApplyMutation(summaries, mutation), x)
            == if x == IdOf(mutation) then ApplyRow(RowOf(summaries, x), mutation) else RowOf(summaries, x)
  {
    hide Change, ApplyMutation, ApplyRow, RowOf;
    ApplyIsChange(summaries, mutation);
    var info := ApplyRow(RowOf(summaries, IdOf(mutation)), mutation).value;
    ChangedRow(summaries, IdOf(mutation), info, x);
    ChangeRows(summaries, IdOf(mutation), info);
  }

  /** Replaying mutations over a list is replaying each row's own mutations over that row. */
  lemma {:induction false} ReplayRows(summaries: seq<Summary>, mutations: seq<Mutation>, x: Key)
    requires DistinctKeys(summaries)
    ensures DistinctKeys(Replay(summaries, mutations))
    ensures RowOf(Replay(summaries, mutations), x) == ReplayRow(RowOf(summaries, x), x, mutations)
  {
    if mutations != [] {
      ReplayRows(summaries, mutations[..|mutations| - 1], x);
      ApplyOneRow(Replay(summaries, mutations[..|mutations| - 1]), mutations[|mutations| - 1], x);
    }
  }

  /** While a row stays, no mutation makes it blank again. */
  lemma {:induction false} BlankNeverRises(row: Info, id: Key, mutations: seq<Mutation>)
    requires !row.blank && Remove(id) !in mutations
    ensures ReplayRow(Some(row), id, mutations).Some? && !ReplayRow(Some(row), id, mutations).value.blank
  {
    if mutations != [] {
      assert mutations[|mutations| - 1] in mutations;
      BlankNeverRises(row, id, mutations[..|mutations| - 1]);
    }
  }
}
