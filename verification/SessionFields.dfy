/** What a listed Session's fields are after any run of live changes, field by field. */
module SessionFields {
  import opened Options
  import opened OrderedMerge
  import opened SessionList

  /** A field holds what was said of it last, or else what it held. */
  ghost predicate LastSaid<T(!new)>(says: Mutation -> Option<T>, mutations: seq<Mutation>, first: T, last: T) {
    || (last == first && forall j :: 0 <= j < |mutations| ==> says(mutations[j]).None?)
    || exists k :: && 0 <= k < |mutations| && says(mutations[k]) == Some(last)
                   && forall j :: k < j < |mutations| ==> says(mutations[j]).None?
  }

  /** A field holds what is known of it, or else what was said of it first. */
  ghost predicate FirstSaid<T(!new)>(says: Mutation -> Option<T>, mutations: seq<Mutation>, known: Option<T>,
      now: Option<T>)
  {
    if known.Some? then now == known
    else
      || (now.None? && forall j :: 0 <= j < |mutations| ==> says(mutations[j]).None?)
      || (now.Some? && exists k :: && 0 <= k < |mutations| && says(mutations[k]) == now
                                   && forall j :: 0 <= j < k ==> says(mutations[j]).None?)
  }

  ghost predicate Greatest(says: Mutation -> Option<int>, mutations: seq<Mutation>, first: int, now: int) {
    && now >= first
    && (forall j :: 0 <= j < |mutations| && says(mutations[j]).Some? ==> now >= says(mutations[j]).value)
    && (now == first || exists k :: 0 <= k < |mutations| && says(mutations[k]) == Some(now))
  }

  // --- what each change says of one Session -----------------------------------------------------------

  function RunningIn(id: Key): Mutation -> Option<bool> {
    (m: Mutation) =>
      match m
      case Upsert(summary) => if summary.key == id then Some(summary.value.running) else None
      case Status(x, running, _) => if x == id then Some(running) else None
      case _ => None
  }

  function AvailableIn(id: Key): Mutation -> Option<bool> {
    (m: Mutation) =>
      match m
      case Upsert(summary) => if summary.key == id then Some(summary.value.agentAvailable) else None
      case Status(x, _, available) => if x == id then Some(available) else None
      case _ => None
  }

  function FormatIn(id: Key): Mutation -> Option<Option<string>> {
    (m: Mutation) =>
      match m
      case Upsert(summary) =>
        if summary.key == id && summary.value.formatStatus.Some? then Some(summary.value.formatStatus) else None
      case _ => None
  }

  function ActiveIn(id: Key): Mutation -> Option<int> {
    (m: Mutation) =>
      match m
      case Activity(x, updatedAt) => if x == id then Some(updatedAt) else None
      case _ => None
  }

  /** A summary of the Session, from the Host or as a placeholder. */
  function SummaryIn(m: Mutation, id: Key): Option<Info> {
    match m
    case Upsert(summary) => if summary.key == id then Some(summary.value) else None
    case Placeholder(summary) => if summary.key == id then Some(summary.value) else None
    case _ => None
  }

  function CwdIn(id: Key): Mutation -> Option<string> {
    (m: Mutation) => if SummaryIn(m, id).Some? then SummaryIn(m, id).value.cwd else None
  }

  function ParentIn(id: Key): Mutation -> Option<Key> {
    (m: Mutation) => if SummaryIn(m, id).Some? then SummaryIn(m, id).value.parent else None
  }

  function OriginIn(id: Key): Mutation -> Option<string> {
    (m: Mutation) => if SummaryIn(m, id).Some? then SummaryIn(m, id).value.origin else None
  }

  /** A change after which the Session is not blank. */
  predicate Lowers(m: Mutation, id: Key) {
    match m
    case Upsert(summary) => summary.key == id && !summary.value.blank
    case Placeholder(summary) => summary.key == id && !summary.value.blank
    case Status(x, running, _) => x == id && running
    case Engaged(x) => x == id
    case _ => false
  }

  // --- one change more --------------------------------------------------------------------------------

  lemma LastMore<T(!new)>(says: Mutation -> Option<T>, mutations: seq<Mutation>, m: Mutation, first: T, last: T)
    requires LastSaid(says, mutations, first, last)
    ensures LastSaid(says, mutations + [m], first, if says(m).Some? then says(m).value else last)
  {
    var longer := mutations + [m];
    assert longer[|mutations|] == m && forall j :: 0 <= j < |mutations| ==> longer[j] == mutations[j];
    if says(m).None? && !(last == first && forall j :: 0 <= j < |mutations| ==> says(mutations[j]).None?) {
      var k :| && 0 <= k < |mutations| && says(mutations[k]) == Some(last)
               && forall j :: k < j < |mutations| ==> says(mutations[j]).None?;
      assert says(longer[k]) == Some(last);
    }
  }

  lemma FirstMore<T(!new)>(says: Mutation -> Option<T>, mutations: seq<Mutation>, m: Mutation, known: Option<T>,
      now: Option<T>)
    requires FirstSaid(says, mutations, known, now)
    ensures FirstSaid(says, mutations + [m], known, if now.Some? then now else says(m))
  {
    var longer := mutations + [m];
    assert longer[|mutations|] == m && forall j :: 0 <= j < |mutations| ==> longer[j] == mutations[j];
    if known.None? && now.Some? {
      var k :| && 0 <= k < |mutations| && says(mutations[k]) == now
               && forall j :: 0 <= j < k ==> says(mutations[j]).None?;
      assert says(longer[k]) == now;
    }
  }

  lemma GreatestMore(says: Mutation -> Option<int>, mutations: seq<Mutation>, m: Mutation, first: int, now: int)
    requires Greatest(says, mutations, first, now)
    ensures Greatest(says, mutations + [m], first, if says(m).Some? && says(m).value > now then says(m).value else now)
  {
    var longer := mutations + [m];
    assert longer[|mutations|] == m && forall j :: 0 <= j < |mutations| ==> longer[j] == mutations[j];
    if now != first {
      var k :| 0 <= k < |mutations| && says(mutations[k]) == Some(now);
      assert says(longer[k]) == Some(now);
    }
  }

  /** The fields of a row that was listed all the time. */
  ghost predicate Follows(was: Info, now: Info, id: Key, mutations: seq<Mutation>) {
    && LastSaid(RunningIn(id), mutations, was.running, now.running)
    && LastSaid(AvailableIn(id), mutations, was.agentAvailable, now.agentAvailable)
    && LastSaid(FormatIn(id), mutations, was.formatStatus, now.formatStatus)
    && Greatest(ActiveIn(id), mutations, was.updatedAt, now.updatedAt)
    && FirstSaid(CwdIn(id), mutations, was.cwd, now.cwd)
    && FirstSaid(ParentIn(id), mutations, was.parent, now.parent)
    && FirstSaid(OriginIn(id), mutations, was.origin, now.origin)
    && (now.blank <==> was.blank && forall j :: 0 <= j < |mutations| ==> !Lowers(mutations[j], id))
  }

  lemma FollowsNothing(info: Info, id: Key)
    ensures Follows(info, info, id, [])
  {
  }

  /** A row after one change. */
  function After(now: Info, id: Key, m: Mutation): Info
    requires m != Remove(id)
  {
    if IdOf(m) == id then ApplyRow(Some(now), m).value else now
  }

  /** One change of a row's live state, read off what it says. */
  lemma LiveChange(now: Info, id: Key, m: Mutation)
    requires m != Remove(id)
    ensures var next := After(now, id, m);
            && next.running == (if RunningIn(id)(m).Some? then RunningIn(id)(m).value else now.running)
            && next.agentAvailable
               == (if AvailableIn(id)(m).Some? then AvailableIn(id)(m).value else now.agentAvailable)
  {
  }

  lemma OtherChange(now: Info, id: Key, m: Mutation)
    requires m != Remove(id)
    ensures var next := After(now, id, m);
            && next.formatStatus == (if FormatIn(id)(m).Some? then FormatIn(id)(m).value else now.formatStatus)
            && next.updatedAt == (if ActiveIn(id)(m).Some? && ActiveIn(id)(m).value > now.updatedAt
                                  then ActiveIn(id)(m).value else now.updatedAt)
            && (next.blank <==> now.blank && !Lowers(m, id))
  {
  }

  lemma MetadataChange(now: Info, id: Key, m: Mutation)
    requires m != Remove(id)
    ensures var next := After(now, id, m);
            && next.cwd == (if now.cwd.Some? then now.cwd else CwdIn(id)(m))
            && next.parent == (if now.parent.Some? then now.parent else ParentIn(id)(m))
            && next.origin == (if now.origin.Some? then now.origin else OriginIn(id)(m))
  {
  }

  lemma FollowsOne(was: Info, now: Info, id: Key, mutations: seq<Mutation>, m: Mutation)
    requires Follows(was, now, id, mutations) && m != Remove(id)
    ensures Follows(was, After(now, id, m), id, mutations + [m])
  {
    hide After, ApplyRow, IdOf, Lowers, LastSaid, FirstSaid, Greatest, Follows;
    hide RunningIn, AvailableIn, FormatIn, ActiveIn, CwdIn, ParentIn, OriginIn;
    LiveChange(now, id, m);
    OtherChange(now, id, m);
    MetadataChange(now, id, m);
    var next := After(now, id, m);
    LiveFollows(was, now, next, id, mutations, m);
    MetadataFollows(was, now, next, id, mutations, m);
    BlankFollows(was, now, next, id, mutations, m);
    FollowsAll(was, next, id, mutations + [m]);
  }

  lemma FollowsAll(was: Info, now: Info, id: Key, mutations: seq<Mutation>)
    requires LastSaid(RunningIn(id), mutations, was.running, now.running)
    requires LastSaid(AvailableIn(id), mutations, was.agentAvailable, now.agentAvailable)
    requires LastSaid(FormatIn(id), mutations, was.formatStatus, now.formatStatus)
    requires Greatest(ActiveIn(id), mutations, was.updatedAt, now.updatedAt)
    requires FirstSaid(CwdIn(id), mutations, was.cwd, now.cwd)
    requires FirstSaid(ParentIn(id), mutations, was.parent, now.parent)
    requires FirstSaid(OriginIn(id), mutations, was.origin, now.origin)
    requires now.blank <==> was.blank && forall j :: 0 <= j < |mutations| ==> !Lowers(mutations[j], id)
    ensures Follows(was, now, id, mutations)
  {
    hide LastSaid, FirstSaid, Greatest;
  }

  lemma LiveFollows(was: Info, now: Info, next: Info, id: Key, mutations: seq<Mutation>, m: Mutation)
    requires Follows(was, now, id, mutations)
    requires next.running == if RunningIn(id)(m).Some? then RunningIn(id)(m).value else now.running
    requires next.agentAvailable == if AvailableIn(id)(m).Some? then AvailableIn(id)(m).value else now.agentAvailable
    requires next.formatStatus == if FormatIn(id)(m).Some? then FormatIn(id)(m).value else now.formatStatus
    requires next.updatedAt == if ActiveIn(id)(m).Some? && ActiveIn(id)(m).value > now.updatedAt
                               then ActiveIn(id)(m).value else now.updatedAt
    ensures var longer := mutations + [m];
            && LastSaid(RunningIn(id), longer, was.running, next.running)
            && LastSaid(AvailableIn(id), longer, was.agentAvailable, next.agentAvailable)
            && LastSaid(FormatIn(id), longer, was.formatStatus, next.formatStatus)
            && Greatest(ActiveIn(id), longer, was.updatedAt, next.updatedAt)
  {
    hide LastSaid, FirstSaid, Greatest, Lowers;
    LastMore(RunningIn(id), mutations, m, was.running, now.running);
    LastMore(AvailableIn(id), mutations, m, was.agentAvailable, now.agentAvailable);
    LastMore(FormatIn(id), mutations, m, was.formatStatus, now.formatStatus);
    GreatestMore(ActiveIn(id), mutations, m, was.updatedAt, now.updatedAt);
  }

  lemma MetadataFollows(was: Info, now: Info, next: Info, id: Key, mutations: seq<Mutation>, m: Mutation)
    requires Follows(was, now, id, mutations)
    requires next.cwd == if now.cwd.Some? then now.cwd else CwdIn(id)(m)
    requires next.parent == if now.parent.Some? then now.parent else ParentIn(id)(m)
    requires next.origin == if now.origin.Some? then now.origin else OriginIn(id)(m)
    ensures var longer := mutations + [m];
            && FirstSaid(CwdIn(id), longer, was.cwd, next.cwd)
            && FirstSaid(ParentIn(id), longer, was.parent, next.parent)
            && FirstSaid(OriginIn(id), longer, was.origin, next.origin)
  {
    hide LastSaid, FirstSaid, Greatest, Lowers;
    FirstMore(CwdIn(id), mutations, m, was.cwd, now.cwd);
    FirstMore(ParentIn(id), mutations, m, was.parent, now.parent);
    FirstMore(OriginIn(id), mutations, m, was.origin, now.origin);
  }

  lemma BlankFollows(was: Info, now: Info, next: Info, id: Key, mutations: seq<Mutation>, m: Mutation)
    requires Follows(was, now, id, mutations) && (next.blank <==> now.blank && !Lowers(m, id))
    ensures var longer := mutations + [m];
            next.blank <==> was.blank && forall j :: 0 <= j < |longer| ==> !Lowers(longer[j], id)
  {
    hide LastSaid, FirstSaid, Greatest, Lowers;
    var longer := mutations + [m];
    assert longer[|mutations|] == m && forall j :: 0 <= j < |mutations| ==> longer[j] == mutations[j];
  }

  /**
   Through any changes that do not remove a Session from the list: it runs and has an Agent as was said last, was
   active when that was latest, keeps the first directory, parent and origin known of it, and is blank as long as
   nothing said otherwise.
   */
  lemma {:induction false} FieldsFollow(info: Info, id: Key, mutations: seq<Mutation>)
    requires Remove(id) !in mutations
    ensures var row := ReplayRow(Some(info), id, mutations);
            row.Some? && Follows(info, row.value, id, mutations)
  {
    hide Follows;
    if mutations == [] {
      FollowsNothing(info, id);
    } else {
      var init, m := mutations[..|mutations| - 1], mutations[|mutations| - 1];
      assert mutations == init + [m];
      FieldsFollow(info, id, init);
      FollowsOne(info, ReplayRow(Some(info), id, init).value, id, init, m);
    }
  }

  /** A row appears as its first summary says, and goes with a removal; nothing else lists or unlists a Session. */
  lemma RowsComeAndGo(row: Option<Info>, m: Mutation)
    ensures ApplyRow(row, m).None? <==> m.Remove? || (row.None? && !m.Upsert? && !m.Placeholder?)
    ensures row.None? && (m.Upsert? || m.Placeholder?) ==> ApplyRow(row, m) == Some(m.summary.value)
  {
  }

  // --- where rows are ---------------------------------------------------------------------------------

  function KeysIn(rows: seq<Summary>): seq<Key> {
    seq(|rows|, i requires 0 <= i < |rows| => rows[i].key)
  }

  /** A new row comes first, a removed one leaves its place, and no other change moves a row. */
  lemma RowsKeepPlace(summaries: seq<Summary>, m: Mutation)
    requires DistinctKeys(summaries)
    ensures var p, after := Place(summaries, IdOf(m)), ApplyMutation(summaries, m);
            match m
            case Remove(_) => after == if p < |summaries| then summaries[..p] + summaries[p + 1..] else summaries
            case Upsert(summary) => KeysIn(after) == (if p < |summaries| then [] else [summary.key]) + KeysIn(summaries)
            case Placeholder(summary) =>
              KeysIn(after) == (if p < |summaries| then [] else [summary.key]) + KeysIn(summaries)
            case _ => KeysIn(after) == KeysIn(summaries)
  {
    hide Change, Without;
    match m
    case Remove(id) => WithoutOne(summaries, id);
    case Upsert(summary) => MergedKeys(summaries, summary, true);
    case Placeholder(summary) => MergedKeys(summaries, summary, false);
    case Status(id, running, available) =>
      var p := Place(summaries, id);
      if p < |summaries| {
        ChangedKeys(summaries, id, WithStatus(summaries[p].value, running, available));
      }
    case Activity(id, updatedAt) =>
      var p := Place(summaries, id);
      if p < |summaries| {
        ChangedKeys(summaries, id, summaries[p].value.(updatedAt := updatedAt));
      }
    case Engaged(id) =>
      var p := Place(summaries, id);
      if p < |summaries| {
        ChangedKeys(summaries, id, summaries[p].value.(blank := false));
      }
  }

  lemma MergedKeys(summaries: seq<Summary>, summary: Summary, live: bool)
    requires DistinctKeys(summaries)
    ensures var p := Place(summaries, summary.key);
            KeysIn(Merged(summaries, summary, live))
            == (if p < |summaries| then [] else [summary.key]) + KeysIn(summaries)
  {
    hide Change, Filled, KeysIn, Place, DistinctKeys;
    var p := Place(summaries, summary.key);
    if p < |summaries| {
      ChangedKeys(summaries, summary.key, Filled(summaries[p].value, summary.value, live));
    } else {
      ConsKeys(summary, summaries);
    }
  }

  lemma ConsKeys(first: Summary, rest: seq<Summary>)
    ensures KeysIn([first] + rest) == [first.key] + KeysIn(rest)
  {
  }

  lemma ChangedKeys(summaries: seq<Summary>, id: Key, info: Info)
    requires DistinctKeys(summaries)
    ensures KeysIn(Change(summaries, id, info)) == KeysIn(summaries)
  {
    ChangeRows(summaries, id, info);
  }

  lemma {:induction false} WithoutOne(summaries: seq<Summary>, id: Key)
    requires DistinctKeys(summaries)
    ensures var p := Place(summaries, id);
            Without(summaries, id) == if p < |summaries| then summaries[..p] + summaries[p + 1..] else summaries
  {
    hide Place;
    PlaceOf(summaries, id);
    if summaries != [] {
      var rest := summaries[1..];
      TailDistinct(summaries);
      WithoutOne(rest, id);
      if summaries[0].key == id {
        NotBehind(summaries, id);
        assert summaries[..0] + summaries[1..] == rest;
      } else {
        var p := Place(rest, id);
        if p < |rest| {
          assert [summaries[0]] + (rest[..p] + rest[p + 1..]) == summaries[..p + 1] + summaries[p + 2..];
        } else {
          assert [summaries[0]] + rest == summaries;
        }
      }
    }
  }

  lemma PlaceOf(summaries: seq<Summary>, id: Key)
    ensures Place(summaries, id)
            == if summaries == [] || summaries[0].key == id then 0 else 1 + Place(summaries[1..], id)
  {
  }

  lemma TailDistinct(summaries: seq<Summary>)
    requires DistinctKeys(summaries) && summaries != []
    ensures DistinctKeys(summaries[1..])
  {
  }

  lemma NotBehind(summaries: seq<Summary>, id: Key)
    requires DistinctKeys(summaries) && summaries != [] && summaries[0].key == id
    ensures Place(summaries[1..], id) == |summaries| - 1
  {
    assert forall i :: 0 <= i < |summaries| - 1 ==> summaries[1..][i].key != id;
  }
}
