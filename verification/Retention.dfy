/** Reference-counted client scopes: one generation per retained Session, released reference by reference. */
module Retention {
  type SessionId = string

  /** How often a scope is retained, in all and by source. */
  datatype RetainInfo = RetainInfo(referenceCount: nat, retainedBy: map<string, nat>)

  const EMPTY_RETAIN_INFO := RetainInfo(0, map[])

  ghost function Sum(counts: map<string, nat>): nat {
    if counts == map[] then 0
    else
      var source :| source in counts;
      counts[source] + Sum(counts - {source})
  }

  /** The sum does not depend on the order of the sources. */
  lemma {:induction false} SumWithout(counts: map<string, nat>, source: string)
    requires source in counts
    ensures Sum(counts) == counts[source] + Sum(counts - {source})
    decreases |counts|
  {
    var first :| first in counts && Sum(counts) == counts[first] + Sum(counts - {first});
    if first != source {
      SumWithout(counts - {first}, source);
      SumWithout(counts - {source}, first);
      assert counts - {first} - {source} == counts - {source} - {first};
    }
  }

  lemma SumChanged(counts: map<string, nat>, source: string, n: nat)
    ensures Sum(counts[source := n]) == Sum(counts - {source}) + n
    ensures Sum(counts) == Sum(counts - {source}) + if source in counts then counts[source] else 0
  {
    SumWithout(counts[source := n], source);
    assert counts[source := n] - {source} == counts - {source};
    if source in counts {
      SumWithout(counts, source);
    } else {
      assert counts - {source} == counts;
    }
  }

  class Reference {
    const record: ScopeRecord
    const source: string
    var held: bool // until its one release

    constructor (record: ScopeRecord, source: string)
      ensures this.record == record && this.source == source && held
    {
      this.record, this.source, held := record, source, true;
    }
  }

  function SourceCount(info: RetainInfo, source: string): nat {
    if source in info.retainedBy then info.retainedBy[source] else 0
  }

  /** The holders a source has. */
  ghost function By(holders: set<Reference>, source: string): set<Reference> {
    set h | h in holders && h.source == source
  }

  /** The counts are those of the holders, in all and by source, and add up. */
  ghost predicate Tallied(info: RetainInfo, holders: set<Reference>) {
    && info.referenceCount == |holders| == Sum(info.retainedBy)
    && forall source :: TalliedFor(info, holders, source)
  }

  ghost predicate TalliedFor(info: RetainInfo, holders: set<Reference>, source: string) {
    (source in info.retainedBy <==> By(holders, source) != {}) && SourceCount(info, source) == |By(holders, source)|
  }

  lemma NothingTallied(none: set<Reference>)
    requires none == {}
    ensures Tallied(EMPTY_RETAIN_INFO, none)
  {
  }

  lemma ByAdded(holders: set<Reference>, reference: Reference, source: string)
    requires reference !in holders
    ensures By(holders + {reference}, source)
            == By(holders, source) + if source == reference.source then {reference} else {}
    ensures reference !in By(holders, source)
  {
  }

  lemma TallyAdded(info: RetainInfo, holders: set<Reference>, reference: Reference)
    requires Tallied(info, holders) && reference !in holders
    ensures Tallied(
              RetainInfo(info.referenceCount + 1,
                         info.retainedBy[reference.source := SourceCount(info, reference.source) + 1]),
              holders + {reference})
  {
    hide Sum, By, TalliedFor;
    var after := RetainInfo(info.referenceCount + 1,
                            info.retainedBy[reference.source := SourceCount(info, reference.source) + 1]);
    SumChanged(info.retainedBy, reference.source, SourceCount(info, reference.source) + 1);
    forall source
      ensures TalliedFor(after, holders + {reference}, source)
    {
      assert TalliedFor(info, holders, source);
      AddedFor(info, holders, reference, source);
    }
  }

  lemma AddedFor(info: RetainInfo, holders: set<Reference>, reference: Reference, source: string)
    requires TalliedFor(info, holders, source) && reference !in holders
    ensures TalliedFor(
              RetainInfo(info.referenceCount + 1,
                         info.retainedBy[reference.source := SourceCount(info, reference.source) + 1]),
              holders + {reference}, source)
  {
    ByAdded(holders, reference, source);
  }

  /** What a source's counts become when one of its references goes. */
  function Fewer(info: RetainInfo, source: string): map<string, nat>
    requires SourceCount(info, source) > 0
  {
    var n := SourceCount(info, source);
    if n > 1 then info.retainedBy[source := n - 1] else info.retainedBy - {source}
  }

  lemma SubtractedFor(info: RetainInfo, holders: set<Reference>, reference: Reference, source: string)
    requires TalliedFor(info, holders, source) && reference in holders && SourceCount(info, reference.source) > 0
    requires info.referenceCount > 0
    ensures TalliedFor(RetainInfo(info.referenceCount - 1, Fewer(info, reference.source)), holders - {reference},
            source)
  {
    assert holders == (holders - {reference}) + {reference};
    ByAdded(holders - {reference}, reference, source);
  }

  lemma TallySubtracted(info: RetainInfo, holders: set<Reference>, reference: Reference)
    requires Tallied(info, holders) && reference in holders
    ensures SourceCount(info, reference.source) > 0 && info.referenceCount > 0
    ensures Tallied(RetainInfo(info.referenceCount - 1, Fewer(info, reference.source)), holders - {reference})
    ensures info.referenceCount == 1 <==> holders - {reference} == {}
  {
    hide Sum, By, TalliedFor;
    assert SourceCount(info, reference.source) > 0 by {
      assert TalliedFor(info, holders, reference.source);
      Present(info, holders, reference);
    }
    assert |holders - {reference}| == |holders| - 1;
    var after, rest := RetainInfo(info.referenceCount - 1, Fewer(info, reference.source)), holders - {reference};
    forall source
      ensures TalliedFor(after, rest, source)
    {
      assert TalliedFor(info, holders, source);
      SubtractedFor(info, holders, reference, source);
    }
    SumChanged(info.retainedBy, reference.source, SourceCount(info, reference.source) - 1);
  }

  lemma Present(info: RetainInfo, holders: set<Reference>, reference: Reference)
    requires TalliedFor(info, holders, reference.source) && reference in holders
    ensures SourceCount(info, reference.source) > 0
  {
    assert reference in By(holders, reference.source);
  }

  /** One generation of a Session scope. */
  class ScopeRecord {
    const id: SessionId
    var retention: RetainInfo
    var live: bool
    ghost var holders: set<Reference> // references that were not released while the scope lived

    constructor (id: SessionId)
      ensures this.id == id && retention == EMPTY_RETAIN_INFO && live && holders == {} && Counts()
    {
      this.id, retention, live, holders := id, EMPTY_RETAIN_INFO, true, {};
      new;
      NothingTallied({});
    }

    ghost predicate Counts()
      reads this`retention, this`holders
    {
      Tallied(retention, holders)
    }

    /** Holders are unreleased references to this scope. */
    ghost predicate Holds()
      reads this`holders, holders`held
    {
      forall h <- holders :: h.record == this && h.held
    }

    method Add(reference: Reference)
      requires Counts() && reference !in holders
      modifies this`retention, this`holders
      ensures Counts() && holders == old(holders) + {reference}
    {
      TallyAdded(retention, holders, reference);
      retention := RetainInfo(
        retention.referenceCount + 1,
        retention.retainedBy[reference.source := SourceCount(retention, reference.source) + 1]);
      holders := holders + {reference};
    }

    method Subtract(reference: Reference)
      requires Counts() && reference in holders
      modifies this`retention, this`holders
      ensures Counts() && holders == old(holders) - {reference} && (holders == {} ==> retention == EMPTY_RETAIN_INFO)
      ensures retention.referenceCount == 0 <==> holders == {}
    {
      TallySubtracted(retention, holders, reference);
      NothingTallied({});
      var count := retention.referenceCount - 1;
      var retainedBy := Fewer(retention, reference.source);
      holders := holders - {reference};
      retention := if count == 0 then EMPTY_RETAIN_INFO else RetainInfo(count, retainedBy);
    }
  }

  class ClientSessions {
    var scopes: map<SessionId, ScopeRecord>
    ghost var records: set<ScopeRecord>
    ghost var references: set<Reference>

    /** A scope exists exactly while its count is positive, and its count is that of its unreleased references. */
    ghost predicate Valid()
      reads this`scopes, this`records, this`references, records, references`held
    {
      Sound() && forall id <- scopes :: scopes[id].holders != {}
    }

    ghost predicate Sound()
      reads this`scopes, this`records, this`references, records, references`held
    {
      && (forall id <- scopes :: scopes[id] in records && scopes[id].id == id && scopes[id].live)
      && (forall r <- records :: r.live ==>
        r.id in scopes && scopes[r.id] == r && r.Counts() && r.holders <= references && r.Holds())
      && (forall h <- references :: h.record in records && (h.held && h.record.live ==> h in h.record.holders))
    }

    /** What a live scope's retention says, in terms of references alone. */
    lemma RetentionCounts(id: SessionId)
      requires Valid() && id in scopes
      ensures var held := set h | h in references && h.held && h.record == scopes[id];
              && scopes[id].retention.referenceCount == |held| > 0
              && Sum(scopes[id].retention.retainedBy) == |held|
              && forall source :: SourceCount(scopes[id].retention, source) == |set h | h in held && h.source == source|
    {
      var r := scopes[id];
      var held := set h | h in references && h.held && h.record == r;
      assert held == r.holders;
      forall source
        ensures SourceCount(r.retention, source) == |set h | h in held && h.source == source|
      {
        assert TalliedFor(r.retention, r.holders, source);
        assert (set h | h in held && h.source == source) == By(r.holders, source);
      }
    }

    constructor ()
      ensures Valid() && scopes == map[] && records == {} && references == {}
    {
      scopes, records, references := map[], {}, {};
    }

    /** Start a new generation. */
    method MaterializeScope(id: SessionId) returns (record: ScopeRecord)
      requires Sound() && id !in scopes
      modifies this`scopes, this`records
      ensures Sound() && fresh(record) && record.id == id && record.live && record.holders == {}
      ensures scopes == old(scopes)[id := record] && records == old(records) + {record}
    {
      hide ScopeRecord.Counts;
      record := new ScopeRecord(id);
      scopes := scopes[id := record];
      records := records + {record};
    }

    /** Give a live scope one more reference. */
    method Refer(record: ScopeRecord, source: string) returns (reference: Reference)
      requires Sound() && record in records && record.live
      modifies this`references, record`retention, record`holders
      ensures Sound() && fresh(reference) && reference.held && reference.source == source && reference.record == record
      ensures references == old(references) + {reference} && record.holders == old(record.holders) + {reference}
    {
      hide ScopeRecord.Counts, ScopeRecord.Holds;
      reference := new Reference(record, source);
      Attach(record, reference);
      references := references + {reference};
    }

    method Attach(record: ScopeRecord, reference: Reference)
      requires Sound() && record in records && record.live && reference !in references
      requires reference.record == record && reference.held
      modifies record`retention, record`holders
      ensures record.holders == old(record.holders) + {reference} && record.Counts() && record.Holds()
    {
      hide ScopeRecord.Counts;
      record.Add(reference);
    }

    /** Retain a Session's scope, making a new generation when none lives. */
    method RetainScope(id: SessionId, source: string) returns (reference: Reference)
      requires Valid()
      modifies this, records
      ensures Valid() && fresh(reference) && reference.held && reference.source == source && reference.record.id == id
      ensures references == old(references) + {reference} && id in scopes && reference.record == scopes[id]
      ensures id in old(scopes) ==> scopes == old(scopes) && scopes[id].holders == old(scopes[id].holders) + {reference}
      ensures id !in old(scopes) ==> fresh(scopes[id]) && scopes == old(scopes)[id := scopes[id]]
                                     && scopes[id].holders == {reference}
      ensures forall r <- old(records) :: r != scopes[id] ==> unchanged(r)
    {
      hide ScopeRecord.Counts, ScopeRecord.Holds;
      var record;
      if id in scopes {
        record := scopes[id];
      } else {
        record := MaterializeScope(id);
      }
      reference := Refer(record, source);
    }

    /** Give up one reference; a second release, or one of an ended generation, does nothing else. */
    method Release(reference: Reference)
      requires Valid() && reference in references
      modifies this`scopes, reference`held, reference.record
      ensures Valid() && !reference.held
      ensures !old(reference.held) || !old(reference.record.live) ==>
              scopes == old(scopes) && unchanged(reference.record)
      ensures old(reference.held) && old(reference.record.live) ==>
                && reference.record.holders == old(reference.record.holders) - {reference}
                && (reference.record.live <==> reference.record.holders != {})
                && scopes == if reference.record.live then old(scopes) else old(scopes) - {reference.record.id}
    {
      hide ScopeRecord.Counts, ScopeRecord.Holds;
      if !reference.held {
        return;
      }
      var record := reference.record;
      if !record.live {
        ReleaseEnded(reference);
        return;
      }
      Detach(reference);
      if record.retention.referenceCount == 0 {
        RetireScope(record);
      }
    }

    method ReleaseEnded(reference: Reference)
      requires Sound() && reference in references && !reference.record.live
      modifies reference`held
      ensures Sound() && !reference.held
    {
      hide ScopeRecord.Counts;
      reference.held := false;
    }

    method Detach(reference: Reference)
      requires Sound() && reference in references && reference.held && reference.record.live
      modifies reference`held, reference.record`retention, reference.record`holders
      ensures Sound() && !reference.held && reference.record.holders == old(reference.record.holders) - {reference}
      ensures reference.record.retention.referenceCount == 0 <==> reference.record.holders == {}
    {
      hide ScopeRecord.Counts;
      reference.held := false;
      reference.record.Subtract(reference);
    }

    /** The scope's own context ends: the generation is over, whoever still refers to it. */
    method RetireScope(record: ScopeRecord)
      requires Sound() && record in records
      modifies this`scopes, record`live
      ensures Sound() && !record.live
      ensures scopes == if old(record.live) then old(scopes) - {record.id} else old(scopes)
    {
      hide ScopeRecord.Counts, ScopeRecord.Holds;
      if !record.live {
        return;
      }
      record.live := false;
      if record.id in scopes && scopes[record.id] == record {
        scopes := scopes - {record.id};
      }
    }
  }
}
