/** What storing one judge's record whole does to a registry, whatever was stored
    since the record was read (upsert_agent in epimemer/storage/protocol.py). */
module RegistryWrites {
  import opened Options
  import opened AgentRegistry

  /** A record a call can have prepared: what it answers for is on record. */
  ghost predicate Sound(agents: seq<Agent>, record: Agent) {
    FormersOf(agents, record) && (Recorded(agents, record.id) || record.formerIds == [])
  }

  /** The ids `record` answers for and the stored one does not. */
  function Gained(stored: Agent, record: Agent): set<Id> { Former(record) - Former(stored) }

  /** Nothing its judge said or answers for since is missing from the record, and
      where the judge is live the record takes over whole judges at most and a
      name nobody else has; where it was absorbed the record gains no live judge
      and says nothing its absorber does not. */
  ghost predicate Fits(agents: seq<Agent>, record: Agent) {
    match WithId(agents, record.id)
    case None => forall x :: IsLive(agents, x) ==> Fold(AgentName(x)) != Fold(AgentName(record))
    case Some(stored) =>
      && Says(record, stored)
      && (if IsLive(agents, stored) then TakesOver(agents, stored, record, Gained(stored, record))
          else AddsNothing(agents, record, Gained(stored, record)))
  }

  ghost predicate AddsNothing(agents: seq<Agent>, record: Agent, gained: set<Id>) {
    forall x :: IsLive(agents, x) ==>
                  x.id !in gained && (record.id in Aliases(x) ==> Digests(record.descriptions) <= Digests(x.descriptions))
  }

  /** Storing a record keeps the registry in order and loses nothing exactly when
      the record fits what is stored by then. */
  lemma {:induction false} AStoredRecordKeepsIff(agents: seq<Agent>, record: Agent)
    requires Invariant(agents) && Sound(agents, record)
    ensures Invariant(Upsert(agents, record)) && Grows(agents, Upsert(agents, record)) <==> Fits(agents, record)
  {
    hide Invariant, Upsert, TakesOver, AddsNothing, Grows, FormersOf, IsLive, Says, WithId, Gained, Recorded;
    StoredUnder(agents, record.id);
    match WithId(agents, record.id)
    case None =>
      NewRecordKeepsIff(agents, record);
    case Some(stored) =>
      GrowingIsSaying(agents, record, stored);
      if Says(record, stored) {
        if IsLive(agents, stored) {
          LiveRecordKeepsIff(agents, stored, record);
        } else {
          AbsorbedRecordKeepsIff(agents, stored, record);
        }
      }
  }

  lemma {:induction false} StoredUnder(agents: seq<Agent>, id: Id)
    ensures WithId(agents, id).None? <==> !Recorded(agents, id)
    ensures WithId(agents, id).Some? ==> WithId(agents, id).value in agents && WithId(agents, id).value.id == id
  {
    Lookups(agents, id);
    hide WithId;
  }

  lemma {:induction false} NewRecordKeepsIff(agents: seq<Agent>, record: Agent)
    requires Invariant(agents) && !Recorded(agents, record.id) && record.formerIds == []
    ensures Invariant(Upsert(agents, record)) && Grows(agents, Upsert(agents, record))
            <==> forall x :: IsLive(agents, x) ==> Fold(AgentName(x)) != Fold(AgentName(record))
  {
    hide Upsert, Partition, Readable, Grows, IsLive, Fold, AgentName, Recorded;
    var after := Upsert(agents, record);
    NewIsLive(agents, record);
    if forall x :: IsLive(agents, x) ==> Fold(AgentName(x)) != Fold(AgentName(record)) {
      hide UniqueNames;
      AddingAJudge(agents, record);
    }
    if Invariant(after) {
      forall x | IsLive(agents, x) ensures Fold(AgentName(x)) != Fold(AgentName(record)) {
        LiveIsRecorded(agents, x);
        assert x != record;
      }
    }
  }

  lemma {:induction false} NewIsLive(agents: seq<Agent>, record: Agent)
    requires Invariant(agents) && !Recorded(agents, record.id) && record.formerIds == []
    ensures forall x :: IsLive(Upsert(agents, record), x) <==> x == record || IsLive(agents, x)
  {
    hide Upsert, IsLive, Disjoint, Covered, UniqueNames, Readable, FormersRecorded, UniqueIds;
    UpsertHolds(agents, record);
    LiveWith(agents, Upsert(agents, record), record);
  }

  /** What is stored under the record's id is the only thing it can lose. */
  lemma {:induction false} GrowingIsSaying(agents: seq<Agent>, record: Agent, stored: Agent)
    requires Invariant(agents) && stored in agents && stored.id == record.id
    ensures Grows(agents, Upsert(agents, record)) <==> Says(record, stored)
  {
    hide FormersRecorded, Disjoint, Covered, UniqueNames, Readable;
    var after := Upsert(agents, record);
    UpsertHolds(agents, record);
    IdsTell(agents, stored);
    hide Upsert, UniqueIds;
    SaysItself();
    hide Says;
    if Says(record, stored) {
      forall r | r in agents ensures GrownTo(after, r) {
        assert (if r.id == record.id then record else r) in after;
      }
    }
    if Grows(agents, after) {
      assert GrownTo(after, stored);
    }
  }

  lemma {:induction false} SaysItself()
    ensures forall r :: Says(r, r)
  {}

  lemma {:induction false} LiveRecordKeepsIff(agents: seq<Agent>, stored: Agent, record: Agent)
    requires Invariant(agents) && Sound(agents, record) && IsLive(agents, stored) && stored.id == record.id
    requires Says(record, stored)
    ensures Invariant(Upsert(agents, record)) && Grows(agents, Upsert(agents, record))
            <==> TakesOver(agents, stored, record, Gained(stored, record))
  {
    var after, gained := Upsert(agents, record), Gained(stored, record);
    hide *;
    if TakesOver(agents, stored, record, gained) {
      TakingOver(agents, stored, record, gained);
    }
    if Invariant(after) {
      KeepingTakesOver(agents, stored, record);
    }
  }

  lemma {:induction false} KeepingTakesOver(agents: seq<Agent>, stored: Agent, record: Agent)
    requires Invariant(agents) && Sound(agents, record) && IsLive(agents, stored) && stored.id == record.id
    requires Says(record, stored) && Invariant(Upsert(agents, record))
    ensures TakesOver(agents, stored, record, Gained(stored, record))
  {
    var after, gained := Upsert(agents, record), Gained(stored, record);
    assert record.id !in record.formerIds;
    SaysMore(record, stored);
    Split(agents);
    Split(after);
    hide *;
    LiveRecordReplaced(agents, stored, record, gained);
    GainsAreWhole(agents, after, stored, record, gained);
    GainsAreSaid(agents, after, stored, record, gained);
    NameIsFree(agents, after, stored, record, gained);
    ThatTakesOver(agents, stored, record, gained);
  }

  lemma {:induction false} LiveIsSound(agents: seq<Agent>, a: Agent)
    requires FormersRecorded(agents) && IsLive(agents, a)
    ensures FormersOf(agents, a)
  {}

  lemma {:induction false} Split(agents: seq<Agent>)
    requires Invariant(agents)
    ensures UniqueIds(agents) && FormersRecorded(agents) && Disjoint(agents) && Covered(agents)
    ensures UniqueNames(agents) && Readable(agents)
  {}

  lemma {:induction false} ThatTakesOver(agents: seq<Agent>, a: Agent, now: Agent, gained: set<Id>)
    requires IsLive(agents, a) && now.id == a.id && Former(now) == Former(a) + gained && Whole(agents, a, gained)
    requires Digests(a.descriptions) <= Digests(now.descriptions)
    requires forall r :: r in agents && r.id in gained ==> Digests(r.descriptions) <= Digests(now.descriptions)
    requires forall x :: IsLive(agents, x) && x != a && x.id !in gained ==> Fold(AgentName(x)) != Fold(AgentName(now))
    ensures TakesOver(agents, a, now, gained)
  {
    hide IsLive, Whole, Fold, AgentName, Digests, Former;
  }

  lemma {:induction false} SaysMore(s: Agent, r: Agent)
    requires Says(s, r)
    ensures Digests(r.descriptions) <= Digests(s.descriptions)
    ensures Former(s) == Former(r) + Gained(r, s) && Gained(r, s) == Former(s) - Former(r)
  {}

  lemma {:induction false} LiveRecordReplaced(agents: seq<Agent>, a: Agent, now: Agent, gained: set<Id>)
    requires UniqueIds(agents) && Sound(agents, now) && IsLive(agents, a) && now.id == a.id
    requires Former(now) == Former(a) + gained
    ensures Replaced(agents, Upsert(agents, now), a, now, gained)
  {
    assert a in agents;
    assert now.id !in Former(now);
    hide Upsert, IsLive, UniqueIds, FormersOf, Former;
    LiveAfter(agents, a, now, gained);
    UpsertHolds(agents, now);
    IdsTell(agents, a);
    forall x | IsLive(Upsert(agents, now), x) && x != now ensures IsLive(agents, x) && x.id != a.id && x.id !in gained {}
  }

  lemma {:induction false} GainsAreWhole(agents: seq<Agent>, after: seq<Agent>, a: Agent, now: Agent, gained: set<Id>)
    requires Replaced(agents, after, a, now, gained) && Disjoint(agents) && Disjoint(after) && Covered(after)
    requires FormersRecorded(agents) && Sound(agents, now) && IsLive(agents, a) && now.id == a.id
    requires Former(now) == Former(a) + gained && gained == Former(now) - Former(a)
    ensures Whole(agents, a, gained)
  {
    hide IsLive, UniqueIds, Disjoint, Covered, FormersRecorded;
    assert gained !! Aliases(a);
    forall f | f in gained ensures Recorded(agents, f) {
      assert f in Former(now);
    }
    forall x | IsLive(agents, x) && x.id !in gained ensures Aliases(x) !! gained {
      NotTheirs(agents, after, a, now, gained, x);
    }
    forall x | IsLive(agents, x) && x.id in gained ensures Aliases(x) <= gained {
      AllOfThem(agents, after, a, now, gained, x);
    }
  }

  lemma {:induction false} NotTheirs(agents: seq<Agent>, after: seq<Agent>, a: Agent, now: Agent, gained: set<Id>,
          x: Agent)
    requires Replaced(agents, after, a, now, gained) && Disjoint(after) && now.id == a.id
    requires Former(now) == Former(a) + gained && gained !! Aliases(a)
    requires IsLive(agents, x) && x.id !in gained
    ensures Aliases(x) !! gained
  {
    LiveIsRecorded(agents, x);
    hide IsLive, UniqueIds;
    if x.id != a.id {
      assert IsLive(after, x) && IsLive(after, now) && x != now;
      assert gained <= Aliases(now);
    } else {
      assert x == a;
    }
  }

  lemma {:induction false} AllOfThem(agents: seq<Agent>, after: seq<Agent>, a: Agent, now: Agent, gained: set<Id>,
          x: Agent)
    requires Replaced(agents, after, a, now, gained) && Disjoint(agents) && Covered(after) && IsLive(agents, a)
    requires FormersRecorded(agents) && now.id == a.id && Former(now) == Former(a) + gained && gained !! Aliases(a)
    requires IsLive(agents, x) && x.id in gained
    ensures Aliases(x) <= gained
  {
    hide *;
    LiveIsRecorded(agents, x);
    LiveIsSound(agents, x);
    NotTheGainer(agents, a, gained, x);
    forall f | f in Aliases(x) ensures f in gained {
      RecordedAlias(agents, x, f);
      StillRecorded(agents, after, a, now, gained, f);
      var y :| IsLive(after, y) && f in Aliases(y);
      if y == now {
        OneOf(a, now, gained, f);
      } else {
        TheirOwn(agents, after, a, now, gained, x, y, f);
      }
    }
  }

  lemma {:induction false} NotTheGainer(agents: seq<Agent>, a: Agent, gained: set<Id>, x: Agent)
    requires Disjoint(agents) && IsLive(agents, a) && IsLive(agents, x) && x.id in gained && gained !! Aliases(a)
    ensures Aliases(x) !! Aliases(a)
  {
    hide IsLive;
    assert a.id in Aliases(a);
  }

  lemma {:induction false} TheirOwn(agents: seq<Agent>, after: seq<Agent>, a: Agent, now: Agent, gained: set<Id>,
          x: Agent, y: Agent, f: Id)
    requires Replaced(agents, after, a, now, gained) && Disjoint(agents) && IsLive(agents, x) && IsLive(after, y)
    requires y != now && f in Aliases(x) && f in Aliases(y)
    ensures x.id !in gained
  {
    hide IsLive, Aliases, UniqueIds;
  }

  lemma {:induction false} RecordedAlias(agents: seq<Agent>, x: Agent, f: Id)
    requires FormersOf(agents, x) && Recorded(agents, x.id) && f in Aliases(x)
    ensures Recorded(agents, f)
  {
    hide Recorded;
  }

  lemma {:induction false} OneOf(a: Agent, now: Agent, gained: set<Id>, f: Id)
    requires now.id == a.id && Former(now) == Former(a) + gained && f in Aliases(now) && f !in Aliases(a)
    ensures f in gained
  {}

  lemma {:induction false} StillRecorded(agents: seq<Agent>, after: seq<Agent>, a: Agent, now: Agent, gained: set<Id>, f: Id)
    requires Replaced(agents, after, a, now, gained) && now.id == a.id && Recorded(agents, f) && Covered(after)
    ensures exists y :: IsLive(after, y) && f in Aliases(y)
  {
    hide IsLive, UniqueIds;
    var r :| r in agents && r.id == f;
    assert (if f == a.id then now else r) in after;
    assert Answered(after, f);
  }

  lemma {:induction false} GainsAreSaid(agents: seq<Agent>, after: seq<Agent>, a: Agent, now: Agent, gained: set<Id>)
    requires Replaced(agents, after, a, now, gained) && Readable(after) && now.id == a.id && now.id !in now.formerIds
    requires Former(now) == Former(a) + gained
    ensures forall r :: r in agents && r.id in gained ==> Digests(r.descriptions) <= Digests(now.descriptions)
  {
    hide IsLive, UniqueIds, Digests;
    forall r | r in agents && r.id in gained ensures Digests(r.descriptions) <= Digests(now.descriptions) {
      assert r in after && IsLive(after, now) && r.id in Aliases(now);
    }
  }

  lemma {:induction false} NameIsFree(agents: seq<Agent>, after: seq<Agent>, a: Agent, now: Agent, gained: set<Id>)
    requires Replaced(agents, after, a, now, gained) && UniqueNames(after) && now.id == a.id
    ensures forall x :: IsLive(agents, x) && x != a && x.id !in gained ==> Fold(AgentName(x)) != Fold(AgentName(now))
  {
    forall x | IsLive(agents, x) ensures x in agents {
      LiveIsRecorded(agents, x);
    }
    hide IsLive, UniqueIds, Fold, AgentName;
    forall x | IsLive(agents, x) && x != a && x.id !in gained ensures Fold(AgentName(x)) != Fold(AgentName(now)) {
      assert x.id != a.id && IsLive(after, x) && IsLive(after, now) && x != now;
    }
  }

  /** The record of a judge that was absorbed: who is live does not change, but
      for the ids it gains. */
  lemma {:induction false} AbsorbedRecordKeepsIff(agents: seq<Agent>, stored: Agent, record: Agent)
    requires Invariant(agents) && Sound(agents, record) && stored in agents && !IsLive(agents, stored)
    requires stored.id == record.id && Says(record, stored)
    ensures Invariant(Upsert(agents, record)) && Grows(agents, Upsert(agents, record))
            <==> AddsNothing(agents, record, Gained(stored, record))
  {
    var after, gained := Upsert(agents, record), Gained(stored, record);
    assert FormersOf(agents, record);
    SaysMore(record, stored);
    Split(agents);
    hide *;
    GrowingIsSaying(agents, record, stored);
    DeadRecordReplaced(agents, stored, record, gained);
    if AddsNothing(agents, record, gained) {
      LiveStaysSame(agents, after, record, gained);
      SameLiveKeeps(agents, after, record, gained);
    }
    if Invariant(after) {
      Split(after);
      NobodyLiveGained(agents, after, record, gained);
    }
  }

  ghost predicate ReplacedDead(agents: seq<Agent>, after: seq<Agent>, now: Agent, gained: set<Id>) {
    && UniqueIds(after) && Recorded(agents, now.id)
    && (forall x :: x in after <==> x == now || (x in agents && x.id != now.id))
    && (forall x :: IsLive(agents, x) ==> x in agents && x.id != now.id)
    && (forall x :: IsLive(after, x) <==> IsLive(agents, x) && x.id !in gained)
  }

  lemma {:induction false} DeadRecordReplaced(agents: seq<Agent>, a: Agent, now: Agent, gained: set<Id>)
    requires UniqueIds(agents) && Sound(agents, now) && a in agents && !IsLive(agents, a) && now.id == a.id
    requires Former(now) == Former(a) + gained
    ensures ReplacedDead(agents, Upsert(agents, now), now, gained)
  {
    assert now.id !in Former(now);
    forall x | IsLive(agents, x) ensures x in agents {
      LiveIsRecorded(agents, x);
    }
    assert Recorded(agents, now.id);
    hide Upsert, IsLive, UniqueIds, FormersOf, Former;
    LiveAfter(agents, a, now, gained);
    UpsertHolds(agents, now);
    IdsTell(agents, a);
  }

  lemma {:induction false} LiveStaysSame(agents: seq<Agent>, after: seq<Agent>, now: Agent, gained: set<Id>)
    requires ReplacedDead(agents, after, now, gained) && AddsNothing(agents, now, gained)
    ensures forall x :: IsLive(after, x) <==> IsLive(agents, x)
  {
    hide IsLive, UniqueIds, Digests, Aliases;
  }

  lemma {:induction false} SameLiveKeeps(agents: seq<Agent>, after: seq<Agent>, now: Agent, gained: set<Id>)
    requires Invariant(agents) && ReplacedDead(agents, after, now, gained) && AddsNothing(agents, now, gained)
    requires FormersOf(agents, now) && forall x :: IsLive(after, x) <==> IsLive(agents, x)
    ensures Invariant(after)
  {
    hide IsLive, FormersRecorded, Covered, Readable, FormersOf, Recorded, Aliases, Fold, AgentName, AddsNothing;
    SameLiveFormers(agents, after, now, gained);
    SameLiveCovered(agents, after, now, gained);
    SameLiveReadable(agents, after, now, gained);
  }

  lemma {:induction false} SameLiveFormers(agents: seq<Agent>, after: seq<Agent>, now: Agent, gained: set<Id>)
    requires FormersRecorded(agents) && ReplacedDead(agents, after, now, gained) && FormersOf(agents, now)
    ensures FormersRecorded(after)
  {
    hide IsLive, UniqueIds;
    forall f | Recorded(agents, f) ensures Recorded(after, f) {
      var r :| r in agents && r.id == f;
      assert (if f == now.id then now else r) in after;
    }
    hide Recorded;
    forall x | x in after ensures FormersOf(after, x) {
      assert FormersOf(agents, x);
    }
  }

  lemma {:induction false} SameLiveCovered(agents: seq<Agent>, after: seq<Agent>, now: Agent, gained: set<Id>)
    requires Covered(agents) && ReplacedDead(agents, after, now, gained)
    requires forall x :: IsLive(after, x) <==> IsLive(agents, x)
    ensures Covered(after)
  {
    hide IsLive, UniqueIds, Aliases;
    forall r | r in after ensures Answered(after, r.id) {
      var q :| q in agents && q.id == r.id;
      assert Answered(agents, q.id);
      var x :| IsLive(agents, x) && q.id in Aliases(x);
      assert IsLive(after, x);
    }
  }

  lemma {:induction false} SameLiveReadable(agents: seq<Agent>, after: seq<Agent>, now: Agent, gained: set<Id>)
    requires Readable(agents) && ReplacedDead(agents, after, now, gained) && AddsNothing(agents, now, gained)
    requires forall x :: IsLive(after, x) <==> IsLive(agents, x)
    ensures Readable(after)
  {
    hide IsLive, UniqueIds, Aliases, Digests, Recorded;
  }

  lemma {:induction false} NobodyLiveGained(agents: seq<Agent>, after: seq<Agent>, now: Agent, gained: set<Id>)
    requires Disjoint(agents) && Covered(after) && Readable(after) && ReplacedDead(agents, after, now, gained)
    ensures AddsNothing(agents, now, gained)
  {
    hide IsLive, UniqueIds, Digests, Recorded, Covered, Readable;
    forall x | IsLive(agents, x)
      ensures x.id !in gained && (now.id in Aliases(x) ==> Digests(now.descriptions) <= Digests(x.descriptions))
    {
      if x.id in gained {
        GainedIsAnswered(agents, after, now, gained, x);
      } else {
        assert now in after && IsLive(after, x);
        AbsorberSays(after, now, x);
      }
    }
  }

  lemma {:induction false} AbsorberSays(agents: seq<Agent>, r: Agent, x: Agent)
    requires Readable(agents) && r in agents && IsLive(agents, x)
    ensures r.id in Aliases(x) ==> Digests(r.descriptions) <= Digests(x.descriptions)
  {
    hide IsLive, Aliases, Digests;
  }

  lemma {:induction false} GainedIsAnswered(agents: seq<Agent>, after: seq<Agent>, now: Agent, gained: set<Id>, x: Agent)
    requires Disjoint(agents) && Covered(after) && ReplacedDead(agents, after, now, gained) && IsLive(agents, x)
    ensures x.id !in gained
  {
    hide IsLive, UniqueIds, Recorded;
    assert x in after && Answered(after, x.id) && x.id in Aliases(x);
    var y :| IsLive(after, y) && x.id in Aliases(y);
    assert y == x;
  }
}
