/** Runs of two calls in which one waits while the other stores, and what they
    leave of each other's work. */
module RegistryOverlaps {
  import opened Options
  import opened Characters
  import opened AgentRegistry
  import opened RegistryWrites
  import opened RegistryRuns

  /** Two calls read, the second stores, and then the first does. */
  lemma {:induction false} OneWaits(agents: seq<Agent>, first: Act, second: Act) returns (ss: seq<State>, es: seq<Event>)
    requires ActPossible(agents, first) && ActPossible(agents, second)
    requires Prepared(agents, first).Some? && Prepared(agents, second).Some?
    ensures Trace(ss, es) && |es| == 4 && |ss| == 5 && ss[0].agents == agents
    ensures es[0] == Reads(first) && es[1] == Reads(second) && es[2].Stores? && es[3].Stores?
    ensures es[2].draft.act == second && es[3].draft.act == first
    ensures ss[3].agents == Upsert(agents, Prepared(agents, second).value)
    ensures ss[4].agents == Upsert(ss[3].agents, Prepared(agents, first).value)
  {
    hide Prepared, Upsert, ActPossible;
    var d, e := Draft(first, agents, Prepared(agents, first).value), Draft(second, agents, Prepared(agents, second).value);
    var s0 := State(agents, multiset{});
    var s1 := State(agents, multiset{d});
    var s2 := State(agents, multiset{d, e});
    var s3 := State(Upsert(agents, e.record), multiset{d});
    var s4 := State(Upsert(s3.agents, d.record), multiset{});
    assert s1 == After(s0, Reads(first)) && s2 == After(s1, Reads(second));
    assert s3 == After(s2, Stores(e)) && s4 == After(s3, Stores(d));
    ss, es := [s0, s1, s2, s3, s4], [Reads(first), Reads(second), Stores(e), Stores(d)];
  }

  /** Of two records stored under one id only the later is there. */
  lemma {:induction false} LastOneStands(agents: seq<Agent>, one: Agent, two: Agent)
    requires one.id == two.id
    ensures Upsert(Upsert(agents, one), two) == Upsert(agents, two)
  {
    if agents != [] && agents[0].id != one.id {
      LastOneStands(agents[1..], one, two);
    }
  }

  /** The digest is on record under the id. */
  ghost predicate SaidAs(agents: seq<Agent>, id: Id, digest: string) {
    exists a :: a in agents && a.id == id && digest in Digests(a.descriptions)
  }

  /** Two claims of one judge: the second is answered, and may be cited in
      decisions, while the first still waits. Once the first is answered too, the
      second's wording is on record exactly if the judge had said it before or the
      first says it as well. */
  lemma {:induction false} AClaimThatWaitedKeepsTheOtherIff(agents: seq<Agent>, j: Agent, one: string, two: string,
          key: Id, said: Description, other: Description) returns (ss: seq<State>, es: seq<Event>)
    requires Invariant(agents) && ResolveAgent(agents, one) == ResolveAgent(agents, two) == Some(j)
    requires Strip(one) != "" && Strip(two) != "" && forall a :: a in agents ==> a.id != key
    ensures Trace(ss, es) && ss[0].agents == agents && |es| == 4
    ensures es[0] == Reads(Claiming(one, key, said)) && es[1] == Reads(Claiming(two, key, other))
    ensures es[2].Stores? && es[2].draft.act == es[1].act && es[3].Stores? && es[3].draft.act == es[0].act
    ensures SaidAs(ss[3].agents, j.id, other.digest)
    ensures SaidAs(ss[4].agents, j.id, other.digest) <==> other.digest in Digests(j.descriptions) || other.digest == said.digest
  {
    var first, second := Claiming(one, key, said), Claiming(two, key, other);
    ss, es := OneWaits(agents, first, second);
    var mine, theirs := ClaimedRecord(agents, one, key, said), ClaimedRecord(agents, two, key, other);
    assert mine.id == theirs.id == j.id;
    SaidNow(j.descriptions, said);
    SaidNow(j.descriptions, other);
    Split(agents);
    hide ResolveAgent, Invariant, Upsert, Strip, WithDescription, Digests, Trace, UniqueIds, Disjoint, Covered;
    LastOneStands(agents, theirs, mine);
    UpsertHolds(agents, theirs);
    UpsertHolds(agents, mine);
  }

  lemma {:induction false} SaidNow(versions: seq<Description>, said: Description)
    ensures Digests(WithDescription(versions, said)) == Digests(versions) + {said.digest}
  {}

  lemma {:induction false} LiveAreDistinct(agents: seq<Agent>, a: Agent, b: Agent)
    requires UniqueIds(agents) && IsLive(agents, a) && IsLive(agents, b) && a != b
    ensures a.id != b.id
  {
    LiveIsRecorded(agents, a);
    LiveIsRecorded(agents, b);
    hide IsLive;
  }

  /** Two renames to one free name, each listing the judges before either stores,
      leave two live judges with that name. */
  lemma {:induction false} TwoRenamesShareAName(agents: seq<Agent>, a: Agent, b: Agent, one: string, two: string,
          name: string) returns (ss: seq<State>, es: seq<Event>)
    requires Invariant(agents) && ResolveAgent(agents, one) == Some(a) && ResolveAgent(agents, two) == Some(b) && a != b
    requires Strip(name) != "" && NoLiveName(agents, Strip(name))
    ensures Trace(ss, es) && ss[0].agents == agents && |es| == 4
    ensures es[0] == Reads(Renaming(one, name, false)) && es[1] == Reads(Renaming(two, name, false))
    ensures es[2].Stores? && es[2].draft.act == es[1].act && es[3].Stores? && es[3].draft.act == es[0].act
    ensures var mine, theirs := a.(name := Strip(name)), b.(name := Strip(name));
            && mine != theirs && IsLive(ss[4].agents, mine) && IsLive(ss[4].agents, theirs)
            && Invariant(ss[3].agents) && !UniqueNames(ss[4].agents)
  {
    hide *;
    var first, second := Renaming(one, name, false), Renaming(two, name, false);
    var mine, theirs := a.(name := Strip(name)), b.(name := Strip(name));
    AResolvedJudgeIsLive(agents, one);
    AResolvedJudgeIsLive(agents, two);
    FreeNameIsPrepared(agents, one, a, name);
    FreeNameIsPrepared(agents, two, b, name);
    ActsArePossible(agents, one, two, name);
    ss, es := OneWaits(agents, first, second);
    RenamingKeeps(agents, two, name, false);
    RenamedIs(agents, two, name, false);
    BothRenamed(agents, a, b, mine, theirs);
    NamedAlike(ss[4].agents, mine, theirs, Strip(name));
  }

  lemma {:induction false} ActsArePossible(agents: seq<Agent>, one: string, two: string, name: string)
    ensures ActPossible(agents, Renaming(one, name, false)) && ActPossible(agents, Renaming(two, name, false))
    ensures ActPossible(agents, Renaming(one, name, true)) && ActPossible(agents, Renaming(two, name, true))
  {}

  lemma {:induction false} FreeNameIsPrepared(agents: seq<Agent>, handle: string, a: Agent, name: string)
    requires ResolveAgent(agents, handle) == Some(a) && Strip(name) != "" && NoLiveName(agents, Strip(name))
    ensures Prepared(agents, Renaming(handle, name, false)) == Some(a.(name := Strip(name)))
  {
    HolderFound(agents, Strip(name), a.id);
    StripTwice(name);
    hide ResolveAgent, NameHolder, Strip, IsLive, Fold, AgentName;
  }

  lemma {:induction false} RenamedIs(agents: seq<Agent>, handle: string, name: string, sameJudge: bool)
    requires Prepared(agents, Renaming(handle, name, sameJudge)).Some?
    ensures RenameJudge(agents, handle, name, sameJudge).0
            == Upsert(agents, Prepared(agents, Renaming(handle, name, sameJudge)).value)
  {
    hide RenamedRecord, Upsert;
  }

  lemma {:induction false} BothRenamed(agents: seq<Agent>, a: Agent, b: Agent, mine: Agent, theirs: Agent)
    requires Invariant(agents) && IsLive(agents, a) && IsLive(agents, b) && a != b
    requires mine.id == a.id && mine.formerIds == a.formerIds && theirs.id == b.id && theirs.formerIds == b.formerIds
    ensures IsLive(Upsert(Upsert(agents, theirs), mine), mine) && IsLive(Upsert(Upsert(agents, theirs), mine), theirs) && mine != theirs
  {
    hide *;
    var next := Upsert(agents, theirs);
    Split(agents);
    LiveAreDistinct(agents, a, b);
    StillLive(agents, b, theirs, a);
    StillLive(next, a, mine, theirs);
  }

  /** A record stored with its ids as they were leaves every other judge as live
      as it was. */
  lemma {:induction false} StillLive(agents: seq<Agent>, a: Agent, record: Agent, other: Agent)
    requires UniqueIds(agents) && IsLive(agents, a) && record.id == a.id && record.formerIds == a.formerIds
    requires IsLive(agents, other) && other.id != a.id
    ensures UniqueIds(Upsert(agents, record)) && IsLive(Upsert(agents, record), record) && IsLive(Upsert(agents, record), other)
  {
    SameFormers(a, record);
    hide *;
    LiveIsRecorded(agents, a);
    UpsertHolds(agents, record);
    LiveAfter(agents, a, record, {});
  }

  lemma {:induction false} SameFormers(a: Agent, record: Agent)
    requires record.formerIds == a.formerIds
    ensures Former(record) == Former(a) + {}
  {}

  lemma {:induction false} NamedAlike(agents: seq<Agent>, mine: Agent, theirs: Agent, name: string)
    requires IsLive(agents, mine) && IsLive(agents, theirs) && mine != theirs && mine.name == theirs.name == name && name != ""
    ensures !UniqueNames(agents)
  {
    hide IsLive, Fold;
  }

  /** Two claims of one new name, under keys made for each, do so as well. */
  lemma {:induction false} TwoClaimsShareAName(agents: seq<Agent>, handle: string, one: Id, two: Id,
          said: Description, other: Description) returns (ss: seq<State>, es: seq<Event>)
    requires Invariant(agents) && ResolveAgent(agents, handle).None? && Strip(handle) != "" && one != two
    requires !Recorded(agents, one) && !Recorded(agents, two)
    ensures Trace(ss, es) && ss[0].agents == agents && |es| == 4
    ensures es[0] == Reads(Claiming(handle, one, said)) && es[1] == Reads(Claiming(handle, two, other))
    ensures es[2].Stores? && es[2].draft.act == es[1].act && es[3].Stores? && es[3].draft.act == es[0].act
    ensures Invariant(ss[3].agents) && !UniqueNames(ss[4].agents)
  {
    var first, second := Claiming(handle, one, said), Claiming(handle, two, other);
    var mine, theirs := ClaimedRecord(agents, handle, one, said), ClaimedRecord(agents, handle, two, other);
    assert mine.id == one && theirs.id == two && mine.formerIds == theirs.formerIds == [];
    assert mine.name == theirs.name == Strip(handle);
    assert ActPossible(agents, first) && ActPossible(agents, second);
    assert Prepared(agents, first) == Some(mine) && Prepared(agents, second) == Some(theirs);
    assert Claim(agents, handle, two, other) == Upsert(agents, theirs);
    hide *;
    ss, es := OneWaits(agents, first, second);
    ClaimingKeeps(agents, handle, two, other);
    NewIsLive(agents, theirs);
    StillNew(agents, theirs, one);
    NewIsLive(ss[3].agents, mine);
    NamedAlike(ss[4].agents, mine, theirs, Strip(handle));
  }

  lemma {:induction false} StillNew(agents: seq<Agent>, stored: Agent, id: Id)
    requires Invariant(agents) && !Recorded(agents, id) && stored.id != id
    ensures !Recorded(Upsert(agents, stored), id)
  {
    Split(agents);
    UpsertHolds(agents, stored);
    hide Upsert, Invariant, Partition, UniqueNames, Readable, UniqueIds;
  }

  /** The judges `h` and `a` and a rename of `a` to what `h` is called, answered yes. */
  ghost predicate Consolidates(agents: seq<Agent>, h: Agent, a: Agent, handle: string, name: string) {
    && Invariant(agents) && IsLive(agents, h) && h != a && ResolveAgent(agents, handle) == Some(a)
    && Strip(name) != "" && Fold(Strip(name)) == Fold(AgentName(h))
  }

  lemma {:induction false} TheHolderAbsorbs(agents: seq<Agent>, h: Agent, a: Agent, handle: string, name: string)
    requires Consolidates(agents, h, a, handle, name)
    ensures Prepared(agents, Renaming(handle, name, true)) == Some(Absorbing(h, a))
    ensures Invariant(agents) && IsLive(agents, h) && IsLive(agents, a) && h.id != a.id && a.id !in Former(h)
    ensures var after := Upsert(agents, Absorbing(h, a));
            Invariant(after) && Grows(agents, after) && !IsLive(after, a) && a in after && IsLive(after, Absorbing(h, a))
  {
    Consolidating(agents, h, a, handle, name);
    hide *;
    Split(agents);
    AResolvedJudgeIsLive(agents, handle);
    LiveAreDistinct(agents, h, a);
    TheHolderIs(agents, h, a, name);
    HeldNameIsPrepared(agents, h, a, handle, name);
    NotAnAlias(agents, h, a);
    AbsorbsWhole(agents, h, a);
    TakingOver(agents, h, Absorbing(h, a), Aliases(a));
    AbsorbedFormers(h, a);
    AbsorbedIsDead(agents, h, a, Absorbing(h, a));
  }

  lemma {:induction false} Consolidating(agents: seq<Agent>, h: Agent, a: Agent, handle: string, name: string)
    requires Consolidates(agents, h, a, handle, name)
    ensures Invariant(agents) && IsLive(agents, h) && h != a && ResolveAgent(agents, handle) == Some(a)
    ensures Strip(name) != "" && Fold(Strip(name)) == Fold(AgentName(h))
  {
    hide Invariant, IsLive, ResolveAgent, Strip, Fold, AgentName;
  }

  lemma {:induction false} HeldNameIsPrepared(agents: seq<Agent>, h: Agent, a: Agent, handle: string, name: string)
    requires ResolveAgent(agents, handle) == Some(a) && Strip(name) != "" && NameHolder(agents, Strip(name), a.id) == Some(h)
    ensures Prepared(agents, Renaming(handle, name, true)) == Some(Absorbing(h, a))
  {
    hide ResolveAgent, NameHolder, Strip, Absorbing;
  }

  /** A claim of a judge on record prepares that record with one thing more said. */
  lemma {:induction false} ClaimIsPrepared(agents: seq<Agent>, handle: string, a: Agent, key: Id, said: Description)
    requires ResolveAgent(agents, handle) == Some(a) && ClaimPossible(agents, handle, key)
    ensures var claimed := ClaimedRecord(agents, handle, key, said);
            && ActPossible(agents, Claiming(handle, key, said)) && Prepared(agents, Claiming(handle, key, said)) == Some(claimed)
            && claimed.id == a.id && claimed.formerIds == a.formerIds
            && Digests(claimed.descriptions) == Digests(a.descriptions) + {said.digest}
  {
    SaidNow(a.descriptions, said);
    hide ResolveAgent, WithDescription, Digests, ClaimPossible;
  }

  lemma {:induction false} TheHolderIs(agents: seq<Agent>, h: Agent, a: Agent, name: string)
    requires UniqueNames(agents) && IsLive(agents, h) && h.id != a.id && Fold(Strip(name)) == Fold(AgentName(h))
    ensures NameHolder(agents, Strip(name), a.id) == Some(h)
  {
    HolderFound(agents, Strip(name), a.id);
    StripTwice(name);
    hide NameHolder, IsLive, Strip, Fold, AgentName;
  }

  lemma {:induction false} NotAnAlias(agents: seq<Agent>, h: Agent, a: Agent)
    requires Disjoint(agents) && IsLive(agents, h) && IsLive(agents, a) && h != a
    ensures a.id !in Former(h) && h.id !in Aliases(a) && a.id in Aliases(a)
  {
    hide IsLive;
    assert a.id in Aliases(a) && h.id in Aliases(h);
  }

  lemma {:induction false} AbsorbedIsDead(agents: seq<Agent>, h: Agent, a: Agent, merged: Agent)
    requires UniqueIds(agents) && IsLive(agents, h) && IsLive(agents, a) && merged.id == h.id && h.id != a.id
    requires Former(merged) == Former(h) + Aliases(a) && h.id !in Aliases(a) && a.id in Aliases(a)
    ensures var after := Upsert(agents, merged); !IsLive(after, a) && a in after && IsLive(after, merged)
  {
    hide IsLive, Upsert, UniqueIds, Aliases, Former;
    LiveIsRecorded(agents, h);
    LiveIsRecorded(agents, a);
    LiveAfter(agents, h, merged, Aliases(a));
    UpsertHolds(agents, merged);
  }

  /** A claim of the holder that waits across a consolidation undoes it: the
      absorbed judge is live again and nobody else answers for its id. */
  lemma {:induction false} AClaimUndoesAConsolidation(agents: seq<Agent>, h: Agent, a: Agent, one: string, two: string,
          name: string, key: Id, said: Description) returns (ss: seq<State>, es: seq<Event>)
    requires Consolidates(agents, h, a, two, name) && ResolveAgent(agents, one) == Some(h)
    requires ClaimPossible(agents, one, key)
    ensures Trace(ss, es) && ss[0].agents == agents && |es| == 4
    ensures es[0] == Reads(Claiming(one, key, said)) && es[1] == Reads(Renaming(two, name, true))
    ensures es[2].Stores? && es[2].draft.act == es[1].act && es[3].Stores? && es[3].draft.act == es[0].act
    ensures Invariant(ss[3].agents) && !IsLive(ss[3].agents, a) && IsLive(ss[4].agents, a)
    ensures !KeepsIds(ss[3].agents, ss[4].agents)
  {
    var first, second := Claiming(one, key, said), Renaming(two, name, true);
    var merged, claimed := Absorbing(h, a), ClaimedRecord(agents, one, key, said);
    hide *;
    ClaimIsPrepared(agents, one, h, key, said);
    AbsorbedFormers(h, a);
    TheHolderAbsorbs(agents, h, a, two, name);
    ActsArePossible(agents, one, two, name);
    ss, es := OneWaits(agents, first, second);
    LastOneStands(agents, merged, claimed);
    Split(agents);
    StillLive(agents, h, claimed, a);
    IdIsLost(agents, h, a, merged, claimed);
  }

  lemma {:induction false} IdIsLost(agents: seq<Agent>, h: Agent, a: Agent, merged: Agent, claimed: Agent)
    requires Invariant(agents) && IsLive(agents, h) && claimed.id == h.id && claimed.formerIds == h.formerIds
    requires merged.id == h.id && Former(merged) == Former(h) + Aliases(a) && a.id !in Former(h)
    ensures !KeepsIds(Upsert(agents, merged), Upsert(agents, claimed))
  {
    Split(agents);
    hide Invariant, IsLive, Upsert, UniqueIds, FormersRecorded, Disjoint, Covered, UniqueNames, Readable;
    UpsertHolds(agents, merged);
    UpsertHolds(agents, claimed);
    assert merged in Upsert(agents, merged) && a.id in Former(merged) && a.id !in Former(claimed);
  }

  /** A claim stored after its judge was absorbed is kept under the absorbed
      record: whoever answers for the judge says what it claimed exactly if either
      of the two had said it. */
  lemma {:induction false} AClaimOfAnAbsorbedJudgeKeepsIff(agents: seq<Agent>, h: Agent, a: Agent, one: string,
          two: string, name: string, key: Id, said: Description) returns (ss: seq<State>, es: seq<Event>)
    requires Consolidates(agents, h, a, two, name) && ResolveAgent(agents, one) == Some(a)
    requires ClaimPossible(agents, one, key)
    ensures Trace(ss, es) && ss[0].agents == agents && |es| == 4
    ensures es[0] == Reads(Claiming(one, key, said)) && es[1] == Reads(Renaming(two, name, true))
    ensures es[2].Stores? && es[2].draft.act == es[1].act && es[3].Stores? && es[3].draft.act == es[0].act
    ensures Invariant(ss[3].agents) && SaidAs(ss[4].agents, a.id, said.digest)
    ensures Invariant(ss[4].agents) && Grows(ss[3].agents, ss[4].agents)
            <==> said.digest in Digests(h.descriptions) + Digests(a.descriptions)
  {
    var first, second := Claiming(one, key, said), Renaming(two, name, true);
    var merged, claimed := Absorbing(h, a), ClaimedRecord(agents, one, key, said);
    hide *;
    ClaimIsPrepared(agents, one, a, key, said);
    TheHolderAbsorbs(agents, h, a, two, name);
    AbsorbingKeepsEverything(h, a);
    ActsArePossible(agents, one, two, name);
    ss, es := OneWaits(agents, first, second);
    EditedIsSound(agents, a, claimed);
    AbsorbedFitsIff(agents, h, a, merged, claimed, said.digest);
    AStoredRecordKeepsIff(ss[3].agents, claimed);
    SaidThere(ss[3].agents, claimed, said.digest);
  }

  lemma {:induction false} SaidThere(agents: seq<Agent>, record: Agent, digest: string)
    requires Invariant(agents) && digest in Digests(record.descriptions)
    ensures SaidAs(Upsert(agents, record), record.id, digest)
  {
    Split(agents);
    hide Invariant, Upsert, UniqueIds, FormersRecorded, Disjoint, Covered, UniqueNames, Readable, Digests;
    UpsertHolds(agents, record);
  }

  lemma {:induction false} AbsorbedFitsIff(agents: seq<Agent>, h: Agent, a: Agent, merged: Agent, claimed: Agent,
          digest: string)
    requires Invariant(agents) && Sound(agents, claimed) && claimed.id == a.id && claimed.formerIds == a.formerIds
    requires Digests(claimed.descriptions) == Digests(a.descriptions) + {digest}
    requires Aliases(merged) == Aliases(h) + Aliases(a)
    requires Digests(merged.descriptions) == Digests(h.descriptions) + Digests(a.descriptions)
    requires var next := Upsert(agents, merged); Invariant(next) && !IsLive(next, a) && a in next && IsLive(next, merged)
    ensures var next := Upsert(agents, merged);
            && Sound(next, claimed)
            && (Fits(next, claimed) <==> digest in Digests(h.descriptions) + Digests(a.descriptions))
  {
    hide *;
    var next := Upsert(agents, merged);
    Split(agents);
    Split(next);
    SoundStays(agents, merged);
    AnAlias(a, merged, Aliases(h));
    OnlyTheAbsorberAnswers(next, merged, a, claimed);
    GainsNothing(a, claimed);
    FitsAnAbsorbed(next, a, claimed);
  }

  lemma {:induction false} AnAlias(a: Agent, merged: Agent, others: set<Id>)
    requires Aliases(merged) == others + Aliases(a)
    ensures a.id in Aliases(merged)
  {}

  lemma {:induction false} GainsNothing(a: Agent, claimed: Agent)
    requires claimed.formerIds == a.formerIds
    ensures Gained(a, claimed) == {}
    ensures Says(claimed, a) <==> Digests(a.descriptions) <= Digests(claimed.descriptions)
  {}

  lemma {:induction false} FitsAnAbsorbed(agents: seq<Agent>, a: Agent, record: Agent)
    requires UniqueIds(agents) && a in agents && !IsLive(agents, a) && record.id == a.id
    ensures Fits(agents, record) <==> Says(record, a) && AddsNothing(agents, record, Gained(a, record))
  {
    StoredUnder(agents, a.id);
    RecordedThere(agents, a);
    IdsTell(agents, a);
    hide IsLive, UniqueIds, WithId, Says, Gained, AddsNothing, Recorded;
  }

  lemma {:induction false} RecordedThere(agents: seq<Agent>, a: Agent)
    requires a in agents
    ensures Recorded(agents, a.id)
  {}

  lemma {:induction false} OnlyTheAbsorberAnswers(agents: seq<Agent>, merged: Agent, a: Agent, claimed: Agent)
    requires Disjoint(agents) && IsLive(agents, merged) && a.id in Aliases(merged) && claimed.id == a.id
    ensures AddsNothing(agents, claimed, {}) <==> Digests(claimed.descriptions) <= Digests(merged.descriptions)
  {
    hide IsLive, Aliases, Digests;
  }
}
