/** The judges a graph has, and which of them a handle names
    (epimemer/core/types.py). */
module AgentRegistry {
  import opened Options
  import opened Order
  import opened Characters

  type Id = string

  /** One thing an agent said about itself; the digest stands for the text. */
  datatype Description = Description(digest: string, recordedAt: int)

  datatype Agent = Agent(id: Id, name: string, formerIds: seq<Id>, descriptions: seq<Description>)

  /** A name as names are compared. */
  function Fold(s: string): string { Lower(s) }

  function AgentName(a: Agent): string { if a.name != "" then a.name else a.id }

  /** Every id this judge's rows may record. */
  function Aliases(a: Agent): set<Id> { {a.id} + Former(a) }

  function Former(a: Agent): set<Id> { set f | f in a.formerIds }

  function AbsorbedIds(agents: seq<Agent>): set<Id> {
    set a, f | a in agents && f in a.formerIds && f != a.id :: f
  }

  predicate IsLive(agents: seq<Agent>, a: Agent) { a in agents && a.id !in AbsorbedIds(agents) }

  function LiveAgents(agents: seq<Agent>): seq<Agent> {
    Keep(agents, set a | a in agents && IsLive(agents, a))
  }

  function WithId(agents: seq<Agent>, id: Id): Option<Agent> {
    if agents == [] then None else if agents[0].id == id then Some(agents[0]) else WithId(agents[1..], id)
  }

  function WithName(agents: seq<Agent>, folded: string): Option<Agent> {
    if agents == [] then None
    else if Fold(AgentName(agents[0])) == folded then Some(agents[0])
    else WithName(agents[1..], folded)
  }

  function WithFormerId(agents: seq<Agent>, id: Id): Option<Agent> {
    if agents == [] then None
    else if id in agents[0].formerIds then Some(agents[0])
    else WithFormerId(agents[1..], id)
  }

  /** `resolve_agent`: by id, then by name, then by former id. */
  function ResolveAgent(agents: seq<Agent>, handle: string): Option<Agent> {
    var h, live := Strip(handle), LiveAgents(agents);
    if h == "" then None
    else if WithId(live, h).Some? then WithId(live, h)
    else if WithName(live, Fold(h)).Some? then WithName(live, Fold(h))
    else WithFormerId(live, h)
  }

  // --- What resolving means ---

  /** The judge a stripped handle names: nobody it names more exactly comes first. */
  ghost predicate Answers(agents: seq<Agent>, h: string, a: Agent) {
    && IsLive(agents, a)
    && (a.id == h
        || (NoLiveId(agents, h)
            && (Fold(AgentName(a)) == Fold(h) || (NoLiveName(agents, h) && h in a.formerIds))))
  }

  ghost predicate NoLiveId(agents: seq<Agent>, h: string) {
    forall b :: IsLive(agents, b) ==> b.id != h
  }

  ghost predicate NoLiveName(agents: seq<Agent>, h: string) {
    forall b :: IsLive(agents, b) ==> Fold(AgentName(b)) != Fold(h)
  }

  lemma {:induction false} LiveIsRecorded(agents: seq<Agent>, a: Agent)
    requires IsLive(agents, a)
    ensures a in agents && Recorded(agents, a.id)
  {}

  lemma {:induction false} LiveListed(agents: seq<Agent>)
    ensures forall a :: a in LiveAgents(agents) <==> IsLive(agents, a)
  {
    var chosen := set a | a in agents && IsLive(agents, a);
    KeepBag(agents, chosen);
    forall a ensures a in LiveAgents(agents) <==> IsLive(agents, a) {
      assert a in LiveAgents(agents) <==> a in multiset(LiveAgents(agents));
      assert a in agents <==> a in multiset(agents);
    }
  }

  lemma {:induction false} Lookups(agents: seq<Agent>, h: string)
    ensures WithId(agents, h).Some? ==> WithId(agents, h).value in agents && WithId(agents, h).value.id == h
    ensures WithId(agents, h).None? ==> forall a :: a in agents ==> a.id != h
    ensures WithName(agents, h).Some? ==>
              WithName(agents, h).value in agents && Fold(AgentName(WithName(agents, h).value)) == h
    ensures WithName(agents, h).None? ==> forall a :: a in agents ==> Fold(AgentName(a)) != h
    ensures WithFormerId(agents, h).Some? ==>
              WithFormerId(agents, h).value in agents && h in WithFormerId(agents, h).value.formerIds
    ensures WithFormerId(agents, h).None? ==> forall a :: a in agents ==> h !in a.formerIds
  {
    hide Fold, AgentName;
    if agents != [] {
      Lookups(agents[1..], h);
      assert agents == [agents[0]] + agents[1..];
    }
  }

  lemma {:induction false} ResolvingFinds(agents: seq<Agent>, handle: string)
    requires Strip(handle) != ""
    ensures ResolveAgent(agents, handle).Some? ==> Answers(agents, Strip(handle), ResolveAgent(agents, handle).value)
    ensures ResolveAgent(agents, handle).None? ==> forall a :: !Answers(agents, Strip(handle), a)
  {
    var h, live := Strip(handle), LiveAgents(agents);
    LiveListed(agents);
    Lookups(live, h);
    Lookups(live, Fold(h));
    hide LiveAgents, IsLive, Fold, AgentName, Strip;
  }

  // --- The invariant ---

  ghost predicate UniqueIds(agents: seq<Agent>) {
    forall i, j :: 0 <= i < j < |agents| ==> agents[i].id != agents[j].id
  }

  /** The live judges' ids partition every id a row may record. */
  ghost predicate Partition(agents: seq<Agent>) {
    UniqueIds(agents) && FormersRecorded(agents) && Disjoint(agents) && Covered(agents)
  }

  /** A former id is some other record's id. */
  ghost predicate FormersRecorded(agents: seq<Agent>) {
    forall a :: a in agents ==> FormersOf(agents, a)
  }

  ghost predicate FormersOf(agents: seq<Agent>, a: Agent) {
    a.id !in a.formerIds && forall f :: f in a.formerIds ==> Recorded(agents, f)
  }

  ghost predicate Disjoint(agents: seq<Agent>) {
    forall a, b :: IsLive(agents, a) && IsLive(agents, b) && a != b ==> Aliases(a) !! Aliases(b)
  }

  ghost predicate Covered(agents: seq<Agent>) {
    forall r :: r in agents ==> Answered(agents, r.id)
  }

  ghost predicate Recorded(agents: seq<Agent>, id: Id) { exists r :: r in agents && r.id == id }

  ghost predicate Answered(agents: seq<Agent>, id: Id) { exists a :: IsLive(agents, a) && id in Aliases(a) }

  ghost predicate UniqueNames(agents: seq<Agent>) {
    forall a, b :: IsLive(agents, a) && IsLive(agents, b) && Fold(AgentName(a)) == Fold(AgentName(b)) ==> a == b
  }

  ghost predicate SameAgents(agents: seq<Agent>, others: seq<Agent>) {
    forall a :: a in agents <==> a in others
  }

  /** Which judge a handle names does not depend on the order they are listed in. */
  lemma {:induction false} ResolvingIgnoresOrder(agents: seq<Agent>, others: seq<Agent>, handle: string)
    requires Partition(agents) && UniqueNames(agents) && SameAgents(agents, others)
    ensures ResolveAgent(agents, handle) == ResolveAgent(others, handle)
  {
    if Strip(handle) != "" {
      assert AbsorbedIds(agents) == AbsorbedIds(others);
      ResolvingFinds(agents, handle);
      ResolvingFinds(others, handle);
      assert forall a :: IsLive(agents, a) <==> IsLive(others, a);
      SameAnswers(agents, others, Strip(handle));
      var one, two := ResolveAgent(agents, handle), ResolveAgent(others, handle);
      hide ResolveAgent, Partition, UniqueNames;
      if one.Some? && two.Some? {
        OneAnswer(agents, Strip(handle), one.value, two.value);
      }
    }
  }

  lemma {:induction false} SameAnswers(agents: seq<Agent>, others: seq<Agent>, h: string)
    requires forall a :: IsLive(agents, a) <==> IsLive(others, a)
    ensures forall a :: Answers(agents, h, a) <==> Answers(others, h, a)
  {}

  lemma {:induction false} OneAnswer(agents: seq<Agent>, h: string, a: Agent, b: Agent)
    requires Disjoint(agents) && UniqueNames(agents) && Answers(agents, h, a) && Answers(agents, h, b)
    ensures a == b
  {
    hide Fold, AgentName, AbsorbedIds;
    assert a.id in Aliases(a) && b.id in Aliases(b);
    if h in a.formerIds && h in b.formerIds {
      assert h in Aliases(a) && h in Aliases(b);
    }
  }

  /** An absorbed judge's id still finds the judge that answers for it exactly
      when no other judge is called that now. */
  lemma {:induction false} AbsorbedIdFindsItsAbsorberIff(agents: seq<Agent>, id: Id, a: Agent)
    requires Partition(agents) && UniqueNames(agents) && Strip(id) == id && id != ""
    requires IsLive(agents, a) && id in a.formerIds
    ensures ResolveAgent(agents, id) == Some(a) <==>
              forall b :: IsLive(agents, b) && b != a ==> Fold(AgentName(b)) != Fold(id)
  {
    hide *;
    FormerIdsAreNotLive(agents, id, a);
    if forall b :: IsLive(agents, b) && b != a ==> Fold(AgentName(b)) != Fold(id) {
      NobodyElseIsCalled(agents, id, a);
      TheAnswerIsFound(agents, id, a);
    } else {
      var b :| IsLive(agents, b) && b != a && Fold(AgentName(b)) == Fold(id);
      ANameAnswers(agents, id, b);
      TheAnswerIsFound(agents, id, b);
    }
  }

  lemma {:induction false} ANameAnswers(agents: seq<Agent>, id: Id, b: Agent)
    requires NoLiveId(agents, id) && IsLive(agents, b) && Fold(AgentName(b)) == Fold(id)
    ensures Answers(agents, id, b)
  {}

  lemma {:induction false} NobodyElseIsCalled(agents: seq<Agent>, id: Id, a: Agent)
    requires IsLive(agents, a) && id in a.formerIds && NoLiveId(agents, id)
    requires forall b :: IsLive(agents, b) && b != a ==> Fold(AgentName(b)) != Fold(id)
    ensures Answers(agents, id, a)
  {}

  lemma {:induction false} TheAnswerIsFound(agents: seq<Agent>, handle: string, a: Agent)
    requires Partition(agents) && UniqueNames(agents) && Strip(handle) != "" && Answers(agents, Strip(handle), a)
    ensures ResolveAgent(agents, handle) == Some(a)
  {
    ResolvingFinds(agents, handle);
    hide ResolveAgent, Fold, AgentName, IsLive, Strip, Answers, Disjoint, UniqueNames;
    OneAnswer(agents, Strip(handle), ResolveAgent(agents, handle).value, a);
  }

  lemma {:induction false} FormerIdsAreNotLive(agents: seq<Agent>, id: Id, a: Agent)
    requires Partition(agents) && IsLive(agents, a) && id in a.formerIds
    ensures NoLiveId(agents, id)
  {}

  // --- Absorbing one judge into another ---

  predicate Earlier(x: Description, y: Description) { x.recordedAt <= y.recordedAt }

  /** The first version of each digest, in order. */
  function FirstOfEach(versions: seq<Description>, seen: set<string>): seq<Description> {
    if versions == [] then []
    else if versions[0].digest in seen then FirstOfEach(versions[1..], seen)
    else [versions[0]] + FirstOfEach(versions[1..], seen + {versions[0].digest})
  }

  function Digests(versions: seq<Description>): set<string> { set v | v in versions :: v.digest }

  /** Both histories in the order they were recorded, the survivor's first on a tie. */
  function InOrder(survivor: Agent, absorbed: Agent): seq<Description> {
    Sort(survivor.descriptions + absorbed.descriptions, Earlier)
  }

  function FirstIds(ids: seq<Id>, seen: set<Id>): seq<Id> {
    if ids == [] then []
    else if ids[0] in seen then FirstIds(ids[1..], seen)
    else [ids[0]] + FirstIds(ids[1..], seen + {ids[0]})
  }

  function OwnAliases(a: Agent): seq<Id> {
    [a.id] + Keep(a.formerIds, Former(a) - {a.id})
  }

  function Absorbing(survivor: Agent, absorbed: Agent): Agent {
    survivor.(formerIds := FirstIds(survivor.formerIds + OwnAliases(absorbed), {}),
              descriptions := FirstOfEach(InOrder(survivor, absorbed), {}))
  }

  lemma {:induction false} FirstsHold(ids: seq<Id>, seen: set<Id>)
    ensures forall x :: x in FirstIds(ids, seen) <==> x in ids && x !in seen
  {
    if ids != [] {
      assert ids == [ids[0]] + ids[1..];
      FirstsHold(ids[1..], seen);
      FirstsHold(ids[1..], seen + {ids[0]});
    }
  }

  /** No id is listed twice, and the survivor's own come first, as they were. */
  lemma {:induction false} FormerIdsInOrder(survivor: Agent, absorbed: Agent)
    ensures NoRepeats(Absorbing(survivor, absorbed).formerIds)
    ensures NoRepeats(survivor.formerIds) ==> survivor.formerIds <= Absorbing(survivor, absorbed).formerIds
  {
    FirstsAreDistinct(survivor.formerIds + OwnAliases(absorbed), {});
    if NoRepeats(survivor.formerIds) {
      FirstsKeepTheirOrder(survivor.formerIds, OwnAliases(absorbed), {});
    }
    hide FirstIds, OwnAliases, FirstOfEach, InOrder;
  }

  predicate NoRepeats(ids: seq<Id>) {
    forall i, j :: 0 <= i < j < |ids| ==> ids[i] != ids[j]
  }

  lemma {:induction false} FirstsAreDistinct(ids: seq<Id>, seen: set<Id>)
    ensures NoRepeats(FirstIds(ids, seen))
  {
    if ids != [] {
      FirstsAreDistinct(ids[1..], seen);
      FirstsAreDistinct(ids[1..], seen + {ids[0]});
      FirstsHold(ids[1..], seen + {ids[0]});
    }
  }

  lemma {:induction false} FirstsKeepTheirOrder(ids: seq<Id>, more: seq<Id>, seen: set<Id>)
    requires NoRepeats(ids) && forall x :: x in ids ==> x !in seen
    ensures ids <= FirstIds(ids + more, seen)
  {
    if ids != [] {
      var first, rest := ids[0], ids[1..];
      assert ids == [first] + rest && (ids + more)[0] == first && (ids + more)[1..] == rest + more;
      forall x | x in rest ensures x != first {}
      FirstsKeepTheirOrder(rest, more, seen + {first});
    }
  }

  lemma {:induction false} DigestsSurvive(versions: seq<Description>, seen: set<string>)
    ensures Digests(FirstOfEach(versions, seen)) == Digests(versions) - seen
    ensures forall v :: v in FirstOfEach(versions, seen) ==> v in versions
    ensures forall i, j :: 0 <= i < j < |FirstOfEach(versions, seen)| ==>
                             FirstOfEach(versions, seen)[i].digest != FirstOfEach(versions, seen)[j].digest
  {
    if versions != [] {
      var v, rest := versions[0], versions[1..];
      assert versions == [v] + rest;
      assert Digests(versions) == {v.digest} + Digests(rest);
      if v.digest in seen {
        DigestsSurvive(rest, seen);
      } else {
        var firsts := FirstOfEach(rest, seen + {v.digest});
        DigestsSurvive(rest, seen + {v.digest});
        assert Digests([v] + firsts) == {v.digest} + Digests(firsts);
        forall j | 0 <= j < |firsts| ensures firsts[j].digest != v.digest {
          assert firsts[j].digest in Digests(firsts);
        }
      }
    }
  }

  lemma {:induction false} EarlierOrder()
    ensures TotalPreorder(Earlier)
  {}

  /** The survivor answers for both judges' ids and says everything either did. */
  lemma {:induction false} AbsorbingKeepsEverything(survivor: Agent, absorbed: Agent)
    ensures var merged := Absorbing(survivor, absorbed);
            && Aliases(merged) == Aliases(survivor) + Aliases(absorbed)
            && Digests(merged.descriptions) == Digests(survivor.descriptions) + Digests(absorbed.descriptions)
  {
    OwnAliasesAreAliases(absorbed);
    FirstsHold(survivor.formerIds + OwnAliases(absorbed), {});
    EarlierOrder();
    SortIsSorted(survivor.descriptions + absorbed.descriptions, Earlier);
    DigestsSurvive(InOrder(survivor, absorbed), {});
    hide FirstIds, FirstOfEach, Sort, OwnAliases;
  }

  lemma {:induction false} OwnAliasesAreAliases(a: Agent)
    ensures forall x :: x in OwnAliases(a) <==> x in Aliases(a)
  {
    var kept := Keep(a.formerIds, Former(a) - {a.id});
    KeepBag(a.formerIds, Former(a) - {a.id});
    hide Keep;
    forall x ensures x in kept <==> x in a.formerIds && x != a.id {
      assert x in kept <==> x in multiset(kept);
      assert x in a.formerIds <==> x in multiset(a.formerIds);
    }
  }

  predicate InTime(versions: seq<Description>) {
    forall i, j :: 0 <= i < j < |versions| ==> versions[i].recordedAt <= versions[j].recordedAt
  }

  /** `v` is the earliest saying of what it says. */
  ghost predicate FirstSaid(versions: seq<Description>, v: Description) {
    v in versions && forall w :: w in versions && w.digest == v.digest ==> v.recordedAt <= w.recordedAt
  }

  /** The merged history is in order of time, whatever order the two were in; it
      holds the first saying of everything either said, once; and what the judge
      then reads as claiming was first said no earlier than anything else. */
  lemma {:induction false} MergedHistory(survivor: Agent, absorbed: Agent)
    ensures var all, merged := survivor.descriptions + absorbed.descriptions, Absorbing(survivor, absorbed).descriptions;
            && InTime(merged)
            && (forall v :: v in merged ==> FirstSaid(all, v))
            && (forall w :: w in all ==> exists v :: v in merged && v.digest == w.digest)
            && (forall i, j :: 0 <= i < j < |merged| ==> merged[i].digest != merged[j].digest)
            && (all != [] ==>
                  merged != [] && forall w :: FirstSaid(all, w) ==> w.recordedAt <= merged[|merged| - 1].recordedAt)
  {
    var all, sorted := survivor.descriptions + absorbed.descriptions, InOrder(survivor, absorbed);
    EarlierOrder();
    SortIsSorted(all, Earlier);
    SameEntries(all, sorted);
    hide Sort, Absorbing;
    var merged := FirstOfEach(sorted, {});
    AbsorbingIs(survivor, absorbed);
    FirstsInTime(sorted, {});
    DigestsSurvive(sorted, {});
    hide FirstOfEach;
    forall w | w in all ensures exists v :: v in merged && v.digest == w.digest {
      assert w.digest in Digests(sorted) && w.digest in Digests(merged);
    }
    forall w | FirstSaid(all, w) ensures merged != [] && w.recordedAt <= merged[|merged| - 1].recordedAt {
      var v :| v in merged && v.digest == w.digest;
      assert FirstSaid(all, v);
    }
  }

  lemma {:induction false} AbsorbingIs(survivor: Agent, absorbed: Agent)
    ensures Absorbing(survivor, absorbed).descriptions == FirstOfEach(InOrder(survivor, absorbed), {})
    ensures Absorbing(survivor, absorbed).name == survivor.name
  {}

  lemma {:induction false} FirstsInTime(versions: seq<Description>, seen: set<string>)
    requires SortedBy(versions, Earlier)
    ensures InTime(FirstOfEach(versions, seen))
    ensures forall v :: v in FirstOfEach(versions, seen) ==> FirstSaid(versions, v)
  {
    if versions != [] {
      var v, rest := versions[0], versions[1..];
      assert versions == [v] + rest;
      TailInTime(v, rest);
      hide SortedBy;
      var now := if v.digest in seen then seen else seen + {v.digest};
      FirstsInTime(rest, now);
      DigestsSurvive(rest, now);
      var firsts := FirstOfEach(rest, now);
      forall w | w in firsts ensures FirstSaid(versions, w) && v.recordedAt <= w.recordedAt {
        assert w.digest in Digests(firsts) && w.digest !in now;
      }
    }
  }

  lemma {:induction false} TailInTime(v: Description, rest: seq<Description>)
    requires SortedBy([v] + rest, Earlier)
    ensures SortedBy(rest, Earlier) && forall w :: w in rest ==> v.recordedAt <= w.recordedAt
  {
    var versions := [v] + rest;
    assert forall i :: 0 <= i < |rest| ==> rest[i] == versions[i + 1];
    forall w | w in rest ensures v.recordedAt <= w.recordedAt {
      var i :| 0 <= i < |rest| && rest[i] == w;
      assert Earlier(versions[0], versions[i + 1]);
    }
  }

  /** So, where nothing was said twice at one time, the judge reads as claiming its
      latest claim exactly when nothing was first said after that was. */
  lemma {:induction false} CurrentIsTheLastClaimIff(survivor: Agent, absorbed: Agent, latest: Description)
    requires var all := survivor.descriptions + absorbed.descriptions;
             && latest in all && (forall w :: w in all ==> w.recordedAt <= latest.recordedAt)
             && (forall v, w :: v in all && w in all && v.recordedAt == w.recordedAt ==> v == w)
    ensures var all, merged := survivor.descriptions + absorbed.descriptions, Absorbing(survivor, absorbed).descriptions;
            && merged != []
            && (merged[|merged| - 1].digest == latest.digest <==>
                  forall v, w :: FirstSaid(all, v) && FirstSaid(all, w) && w.digest == latest.digest ==> v.recordedAt <= w.recordedAt)
  {
    MergedHistory(survivor, absorbed);
    hide Absorbing;
    var all, merged := survivor.descriptions + absorbed.descriptions, Absorbing(survivor, absorbed).descriptions;
    var last := merged[|merged| - 1];
    assert last in merged && FirstSaid(all, last);
    var first :| first in merged && first.digest == latest.digest;
    assert FirstSaid(all, first);
  }

  /** `d` was said, and since it was first said nothing else was said first. */
  ghost predicate NothingNewSince(versions: seq<Description>, d: string) {
    exists i :: NewAt(versions, i) && versions[i].digest == d && forall k :: i < k < |versions| ==> !NewAt(versions, k)
  }

  ghost predicate NewAt(versions: seq<Description>, i: int) {
    0 <= i < |versions| && versions[i].digest !in Digests(versions[..i])
  }

  /** The merged judge is read as claiming what either claimed last exactly
      where nothing new was said since that was first said: not for X, Y and
      then X again, where it is read as claiming Y. */
  lemma {:induction false} CurrentIsTheLatestIff(survivor: Agent, absorbed: Agent)
    requires InOrder(survivor, absorbed) != []
    ensures var all, merged := InOrder(survivor, absorbed), Absorbing(survivor, absorbed).descriptions;
            && merged != []
            && (merged[|merged| - 1].digest == all[|all| - 1].digest <==> NothingNewSince(all, all[|all| - 1].digest))
  {
    hide InOrder;
    var all, merged := InOrder(survivor, absorbed), FirstOfEach(InOrder(survivor, absorbed), {});
    var i := LastNew(all);
    hide FirstOfEach, NewAt;
    var d := all[|all| - 1].digest;
    if NothingNewSince(all, d) {
      var j :| NewAt(all, j) && all[j].digest == d && forall k :: j < k < |all| ==> !NewAt(all, k);
      assert i == j;
    }
  }

  /** The last version kept is the last one that was new. */
  lemma {:induction false} LastNew(versions: seq<Description>) returns (i: nat)
    requires versions != []
    ensures NewAt(versions, i) && forall k :: i < k < |versions| ==> !NewAt(versions, k)
    ensures var firsts := FirstOfEach(versions, {}); firsts != [] && firsts[|firsts| - 1] == versions[i]
  {
    var early, last := versions[..|versions| - 1], versions[|versions| - 1];
    assert versions == early + [last];
    LastFirst(early, last, {});
    if NewAt(versions, |early|) {
      i := |early|;
    } else {
      assert early != [];
      i := LastNew(early);
      forall k | 0 <= k < |early| ensures NewAt(versions, k) <==> NewAt(early, k) {
        assert versions[..k] == early[..k];
      }
    }
  }

  lemma {:induction false} LastFirst(versions: seq<Description>, last: Description, seen: set<string>)
    ensures FirstOfEach(versions + [last], seen)
            == FirstOfEach(versions, seen) + if last.digest in seen + Digests(versions) then [] else [last]
  {
    if versions == [] {
      assert versions + [last] == [last];
    } else {
      var v, rest := versions[0], versions[1..];
      assert versions == [v] + rest && (versions + [last])[1..] == rest + [last];
      assert Digests(versions) == {v.digest} + Digests(rest);
      hide Digests;
      LastFirst(rest, last, if v.digest in seen then seen else seen + {v.digest});
    }
  }

  const X1 := Description("X", 1)
  const Y2 := Description("Y", 2)
  const X3 := Description("X", 3)

  lemma {:induction false} ALateRepeatIsNotCurrent()
    ensures var survivor, absorbed := Agent("1", "a", [], [X1, Y2]), Agent("2", "b", [], [X3]);
            InOrder(survivor, absorbed) == [X1, Y2, X3] && Absorbing(survivor, absorbed).descriptions == [X1, Y2]
  {
    assert [X1, Y2] + [X3] == [X1, Y2, X3];
    SortedAlready();
    hide Sort;
    FirstTwo();
  }

  lemma {:induction false} FirstTwo()
    ensures FirstOfEach([X1, Y2, X3], {}) == [X1, Y2]
  {
    assert [X1, Y2, X3][1..] == [Y2, X3] && [Y2, X3][1..] == [X3] && [X3][1..] == [];
    assert FirstOfEach([X3], {} + {"X"} + {"Y"}) == [];
    assert FirstOfEach([Y2, X3], {} + {"X"}) == [Y2] + [];
  }

  lemma {:induction false} SortedAlready()
    ensures Sort([X1, Y2, X3], Earlier) == [X1, Y2, X3]
  {
    EarlierOrder();
    SortIsSorted([X1, Y2, X3], Earlier);
    hide Sort;
    assert SortedBy([X1, Y2, X3], Earlier) && Untied([X1, Y2, X3], Earlier);
    SortedIsUnique([X1, Y2, X3], Sort([X1, Y2, X3], Earlier), Earlier);
  }

  /** The loop that fills the dict of versions. */
  method Absorb(survivor: Agent, absorbed: Agent) returns (merged: Agent)
    ensures merged == Absorbing(survivor, absorbed)
  {
    var all := InOrder(survivor, absorbed);
    var kept, seen := [], {};
    for k := 0 to |all|
      invariant kept + FirstOfEach(all[k..], seen) == FirstOfEach(all, {})
    {
      assert all[k..][1..] == all[k + 1..];
      if all[k].digest !in seen {
        kept, seen := kept + [all[k]], seen + {all[k].digest};
      }
    }
    merged := survivor.(formerIds := FirstIds(survivor.formerIds + OwnAliases(absorbed), {}), descriptions := kept);
  }

  // --- Runs ---

  /** Storing a record replaces the one of its id. */
  function Upsert(agents: seq<Agent>, a: Agent): seq<Agent> {
    if agents == [] then [a]
    else if agents[0].id == a.id then [a] + agents[1..]
    else [agents[0]] + Upsert(agents[1..], a)
  }

  function WithDescription(versions: seq<Description>, d: Description): seq<Description> {
    if versions != [] && versions[|versions| - 1].digest == d.digest then versions else versions + [d]
  }

  /** Saying what is already current adds nothing; anything else is added at the
      end, and nothing is ever taken away. */
  lemma {:induction false} DescriptionsAreAppended(versions: seq<Description>, d: Description)
    ensures var now := WithDescription(versions, d);
            && versions <= now && now != [] && now[|now| - 1].digest == d.digest
            && (if versions != [] && versions[|versions| - 1].digest == d.digest then |now| == |versions|
                else |now| == |versions| + 1 && now[|versions|] == d)
  {}

  /** A judge nobody named is called by its id, in any case. */
  lemma {:induction false} ANamelessJudgeIsCalledItsId(agents: seq<Agent>, a: Agent, handle: string)
    requires Partition(agents) && UniqueNames(agents) && IsLive(agents, a) && a.name == ""
    requires Strip(handle) != "" && Fold(Strip(handle)) == Fold(a.id) && NoLiveId(agents, Strip(handle))
    ensures ResolveAgent(agents, handle) == Some(a)
  {
    assert AgentName(a) == a.id;
    hide *;
    ANameAnswers(agents, Strip(handle), a);
    TheAnswerIsFound(agents, handle, a);
  }

  datatype Outcome =
    | NeedsAName
    | NoSuchJudge
    | SameJudgeNeeded(agent: Id, holder: Id)
    | Consolidated(holder: Id)
    | Renamed(id: Id)

  function NameHolder(agents: seq<Agent>, name: string, excluding: Id): Option<Agent> {
    WithName(Keep(LiveAgents(agents), set a | a in agents && a.id != excluding), Fold(Strip(name)))
  }

  /** `rename_judge`, up to what it stores: a taken name is a question, and yes
      makes the two one judge. */
  function RenamedRecord(agents: seq<Agent>, handle: string, name: string, sameJudge: bool): (Option<Agent>, Outcome) {
    if Strip(name) == "" then (None, NeedsAName)
    else
      match ResolveAgent(agents, handle)
      case None => (None, NoSuchJudge)
      case Some(agent) =>
        match NameHolder(agents, Strip(name), agent.id)
        case Some(holder) =>
          if sameJudge then (Some(Absorbing(holder, agent)), Consolidated(holder.id))
          else (None, SameJudgeNeeded(agent.id, holder.id))
        case None => (Some(agent.(name := Strip(name))), Renamed(agent.id))
  }

  /** A rename during which nobody else stores a record. */
  function RenameJudge(agents: seq<Agent>, handle: string, name: string, sameJudge: bool): (seq<Agent>, Outcome) {
    var (record, outcome) := RenamedRecord(agents, handle, name, sameJudge);
    (match record case None => agents case Some(r) => Upsert(agents, r), outcome)
  }

  /** What a claim records: a version of the judge the handle names, or a new
      judge called that, under a fresh key or the handle itself. */
  function ClaimedRecord(agents: seq<Agent>, handle: string, key: Id, said: Description): Agent {
    var agent := match ResolveAgent(agents, handle) case Some(a) => a case None => Agent(key, Strip(handle), [], []);
    agent.(name := AgentName(agent), descriptions := WithDescription(agent.descriptions, said))
  }

  /** A claim during which nobody else stores a record. */
  function Claim(agents: seq<Agent>, handle: string, key: Id, said: Description): seq<Agent> {
    Upsert(agents, ClaimedRecord(agents, handle, key, said))
  }

  predicate ClaimPossible(agents: seq<Agent>, handle: string, key: Id) {
    Strip(handle) != "" && (key == Strip(handle) || forall a :: a in agents ==> a.id != key)
  }

  /** What a record said is still said by the judge that answers for its id. */
  ghost predicate Readable(agents: seq<Agent>) {
    forall r, a :: r in agents && IsLive(agents, a) && r.id in Aliases(a) ==>
                     Digests(r.descriptions) <= Digests(a.descriptions)
  }

  ghost predicate Invariant(agents: seq<Agent>) {
    Partition(agents) && UniqueNames(agents) && Readable(agents)
  }

  lemma {:induction false} UpsertHolds(agents: seq<Agent>, a: Agent)
    requires UniqueIds(agents)
    ensures UniqueIds(Upsert(agents, a))
    ensures forall x :: x in Upsert(agents, a) <==> x == a || (x in agents && x.id != a.id)
  {
    if agents != [] {
      var rest := Upsert(agents[1..], a);
      assert agents == [agents[0]] + agents[1..];
      UpsertHolds(agents[1..], a);
      assert forall x :: x in agents[1..] ==> x.id != agents[0].id;
      if agents[0].id != a.id {
        forall j | 0 <= j < |rest| ensures rest[j].id != agents[0].id {
          assert rest[j] in rest;
        }
      }
    }
  }

  /** How the live judges change when a record takes over the ids in `gained`. */
  lemma {:induction false} LiveAfter(agents: seq<Agent>, a: Agent, now: Agent, gained: set<Id>)
    requires UniqueIds(agents) && a in agents && now.id == a.id
    requires Former(now) == Former(a) + gained && a.id !in gained
    ensures forall x :: IsLive(Upsert(agents, now), x) <==>
                          (x == now && IsLive(agents, a)) || (IsLive(agents, x) && x.id != a.id && x.id !in gained)
  {
    var after := Upsert(agents, now);
    UpsertHolds(agents, now);
    IdsTell(agents, a);
    hide Upsert, UniqueIds;
    AbsorbedAre(agents);
    AbsorbedAre(after);
    hide AbsorbedIds;
    forall f ensures f in AbsorbedIds(after) <==> f in AbsorbedIds(agents) || f in gained {
      NewlyAbsorbed(agents, after, a, now, gained, f);
    }
  }

  lemma {:induction false} IdsTell(agents: seq<Agent>, a: Agent)
    requires UniqueIds(agents) && a in agents
    ensures forall x :: x in agents && x.id == a.id ==> x == a
  {}

  ghost predicate Claims(agents: seq<Agent>, x: Agent, f: Id) { x in agents && f in Former(x) && f != x.id }

  lemma {:induction false} AbsorbedAre(agents: seq<Agent>)
    ensures forall f :: f in AbsorbedIds(agents) <==> exists x :: Claims(agents, x, f)
  {
    forall f | f in AbsorbedIds(agents) ensures exists x :: Claims(agents, x, f) {
      var x :| x in agents && f in x.formerIds && f != x.id;
      assert Claims(agents, x, f);
    }
  }

  lemma {:induction false} NewlyAbsorbed(agents: seq<Agent>, after: seq<Agent>, a: Agent, now: Agent,
          gained: set<Id>, f: Id)
    requires a in agents && forall x :: x in agents && x.id == a.id ==> x == a
    requires now.id == a.id && Former(now) == Former(a) + gained && a.id !in gained
    requires forall x :: x in after <==> x == now || (x in agents && x.id != now.id)
    ensures (exists x :: Claims(after, x, f)) <==> (exists x :: Claims(agents, x, f)) || f in gained
  {
    if x :| Claims(agents, x, f) {
      assert Claims(after, if x.id == a.id then now else x, f);
    }
    if x :| Claims(after, x, f) {
      assert Claims(agents, if x == now then a else x, f) || f in gained;
    }
    if f in gained {
      assert Claims(after, now, f);
    }
  }

  /** The ids in `gained` are nobody's, or all of some other live judges' ids. */
  ghost predicate Whole(agents: seq<Agent>, a: Agent, gained: set<Id>) {
    && gained !! Aliases(a)
    && (forall f :: f in gained ==> Recorded(agents, f))
    && (forall x :: IsLive(agents, x) && x.id in gained ==> Aliases(x) <= gained)
    && (forall x :: IsLive(agents, x) && x.id !in gained ==> Aliases(x) !! gained)
  }

  /** A live judge's record replaced by one that answers for `gained` as well. */
  ghost predicate TakesOver(agents: seq<Agent>, a: Agent, now: Agent, gained: set<Id>) {
    && IsLive(agents, a) && now.id == a.id && Former(now) == Former(a) + gained && Whole(agents, a, gained)
    && Digests(a.descriptions) <= Digests(now.descriptions)
    && (forall r :: r in agents && r.id in gained ==> Digests(r.descriptions) <= Digests(now.descriptions))
    && (forall x :: IsLive(agents, x) && x != a && x.id !in gained ==> Fold(AgentName(x)) != Fold(AgentName(now)))
  }

  lemma {:induction false} TakingOver(agents: seq<Agent>, a: Agent, now: Agent, gained: set<Id>)
    requires Invariant(agents) && TakesOver(agents, a, now, gained)
    ensures Invariant(Upsert(agents, now)) && Grows(agents, Upsert(agents, now))
  {
    var after := Upsert(agents, now);
    RecordReplaced(agents, a, now, gained);
    hide Upsert, TakesOver, Replaced, UniqueNames, Readable, Grows, FormersRecorded, Disjoint, Covered;
    FormersAfter(agents, after, a, now, gained);
    DisjointAfter(agents, after, a, now, gained);
    CoveredAfter(agents, after, a, now, gained);
    NamesAfter(agents, after, a, now, gained);
    ReadableAfter(agents, after, a, now, gained);
    GrowsAfter(agents, after, a, now, gained);
    IdsUnique(agents, after, a, now, gained);
  }

  /** What replacing the record changes. */
  ghost predicate Replaced(agents: seq<Agent>, after: seq<Agent>, a: Agent, now: Agent, gained: set<Id>) {
    && UniqueIds(after)
    && (forall x :: x in agents && x.id == a.id ==> x == a)
    && (forall x :: x in after <==> x == now || (x in agents && x.id != now.id))
    && (forall x :: IsLive(after, x) <==> x == now || (IsLive(agents, x) && x.id != a.id && x.id !in gained))
  }

  lemma {:induction false} RecordReplaced(agents: seq<Agent>, a: Agent, now: Agent, gained: set<Id>)
    requires UniqueIds(agents) && TakesOver(agents, a, now, gained)
    ensures Replaced(agents, Upsert(agents, now), a, now, gained)
  {
    hide Upsert, AbsorbedIds, Fold, AgentName, Digests;
    assert a.id in Aliases(a);
    LiveAfter(agents, a, now, gained);
    UpsertHolds(agents, now);
    IdsTell(agents, a);
  }

  lemma {:induction false} IdsUnique(agents: seq<Agent>, after: seq<Agent>, a: Agent, now: Agent, gained: set<Id>)
    requires Replaced(agents, after, a, now, gained)
    ensures UniqueIds(after)
  {}

  lemma {:induction false} FormersAfter(agents: seq<Agent>, after: seq<Agent>, a: Agent, now: Agent, gained: set<Id>)
    requires FormersRecorded(agents) && TakesOver(agents, a, now, gained) && Replaced(agents, after, a, now, gained)
    ensures FormersRecorded(after)
  {
    hide AbsorbedIds, Fold, AgentName, UniqueIds, Digests;
    assert a.id in Aliases(a);
    forall id | Recorded(agents, id) ensures Recorded(after, id) {
      var r :| r in agents && r.id == id;
      assert (if id == a.id then now else r) in after;
    }
    forall x | x in after ensures FormersOf(after, x) {
      assert FormersOf(agents, if x == now then a else x);
      forall f | f in x.formerIds ensures Recorded(after, f) {
        if x == now {
          assert f in Former(now);
        }
      }
      assert now.id in now.formerIds ==> now.id in Former(now);
    }
  }

  lemma {:induction false} CoveredAfter(agents: seq<Agent>, after: seq<Agent>, a: Agent, now: Agent, gained: set<Id>)
    requires Covered(agents) && TakesOver(agents, a, now, gained) && Replaced(agents, after, a, now, gained)
    ensures Covered(after)
  {
    hide IsLive, Fold, AgentName, UniqueIds, Digests;
    forall r | r in after ensures Answered(after, r.id) {
      assert Answered(agents, r.id) by {
        assert IsLive(agents, a) && a.id in Aliases(a);
      }
      var x :| IsLive(agents, x) && r.id in Aliases(x);
      StillAnswered(agents, after, a, now, gained, x, r.id);
    }
  }

  lemma {:induction false} StillAnswered(agents: seq<Agent>, after: seq<Agent>, a: Agent, now: Agent,
          gained: set<Id>, x: Agent, id: Id)
    requires TakesOver(agents, a, now, gained) && Replaced(agents, after, a, now, gained)
    requires IsLive(agents, x) && id in Aliases(x)
    ensures Answered(after, id)
  {}

  lemma {:induction false} DisjointAfter(agents: seq<Agent>, after: seq<Agent>, a: Agent, now: Agent, gained: set<Id>)
    requires Disjoint(agents) && TakesOver(agents, a, now, gained) && Replaced(agents, after, a, now, gained)
    ensures Disjoint(after)
  {}

  lemma {:induction false} NamesAfter(agents: seq<Agent>, after: seq<Agent>, a: Agent, now: Agent, gained: set<Id>)
    requires UniqueNames(agents) && TakesOver(agents, a, now, gained) && Replaced(agents, after, a, now, gained)
    ensures UniqueNames(after)
  {}

  lemma {:induction false} ReadableAfter(agents: seq<Agent>, after: seq<Agent>, a: Agent, now: Agent, gained: set<Id>)
    requires Disjoint(agents) && Readable(agents)
    requires TakesOver(agents, a, now, gained) && Replaced(agents, after, a, now, gained)
    ensures Readable(after)
  {}

  /** Whatever `r` says and answers for, `s` does. */
  predicate Says(s: Agent, r: Agent) {
    Digests(r.descriptions) <= Digests(s.descriptions) && Former(r) <= Former(s)
  }

  /** Every record is still there, saying at least what it said and answering for
      every id it did. */
  ghost predicate Grows(agents: seq<Agent>, after: seq<Agent>) {
    forall r :: r in agents ==> GrownTo(after, r)
  }

  ghost predicate GrownTo(after: seq<Agent>, r: Agent) {
    exists s :: s in after && s.id == r.id && Says(s, r)
  }

  lemma {:induction false} GrowsAfter(agents: seq<Agent>, after: seq<Agent>, a: Agent, now: Agent, gained: set<Id>)
    requires TakesOver(agents, a, now, gained) && Replaced(agents, after, a, now, gained)
    ensures Grows(agents, after)
  {}

  /** A judge nobody recorded yet, called what nobody is called. */
  lemma {:induction false} AddingAJudge(agents: seq<Agent>, n: Agent)
    requires Invariant(agents) && !Recorded(agents, n.id) && n.formerIds == []
    requires forall x :: IsLive(agents, x) ==> Fold(AgentName(x)) != Fold(AgentName(n))
    ensures Invariant(Upsert(agents, n)) && Grows(agents, Upsert(agents, n))
    ensures forall x :: IsLive(Upsert(agents, n), x) <==> x == n || IsLive(agents, x)
  {
    var after := Upsert(agents, n);
    UpsertHolds(agents, n);
    LiveWith(agents, after, n);
    hide Upsert, Fold, AgentName, IsLive, UniqueIds, Digests, Covered, FormersRecorded, Readable, Aliases, Recorded, Disjoint, UniqueNames;
    NothingShared(agents, n);
    AddedIsCovered(agents, after, n);
    NobodyAsksForTheNew(agents, after, n);
    AddedGrows(agents, after, n);
    AddedApart(agents, after, n);
  }

  lemma {:induction false} AddedApart(agents: seq<Agent>, after: seq<Agent>, n: Agent)
    requires Disjoint(agents) && UniqueNames(agents)
    requires forall x :: IsLive(after, x) <==> x == n || IsLive(agents, x)
    requires forall x :: IsLive(agents, x) ==> Aliases(x) !! Aliases(n) && Fold(AgentName(x)) != Fold(AgentName(n))
    ensures Disjoint(after) && UniqueNames(after)
  {}

  lemma {:induction false} AddedGrows(agents: seq<Agent>, after: seq<Agent>, n: Agent)
    requires !Recorded(agents, n.id) && forall x :: x in after <==> x == n || (x in agents && x.id != n.id)
    ensures Grows(agents, after)
  {}

  lemma {:induction false} NothingShared(agents: seq<Agent>, n: Agent)
    requires FormersRecorded(agents) && !Recorded(agents, n.id) && n.formerIds == []
    ensures forall x :: IsLive(agents, x) ==> Aliases(x) !! Aliases(n)
  {}

  lemma {:induction false} AddedIsCovered(agents: seq<Agent>, after: seq<Agent>, n: Agent)
    requires Covered(agents) && FormersRecorded(agents) && n.formerIds == []
    requires forall x :: x in after <==> x == n || (x in agents && x.id != n.id)
    requires forall x :: IsLive(after, x) <==> x == n || IsLive(agents, x)
    ensures Covered(after) && FormersRecorded(after)
  {
    hide IsLive;
    forall r | r in after ensures Answered(after, r.id) {
      if r != n {
        var x :| IsLive(agents, x) && r.id in Aliases(x);
        assert IsLive(after, x);
      } else {
        assert IsLive(after, n) && n.id in Aliases(n);
      }
    }
    forall id | Recorded(agents, id) ensures Recorded(after, id) {
      var r :| r in agents && r.id == id;
      assert (if id == n.id then n else r) in after;
    }
    forall x | x in after ensures FormersOf(after, x) {
      if x != n {
        assert FormersOf(agents, x);
      }
    }
  }

  lemma {:induction false} NobodyAsksForTheNew(agents: seq<Agent>, after: seq<Agent>, n: Agent)
    requires Readable(agents) && Covered(agents)
    requires forall x :: x in after <==> x == n || (x in agents && x.id != n.id)
    requires forall x :: IsLive(after, x) <==> x == n || IsLive(agents, x)
    requires forall x :: IsLive(agents, x) ==> Aliases(x) !! Aliases(n)
    ensures Readable(after)
  {}

  lemma {:induction false} LiveWith(agents: seq<Agent>, after: seq<Agent>, n: Agent)
    requires FormersRecorded(agents) && !Recorded(agents, n.id) && n.formerIds == []
    requires forall x :: x in after <==> x == n || (x in agents && x.id != n.id)
    ensures forall x :: IsLive(after, x) <==> x == n || IsLive(agents, x)
  {}

  lemma {:induction false} HolderFound(agents: seq<Agent>, name: string, excluding: Id)
    ensures var holder := NameHolder(agents, name, excluding);
            && (holder.Some? ==> IsLive(agents, holder.value) && holder.value.id != excluding
                                 && Fold(AgentName(holder.value)) == Fold(Strip(name)))
            && (holder.None? ==> forall x :: IsLive(agents, x) && x.id != excluding ==> Fold(AgentName(x)) != Fold(Strip(name)))
  {
    var chosen := set a | a in agents && a.id != excluding;
    var others := Keep(LiveAgents(agents), chosen);
    LiveListed(agents);
    KeepBag(LiveAgents(agents), chosen);
    hide LiveAgents, Keep, Fold, AgentName, Strip;
    forall x ensures x in others <==> IsLive(agents, x) && x.id != excluding {
      assert x in others <==> x in multiset(others);
      assert x in LiveAgents(agents) <==> x in multiset(LiveAgents(agents));
    }
    Lookups(others, Fold(Strip(name)));
  }

  lemma {:induction false} UnresolvedIsUnrecorded(agents: seq<Agent>, handle: string)
    requires Partition(agents) && Strip(handle) != "" && ResolveAgent(agents, handle).None?
    ensures !Recorded(agents, Strip(handle)) && NoLiveName(agents, Strip(handle))
  {
    var h := Strip(handle);
    ResolvingFinds(agents, handle);
    assert Covered(agents);
    hide *;
    forall b | IsLive(agents, b) ensures !IsCalled(b, h) {
      if IsCalled(b, h) {
        var _ := SomebodyAnswers(agents, h, b);
      }
    }
    NotCalledIsNotRecorded(agents, h);
  }

  lemma {:induction false} NotCalledIsNotRecorded(agents: seq<Agent>, h: string)
    requires Covered(agents) && forall b :: IsLive(agents, b) ==> !IsCalled(b, h)
    ensures !Recorded(agents, h) && NoLiveName(agents, h)
  {}

  ghost predicate IsCalled(a: Agent, h: string) { a.id == h || Fold(AgentName(a)) == Fold(h) || h in a.formerIds }

  lemma {:induction false} SomebodyAnswers(agents: seq<Agent>, h: string, a: Agent) returns (c: Agent)
    requires IsLive(agents, a) && IsCalled(a, h)
    ensures Answers(agents, h, c)
  {
    hide IsLive, Fold, AgentName;
    if !NoLiveId(agents, h) {
      c :| IsLive(agents, c) && c.id == h;
    } else if !NoLiveName(agents, h) {
      c :| IsLive(agents, c) && Fold(AgentName(c)) == Fold(h);
    } else {
      c := a;
    }
  }

  lemma {:induction false} ClaimingKeeps(agents: seq<Agent>, handle: string, key: Id, said: Description)
    requires Invariant(agents) && ClaimPossible(agents, handle, key)
    ensures Invariant(Claim(agents, handle, key, said)) && Grows(agents, Claim(agents, handle, key, said))
  {
    ResolvingFinds(agents, handle);
    if ResolveAgent(agents, handle).Some? {
      var a := ResolveAgent(agents, handle).value;
      var now := a.(name := AgentName(a), descriptions := WithDescription(a.descriptions, said));
      hide ResolveAgent, Fold, Strip, Invariant;
      ClaimedAgain(agents, a, now);
      TakingOver(agents, a, now, {});
    } else {
      var n := Agent(key, Strip(handle), [], WithDescription([], said));
      UnresolvedIsUnrecorded(agents, handle);
      hide ResolveAgent, Fold, Strip, Partition, UniqueNames, Readable, WithDescription;
      AddingAJudge(agents, n);
    }
  }

  ghost predicate OthersKept(agents: seq<Agent>, after: seq<Agent>, id: Id) {
    forall x: Agent :: x.id != id ==> (x in after <==> x in agents)
  }

  /** What was said is what the claimed judge is now read as claiming: the judge
      the handle names, or a new one called that. Nobody else's record changes. */
  lemma {:induction false} ClaimingRecordsTheClaim(agents: seq<Agent>, handle: string, key: Id,
          said: Description) returns (a: Agent)
    requires Invariant(agents) && ClaimPossible(agents, handle, key)
    ensures var after, who := Claim(agents, handle, key, said), ResolveAgent(agents, handle);
            && IsLive(after, a) && a.id == (if who.Some? then who.value.id else key)
            && AgentName(a) == (if who.Some? then AgentName(who.value) else Strip(handle))
            && a.descriptions != [] && a.descriptions[|a.descriptions| - 1].digest == said.digest
            && OthersKept(agents, after, a.id)
  {
    hide ResolveAgent, Upsert, IsLive, Strip, Partition, UniqueNames, Readable;
    AResolvedJudgeIsLive(agents, handle);
    var who := ResolveAgent(agents, handle);
    if who.Some? {
      a := who.value.(name := AgentName(who.value), descriptions := WithDescription(who.value.descriptions, said));
      OneRecordChanges(agents, who.value, a, {});
    } else {
      a := Newcomer(handle, key, said);
      NewcomerIsAdded(agents, handle, key, said);
      IdsOf(agents);
      UpsertHolds(agents, a);
      hide AgentName;
    }
  }

  lemma {:induction false} IdsOf(agents: seq<Agent>)
    requires Partition(agents)
    ensures UniqueIds(agents)
  {}

  lemma {:induction false} ClaimedAgain(agents: seq<Agent>, a: Agent, now: Agent)
    requires Invariant(agents) && IsLive(agents, a) && now == a.(name := AgentName(a), descriptions := now.descriptions)
    requires a.descriptions <= now.descriptions
    ensures TakesOver(agents, a, now, {})
  {
    hide IsLive, Fold, FormersRecorded, Disjoint, Covered, UniqueIds, Readable;
    assert AgentName(now) == AgentName(a);
    hide AgentName;
    forall v | v in a.descriptions ensures v in now.descriptions {}
  }

  lemma {:induction false} RenamingKeeps(agents: seq<Agent>, handle: string, name: string, sameJudge: bool)
    requires Invariant(agents)
    ensures var after := RenameJudge(agents, handle, name, sameJudge).0; Invariant(after) && Grows(agents, after)
  {
    hide Invariant, Upsert, Absorbing, ResolveAgent, NameHolder, Grows, IsLive, TakesOver, Fold, AgentName, Aliases;
    NothingLost(agents);
    if RenamedRecord(agents, handle, name, sameJudge).0.Some? {
      var a := ResolveAgent(agents, handle).value;
      var holder := NameHolder(agents, Strip(name), a.id);
      AResolvedJudgeIsLive(agents, handle);
      HolderFound(agents, Strip(name), a.id);
      StripTwice(name);
      hide Strip;
      if holder.None? {
        RenamedApart(agents, a, Strip(name));
        TakingOver(agents, a, a.(name := Strip(name)), {});
      } else {
        AbsorbsWhole(agents, holder.value, a);
        TakingOver(agents, holder.value, Absorbing(holder.value, a), Aliases(a));
      }
    }
  }

  /** Which answer a rename gets: another judge called that already is a question,
      and only yes makes the two one. */
  lemma {:induction false} RenamingAnswers(agents: seq<Agent>, handle: string, name: string, sameJudge: bool)
    ensures var outcome, who := RenameJudge(agents, handle, name, sameJudge).1, ResolveAgent(agents, handle);
            && (outcome.NeedsAName? <==> Strip(name) == "")
            && (outcome.NoSuchJudge? <==> Strip(name) != "" && who.None?)
            && (outcome.SameJudgeNeeded? || outcome.Consolidated? <==>
                  Strip(name) != "" && who.Some?
                  && exists x :: IsLive(agents, x) && x.id != who.value.id && Fold(AgentName(x)) == Fold(Strip(name)))
            && (outcome.Consolidated? ==> sameJudge) && (outcome.SameJudgeNeeded? ==> !sameJudge)
            && (outcome.SameJudgeNeeded? ==>
                  && outcome.agent == who.value.id
                  && exists x :: IsLive(agents, x) && x.id == outcome.holder != outcome.agent
                                 && Fold(AgentName(x)) == Fold(Strip(name)))
  {
    hide ResolveAgent, NameHolder, IsLive, Fold, AgentName, Upsert, Absorbing;
    if Strip(name) != "" && ResolveAgent(agents, handle).Some? {
      HolderFound(agents, Strip(name), ResolveAgent(agents, handle).value.id);
      StripTwice(name);
      hide Strip;
    }
  }

  /** Every record but one is left as it was; that one is the judge under its new
      name, or the holder answering for both, and then the other is live no more. */
  lemma {:induction false} RenamingChangesOneRecord(agents: seq<Agent>, handle: string, name: string, sameJudge: bool)
    requires Invariant(agents)
    ensures var r, who := RenameJudge(agents, handle, name, sameJudge), ResolveAgent(agents, handle);
            match r.1
            case Renamed(id) =>
              && who.Some? && who.value.id == id && IsLive(r.0, who.value.(name := Strip(name)))
              && OthersKept(agents, r.0, id)
            case Consolidated(id) =>
              && who.Some? && who.value.id != id && !IsLive(r.0, who.value)
              && (exists now :: IsLive(r.0, now) && now.id == id && Fold(AgentName(now)) == Fold(Strip(name))
                                && Aliases(who.value) <= Aliases(now))
              && OthersKept(agents, r.0, id)
            case _ => r.0 == agents
  {
    hide Invariant, Upsert, Absorbing, ResolveAgent, NameHolder, IsLive, Fold, AgentName, Aliases;
    if Strip(name) != "" && ResolveAgent(agents, handle).Some? {
      var a := ResolveAgent(agents, handle).value;
      var holder := NameHolder(agents, Strip(name), a.id);
      AResolvedJudgeIsLive(agents, handle);
      HolderFound(agents, Strip(name), a.id);
      StripTwice(name);
      hide Strip;
      if holder.None? {
        OneRecordChanges(agents, a, a.(name := Strip(name)), {});
      } else if sameJudge {
        AbsorbedFormers(holder.value, a);
        ApartFrom(agents, holder.value, a);
        OneRecordChanges(agents, holder.value, Absorbing(holder.value, a), Aliases(a));
      }
    }
  }

  lemma {:induction false} ApartFrom(agents: seq<Agent>, holder: Agent, a: Agent)
    requires Invariant(agents) && IsLive(agents, holder) && IsLive(agents, a) && holder.id != a.id
    ensures holder.id !in Aliases(a) && a.id in Aliases(a)
  {
    hide IsLive, UniqueIds, FormersRecorded, Covered, UniqueNames, Readable;
    assert holder.id in Aliases(holder);
  }

  lemma {:induction false} OneRecordChanges(agents: seq<Agent>, a: Agent, now: Agent, gained: set<Id>)
    requires Invariant(agents) && IsLive(agents, a) && now.id == a.id
    requires Former(now) == Former(a) + gained && a.id !in gained
    ensures var after := Upsert(agents, now);
            && IsLive(after, now) && OthersKept(agents, after, a.id)
            && (forall x: Agent :: x.id in gained ==> !IsLive(after, x)) && gained <= Aliases(now)
  {
    hide IsLive, Upsert, UniqueIds, FormersRecorded, Disjoint, Covered, UniqueNames, Readable;
    LiveIsRecorded(agents, a);
    LiveAfter(agents, a, now, gained);
    UpsertHolds(agents, now);
  }

  lemma {:induction false} NothingLost(agents: seq<Agent>)
    ensures Grows(agents, agents)
  {}

  lemma {:induction false} AResolvedJudgeIsLive(agents: seq<Agent>, handle: string)
    ensures ResolveAgent(agents, handle).Some? ==> IsLive(agents, ResolveAgent(agents, handle).value)
  {
    if Strip(handle) != "" {
      ResolvingFinds(agents, handle);
    }
  }

  lemma {:induction false} RenamedApart(agents: seq<Agent>, a: Agent, name: string)
    requires Invariant(agents) && IsLive(agents, a) && name != ""
    requires forall x :: IsLive(agents, x) && x.id != a.id ==> Fold(AgentName(x)) != Fold(name)
    ensures TakesOver(agents, a, a.(name := name), {})
  {
    hide IsLive, Fold, FormersRecorded, Covered, UniqueIds, Readable;
    assert AgentName(a.(name := name)) == name;
    forall x | IsLive(agents, x) && x != a ensures x.id != a.id {
      assert x.id in Aliases(x) && a.id in Aliases(a);
    }
    hide AgentName;
  }

  /** Absorbing one live judge into another takes over exactly its ids. */
  lemma {:induction false} AbsorbsWhole(agents: seq<Agent>, holder: Agent, a: Agent)
    requires Invariant(agents) && IsLive(agents, holder) && IsLive(agents, a) && holder.id != a.id
    ensures TakesOver(agents, holder, Absorbing(holder, a), Aliases(a))
  {
    hide IsLive, Fold, AgentName, FormersRecorded, Covered, UniqueIds, Absorbing, Digests, Former, Whole, Aliases, Disjoint;
    AbsorbingKeepsEverything(holder, a);
    AbsorbedFormers(holder, a);
    AllOfTheirs(agents, holder, a);
  }

  lemma {:induction false} AbsorbedFormers(holder: Agent, a: Agent)
    ensures Former(Absorbing(holder, a)) == Former(holder) + Aliases(a)
    ensures Absorbing(holder, a).id == holder.id && AgentName(Absorbing(holder, a)) == AgentName(holder)
  {
    OwnAliasesAreAliases(a);
    FirstsHold(holder.formerIds + OwnAliases(a), {});
    hide FirstIds, FirstOfEach, OwnAliases;
  }

  lemma {:induction false} AllOfTheirs(agents: seq<Agent>, holder: Agent, a: Agent)
    requires Partition(agents) && IsLive(agents, holder) && IsLive(agents, a) && holder != a
    ensures Whole(agents, holder, Aliases(a))
  {
    hide UniqueIds, Covered;
    forall f | f in Aliases(a) ensures Recorded(agents, f) {
      assert FormersOf(agents, a);
    }
    hide FormersRecorded, Recorded, AbsorbedIds;
    forall x | IsLive(agents, x) ensures x.id in Aliases(x) {}
    hide Aliases;
  }

  lemma {:induction false} NoJudgesYet()
    ensures Invariant([])
  {}

  /** Exactly one live judge answers for a recorded id, and it says all the
      record of that id ever said. */
  lemma {:induction false} TheReader(agents: seq<Agent>, r: Agent, digest: string) returns (a: Agent)
    requires Invariant(agents) && GrownTo(agents, r) && digest in Digests(r.descriptions)
    ensures IsLive(agents, a) && r.id in Aliases(a) && digest in Digests(a.descriptions)
    ensures forall b :: IsLive(agents, b) && r.id in Aliases(b) ==> b == a
  {
    hide IsLive, Digests, UniqueIds, FormersRecorded, UniqueNames, Aliases;
    var s :| s in agents && s.id == r.id && Says(s, r);
    assert Answered(agents, s.id);
    a :| IsLive(agents, a) && s.id in Aliases(a);
  }

  /** Names fold case and ids do not: a new judge may be called what an absorbed
      id says in another case, and from then on that id finds the new judge. */
  lemma {:induction false} ANewNameTakesAnAbsorbedId(agents: seq<Agent>, id: Id, a: Agent, handle: string, key: Id,
          said: Description)
    requires Invariant(agents) && IsLive(agents, a) && id in a.formerIds && Strip(id) == id && id != ""
    requires ClaimPossible(agents, handle, key) && ResolveAgent(agents, handle).None?
    requires Fold(Strip(handle)) == Fold(id)
    ensures var after := Claim(agents, handle, key, said);
            ResolveAgent(agents, id) == Some(a) && ResolveAgent(after, id).Some? && ResolveAgent(after, id).value.id == key
  {
    hide *;
    NewcomerIsAdded(agents, handle, key, said);
    var n, after := Newcomer(handle, key, said), Claim(agents, handle, key, said);
    AbsorbedIdFindsItsAbsorberIff(agents, id, a);
    FormerIdsAreNotLive(after, id, a);
    ANameAnswers(after, id, n);
    TheAnswerIsFound(after, id, n);
  }

  function Newcomer(handle: string, key: Id, said: Description): Agent {
    Agent(key, Strip(handle), [], WithDescription([], said))
  }

  lemma {:induction false} NewcomerIsAdded(agents: seq<Agent>, handle: string, key: Id, said: Description)
    requires Invariant(agents) && ClaimPossible(agents, handle, key) && ResolveAgent(agents, handle).None?
    ensures var n, after := Newcomer(handle, key, said), Claim(agents, handle, key, said);
            && Invariant(after) && n.id == key && AgentName(n) == Strip(handle)
            && (forall x :: IsLive(after, x) <==> x == n || IsLive(agents, x))
            && Partition(agents) && UniqueNames(agents) && Partition(after) && UniqueNames(after)
            && (forall x :: IsLive(agents, x) ==> Fold(AgentName(x)) != Fold(AgentName(n)))
  {
    var n := Newcomer(handle, key, said);
    UnresolvedIsUnrecorded(agents, handle);
    assert Claim(agents, handle, key, said) == Upsert(agents, n);
    hide ResolveAgent, Fold, Strip, Readable, Upsert, UniqueNames, Partition, WithDescription;
    AddingAJudge(agents, n);
  }

  const BEE := Agent("k", "Bee", ["A"], [])
  const WAS_A := Agent("A", "A", [], [])

  /** For one: the judge recorded as "A" was absorbed by Bee, and a new judge is
      called "a". */
  lemma {:induction false} AnAbsorbedIdIsTaken(said: Description)
    ensures Invariant([BEE, WAS_A])
    ensures ResolveAgent([BEE, WAS_A], "A") == Some(BEE)
    ensures var after := Claim([BEE, WAS_A], "a", "n", said);
            ResolveAgent(after, "A").Some? && ResolveAgent(after, "A").value.id == "n"
  {
    var agents := [BEE, WAS_A];
    BeeIsTheJudge();
    OneCharacter('A');
    OneCharacter('a');
    hide Invariant, Strip, IsLive, Partition, UniqueNames, Claim;
    NobodyIsCalledA();
    ANewNameTakesAnAbsorbedId(agents, "A", BEE, "a", "n", said);
  }

  lemma {:induction false} OneCharacter(c: char)
    requires !IsWhite(c)
    ensures Strip([c]) == [c] && Fold([c]) == [LowerChar(c)]
  {}

  lemma {:induction false} BeeIsTheJudge()
    ensures Invariant([BEE, WAS_A])
    ensures forall x :: IsLive([BEE, WAS_A], x) <==> x == BEE
  {
    var agents := [BEE, WAS_A];
    AbsorbedAre(agents);
    assert Claims(agents, BEE, "A");
    assert forall x :: x in agents <==> x == BEE || x == WAS_A;
    assert Former(BEE) == {"A"} && Former(WAS_A) == {};
    hide AbsorbedIds;
    assert forall x :: IsLive(agents, x) <==> x == BEE;
    hide IsLive;
    assert Aliases(BEE) == {"k", "A"};
    assert Recorded(agents, "A");
    assert Answered(agents, "A") && Answered(agents, "k");
  }

  lemma {:induction false} NobodyIsCalledA()
    requires Strip("a") == "a" && Fold("a") == "a"
    ensures ResolveAgent([BEE, WAS_A], "a").None?
  {
    var agents := [BEE, WAS_A];
    BeeIsTheJudge();
    ResolvingFinds(agents, "a");
    hide ResolveAgent, Invariant, Strip, IsLive;
    assert Fold("Bee")[0] == 'b';
  }
}
