/** Registry calls that overlap: each lists the judges, may wait for a person,
    and then stores one record whole (claim_agent, rename_judge, retire_judge and
    reinstate_judge in epimemer/mcp/tools.py). */
module RegistryRuns {
  import opened Options
  import opened Characters
  import opened AgentRegistry
  import opened RegistryWrites

  /** Retiring, reinstating and stamping a description as confirmed are marks: they
      store the record as it was read, but for what no property here speaks of. */
  datatype Act =
    | Claiming(handle: string, key: Id, said: Description)
    | Renaming(handle: string, name: string, sameJudge: bool)
    | Marking(handle: string)

  ghost predicate ActPossible(agents: seq<Agent>, act: Act) {
    act.Claiming? ==> ClaimPossible(agents, act.handle, act.key)
  }

  /** The record a call will store, by the judges it listed; none when it is refused. */
  function Prepared(agents: seq<Agent>, act: Act): Option<Agent> {
    match act
    case Claiming(handle, key, said) => Some(ClaimedRecord(agents, handle, key, said))
    case Renaming(handle, name, sameJudge) => RenamedRecord(agents, handle, name, sameJudge).0
    case Marking(handle) => ResolveAgent(agents, handle)
  }

  /** The record a call edits. */
  function Edited(agents: seq<Agent>, act: Act): Option<Agent> {
    match (act, ResolveAgent(agents, act.handle))
    case (Renaming(_, name, _), Some(agent)) =>
      var holder := NameHolder(agents, Strip(name), agent.id);
      if holder.Some? then holder else Some(agent)
    case (_, who) => who
  }

  /** A call between its read and its write. */
  datatype Draft = Draft(act: Act, read: seq<Agent>, record: Agent)

  datatype State = State(agents: seq<Agent>, pending: multiset<Draft>)

  /** A call that is declined or fails while it waits is read and never stored. */
  datatype Event = Reads(act: Act) | Stores(draft: Draft)

  ghost predicate Possible(s: State, e: Event) {
    match e
    case Reads(act) => ActPossible(s.agents, act)
    case Stores(draft) => draft in s.pending
  }

  function After(s: State, e: Event): State {
    match e
    case Reads(act) =>
      (match Prepared(s.agents, act)
       case None => s
       case Some(record) => s.(pending := s.pending + multiset{Draft(act, s.agents, record)}))
    case Stores(draft) => State(Upsert(s.agents, draft.record), s.pending - multiset{draft})
  }

  ghost predicate Trace(ss: seq<State>, es: seq<Event>) {
    && |ss| == |es| + 1 && ss[0].pending == multiset{}
    && forall i :: 0 <= i < |es| ==> Possible(ss[i], es[i]) && ss[i + 1] == After(ss[i], es[i])
  }

  /** The draft is what its call prepared from an orderly listing. */
  ghost predicate WellPrepared(d: Draft) {
    Invariant(d.read) && ActPossible(d.read, d.act) && Prepared(d.read, d.act) == Some(d.record)
  }

  ghost predicate PendingSound(s: State) { AllSound(s.agents, s.pending) }

  ghost predicate AllSound(agents: seq<Agent>, pending: multiset<Draft>) {
    forall d :: d in pending ==> WellPrepared(d) && Sound(agents, d.record)
  }

  lemma {:induction false} PreparedIsSound(agents: seq<Agent>, act: Act)
    requires Invariant(agents) && Prepared(agents, act).Some?
    ensures Sound(agents, Prepared(agents, act).value)
  {
    AResolvedJudgeIsLive(agents, act.handle);
    hide Invariant, ResolveAgent, RenamedRecord, IsLive, Sound, Strip, WithDescription;
    if act.Renaming? {
      RenamedIsSound(agents, act.handle, act.name, act.sameJudge);
    } else if ResolveAgent(agents, act.handle).Some? {
      EditedIsSound(agents, ResolveAgent(agents, act.handle).value, Prepared(agents, act).value);
    } else {
      NoFormersIsSound(agents, Prepared(agents, act).value);
    }
  }

  lemma {:induction false} EditedIsSound(agents: seq<Agent>, a: Agent, record: Agent)
    requires Invariant(agents) && IsLive(agents, a) && record.id == a.id && record.formerIds == a.formerIds
    ensures Sound(agents, record)
  {
    Split(agents);
    hide Invariant, Disjoint, Covered;
    LiveIsRecorded(agents, a);
    LiveIsSound(agents, a);
    hide IsLive, Recorded, FormersRecorded;
  }

  lemma {:induction false} NoFormersIsSound(agents: seq<Agent>, record: Agent)
    requires record.formerIds == []
    ensures Sound(agents, record)
  {}

  lemma {:induction false} RenamedIsSound(agents: seq<Agent>, handle: string, name: string, sameJudge: bool)
    requires Invariant(agents) && RenamedRecord(agents, handle, name, sameJudge).0.Some?
    ensures Sound(agents, RenamedRecord(agents, handle, name, sameJudge).0.value)
  {
    AResolvedJudgeIsLive(agents, handle);
    hide Invariant, ResolveAgent, NameHolder, Absorbing, IsLive, Sound, Fold, AgentName, Strip;
    var a := ResolveAgent(agents, handle).value;
    var holder := NameHolder(agents, Strip(name), a.id);
    HolderFound(agents, Strip(name), a.id);
    if holder.Some? {
      MergedIsSound(agents, holder.value, a);
    } else {
      EditedIsSound(agents, a, a.(name := Strip(name)));
    }
  }

  lemma {:induction false} MergedIsSound(agents: seq<Agent>, holder: Agent, a: Agent)
    requires Invariant(agents) && IsLive(agents, holder) && IsLive(agents, a) && holder.id != a.id
    ensures Sound(agents, Absorbing(holder, a))
  {
    Split(agents);
    var merged := Absorbing(holder, a);
    hide *;
    LiveIsSound(agents, holder);
    LiveIsSound(agents, a);
    LiveIsRecorded(agents, a);
    LiveIsRecorded(agents, holder);
    ApartFrom(agents, holder, a);
    AbsorbedFormers(holder, a);
    BothAreRecorded(agents, holder, a, merged);
  }

  lemma {:induction false} BothAreRecorded(agents: seq<Agent>, holder: Agent, a: Agent, merged: Agent)
    requires FormersOf(agents, holder) && FormersOf(agents, a) && Recorded(agents, a.id) && Recorded(agents, holder.id)
    requires Former(merged) == Former(holder) + Aliases(a) && merged.id == holder.id && holder.id !in Aliases(a)
    ensures Sound(agents, merged)
  {
    hide Recorded;
    assert forall f :: f in merged.formerIds ==> f in Former(merged);
  }

  /** Ids stay on record. */
  lemma {:induction false} SoundStays(agents: seq<Agent>, stored: Agent)
    requires UniqueIds(agents)
    ensures UniqueIds(Upsert(agents, stored))
    ensures forall r :: Sound(agents, r) ==> Sound(Upsert(agents, stored), r)
  {
    var after := Upsert(agents, stored);
    UpsertHolds(agents, stored);
    hide Upsert, UniqueIds;
    forall f | Recorded(agents, f) ensures Recorded(after, f) {
      var r :| r in agents && r.id == f;
      assert (if f == stored.id then stored else r) in after;
    }
    hide Recorded;
  }

  lemma {:induction false} PendingStaysSound(ss: seq<State>, es: seq<Event>, k: nat)
    requires Trace(ss, es) && k < |ss| && forall i :: 0 <= i < k ==> Invariant(ss[i].agents)
    ensures PendingSound(ss[k])
  {
    if k > 0 {
      PendingStaysSound(ss, es, k - 1);
      assert Possible(ss[k - 1], es[k - 1]) && ss[k] == After(ss[k - 1], es[k - 1]);
      hide Trace;
      StepStaysSound(ss[k - 1], es[k - 1]);
    }
  }

  lemma {:induction false} StepStaysSound(s: State, e: Event)
    requires PendingSound(s) && Invariant(s.agents) && Possible(s, e)
    ensures PendingSound(After(s, e))
  {
    hide Invariant, Prepared, Sound, ActPossible, WellPrepared;
    if e.Reads? {
      if Prepared(s.agents, e.act).Some? {
        ReadIsSound(s.agents, e.act);
      }
    } else {
      StoredStaysSound(s, e.draft);
    }
  }

  lemma {:induction false} ReadIsSound(agents: seq<Agent>, act: Act)
    requires Invariant(agents) && ActPossible(agents, act) && Prepared(agents, act).Some?
    ensures var d := Draft(act, agents, Prepared(agents, act).value); WellPrepared(d) && Sound(agents, d.record)
  {
    hide Invariant, Prepared, Sound, ActPossible;
    PreparedIsSound(agents, act);
  }

  lemma {:induction false} StoredStaysSound(s: State, draft: Draft)
    requires PendingSound(s) && Invariant(s.agents) && draft in s.pending
    ensures PendingSound(After(s, Stores(draft)))
  {
    hide *;
    Split(s.agents);
    AfterStoring(s, draft);
    StillSound(s.agents, draft.record, s.pending, s.pending - multiset{draft});
  }

  lemma {:induction false} AfterStoring(s: State, draft: Draft)
    ensures s.pending - multiset{draft} <= s.pending
    ensures PendingSound(s) <==> AllSound(s.agents, s.pending)
    ensures PendingSound(After(s, Stores(draft))) <==>
              AllSound(Upsert(s.agents, draft.record), s.pending - multiset{draft})
  {
    hide AllSound, Upsert;
  }

  lemma {:induction false} StillSound(agents: seq<Agent>, record: Agent, pending: multiset<Draft>, left: multiset<Draft>)
    requires UniqueIds(agents) && left <= pending && AllSound(agents, pending)
    ensures AllSound(Upsert(agents, record), left)
  {
    hide Sound, WellPrepared, UniqueIds, Upsert;
    SoundStays(agents, record);
  }

  ghost predicate KeepsAt(ss: seq<State>, k: nat)
    requires k + 1 < |ss|
  {
    Invariant(ss[k + 1].agents) && Grows(ss[k].agents, ss[k + 1].agents)
  }

  /** What event `k` stores, if anything, fits. */
  ghost predicate FitsAt(ss: seq<State>, es: seq<Event>, k: nat)
    requires k < |ss| && k < |es|
  {
    es[k].Stores? ==> Fits(ss[k].agents, es[k].draft.record)
  }

  /** Over every run of calls that overlap anyhow, the registry stays in order and
      nothing recorded is lost exactly when every record stored fits what is
      stored by then. */
  lemma {:induction false} OverlappingRunsKeepIff(ss: seq<State>, es: seq<Event>)
    requires Trace(ss, es) && Invariant(ss[0].agents)
    ensures (forall k :: 0 <= k < |es| ==> KeepsAt(ss, k)) <==> (forall k :: 0 <= k < |es| ==> FitsAt(ss, es, k))
  {
    hide Invariant, KeepsAt, FitsAt, Possible, After;
    if forall k :: 0 <= k < |es| ==> FitsAt(ss, es, k) {
      forall k | 0 <= k < |es| ensures KeepsAt(ss, k) {
        FittingRunsKeep(ss, es, k);
        StepKeepsIff(ss, es, k);
      }
    }
    if forall k :: 0 <= k < |es| ==> KeepsAt(ss, k) {
      forall k | 0 <= k < |es| ensures FitsAt(ss, es, k) {
        KeepingRunsStayInOrder(ss, es, k);
        StepKeepsIff(ss, es, k);
      }
    }
  }

  lemma {:induction false} KeepingRunsStayInOrder(ss: seq<State>, es: seq<Event>, k: nat)
    requires |ss| == |es| + 1 && Invariant(ss[0].agents) && k < |es| && forall i :: 0 <= i < |es| ==> KeepsAt(ss, i)
    ensures forall i :: 0 <= i <= k ==> Invariant(ss[i].agents)
  {
    hide Invariant;
    forall i | 0 <= i <= k ensures Invariant(ss[i].agents) {
      if i > 0 {
        assert KeepsAt(ss, i - 1);
      }
    }
  }

  lemma {:induction false} StepKeepsIff(ss: seq<State>, es: seq<Event>, k: nat)
    requires Trace(ss, es) && k < |es| && forall i :: 0 <= i <= k ==> Invariant(ss[i].agents)
    ensures KeepsAt(ss, k) <==> FitsAt(ss, es, k)
  {
    hide Invariant, Grows, Fits, WellPrepared, Sound;
    PendingStaysSound(ss, es, k);
    assert Possible(ss[k], es[k]) && ss[k + 1] == After(ss[k], es[k]);
    if es[k].Stores? {
      AStoredRecordKeepsIff(ss[k].agents, es[k].draft.record);
    } else {
      NothingLost(ss[k].agents);
    }
  }

  lemma {:induction false} FittingRunsKeep(ss: seq<State>, es: seq<Event>, k: nat)
    requires Trace(ss, es) && Invariant(ss[0].agents) && k < |ss|
    requires forall i :: 0 <= i < k ==> FitsAt(ss, es, i)
    ensures forall i :: 0 <= i <= k ==> Invariant(ss[i].agents)
  {
    hide Invariant, FitsAt, Possible, After;
    if k > 0 {
      FittingRunsKeep(ss, es, k - 1);
      StepKeepsIff(ss, es, k - 1);
      assert Invariant(ss[k].agents) by {
        AfterKeeping(ss, k - 1);
      }
    }
  }

  lemma {:induction false} AfterKeeping(ss: seq<State>, k: nat)
    requires k + 1 < |ss| && KeepsAt(ss, k)
    ensures Invariant(ss[k + 1].agents) && Grows(ss[k].agents, ss[k + 1].agents)
  {}

  // --- Calls nothing moves under ---

  /** Between a call's read and its write the record it edits, and the one it
      absorbs, stayed as they were, and so did who is called what it asks for. */
  ghost predicate Unmoved(read: seq<Agent>, agents: seq<Agent>, act: Act) {
    match ResolveAgent(read, act.handle)
    case None => act.Claiming? ==> !Recorded(agents, act.key) && NoLiveName(agents, Strip(act.handle))
    case Some(a) =>
      && IsLive(agents, a)
      && (act.Renaming? ==> NameHolder(agents, Strip(act.name), a.id) == NameHolder(read, Strip(act.name), a.id))
  }

  /** Then what it stores fits. */
  lemma {:induction false} UnmovedFits(d: Draft, agents: seq<Agent>)
    requires WellPrepared(d) && Invariant(agents) && Unmoved(d.read, agents, d.act)
    ensures Fits(agents, d.record)
  {
    hide Invariant, ResolveAgent, Absorbing, IsLive, Fits, Strip, NameHolder, NoLiveName, Recorded;
    var who := ResolveAgent(d.read, d.act.handle);
    match d.act
    case Claiming(handle, key, said) =>
      if who.Some? {
        ClaimFits(agents, who.value, d.record);
      } else {
        NewNameFits(agents, Strip(handle), d.record);
      }
    case Renaming(handle, name, sameJudge) =>
      RenameFits(d.read, agents, handle, name, sameJudge);
    case Marking(handle) =>
      ClaimFits(agents, who.value, d.record);
  }

  lemma {:induction false} ClaimFits(agents: seq<Agent>, a: Agent, record: Agent)
    requires Invariant(agents) && IsLive(agents, a) && record.id == a.id && record.formerIds == a.formerIds
    requires AgentName(record) == AgentName(a) && a.descriptions <= record.descriptions
    ensures Fits(agents, record)
  {
    hide *;
    SaysWhatItSaid(a, record);
    TakesNothing(agents, a, record);
    TakeoverFits(agents, a, record, {});
  }

  lemma {:induction false} SaysWhatItSaid(a: Agent, record: Agent)
    requires record.formerIds == a.formerIds && a.descriptions <= record.descriptions
    ensures Says(record, a)
  {
    forall v | v in a.descriptions ensures v in record.descriptions {}
  }

  lemma {:induction false} TakesNothing(agents: seq<Agent>, a: Agent, record: Agent)
    requires Invariant(agents) && IsLive(agents, a) && record.id == a.id && Says(record, a)
    requires record.formerIds == a.formerIds && AgentName(record) == AgentName(a)
    ensures TakesOver(agents, a, record, {})
  {
    Split(agents);
    hide Invariant, IsLive, Fold, AgentName, Digests, Disjoint, Covered, FormersRecorded, Readable, UniqueIds;
  }

  /** A takeover of a live judge fits. */
  lemma {:induction false} TakeoverFits(agents: seq<Agent>, a: Agent, record: Agent, gained: set<Id>)
    requires Invariant(agents) && TakesOver(agents, a, record, gained)
    ensures Fits(agents, record)
  {
    Split(agents);
    TakeoverSays(agents, a, record, gained);
    hide Invariant, TakesOver, Says, Gained, IsLive, UniqueIds, FormersRecorded, Disjoint, Covered, WithId;
    LiveIsRecorded(agents, a);
    StoredUnder(agents, record.id);
    IdsTell(agents, a);
  }

  lemma {:induction false} TakeoverSays(agents: seq<Agent>, a: Agent, record: Agent, gained: set<Id>)
    requires TakesOver(agents, a, record, gained)
    ensures IsLive(agents, a) && record.id == a.id && Says(record, a) && Gained(a, record) == gained
  {
    hide IsLive, Digests, Fold, AgentName;
  }

  lemma {:induction false} NewNameFits(agents: seq<Agent>, name: string, record: Agent)
    requires !Recorded(agents, record.id) && NoLiveName(agents, name) && AgentName(record) == name
    ensures Fits(agents, record)
  {
    StoredUnder(agents, record.id);
    hide WithId, IsLive, Fold, AgentName, Recorded;
  }

  lemma {:induction false} RenameFits(read: seq<Agent>, agents: seq<Agent>, handle: string, name: string,
          sameJudge: bool)
    requires Invariant(agents) && RenamedRecord(read, handle, name, sameJudge).0.Some?
    requires var a := ResolveAgent(read, handle).value;
             IsLive(agents, a) && NameHolder(agents, Strip(name), a.id) == NameHolder(read, Strip(name), a.id)
    ensures Fits(agents, RenamedRecord(read, handle, name, sameJudge).0.value)
  {
    hide Invariant, ResolveAgent, NameHolder, Absorbing, IsLive, Fits, TakesOver, Fold, AgentName, Aliases;
    var a := ResolveAgent(read, handle).value;
    var holder := NameHolder(agents, Strip(name), a.id);
    HolderFound(agents, Strip(name), a.id);
    StripTwice(name);
    hide Strip;
    if holder.None? {
      RenamedApart(agents, a, Strip(name));
      TakeoverFits(agents, a, a.(name := Strip(name)), {});
    } else {
      AbsorbsWhole(agents, holder.value, a);
      TakeoverFits(agents, holder.value, Absorbing(holder.value, a), Aliases(a));
    }
  }

  /** A call that stores what it read before anyone else stores is one such. */
  lemma {:induction false} NothingStoredIsUnmoved(agents: seq<Agent>, act: Act)
    requires Invariant(agents) && ActPossible(agents, act)
    ensures Unmoved(agents, agents, act)
  {
    AResolvedJudgeIsLive(agents, act.handle);
    if act.Claiming? && ResolveAgent(agents, act.handle).None? {
      Split(agents);
      hide Invariant, ResolveAgent, Strip, IsLive, NoLiveName;
      UnresolvedIsUnrecorded(agents, act.handle);
    }
    hide ResolveAgent, Strip, IsLive, NameHolder, Invariant, NoLiveName;
  }

  ghost predicate UnmovedAt(ss: seq<State>, es: seq<Event>, k: nat)
    requires k < |ss| && k < |es|
  {
    es[k].Stores? ==> Unmoved(es[k].draft.read, ss[k].agents, es[k].draft.act)
  }

  /** Over every run of claims, renames and retirements whose calls may wait and
      overlap, but store nothing once what they read has moved, the live judges'
      ids partition every id recorded, live names are unique, and every record
      keeps all it said and answered for. */
  lemma {:induction false} RunsKeepTheInvariant(ss: seq<State>, es: seq<Event>, j: nat, k: nat)
    requires Trace(ss, es) && Invariant(ss[0].agents) && j <= k < |ss|
    requires forall i :: 0 <= i < |es| ==> UnmovedAt(ss, es, i)
    ensures Invariant(ss[k].agents) && Grows(ss[j].agents, ss[k].agents)
  {
    hide Invariant, Grows, UnmovedAt, FitsAt, Possible, After;
    UnmovedRunsFit(ss, es, k);
    FittingRunsKeep(ss, es, k);
    FittingRunsGrow(ss, es, j, k);
  }

  lemma {:induction false} UnmovedRunsFit(ss: seq<State>, es: seq<Event>, k: nat)
    requires Trace(ss, es) && Invariant(ss[0].agents) && k < |ss|
    requires forall i :: 0 <= i < |es| ==> UnmovedAt(ss, es, i)
    ensures forall i :: 0 <= i < k ==> FitsAt(ss, es, i)
  {
    hide Invariant, UnmovedAt, FitsAt, Possible, After;
    if k > 0 {
      UnmovedRunsFit(ss, es, k - 1);
      FittingRunsKeep(ss, es, k - 1);
      UnmovedStepFits(ss, es, k - 1);
    }
  }

  lemma {:induction false} UnmovedStepFits(ss: seq<State>, es: seq<Event>, k: nat)
    requires Trace(ss, es) && k < |es| && UnmovedAt(ss, es, k) && forall i :: 0 <= i <= k ==> Invariant(ss[i].agents)
    ensures FitsAt(ss, es, k)
  {
    hide Invariant, Unmoved, WellPrepared, Sound, Fits;
    PendingStaysSound(ss, es, k);
    assert Possible(ss[k], es[k]);
    if es[k].Stores? {
      UnmovedFits(es[k].draft, ss[k].agents);
    }
  }

  lemma {:induction false} FittingRunsGrow(ss: seq<State>, es: seq<Event>, j: nat, k: nat)
    requires Trace(ss, es) && Invariant(ss[0].agents) && j <= k < |ss|
    requires forall i :: 0 <= i < k ==> FitsAt(ss, es, i)
    ensures Grows(ss[j].agents, ss[k].agents)
    decreases k
  {
    hide Invariant, Grows, FitsAt, Possible, After;
    if j == k {
      NothingLost(ss[k].agents);
    } else {
      FittingRunsGrow(ss, es, j, k - 1);
      FittingRunsKeep(ss, es, k - 1);
      StepKeepsIff(ss, es, k - 1);
      AfterKeeping(ss, k - 1);
      GrowingOn(ss[j].agents, ss[k - 1].agents, ss[k].agents);
    }
  }

  lemma {:induction false} GrowingOn(agents: seq<Agent>, next: seq<Agent>, after: seq<Agent>)
    requires Grows(agents, next) && Grows(next, after)
    ensures Grows(agents, after)
  {
    hide Digests, Former;
    forall r | r in agents ensures GrownTo(after, r) {
      assert GrownTo(next, r);
      var s :| s in next && s.id == r.id && Says(s, r);
      assert GrownTo(after, s);
    }
  }

  /** A decision records an id and a digest. After any run in which every record
      stored fits, exactly one live judge answers for the id, and it still says
      the digest. */
  lemma {:induction false} DecisionsStayReadable(ss: seq<State>, es: seq<Event>, j: nat, k: nat, r: Agent,
          digest: string) returns (a: Agent)
    requires Trace(ss, es) && Invariant(ss[0].agents) && j <= k < |ss|
    requires forall i :: 0 <= i < k ==> FitsAt(ss, es, i)
    requires r in ss[j].agents && digest in Digests(r.descriptions)
    ensures IsLive(ss[k].agents, a) && r.id in Aliases(a) && digest in Digests(a.descriptions)
    ensures forall b :: IsLive(ss[k].agents, b) && r.id in Aliases(b) ==> b == a
  {
    hide Invariant, FitsAt, Possible, After, IsLive, Aliases, Digests, GrownTo;
    FittingRunsKeep(ss, es, k);
    FittingRunsGrow(ss, es, j, k);
    a := TheReader(ss[k].agents, r, digest);
  }

  /** A call that stores at once does what it is for: a claim claims, a rename that
      is not refused renames or consolidates, a mark leaves the records as they are. */
  lemma {:induction false} AReadThenAStore(agents: seq<Agent>, act: Act) returns (ss: seq<State>, es: seq<Event>)
    requires Invariant(agents) && ActPossible(agents, act)
    requires act.Renaming? ==> RenamedRecord(agents, act.handle, act.name, act.sameJudge).0.Some?
    requires act.Marking? ==> ResolveAgent(agents, act.handle).Some?
    ensures Trace(ss, es) && |es| == 2 && |ss| == 3 && es[0] == Reads(act) && es[1].Stores? && ss[0].agents == agents
    ensures ss[2].pending == multiset{} && ss[2].agents ==
              match act
              case Claiming(handle, key, said) => Claim(agents, handle, key, said)
              case Renaming(handle, name, sameJudge) => RenameJudge(agents, handle, name, sameJudge).0
              case Marking(_) => agents
  {
    hide ResolveAgent, ClaimedRecord, RenamedRecord, Upsert, ActPossible, Invariant;
    assert Prepared(agents, act).Some?;
    var record := Prepared(agents, act).value;
    var d := Draft(act, agents, record);
    var s0, s1, s2 := State(agents, multiset{}), State(agents, multiset{d}), State(Upsert(agents, record), multiset{});
    assert s1 == After(s0, Reads(act)) && s2 == After(s1, Stores(d));
    ss, es := [s0, s1, s2], [Reads(act), Stores(d)];
    if act.Marking? {
      AResolvedJudgeIsLive(agents, act.handle);
      LiveIsRecorded(agents, record);
      Split(agents);
      StoredAsItIs(agents, record);
    }
  }

  lemma {:induction false} StoredAsItIs(agents: seq<Agent>, a: Agent)
    requires UniqueIds(agents) && a in agents
    ensures Upsert(agents, a) == agents
  {
    if agents[0].id != a.id {
      assert agents == [agents[0]] + agents[1..];
      assert forall i, j :: 0 <= i < j < |agents[1..]| ==> agents[1..][i] == agents[i + 1] && agents[1..][j] == agents[j + 1];
      StoredAsItIs(agents[1..], a);
    }
  }

  // --- What a late write loses ---

  function SaidUnder(who: Option<Agent>): set<string> { if who.Some? then Digests(who.value.descriptions) else {} }

  function FormerUnder(who: Option<Agent>): set<Id> { if who.Some? then Former(who.value) else {} }

  /** Storing keeps every digest, and every id answered for, exactly when those
      added under its id since the call read are in the record it stores. */
  lemma {:induction false} AStoreKeepsWhatWasAddedIff(read: seq<Agent>, act: Act, agents: seq<Agent>)
    requires UniqueIds(agents) && Prepared(read, act).Some?
    ensures var record, was := Prepared(read, act).value, Edited(read, act);
            var now := WithId(agents, record.id);
            && (was.Some? ==> was.value.id == record.id)
            && (KeepsDigests(agents, Upsert(agents, record))
                <==> SaidUnder(now) - SaidUnder(was) <= Digests(record.descriptions))
            && (KeepsIds(agents, Upsert(agents, record)) <==> FormerUnder(now) - FormerUnder(was) <= Former(record))
  {
    EditsAdd(read, act);
    hide Prepared, Edited, Upsert, Digests, Former, UniqueIds;
    var record, was := Prepared(read, act).value, Edited(read, act);
    StoredUnder(agents, record.id);
    KeepingUnder(agents, record);
  }

  /** Over every run, orderly or not: what a call stores loses no digest and no id
      exactly when it holds all that was added under its id since the call read. */
  lemma {:induction false} RunsKeepWhatWasAddedIff(ss: seq<State>, es: seq<Event>, k: nat)
    requires Trace(ss, es) && UniqueIds(ss[0].agents) && k < |es| && es[k].Stores?
    ensures var d, agents, after := es[k].draft, ss[k].agents, ss[k + 1].agents;
            var was, now := Edited(d.read, d.act), WithId(agents, d.record.id);
            && (KeepsDigests(agents, after) <==> SaidUnder(now) - SaidUnder(was) <= Digests(d.record.descriptions))
            && (KeepsIds(agents, after) <==> FormerUnder(now) - FormerUnder(was) <= Former(d.record))
  {
    PendingIsPrepared(ss, es, k);
    assert Possible(ss[k], es[k]) && ss[k + 1] == After(ss[k], es[k]);
    hide Trace, UniqueIds, Prepared, Edited, Upsert, KeepsDigests, KeepsIds, Digests, Former, WithId;
    AStoreKeepsWhatWasAddedIff(es[k].draft.read, es[k].draft.act, ss[k].agents);
  }

  lemma {:induction false} PendingIsPrepared(ss: seq<State>, es: seq<Event>, k: nat)
    requires Trace(ss, es) && UniqueIds(ss[0].agents) && k < |ss|
    ensures UniqueIds(ss[k].agents)
    ensures forall d :: d in ss[k].pending ==> Prepared(d.read, d.act) == Some(d.record)
  {
    hide UniqueIds, Prepared, Upsert;
    if k > 0 {
      PendingIsPrepared(ss, es, k - 1);
      assert Possible(ss[k - 1], es[k - 1]) && ss[k] == After(ss[k - 1], es[k - 1]);
      if es[k - 1].Stores? {
        SoundStays(ss[k - 1].agents, es[k - 1].draft.record);
      }
    }
  }

  ghost predicate KeepsDigests(agents: seq<Agent>, after: seq<Agent>) {
    forall r :: r in agents ==> exists s :: s in after && s.id == r.id && Digests(r.descriptions) <= Digests(s.descriptions)
  }

  ghost predicate KeepsIds(agents: seq<Agent>, after: seq<Agent>) {
    forall r :: r in agents ==> exists s :: s in after && s.id == r.id && Former(r) <= Former(s)
  }

  /** A call only adds to the record it edits. */
  lemma {:induction false} EditsAdd(read: seq<Agent>, act: Act)
    requires Prepared(read, act).Some?
    ensures var record, was := Prepared(read, act).value, Edited(read, act);
            was.Some? ==> was.value.id == record.id && Says(record, was.value)
  {
    hide ResolveAgent, NameHolder, Absorbing, Strip, Says, Former, Digests;
    SaysItself();
    match act
    case Claiming(handle, key, said) =>
      if ResolveAgent(read, handle).Some? {
        SaysWhatItSaid(ResolveAgent(read, handle).value, ClaimedRecord(read, handle, key, said));
      }
    case Renaming(handle, name, sameJudge) =>
      var a := ResolveAgent(read, handle).value;
      var holder := NameHolder(read, Strip(name), a.id);
      if holder.Some? {
        MergedSaysAll(holder.value, a);
      } else {
        SaysWhatItSaid(a, a.(name := Strip(name)));
      }
    case Marking(handle) =>
  }

  lemma {:induction false} MergedSaysAll(holder: Agent, a: Agent)
    ensures Absorbing(holder, a).id == holder.id && Says(Absorbing(holder, a), holder)
  {
    AbsorbingKeepsEverything(holder, a);
    AbsorbedFormers(holder, a);
    hide Absorbing;
  }

  lemma {:induction false} KeepingUnder(agents: seq<Agent>, record: Agent)
    requires UniqueIds(agents)
    ensures var now := WithId(agents, record.id);
            && (KeepsDigests(agents, Upsert(agents, record)) <==> SaidUnder(now) <= Digests(record.descriptions))
            && (KeepsIds(agents, Upsert(agents, record)) <==> FormerUnder(now) <= Former(record))
  {
    var after, now := Upsert(agents, record), WithId(agents, record.id);
    UpsertHolds(agents, record);
    StoredUnder(agents, record.id);
    if now.Some? {
      IdsTell(agents, now.value);
    }
    hide Upsert, UniqueIds, WithId, Digests, Former;
    forall r | r in agents ensures (if r.id == record.id then record else r) in after {}
  }
}
