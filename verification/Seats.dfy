/** The seat a judge is confirmed in (epimemer/core/seat.py). */
module Seats {
  import opened Options
  import opened Order

  /** Where a claim is made from; None is unknown. */
  datatype Seat = Seat(
    sessionId: Option<string>, clientName: Option<string>, clientVersion: Option<string>, model: Option<string>)

  const NO_SEAT := Seat(None, None, None, None)

  datatype Confirmation = Confirmation(
    sessionId: string, agentId: string, clientName: Option<string>, clientVersion: Option<string>, model: string,
    confirmedAt: int)

  datatype Field = SessionId | ClientName | ClientVersion | Model

  datatype Change = Change(field: Field, was: Option<string>, now: Option<string>)

  const JUDGE_CONFIRMATIONS_KEPT := 500

  predicate Truthy(s: Option<string>) { s.Some? && s.value != "" }

  predicate IsComplete(seat: Seat) { Truthy(seat.sessionId) && Truthy(seat.model) }

  function Compared(field: Field, was: Option<string>, now: Option<string>): seq<Change> {
    if was == now then [] else [Change(field, was, now)]
  }

  /** What differs, field by field; unknown is a value like any other. */
  function SeatChanges(was: Seat, now: Seat): seq<Change> {
    Compared(SessionId, was.sessionId, now.sessionId) + Compared(ClientName, was.clientName, now.clientName)
    + Compared(ClientVersion, was.clientVersion, now.clientVersion) + Compared(Model, was.model, now.model)
  }

  function SeatOf(c: Confirmation): Seat { Seat(Some(c.sessionId), c.clientName, c.clientVersion, Some(c.model)) }

  predicate Same(c: Confirmation, agentId: string, seat: Seat) { c.agentId == agentId && SeatOf(c) == seat }

  /** Nothing changed exactly where the seats are equal in every field. */
  lemma {:induction false} NothingChangedIff(was: Seat, now: Seat)
    ensures SeatChanges(was, now) == [] <==> was == now
  {}

  function Known(seat: Seat, field: Field): Option<string> {
    match field
    case SessionId => seat.sessionId
    case ClientName => seat.clientName
    case ClientVersion => seat.clientVersion
    case Model => seat.model
  }

  function Place(field: Field): nat {
    match field
    case SessionId => 0
    case ClientName => 1
    case ClientVersion => 2
    case Model => 3
  }

  /** The changes are the fields that differ, each with what it was and is now, in
      the order conversation, client, its version, model. */
  lemma {:induction false} ChangesAre(was: Seat, now: Seat, field: Field)
    ensures Change(field, Known(was, field), Known(now, field)) in SeatChanges(was, now) <==> Known(was, field) != Known(now, field)
    ensures forall c :: c in SeatChanges(was, now) ==> c.was == Known(was, c.field) && c.now == Known(now, c.field)
    ensures forall i, j :: 0 <= i < j < |SeatChanges(was, now)| ==>
                             Place(SeatChanges(was, now)[i].field) < Place(SeatChanges(was, now)[j].field)
  {}

  /** A confirmation is of a judge in a seat exactly when it names that judge and
      all four fields are the seat's. */
  lemma {:induction false} SameIff(c: Confirmation, agentId: string, seat: Seat)
    ensures Same(c, agentId, seat) <==>
              && c.agentId == agentId && Some(c.sessionId) == seat.sessionId && Some(c.model) == seat.model
              && c.clientName == seat.clientName && c.clientVersion == seat.clientVersion
  {}

  // --- What carries over, and why the user is asked ---

  function Matching(cs: seq<Confirmation>, agentId: string, seat: Seat): seq<Confirmation> {
    Keep(cs, set c | c in cs && Same(c, agentId, seat))
  }

  function SameConversation(cs: seq<Confirmation>, agentId: string, sessionId: string): seq<Confirmation> {
    Keep(cs, set c | c in cs && c.agentId == agentId && c.sessionId == sessionId)
  }

  function Oldest(cs: seq<Confirmation>): Confirmation
    requires cs != []
  {
    if |cs| == 1 then cs[0]
    else
      var rest := Oldest(cs[1..]);
      if cs[0].confirmedAt <= rest.confirmedAt then cs[0] else rest
  }

  function CarriedConfirmation(cs: seq<Confirmation>, agentId: string, seat: Seat): Option<Confirmation> {
    if !IsComplete(seat) then None
    else if Matching(cs, agentId, seat) == [] then None
    else Some(Oldest(Matching(cs, agentId, seat)))
  }

  predicate NoLater(a: Confirmation, b: Confirmation) { a.confirmedAt <= b.confirmedAt }

  datatype Reason = NoConversation | NoModel | FirstClaim | Changed(changes: seq<Change>)

  function AskReason(cs: seq<Confirmation>, agentId: string, seat: Seat): Reason {
    if !Truthy(seat.sessionId) then NoConversation
    else if !Truthy(seat.model) then NoModel
    else
      var sorted := Sort(SameConversation(cs, agentId, seat.sessionId.value), NoLater);
      if sorted == [] then FirstClaim else Changed(SeatChanges(SeatOf(sorted[|sorted| - 1]), seat))
  }

  lemma {:induction false} TimeOrder()
    ensures TotalPreorder(NoLater)
  {}

  lemma {:induction false} Kept(cs: seq<Confirmation>, chosen: set<Confirmation>)
    ensures forall c :: c in Keep(cs, chosen) <==> c in cs && c in chosen
  {
    KeepBag(cs, chosen);
    forall c ensures c in Keep(cs, chosen) <==> c in cs && c in chosen {
      assert c in Keep(cs, chosen) <==> c in multiset(Keep(cs, chosen));
      assert c in cs <==> c in multiset(cs);
    }
  }

  lemma {:induction false} OldestIsThere(cs: seq<Confirmation>)
    requires cs != []
    ensures Oldest(cs) in cs && forall c :: c in cs ==> NoLater(Oldest(cs), c)
  {
    if |cs| > 1 {
      OldestIsThere(cs[1..]);
      assert cs == [cs[0]] + cs[1..];
    }
  }

  /** A confirmation carries over exactly into a complete seat this judge was
      confirmed in before; it is then the earliest of those. */
  lemma {:induction false} CarriesOverIff(cs: seq<Confirmation>, agentId: string, seat: Seat)
    ensures var carried := CarriedConfirmation(cs, agentId, seat);
            && (carried.Some? <==> IsComplete(seat) && exists c :: c in cs && Same(c, agentId, seat))
            && (carried.Some? ==> carried.value in cs && Same(carried.value, agentId, seat)
                                  && forall c :: c in cs && Same(c, agentId, seat) ==> carried.value.confirmedAt <= c.confirmedAt)
  {
    var matches := Matching(cs, agentId, seat);
    Kept(cs, set c | c in cs && Same(c, agentId, seat));
    hide Keep, Same;
    if matches != [] {
      OldestIsThere(matches);
      assert matches[0] in matches;
    } else {
      forall c | c in cs ensures !Same(c, agentId, seat) {
        assert c !in matches;
      }
    }
  }

  /** The latest time this judge was confirmed in this conversation. */
  ghost predicate LastInConversation(cs: seq<Confirmation>, agentId: string, sessionId: string, c: Confirmation) {
    var sorted := Sort(SameConversation(cs, agentId, sessionId), NoLater);
    sorted != [] && sorted[|sorted| - 1] == c
  }

  lemma {:induction false} LastIsLatest(cs: seq<Confirmation>, agentId: string, sessionId: string, c: Confirmation)
    requires LastInConversation(cs, agentId, sessionId, c)
    ensures c in cs && c.agentId == agentId && c.sessionId == sessionId
    ensures forall d :: d in cs && d.agentId == agentId && d.sessionId == sessionId ==> NoLater(d, c)
  {
    var same := SameConversation(cs, agentId, sessionId);
    Kept(cs, set d | d in cs && d.agentId == agentId && d.sessionId == sessionId);
    TimeOrder();
    SortIsSorted(same, NoLater);
    var sorted := Sort(same, NoLater);
    hide Keep, Sort, SortedBy, NoLater;
    forall d | d in sorted ensures NoLater(d, c) {
      LastOfSorted(sorted, d);
    }
  }

  lemma {:induction false} LastOfSorted(sorted: seq<Confirmation>, d: Confirmation)
    requires SortedBy(sorted, NoLater) && d in sorted
    ensures NoLater(d, sorted[|sorted| - 1])
  {}

  /** The reason names no change exactly where the judge was last confirmed, in
      this conversation, in this very seat; and then a confirmation carries over. */
  lemma {:induction false} AskedWithNoChangeIff(cs: seq<Confirmation>, agentId: string, seat: Seat)
    ensures AskReason(cs, agentId, seat) == Changed([]) <==>
              IsComplete(seat) && exists c :: LastInConversation(cs, agentId, seat.sessionId.value, c) && SeatOf(c) == seat
    ensures AskReason(cs, agentId, seat) == Changed([]) ==> CarriedConfirmation(cs, agentId, seat).Some?
  {
    if IsComplete(seat) {
      var sorted := Sort(SameConversation(cs, agentId, seat.sessionId.value), NoLater);
      hide Sort, SameConversation, SeatChanges;
      CarriesOverIff(cs, agentId, seat);
      if sorted != [] {
        var last := sorted[|sorted| - 1];
        assert LastInConversation(cs, agentId, seat.sessionId.value, last);
        LastIsLatest(cs, agentId, seat.sessionId.value, last);
        NothingChangedIff(SeatOf(last), seat);
        assert SeatOf(last) == seat ==> Same(last, agentId, seat);
      }
    }
  }

  /** What `claim_agent` asks: it does not ask where a confirmation carried over
      and the judge is still approved. Where it does ask, it names no change
      exactly when the judge was confirmed in this seat last and is no longer
      approved. */
  predicate Asks(cs: seq<Confirmation>, agentId: string, seat: Seat, approved: set<string>, memo: Option<string>) {
    && !(CarriedConfirmation(cs, agentId, seat).Some? && agentId in approved)
    && !(!IsComplete(seat) && memo == Some(agentId) && agentId in approved)
  }

  /** When the user is not asked: in a seat known well enough, after a confirmation
      in it; in any other, for the judge this process had confirmed here; and only
      while the judge is approved. */
  lemma {:induction false} NotAskedIff(cs: seq<Confirmation>, agentId: string, seat: Seat, approved: set<string>,
          memo: Option<string>)
    ensures var known := seat.sessionId !in {None, Some("")} && seat.model !in {None, Some("")};
            !Asks(cs, agentId, seat, approved, memo) <==>
              && agentId in approved
              && (if known then exists c :: c in cs && Same(c, agentId, seat) else memo == Some(agentId))
  {
    CarriesOverIff(cs, agentId, seat);
    hide CarriedConfirmation, Same;
  }

  /** And why, when they are: nothing says which conversation or which model this
      is, or the judge is new to the conversation, or its seat has changed since it
      was last confirmed there. */
  lemma {:induction false} TheReasonIs(cs: seq<Confirmation>, agentId: string, seat: Seat)
    ensures var here := seat.sessionId !in {None, Some("")};
            var known := here && seat.model !in {None, Some("")};
            && (AskReason(cs, agentId, seat) == NoConversation <==> !here)
            && (AskReason(cs, agentId, seat) == NoModel <==> here && !known)
            && (AskReason(cs, agentId, seat) == FirstClaim <==>
                  known && forall c :: c in cs ==> c.agentId != agentId || Some(c.sessionId) != seat.sessionId)
            && (AskReason(cs, agentId, seat).Changed? ==>
                  exists c :: c in cs && c.agentId == agentId && Some(c.sessionId) == seat.sessionId
                    && AskReason(cs, agentId, seat).changes == SeatChanges(SeatOf(c), seat)
                    && forall d :: d in cs && d.agentId == agentId && Some(d.sessionId) == seat.sessionId ==>
                                     d.confirmedAt <= c.confirmedAt)
  {
    if IsComplete(seat) {
      var sorted := Sort(SameConversation(cs, agentId, seat.sessionId.value), NoLater);
      SomeoneConfirmed(cs, agentId, seat.sessionId.value);
      hide Sort, SameConversation, SeatChanges;
      if sorted != [] {
        var last := sorted[|sorted| - 1];
        assert LastInConversation(cs, agentId, seat.sessionId.value, last);
        hide LastInConversation;
        LastIsLatest(cs, agentId, seat.sessionId.value, last);
      }
    }
  }

  lemma {:induction false} SomeoneConfirmed(cs: seq<Confirmation>, agentId: string, sessionId: string)
    ensures Sort(SameConversation(cs, agentId, sessionId), NoLater) == []
            <==> forall c :: c in cs ==> c.agentId != agentId || c.sessionId != sessionId
  {
    var same := SameConversation(cs, agentId, sessionId);
    Kept(cs, set c | c in cs && c.agentId == agentId && c.sessionId == sessionId);
    TimeOrder();
    SortIsSorted(same, NoLater);
    hide Keep, SortedBy;
    assert |multiset(Sort(same, NoLater))| == |multiset(same)|;
    if same != [] {
      assert same[0] in same;
    }
  }

  lemma {:induction false} NoReasonGivenIff(cs: seq<Confirmation>, agentId: string, seat: Seat,
          approved: set<string>, memo: Option<string>)
    ensures Asks(cs, agentId, seat, approved, memo) && AskReason(cs, agentId, seat) == Changed([]) <==>
              && agentId !in approved && IsComplete(seat)
              && exists c :: LastInConversation(cs, agentId, seat.sessionId.value, c) && SeatOf(c) == seat
  {
    hide AskReason, CarriedConfirmation, LastInConversation;
    AskedWithNoChangeIff(cs, agentId, seat);
  }

  // --- Remembering a confirmation ---

  function Others(cs: seq<Confirmation>, c: Confirmation): seq<Confirmation> {
    Keep(cs, set o | o in cs && !Same(o, c.agentId, SeatOf(c)))
  }

  function WithConfirmation(cs: seq<Confirmation>, c: Confirmation,
          keep: int := JUDGE_CONFIRMATIONS_KEPT): seq<Confirmation> {
    var ordered := Sort(Others(cs, c) + [c], NoLater);
    if keep <= 0 then [] else if |ordered| > keep then ordered[|ordered| - keep..] else ordered
  }

  predicate InTime(cs: seq<Confirmation>) {
    forall i, j :: 0 <= i < j < |cs| ==> cs[i].confirmedAt <= cs[j].confirmedAt
  }

  lemma {:induction false} InTimeIffSorted(cs: seq<Confirmation>)
    ensures InTime(cs) <==> SortedBy(cs, NoLater)
  {}

  /** One entry to a judge and seat. */
  ghost predicate OneEach(cs: seq<Confirmation>) {
    && (forall c :: multiset(cs)[c] <= 1)
    && (forall c, d :: c in cs && d in cs && Same(c, d.agentId, SeatOf(d)) ==> c == d)
  }

  /** Sorted, bounded, and one entry to a judge and seat, whatever the list was
      before; what is left of it is the newest, and nothing is dropped but what
      this confirmation replaces while there is room. */
  lemma {:induction false} RememberingKeepsOrder(cs: seq<Confirmation>, c: Confirmation, keep: int)
    requires OneEach(cs)
    ensures var now := WithConfirmation(cs, c, keep);
            && InTime(now) && OneEach(now) && |now| <= (if keep > 0 then keep else 0)
            && (forall o :: o in now ==> o == c || (o in cs && !Same(o, c.agentId, SeatOf(c))))
            && (|cs| < keep ==> forall o :: o in now <==> o == c || (o in cs && !Same(o, c.agentId, SeatOf(c))))
            && (forall o, d :: o in now && d in cs && !Same(d, c.agentId, SeatOf(c)) && d !in now ==> d.confirmedAt <= o.confirmedAt)
  {
    InTimeIffSorted(WithConfirmation(cs, c, keep));
    assert forall d, o :: NoLater(d, o) <==> d.confirmedAt <= o.confirmedAt;
    hide *;
    var ordered := Sort(Others(cs, c) + [c], NoLater);
    OthersAndTheNewOne(cs, c);
    OrderedIsEverything(cs, c);
    NewestOf(cs, c, keep);
    NewestKeepOrder(ordered, WithConfirmation(cs, c, keep));
  }

  lemma {:induction false} OthersAndTheNewOne(cs: seq<Confirmation>, c: Confirmation)
    requires OneEach(cs)
    ensures OneEach(Others(cs, c) + [c]) && |Others(cs, c)| <= |cs|
    ensures forall o :: o in Others(cs, c) <==> o in cs && !Same(o, c.agentId, SeatOf(c))
  {
    hide *;
    OthersAre(cs, c);
    PartOf(Others(cs, c), cs);
    OneMore(Others(cs, c), c);
  }

  lemma {:induction false} OthersAre(cs: seq<Confirmation>, c: Confirmation)
    ensures multiset(Others(cs, c)) <= multiset(cs)
    ensures forall o :: o in Others(cs, c) <==> o in cs && !Same(o, c.agentId, SeatOf(c))
  {
    KeepBag(cs, set o | o in cs && !Same(o, c.agentId, SeatOf(c)));
    Kept(cs, set o | o in cs && !Same(o, c.agentId, SeatOf(c)));
    hide Keep;
  }

  lemma {:induction false} OneMore(cs: seq<Confirmation>, c: Confirmation)
    requires OneEach(cs) && forall o :: o in cs ==> !Same(o, c.agentId, SeatOf(c))
    ensures OneEach(cs + [c])
  {
    SameAsItself(c);
    assert multiset(cs + [c]) == multiset(cs) + multiset{c};
    assert forall o :: o in cs + [c] <==> o in cs || o == c;
    assert c in multiset(cs) <==> c in cs;
  }

  lemma {:induction false} PartOf(part: seq<Confirmation>, cs: seq<Confirmation>)
    requires multiset(part) <= multiset(cs)
    ensures |part| <= |cs|
    ensures OneEach(cs) ==> OneEach(part)
  {
    hide Same;
    assert multiset(cs) == multiset(part) + (multiset(cs) - multiset(part));
    assert |multiset(part)| <= |multiset(cs)|;
    forall c | c in part ensures c in cs {
      assert c in multiset(part);
    }
  }

  lemma {:induction false} OrderedIsEverything(cs: seq<Confirmation>, c: Confirmation)
    requires OneEach(Others(cs, c) + [c])
    ensures var ordered := Sort(Others(cs, c) + [c], NoLater);
            && SortedBy(ordered, NoLater) && OneEach(ordered) && |ordered| == |Others(cs, c)| + 1
            && forall o :: o in ordered <==> o in Others(cs, c) || o == c
  {
    TimeOrder();
    SortIsSorted(Others(cs, c) + [c], NoLater);
    hide Sort, Others, Same;
  }

  /** The last `keep` of the ordered list. */
  lemma {:induction false} NewestOf(cs: seq<Confirmation>, c: Confirmation, keep: int)
    ensures var ordered, now := Sort(Others(cs, c) + [c], NoLater), WithConfirmation(cs, c, keep);
            && |now| == (if keep <= 0 then 0 else if |ordered| > keep then keep else |ordered|)
            && now == ordered[|ordered| - |now|..]
  {}

  lemma {:induction false} NewestKeepOrder(ordered: seq<Confirmation>, now: seq<Confirmation>)
    requires SortedBy(ordered, NoLater) && OneEach(ordered) && |now| <= |ordered| && now == ordered[|ordered| - |now|..]
    ensures SortedBy(now, NoLater) && OneEach(now) && forall o :: o in now ==> o in ordered
    ensures forall o, d :: o in now && d in ordered && d !in now ==> NoLater(d, o)
    ensures |now| == |ordered| ==> now == ordered
  {
    hide OneEach, NoLater;
    SuffixOf(ordered, now);
    PartOf(now, ordered);
    forall o, d | o in now && d in ordered && d !in now ensures NoLater(d, o) {
      DroppedIsEarlier(ordered, now, o, d);
    }
  }

  lemma {:induction false} SuffixOf(ordered: seq<Confirmation>, now: seq<Confirmation>)
    requires |now| <= |ordered| && now == ordered[|ordered| - |now|..]
    ensures multiset(now) <= multiset(ordered) && forall o :: o in now ==> o in ordered
    ensures |now| == |ordered| ==> now == ordered
  {
    var early := ordered[..|ordered| - |now|];
    assert ordered == early + now;
    assert multiset(ordered) == multiset(early) + multiset(now);
  }

  lemma {:induction false} DroppedIsEarlier(ordered: seq<Confirmation>, now: seq<Confirmation>, o: Confirmation,
          d: Confirmation)
    requires SortedBy(ordered, NoLater) && |now| <= |ordered| && now == ordered[|ordered| - |now|..]
    requires o in now && d in ordered && d !in now
    ensures NoLater(d, o)
  {}

  /** A confirmation remembered while none is dated later is the last one kept,
      and carries over the next time the judge is claimed in that seat. */
  lemma {:induction false} RememberedIsCarried(cs: seq<Confirmation>, c: Confirmation, keep: int)
    requires OneEach(cs) && keep > 0 && (forall o :: o in cs ==> o.confirmedAt <= c.confirmedAt) && IsComplete(SeatOf(c))
    ensures var now := WithConfirmation(cs, c, keep);
            now != [] && now[|now| - 1] == c && CarriedConfirmation(now, c.agentId, SeatOf(c)) == Some(c)
  {
    assert forall o :: NoLater(o, c) <==> o.confirmedAt <= c.confirmedAt;
    hide *;
    var now := WithConfirmation(cs, c, keep);
    OthersAndTheNewOne(cs, c);
    NewestOf(cs, c, keep);
    TiesStayBefore(Others(cs, c), c);
    assert now[|now| - 1] == c && c in now;
    RememberingKeepsOrder(cs, c, keep);
    SameAsItself(c);
    CarriesOverIff(now, c.agentId, SeatOf(c));
  }

  lemma {:induction false} TiesStayBefore(cs: seq<Confirmation>, c: Confirmation)
    requires forall o :: o in cs ==> NoLater(o, c)
    ensures Sort(cs + [c], NoLater) == Sort(cs, NoLater) + [c]
  {
    GreatestStaysLast(cs, c, NoLater);
  }

  lemma {:induction false} SameAsItself(c: Confirmation)
    ensures Same(c, c.agentId, SeatOf(c))
  {}

  // --- Claims that overlap ---

  /** A claim stores what it makes of the list it read before it asked. */
  datatype Answer = Answer(readAt: nat, confirmation: Confirmation)

  /** The lists there have been, one to each answer and the one at the start. */
  ghost predicate History(lists: seq<seq<Confirmation>>, answers: seq<Answer>, keep: int) {
    && |lists| == |answers| + 1
    && forall k :: 0 <= k < |answers| ==>
                     && answers[k].readAt <= k
                     && lists[k + 1] == WithConfirmation(lists[answers[k].readAt], answers[k].confirmation, keep)
  }

  /** Over every run of answers, in whatever order they are dated and however the
      claims overlap. */
  lemma {:induction false} EveryRememberedListIsInOrder(lists: seq<seq<Confirmation>>, answers: seq<Answer>, keep: int,
          k: nat)
    requires History(lists, answers, keep) && k < |lists|
    requires InTime(lists[0]) && OneEach(lists[0]) && |lists[0]| <= keep
    ensures InTime(lists[k]) && OneEach(lists[k]) && |lists[k]| <= keep
    decreases k
  {
    hide WithConfirmation, InTime, OneEach;
    if k > 0 {
      var answer := answers[k - 1];
      assert answer.readAt <= k - 1 && lists[k] == WithConfirmation(lists[answer.readAt], answer.confirmation, keep);
      EveryRememberedListIsInOrder(lists, answers, keep, answer.readAt);
      RememberingKeepsOrder(lists[answer.readAt], answer.confirmation, keep);
    }
  }

  /** While there is room, an answer stored over the list there is keeps all that
      it does not replace exactly when all of that was in the list it read. */
  lemma {:induction false} AnAnswerKeepsTheOthersIff(read: seq<Confirmation>, there: seq<Confirmation>, c: Confirmation,
          keep: int)
    requires OneEach(read) && |read| < keep
    ensures (forall d :: d in there && !Same(d, c.agentId, SeatOf(c)) ==> d in WithConfirmation(read, c, keep))
            <==> (forall d :: d in there && !Same(d, c.agentId, SeatOf(c)) ==> d in read)
  {
    RememberingKeepsOrder(read, c, keep);
    SameAsItself(c);
    hide WithConfirmation, Same, OneEach, SortedBy;
  }

  /** The user answers two claims that were both waiting. The first answer stored
      would carry over; once the second is, the user is asked again. */
  lemma {:induction false} AnAnswerIsLost(cs: seq<Confirmation>, first: Confirmation, second: Confirmation, keep: int)
    requires OneEach(cs) && keep > 0 && (forall o :: o in cs ==> o.confirmedAt <= first.confirmedAt) && IsComplete(SeatOf(first))
    requires !Same(first, second.agentId, SeatOf(second)) && CarriedConfirmation(cs, first.agentId, SeatOf(first)).None?
    ensures var lists := [cs, WithConfirmation(cs, first, keep), WithConfirmation(cs, second, keep)];
            && History(lists, [Answer(0, first), Answer(0, second)], keep)
            && CarriedConfirmation(lists[1], first.agentId, SeatOf(first)) == Some(first)
            && forall approved, memo :: Asks(lists[2], first.agentId, SeatOf(first), approved, memo)
  {
    hide WithConfirmation, CarriedConfirmation, Same, OneEach, SortedBy, NoLater;
    RememberedIsCarried(cs, first, keep);
    NotCarried(cs, first, second, keep);
  }

  lemma {:induction false} NotCarried(cs: seq<Confirmation>, first: Confirmation, second: Confirmation, keep: int)
    requires OneEach(cs) && IsComplete(SeatOf(first)) && !Same(first, second.agentId, SeatOf(second))
    requires CarriedConfirmation(cs, first.agentId, SeatOf(first)).None?
    ensures CarriedConfirmation(WithConfirmation(cs, second, keep), first.agentId, SeatOf(first)).None?
  {
    hide WithConfirmation, CarriedConfirmation, Same, OneEach, SortedBy, NoLater, IsComplete;
    RememberingKeepsOrder(cs, second, keep);
    NotTheSame(first, second);
    CarriesOverIff(cs, first.agentId, SeatOf(first));
    CarriesOverIff(WithConfirmation(cs, second, keep), first.agentId, SeatOf(first));
  }

  lemma {:induction false} NotTheSame(c: Confirmation, d: Confirmation)
    requires !Same(c, d.agentId, SeatOf(d))
    ensures !Same(d, c.agentId, SeatOf(c))
  {}
}
