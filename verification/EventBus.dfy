/** The in-process event bus: subscriptions, the indexes over them, and who a
    published event reaches (epimemer/visualization/event_bus.py). */
module EventBus {
  import opened Options
  import opened Order
  import Timestamps

  type Class = string
  type Category = string

  /** What a subscription asks for; None asks for everything. */
  datatype Filter = Filter(eventType: Option<Class>, category: Option<Category>)

  /** An event: its exact class, and every class it is an instance of. */
  datatype Event = Event(exact: Class, classes: set<Class>, category: Category)

  ghost predicate WellFormed(e: Event) { e.exact in e.classes }

  predicate Matches(f: Filter, e: Event) {
    (f.eventType.Some? ==> f.eventType.value in e.classes) && (f.category.Some? ==> e.category == f.category.value)
  }

  // --- The bus's tables ---

  datatype Bus = Bus(
    subscriptions: map<nat, Filter>,
    nextId: nat,
    byCategory: map<Category, set<nat>>,
    byType: map<Class, set<nat>>,
    globalIds: set<nat>)

  const EMPTY := Bus(map[], 0, map[], map[], {})

  function At<K>(index: map<K, set<nat>>, key: K): set<nat> { if key in index then index[key] else {} }

  function Put<K>(index: map<K, set<nat>>, key: Option<K>, id: nat): map<K, set<nat>> {
    if key.None? then index else index[key.value := At(index, key.value) + {id}]
  }

  function Discard<K>(index: map<K, set<nat>>, key: Option<K>, id: nat): map<K, set<nat>> {
    if key.None? then index else index[key.value := At(index, key.value) - {id}]
  }

  function Subscribed(b: Bus, f: Filter): Bus {
    Bus(b.subscriptions[b.nextId := f], b.nextId + 1,
        Put(b.byCategory, f.category, b.nextId), Put(b.byType, f.eventType, b.nextId),
        if f.eventType.None? && f.category.None? then b.globalIds + {b.nextId} else b.globalIds)
  }

  /** What the closure `subscribe` returned does: it remembers its id and filter. */
  function Unsubscribed(b: Bus, id: nat, f: Filter): Bus {
    Bus(b.subscriptions - {id}, b.nextId, Discard(b.byCategory, f.category, id), Discard(b.byType, f.eventType, id),
        b.globalIds - {id})
  }

  /** The subscriptions an event is offered to. */
  function Candidates(b: Bus, e: Event): set<nat> {
    b.globalIds + At(b.byCategory, e.category) + At(b.byType, e.exact)
  }

  /** The subscriptions `publish` calls. */
  function Called(b: Bus, e: Event): set<nat> {
    set id | id in Candidates(b, e) && id in b.subscriptions && Matches(b.subscriptions[id], e)
  }

  // --- Runs, and what they should mean ---

  /** `Unsubscribe(id)` calls the closure the subscription numbered `id` was given. */
  datatype Act = Subscribe(filter: Filter) | Unsubscribe(id: nat)

  /** Every filter subscribed so far, by number. */
  function Issued(acts: seq<Act>): seq<Filter> {
    if acts == [] then []
    else Issued(acts[..|acts| - 1]) + match acts[|acts| - 1] case Subscribe(f) => [f] case Unsubscribe(_) => []
  }

  function After(acts: seq<Act>): Bus {
    if acts == [] then EMPTY
    else
      var before, issued := After(acts[..|acts| - 1]), Issued(acts[..|acts| - 1]);
      match acts[|acts| - 1]
      case Subscribe(f) => Subscribed(before, f)
      case Unsubscribe(id) => if id < |issued| then Unsubscribed(before, id, issued[id]) else before
  }

  /** The reference: subscribed, and not unsubscribed since. */
  ghost predicate Stands(acts: seq<Act>, id: nat) {
    exists k :: Makes(acts, k, id) && forall j :: k < j < |acts| ==> acts[j] != Unsubscribe(id)
  }

  /** The k-th act is the subscription numbered `id`. */
  ghost predicate Makes(acts: seq<Act>, k: int, id: nat) {
    0 <= k < |acts| && acts[k].Subscribe? && |Issued(acts[..k])| == id
  }

  /** The filters an index reaches: everything, a category, or the exact class. */
  predicate Reached(f: Filter, e: Event) {
    (f.eventType.None? && f.category.None?) || f.category.Some? || f.eventType == Some(e.exact)
  }

  ghost predicate Indexed(b: Bus, issued: seq<Filter>) {
    && b.nextId == |issued|
    && (forall id :: id in b.subscriptions ==> id < |issued| && b.subscriptions[id] == issued[id])
    && (forall id :: id in b.globalIds <==>
                       id in b.subscriptions && b.subscriptions[id].eventType.None? && b.subscriptions[id].category.None?)
    && CategoriesIndexed(b) && TypesIndexed(b)
  }

  ghost predicate CategoriesIndexed(b: Bus) {
    forall c, id :: id in At(b.byCategory, c) <==> id in b.subscriptions && b.subscriptions[id].category == Some(c)
  }

  ghost predicate TypesIndexed(b: Bus) {
    forall c, id :: id in At(b.byType, c) <==> id in b.subscriptions && b.subscriptions[id].eventType == Some(c)
  }

  lemma {:induction false} SubscribingKeepsIndexes(b: Bus, issued: seq<Filter>, f: Filter)
    requires Indexed(b, issued)
    ensures Indexed(Subscribed(b, f), issued + [f])
  {
    assert b.nextId !in b.subscriptions;
    IndexesAfterSubscribing(b, f);
    hide Put, CategoriesIndexed, TypesIndexed;
  }

  lemma {:induction false} IndexesAfterSubscribing(b: Bus, f: Filter)
    requires b.nextId !in b.subscriptions
    ensures CategoriesIndexed(b) ==> CategoriesIndexed(Subscribed(b, f))
    ensures TypesIndexed(b) ==> TypesIndexed(Subscribed(b, f))
  {
    AtAfter(b.byCategory, f.category, b.nextId);
    AtAfter(b.byType, f.eventType, b.nextId);
    hide At, Put;
  }

  lemma {:induction false} UnsubscribingKeepsIndexes(b: Bus, issued: seq<Filter>, id: nat)
    requires Indexed(b, issued) && id < |issued|
    ensures Indexed(Unsubscribed(b, id, issued[id]), issued)
  {
    IndexesAfterUnsubscribing(b, id, issued[id]);
    hide Discard, CategoriesIndexed, TypesIndexed;
  }

  lemma {:induction false} IndexesAfterUnsubscribing(b: Bus, id: nat, f: Filter)
    requires id in b.subscriptions ==> b.subscriptions[id] == f
    ensures CategoriesIndexed(b) ==> CategoriesIndexed(Unsubscribed(b, id, f))
    ensures TypesIndexed(b) ==> TypesIndexed(Unsubscribed(b, id, f))
  {
    AtAfter(b.byCategory, f.category, id);
    AtAfter(b.byType, f.eventType, id);
    hide At, Discard;
  }

  lemma {:induction false} AtAfter<K>(index: map<K, set<nat>>, key: Option<K>, id: nat)
    ensures forall k :: At(Put(index, key, id), k) == At(index, k) + if key == Some(k) then {id} else {}
    ensures forall k :: At(Discard(index, key, id), k) == At(index, k) - if key == Some(k) then {id} else {}
  {}

  /** Over every run the indexes agree with the subscriptions, and the
      subscriptions are the ones that stand. */
  lemma {:induction false} RunsAgree(acts: seq<Act>)
    ensures Indexed(After(acts), Issued(acts))
    ensures forall id: nat :: id in After(acts).subscriptions <==> Stands(acts, id)
  {
    if acts != [] {
      var early, last := acts[..|acts| - 1], acts[|acts| - 1];
      RunsAgree(early);
      StandsNow(early, last);
      assert acts == early + [last];
      match last {
        case Subscribe(f) => SubscribingKeepsIndexes(After(early), Issued(early), f);
        case Unsubscribe(id) =>
          if id < |Issued(early)| {
            UnsubscribingKeepsIndexes(After(early), Issued(early), id);
          }
      }
    }
  }

  lemma {:induction false} StandsNow(early: seq<Act>, last: Act)
    ensures forall id: nat :: Stands(early + [last], id) <==>
                                (if last.Subscribe? then Stands(early, id) || id == |Issued(early)|
                                 else Stands(early, id) && last.id != id)
  {
    var acts := early + [last];
    assert acts[..|early|] == early && acts[|early|] == last;
    assert forall j :: 0 <= j < |early| ==> acts[j] == early[j];
    assert forall k :: 0 <= k <= |early| ==> acts[..k] == early[..k];
    forall id: nat
      ensures Stands(acts, id) <==>
                (if last.Subscribe? then Stands(early, id) || id == |Issued(early)| else Stands(early, id) && last.id != id)
    {
      if Stands(acts, id) {
        var k :| Makes(acts, k, id) && forall j :: k < j < |acts| ==> acts[j] != Unsubscribe(id);
        assert last != Unsubscribe(id) || k == |early|;
        if k < |early| {
          assert Makes(early, k, id);
        }
      }
      if Stands(early, id) && last != Unsubscribe(id) {
        var k :| Makes(early, k, id) && forall j :: k < j < |early| ==> early[j] != Unsubscribe(id);
        assert Makes(acts, k, id);
      }
      if last.Subscribe? && id == |Issued(early)| {
        assert Makes(acts, |early|, id);
      }
    }
  }

  /** `publish` calls exactly the standing subscriptions that match and that an
      index reaches. */
  lemma {:induction false} PublishCallsTheReached(acts: seq<Act>, e: Event)
    ensures forall id: nat ::
              id in Called(After(acts), e) <==>
                Stands(acts, id) && id < |Issued(acts)| && Matches(Issued(acts)[id], e) && Reached(Issued(acts)[id], e)
  {
    RunsAgree(acts);
    hide After, Issued, Stands;
  }

  /** So it calls every standing subscription that matches exactly where none of
      those names a base class of the event and no category. */
  lemma {:induction false} PublishIsAFullFilterIff(acts: seq<Act>, e: Event)
    ensures (forall id: nat :: Stands(acts, id) && id < |Issued(acts)| && Matches(Issued(acts)[id], e) ==> id in Called(After(acts), e))
            <==> (forall id: nat :: Stands(acts, id) && id < |Issued(acts)| && Matches(Issued(acts)[id], e) ==>
                                      Reached(Issued(acts)[id], e))
  {
    hide *;
    PublishCallsTheReached(acts, e);
  }

  /** A subscription to a base class, in any category, matches an instance of a
      subclass and never hears of it. */
  lemma {:induction false} ABaseClassIsNeverCalled(acts: seq<Act>, e: Event, id: nat)
    requires Stands(acts, id) && id < |Issued(acts)| && WellFormed(e)
    requires Issued(acts)[id].category.None? && Issued(acts)[id].eventType.Some?
    requires Issued(acts)[id].eventType.value in e.classes && Issued(acts)[id].eventType.value != e.exact
    ensures Matches(Issued(acts)[id], e) && id !in Called(After(acts), e)
  {
    hide After, Issued, Stands, Called;
    PublishCallsTheReached(acts, e);
  }

  // --- The bus itself ---

  class InProcessEventBus {
    var subscriptions: map<nat, Filter>
    var nextId: nat
    var byCategory: map<Category, set<nat>>
    var byType: map<Class, set<nat>>
    var globalIds: set<nat>
    var actionsNumbered: nat

    function Tables(): Bus
      reads this
    {
      Bus(subscriptions, nextId, byCategory, byType, globalIds)
    }

    constructor ()
      ensures Tables() == EMPTY && actionsNumbered == 0
    {
      subscriptions, nextId, byCategory, byType, globalIds, actionsNumbered := map[], 0, map[], map[], {}, 0;
    }

    /** The number of the subscription; None where no handler was given. */
    method Subscribe(f: Filter, hasHandler: bool) returns (id: Option<nat>)
      modifies this
      ensures id.Some? <==> hasHandler
      ensures id.Some? ==> id.value == old(nextId)
      ensures Tables() == if hasHandler then Subscribed(old(Tables()), f) else old(Tables())
      ensures actionsNumbered == old(actionsNumbered)
    {
      if !hasHandler {
        return None;
      }
      var subId := nextId;
      nextId := nextId + 1;
      subscriptions := subscriptions[subId := f];
      if f.eventType.None? && f.category.None? {
        globalIds := globalIds + {subId};
      }
      if f.category.Some? {
        byCategory := byCategory[f.category.value := At(byCategory, f.category.value) + {subId}];
      }
      if f.eventType.Some? {
        byType := byType[f.eventType.value := At(byType, f.eventType.value) + {subId}];
      }
      id := Some(subId);
    }

    method Unsubscribe(id: nat, f: Filter)
      modifies this
      ensures Tables() == Unsubscribed(old(Tables()), id, f) && actionsNumbered == old(actionsNumbered)
    {
      subscriptions := subscriptions - {id};
      globalIds := globalIds - {id};
      if f.category.Some? {
        byCategory := byCategory[f.category.value := At(byCategory, f.category.value) - {id}];
      }
      if f.eventType.Some? {
        byType := byType[f.eventType.value := At(byType, f.eventType.value) - {id}];
      }
    }

    /** The handlers' tasks, one to a subscription, in no fixed order. */
    method Publish(e: Event) returns (tasks: seq<nat>)
      ensures forall id :: id in tasks <==> id in Called(Tables(), e)
      ensures forall id :: multiset(tasks)[id] <= 1
    {
      tasks := [];
      var left := Candidates(Tables(), e);
      while left != {}
        invariant left <= Candidates(Tables(), e)
        invariant forall id :: id in tasks <==> id in Called(Tables(), e) && id !in left
        invariant forall id :: multiset(tasks)[id] <= 1
        decreases left
      {
        var id :| id in left;
        left := left - {id};
        if id in subscriptions && Matches(subscriptions[id], e) {
          assert id !in multiset(tasks);
          tasks := tasks + [id];
        }
      }
    }

    method NextActionId() returns (id: string)
      modifies this
      ensures actionsNumbered == old(actionsNumbered) + 1 && Tables() == old(Tables())
      ensures id == ActionId(actionsNumbered)
    {
      actionsNumbered := actionsNumbered + 1;
      id := ActionId(actionsNumbered);
    }
  }

  /** Zero-padded to twelve digits; more once twelve are not enough. */
  function ActionId(n: nat): string {
    if n < Timestamps.Pow10(12) then Timestamps.Pad(n, 12) else ActionId(n / 10) + [Timestamps.DigitChar(n % 10)]
  }

  /** A consumer that sorts action ids as text sorts them by number, as long as
      twelve digits are enough; the first id longer than that sorts too early. */
  lemma {:induction false} ActionIdsSortByNumber(a: nat, b: nat)
    requires a < Timestamps.Pow10(12) && b < Timestamps.Pow10(12)
    ensures TextLess(ActionId(a), ActionId(b)) <==> a < b
    ensures TextLess(ActionId(Timestamps.Pow10(12)), ActionId(Timestamps.Pow10(12) - 1))
  {
    hide Timestamps.Pad, TextLeq;
    Timestamps.PadOrder(a, b, 12);
    var first, last := Timestamps.Pow10(11), Timestamps.Pow10(12) - 1;
    assert Timestamps.Pow10(12) == 10 * first && first >= 1;
    Timestamps.PadOrder(first, last, 12);
    TextLeqOfHeads(Timestamps.Pad(first, 12), Timestamps.Pad(last, 12), [Timestamps.DigitChar(0)], "");
    assert Timestamps.Pad(last, 12) + "" == Timestamps.Pad(last, 12);
    assert ActionId(10 * first) == Timestamps.Pad(first, 12) + [Timestamps.DigitChar(0)];
  }
}
