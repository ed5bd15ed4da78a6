/** Which metacontexts a node stands in: stamping tags, moving a node,
    declaring a graph (epimemer/pipelines/metacontexts.py). */
module Metacontexts {
  import opened Options
  import opened Order

  type Id = string

  /** A `has_metacontext` edge. */
  datatype Stand = Stand(node: Id, metacontext: Id)

  /** A `tagged_with_topic` edge. */
  datatype Use = Use(node: Id, tag: Id)

  function SetOf(held: set<Stand>, node: Id): set<Id> {
    set e | e in held && e.node == node :: e.metacontext
  }

  /** The metacontexts a tag is used from. */
  function UsedFrom(uses: set<Use>, held: set<Stand>, tag: Id): set<Id> {
    set u, e | u in uses && u.tag == tag && e in held && e.node == u.node :: e.metacontext
  }

  /** `metacontexts_to_stamp`. */
  function Missing(uses: set<Use>, held: set<Stand>, tag: Id): set<Id> {
    UsedFrom(uses, held, tag) - SetOf(held, tag)
  }

  function PutIn(node: Id, metacontexts: set<Id>): set<Stand> {
    set m | m in metacontexts :: Stand(node, m)
  }

  function Stamps(tags: set<Id>, uses: set<Use>, held: set<Stand>): set<Stand> {
    set t, m | t in tags && m in Missing(uses, held, t) :: Stand(t, m)
  }

  /** One pass: every tag is put where its users stood before the pass. */
  function Pass(tags: set<Id>, uses: set<Use>, held: set<Stand>): set<Stand> {
    held + Stamps(tags, uses, held)
  }

  function Passes(tags: set<Id>, uses: set<Use>, held: set<Stand>, n: nat): set<Stand>
    decreases n
  {
    if n == 0 then held else Pass(tags, uses, Passes(tags, uses, held, n - 1))
  }

  /** A tag stands wherever its users do. */
  ghost predicate Closed(tags: set<Id>, uses: set<Use>, held: set<Stand>) {
    forall u, m :: u in uses && u.tag in tags && Stand(u.node, m) in held ==> Stand(u.tag, m) in held
  }

  /** What a pass adds, edge by edge. */
  lemma {:induction false} PassAdds(tags: set<Id>, uses: set<Use>, held: set<Stand>, n: Id, m: Id)
    ensures Stand(n, m) in Pass(tags, uses, held) <==>
              Stand(n, m) in held || (n in tags && exists u :: u in uses && u.tag == n && Stand(u.node, m) in held)
  {}

  /** A pass adds only, adds nothing exactly where nothing is missing, and adds
      no less to a graph that says more. */
  lemma {:induction false} PassIsMonotone(tags: set<Id>, uses: set<Use>, held: set<Stand>, more: set<Stand>)
    ensures held <= Pass(tags, uses, held)
    ensures Pass(tags, uses, held) == held <==> Closed(tags, uses, held)
    ensures held <= more ==> Pass(tags, uses, held) <= Pass(tags, uses, more)
  {}

  /** Passes never go beyond a closed graph that holds what they started from. */
  lemma {:induction false} PassesStayBelow(tags: set<Id>, uses: set<Use>, held: set<Stand>, n: nat, closed: set<Stand>)
    requires held <= closed && Closed(tags, uses, closed)
    ensures held <= Passes(tags, uses, held, n) <= closed
    decreases n
  {
    hide Pass, Closed;
    if n > 0 {
      PassesStayBelow(tags, uses, held, n - 1, closed);
      PassIsMonotone(tags, uses, Passes(tags, uses, held, n - 1), closed);
      PassIsMonotone(tags, uses, closed, closed);
    }
  }

  // --- How many passes it takes ---

  function TagsIn(tags: set<Id>, held: set<Stand>, m: Id): set<Id> {
    set t | t in tags && Stand(t, m) in held
  }

  ghost predicate ClosedFor(tags: set<Id>, uses: set<Use>, held: set<Stand>, m: Id) {
    forall u :: u in uses && u.tag in tags && Stand(u.node, m) in held ==> Stand(u.tag, m) in held
  }

  /** Each pass puts one more tag at least in a metacontext, until it is done
      with that metacontext. */
  lemma {:induction false} OneMoreTag(tags: set<Id>, uses: set<Use>, held: set<Stand>, m: Id)
    ensures ClosedFor(tags, uses, held, m) ==> ClosedFor(tags, uses, Pass(tags, uses, held), m)
    ensures !ClosedFor(tags, uses, held, m) ==> |TagsIn(tags, Pass(tags, uses, held), m)| > |TagsIn(tags, held, m)|
  {
    var after := Pass(tags, uses, held);
    forall n ensures Stand(n, m) in after <==>
                     Stand(n, m) in held || (n in tags && exists u :: u in uses && u.tag == n && Stand(u.node, m) in held)
    {
      PassAdds(tags, uses, held, n, m);
    }
    hide Pass;
    if !ClosedFor(tags, uses, held, m) {
      var u :| u in uses && u.tag in tags && Stand(u.node, m) in held && Stand(u.tag, m) !in held;
      assert u.tag in TagsIn(tags, after, m) - TagsIn(tags, held, m);
      Fewer(TagsIn(tags, held, m), TagsIn(tags, after, m));
    }
  }

  lemma {:induction false} Fewer<T>(a: set<T>, b: set<T>)
    requires a <= b
    ensures |a| <= |b|
    ensures a != b ==> |a| < |b|
  {
    assert b == a + (b - a);
  }

  lemma {:induction false} CountedPasses(tags: set<Id>, uses: set<Use>, held: set<Stand>, n: nat, m: Id)
    ensures ClosedFor(tags, uses, Passes(tags, uses, held, n), m) || |TagsIn(tags, Passes(tags, uses, held, n), m)| >= n
    decreases n
  {
    hide Pass, ClosedFor, TagsIn;
    if n > 0 {
      CountedPasses(tags, uses, held, n - 1, m);
      OneMoreTag(tags, uses, Passes(tags, uses, held, n - 1), m);
    }
  }

  /** As many passes as there are tags reach the least closed graph, and more
      add nothing. */
  lemma {:induction false} PassesReachTheLeastClosed(tags: set<Id>, uses: set<Use>, held: set<Stand>, n: nat)
    requires n >= |tags|
    ensures var stamped := Passes(tags, uses, held, n);
            && Closed(tags, uses, stamped) && held <= stamped
            && (forall closed :: held <= closed && Closed(tags, uses, closed) ==> stamped <= closed)
  {
    hide Passes;
    var stamped := Passes(tags, uses, held, n);
    forall m ensures ClosedFor(tags, uses, stamped, m) {
      CountedPasses(tags, uses, held, n, m);
      Fewer(TagsIn(tags, stamped, m), tags);
      if TagsIn(tags, stamped, m) == tags {
        assert forall t :: t in tags ==> t in TagsIn(tags, stamped, m);
      }
    }
    forall u, m | u in uses && u.tag in tags && Stand(u.node, m) in stamped ensures Stand(u.tag, m) in stamped {
      assert ClosedFor(tags, uses, stamped, m);
    }
    assert Closed(tags, uses, stamped);
    hide Closed;
    forall closed | held <= closed && Closed(tags, uses, closed) ensures stamped <= closed {
      PassesStayBelow(tags, uses, held, n, closed);
    }
    PassesOnlyAdd(tags, uses, held, n);
  }

  lemma {:induction false} PassesOnlyAdd(tags: set<Id>, uses: set<Use>, held: set<Stand>, n: nat)
    ensures held <= Passes(tags, uses, held, n)
    decreases n
  {
    hide Missing;
    if n > 0 {
      PassesOnlyAdd(tags, uses, held, n - 1);
    }
  }

  /** Whoever uses a tag that is itself tagged is, or uses, what it is tagged with. */
  ghost predicate UsesCompose(tags: set<Id>, uses: set<Use>) {
    forall u, v :: u in uses && v in uses && u.tag == v.node && u.tag in tags && v.tag in tags ==>
                     u.node == v.tag || Use(u.node, v.tag) in uses
  }

  /** Running the pass twice changes nothing the second time, whatever the
      nodes stand in, exactly where uses compose. */
  lemma {:induction false} OnePassIsEnoughIff(tags: set<Id>, uses: set<Use>)
    ensures (forall held :: Closed(tags, uses, Pass(tags, uses, held))) <==> UsesCompose(tags, uses)
  {
    if UsesCompose(tags, uses) {
      forall held ensures Closed(tags, uses, Pass(tags, uses, held)) {
        OnePassIsEnough(tags, uses, held);
      }
    } else {
      var u, v :| u in uses && v in uses && u.tag == v.node && u.tag in tags && v.tag in tags
                  && u.node != v.tag && Use(u.node, v.tag) !in uses;
      var held := {Stand(u.node, "")};
      OnePassIsNotEnough(tags, uses, u, v);
      assert !Closed(tags, uses, Pass(tags, uses, held));
    }
  }

  lemma {:induction false} OnePassIsEnough(tags: set<Id>, uses: set<Use>, held: set<Stand>)
    requires UsesCompose(tags, uses)
    ensures Closed(tags, uses, Pass(tags, uses, held))
  {}

  /** A tag tagged with another tag: the first pass reads what it stood in before. */
  lemma {:induction false} OnePassIsNotEnough(tags: set<Id>, uses: set<Use>, u: Use, v: Use)
    requires u in uses && v in uses && u.tag == v.node && u.tag in tags && v.tag in tags
    requires u.node != v.tag && Use(u.node, v.tag) !in uses
    ensures var after := Pass(tags, uses, {Stand(u.node, "")});
            && !Closed(tags, uses, after) && Stand(v.tag, "") !in after && Stand(v.tag, "") in Pass(tags, uses, after)
  {
    var held := {Stand(u.node, "")};
    PassAdds(tags, uses, held, v.node, "");
    PassAdds(tags, uses, held, v.tag, "");
    PassAdds(tags, uses, Pass(tags, uses, held), v.tag, "");
    hide Pass;
    assert forall w :: w in uses && w.tag == v.tag ==> w == Use(w.node, v.tag);
  }

  /** In particular where no tag is itself tagged with another one. */
  lemma {:induction false} UntaggedTagsNeedOnePass(tags: set<Id>, uses: set<Use>, held: set<Stand>)
    requires forall v :: v in uses && v.node in tags && v.tag in tags ==> v.node == v.tag
    ensures Pass(tags, uses, Pass(tags, uses, held)) == Pass(tags, uses, held)
  {}

  // --- Moving a node, declaring a graph ---

  datatype Refusal = NoReason | NoSuchNode | NotHeld | NothingToRevise | NoSuchMetacontext | WouldStrand

  /** Why `reassign_metacontext` would refuse, if it would. */
  function Refuses(nodes: set<Id>, known: set<Id>, held: set<Stand>, node: Id, withdraw: Id, assign: Option<Id>,
          because: bool)
    : Option<Refusal>
  {
    if !because then Some(NoReason)
    else if node !in nodes then Some(NoSuchNode)
    else if withdraw !in SetOf(held, node) then Some(NotHeld)
    else if assign == Some(withdraw) then Some(NothingToRevise)
    else if assign.Some? && assign.value !in known then Some(NoSuchMetacontext)
    else if SetOf(held, node) - {withdraw} == {} && assign.None? then Some(WouldStrand)
    else None
  }

  /** The order reasons are looked for in. */
  function Rank(reason: Refusal): nat {
    match reason
    case NoReason => 0
    case NoSuchNode => 1
    case NotHeld => 2
    case NothingToRevise => 3
    case NoSuchMetacontext => 4
    case WouldStrand => 5
  }

  /** When a reason for refusing a move applies, whatever the others say. */
  ghost predicate Applies(reason: Refusal, nodes: set<Id>, known: set<Id>, held: set<Stand>, node: Id, withdraw: Id,
          assign: Option<Id>, because: bool) {
    match reason
    case NoReason => !because
    case NoSuchNode => node !in nodes
    case NotHeld => Stand(node, withdraw) !in held
    case NothingToRevise => assign.Some? && assign.value == withdraw
    case NoSuchMetacontext => assign.Some? && assign.value !in known
    case WouldStrand => assign.None? && forall m :: Stand(node, m) in held ==> m == withdraw
  }

  /** A move is refused for the first of the reasons that applies, and only then. */
  lemma {:induction false} RefusedForTheFirstReason(nodes: set<Id>, known: set<Id>, held: set<Stand>, node: Id, withdraw: Id,
          assign: Option<Id>, because: bool)
    ensures Refuses(nodes, known, held, node, withdraw, assign, because).None? <==>
              forall r :: !Applies(r, nodes, known, held, node, withdraw, assign, because)
    ensures forall r :: Refuses(nodes, known, held, node, withdraw, assign, because) == Some(r) <==>
              && Applies(r, nodes, known, held, node, withdraw, assign, because)
              && forall q :: Rank(q) < Rank(r) ==> !Applies(q, nodes, known, held, node, withdraw, assign, because)
  {
    StandsSomewhere(held, node);
    hide SetOf;
    if forall m :: Stand(node, m) in held ==> m == withdraw {
      assert SetOf(held, node) - {withdraw} == {};
    } else {
      var m :| Stand(node, m) in held && m != withdraw;
      assert m in SetOf(held, node) - {withdraw};
    }
    var refusal := Refuses(nodes, known, held, node, withdraw, assign, because);
    assert refusal.Some? ==> Applies(refusal.value, nodes, known, held, node, withdraw, assign, because);
    assert Rank(NoReason) == 0 && Rank(NoSuchNode) == 1 && Rank(NotHeld) == 2;
    assert Rank(NothingToRevise) == 3 && Rank(NoSuchMetacontext) == 4 && Rank(WouldStrand) == 5;
  }

  /** No run puts a node where there is no metacontext. */
  lemma {:induction false} RunsStayWhereMetacontextsAre(held: set<Stand>, acts: seq<Act>, known: set<Id>)
    requires forall e :: e in held ==> e.metacontext in known
    requires forall a :: a in acts ==> (a.Reassign? ==> a.known <= known) && (a.Declare? ==> a.metacontext in known)
    ensures forall e :: e in AfterAll(held, acts) ==> e.metacontext in known
    decreases |acts|
  {
    if acts != [] {
      var early, last := acts[..|acts| - 1], acts[|acts| - 1];
      assert last in acts;
      RunsStayWhereMetacontextsAre(held, early, known);
      hide AfterAll, SetOf;
      ActsStayWhereMetacontextsAre(AfterAll(held, early), last, known);
    }
  }

  /** Stamping at the end of a run puts every tag wherever its users stand by then. */
  lemma {:induction false} AStampFollowsTheUses(held: set<Stand>, acts: seq<Act>, tags: set<Id>, uses: set<Use>, u: Use, m: Id)
    requires u in uses && u.tag in tags && Stand(u.node, m) in AfterAll(held, acts)
    ensures Stand(u.tag, m) in AfterAll(held, acts + [Stamp(tags, uses)])
    ensures AfterAll(held, acts) <= AfterAll(held, acts + [Stamp(tags, uses)])
  {
    var more := acts + [Stamp(tags, uses)];
    assert more[..|more| - 1] == acts;
    PassAdds(tags, uses, AfterAll(held, acts), u.tag, m);
    PassIsMonotone(tags, uses, AfterAll(held, acts), {});
    hide Pass;
  }

  lemma {:induction false} ActsStayWhereMetacontextsAre(held: set<Stand>, a: Act, known: set<Id>)
    requires forall e :: e in held ==> e.metacontext in known
    requires (a.Reassign? ==> a.known <= known) && (a.Declare? ==> a.metacontext in known)
    ensures forall e :: e in After(held, a) ==> e.metacontext in known
  {}

  /** The writes of a move: withdraw, assign, then the trail kept on the node. */
  function Writes(assign: Option<Id>): nat { if assign.Some? then 3 else 2 }

  /** A move of which the backend made the first `steps` writes. */
  function Moved(held: set<Stand>, node: Id, withdraw: Id, assign: Option<Id>, steps: nat): set<Stand> {
    (if steps > 0 then held - {Stand(node, withdraw)} else held)
    + (if steps > 1 && assign.Some? then {Stand(node, assign.value)} else {})
  }

  function Declared(active: seq<Id>, held: set<Stand>, metacontext: Id): set<Stand> {
    held + set n | n in active && SetOf(held, n) == {} :: Stand(n, metacontext)
  }

  /** What changes where nodes stand, each reading the graph as it finds it. */
  datatype Act =
    | Stamp(tags: set<Id>, uses: set<Use>)
    | Reassign(nodes: set<Id>, known: set<Id>, node: Id, withdraw: Id, assign: Option<Id>, because: bool, steps: nat)
    | Declare(active: seq<Id>, metacontext: Id)

  function After(held: set<Stand>, a: Act): set<Stand> {
    match a
    case Stamp(tags, uses) => Pass(tags, uses, held)
    case Reassign(nodes, known, node, withdraw, assign, because, steps) =>
      if Refuses(nodes, known, held, node, withdraw, assign, because).Some? then held
      else Moved(held, node, withdraw, assign, steps)
    case Declare(active, metacontext) => Declared(active, held, metacontext)
  }

  function AfterAll(held: set<Stand>, acts: seq<Act>): set<Stand>
    decreases |acts|
  {
    if acts == [] then held else After(AfterAll(held, acts[..|acts| - 1]), acts[|acts| - 1])
  }

  lemma {:induction false} StandsSomewhere(held: set<Stand>, node: Id)
    ensures SetOf(held, node) != {} <==> exists m :: Stand(node, m) in held
    ensures forall m :: m in SetOf(held, node) <==> Stand(node, m) in held
  {
    forall m ensures m in SetOf(held, node) <==> Stand(node, m) in held {
      if Stand(node, m) in held {
        assert Stand(node, m).metacontext in SetOf(held, node);
      }
    }
  }

  /** A move out of the only metacontext a node stands in, broken off between
      its two writes. */
  predicate Strands(held: set<Stand>, a: Act, node: Id) {
    && a.Reassign? && a.node == node && a.steps == 1 && a.assign.Some?
    && Refuses(a.nodes, a.known, held, node, a.withdraw, a.assign, a.because).None?
    && SetOf(held, node) == {a.withdraw}
  }

  /** What one act takes away and what a declaration gives. */
  lemma {:induction false} AnActStrandsIff(held: set<Stand>, a: Act, node: Id)
    ensures SetOf(held, node) != {} ==> (SetOf(After(held, a), node) == {} <==> Strands(held, a, node))
    ensures a.Declare? && node in a.active ==> SetOf(After(held, a), node) != {}
  {
    if a.Reassign? {
      if SetOf(held, node) != {} {
        AMoveStrandsIff(held, a, node);
      }
    } else {
      OnlyMovesTake(held, a, node);
    }
  }

  lemma {:induction false} OnlyMovesTake(held: set<Stand>, a: Act, node: Id)
    requires !a.Reassign?
    ensures SetOf(held, node) <= SetOf(After(held, a), node)
    ensures a.Declare? && node in a.active ==> SetOf(After(held, a), node) != {}
  {
    StandsSomewhere(held, node);
    StandsSomewhere(After(held, a), node);
    hide SetOf, Missing;
    if a.Declare? && node in a.active && SetOf(held, node) == {} {
      assert Stand(node, a.metacontext) in After(held, a);
    }
  }

  lemma {:induction false} AMoveStrandsIff(held: set<Stand>, a: Act, node: Id)
    requires a.Reassign? && SetOf(held, node) != {}
    ensures SetOf(After(held, a), node) == {} <==> Strands(held, a, node)
  {
    if a.node == node {
      MovedSet(held, node, a.withdraw, a.assign, a.steps);
    } else {
      OthersStay(held, a.node, a.withdraw, a.assign, a.steps, node);
    }
    hide SetOf, Moved;
  }

  lemma {:induction false} OthersStay(held: set<Stand>, moved: Id, withdraw: Id, assign: Option<Id>, steps: nat, node: Id)
    requires moved != node
    ensures SetOf(Moved(held, moved, withdraw, assign, steps), node) == SetOf(held, node)
  {}

  /** A node that stands somewhere, or is declared first, is never without a
      metacontext in a run exactly when no move strands it on the way. */
  lemma {:induction false} RunsStrandANodeIff(held: set<Stand>, acts: seq<Act>, node: Id)
    requires SetOf(held, node) != {} || (acts != [] && acts[0].Declare? && node in acts[0].active)
    ensures (forall k :: 0 < k <= |acts| ==> SetOf(AfterAll(held, acts[..k]), node) != {})
            <==> (forall k :: 0 <= k < |acts| ==> !Strands(AfterAll(held, acts[..k]), acts[k], node))
  {
    hide After, SetOf, Refuses;
    assert acts[..0] == [];
    if forall k :: 0 <= k < |acts| ==> !Strands(AfterAll(held, acts[..k]), acts[k], node) {
      forall k | 0 < k <= |acts| ensures SetOf(AfterAll(held, acts[..k]), node) != {} {
        NotStrandedYet(held, acts, node, k);
      }
    } else {
      var k :| 0 <= k < |acts| && Strands(AfterAll(held, acts[..k]), acts[k], node);
      OneMoreAct(held, acts, node, k);
    }
  }

  lemma {:induction false} OneMoreAct(held: set<Stand>, acts: seq<Act>, node: Id, k: nat)
    requires k < |acts|
    ensures var before, after := AfterAll(held, acts[..k]), AfterAll(held, acts[..k + 1]);
            && after == After(before, acts[k])
            && (SetOf(before, node) != {} ==> (SetOf(after, node) == {} <==> Strands(before, acts[k], node)))
            && (acts[k].Declare? && node in acts[k].active ==> SetOf(after, node) != {})
  {
    hide After, SetOf, Strands;
    assert acts[..k + 1][..k] == acts[..k];
    AnActStrandsIff(AfterAll(held, acts[..k]), acts[k], node);
  }

  lemma {:induction false} NotStrandedYet(held: set<Stand>, acts: seq<Act>, node: Id, k: nat)
    requires SetOf(held, node) != {} || (acts != [] && acts[0].Declare? && node in acts[0].active)
    requires 0 < k <= |acts| && forall k :: 0 <= k < |acts| ==> !Strands(AfterAll(held, acts[..k]), acts[k], node)
    ensures SetOf(AfterAll(held, acts[..k]), node) != {}
  {
    hide After, SetOf, Strands;
    assert acts[..0] == [];
    if k > 1 {
      NotStrandedYet(held, acts, node, k - 1);
    }
    OneMoreAct(held, acts, node, k - 1);
  }

  /** So complete calls never leave a node stating nothing. */
  lemma {:induction false} CompleteRunsStrandNobody(held: set<Stand>, acts: seq<Act>, node: Id)
    requires forall a :: a in acts && a.Reassign? ==> a.steps >= Writes(a.assign)
    requires SetOf(held, node) != {} || (acts != [] && acts[0].Declare? && node in acts[0].active)
    ensures acts != [] || SetOf(held, node) != {} ==> SetOf(AfterAll(held, acts), node) != {}
  {
    RunsStrandANodeIff(held, acts, node);
    assert acts[..|acts|] == acts;
  }

  /** A move broken off between its writes leaves its node stating nothing. */
  lemma {:induction false} ABrokenMoveStrands(node: Id, from: Id, to: Id)
    requires from != to
    ensures After({Stand(node, from)}, Reassign({node}, {from, to}, node, from, Some(to), true, 1)) == {}
    ensures After({Stand(node, from)}, Reassign({node}, {from, to}, node, from, Some(to), true, 3)) == {Stand(node, to)}
  {
    StandsSomewhere({Stand(node, from)}, node);
    hide SetOf;
  }

  /** A graph declared between the two writes of a move puts the node in the
      declared metacontext too exactly when the move was out of its only one. */
  lemma {:induction false} DeclaredInTheMiddle(held: set<Stand>, node: Id, withdraw: Id, to: Id, active: seq<Id>, declared: Id)
    requires withdraw in SetOf(held, node) && to != withdraw && node in active
    ensures var halfway := Moved(held, node, withdraw, Some(to), 1);
            SetOf(Declared(active, halfway, declared) + {Stand(node, to)}, node)
            == SetOf(Moved(held, node, withdraw, Some(to), 3), node)
               + (if SetOf(held, node) == {withdraw} then {declared} else {})
  {
    var halfway := Moved(held, node, withdraw, Some(to), 1);
    MovedSet(held, node, withdraw, Some(to), 1);
    MovedSet(held, node, withdraw, Some(to), 3);
    hide Moved;
    var after := Declared(active, halfway, declared);
    assert SetOf(after + {Stand(node, to)}, node) == SetOf(after, node) + {to};
    assert SetOf(after, node) == if SetOf(halfway, node) == {} then {declared} else SetOf(halfway, node);
  }

  /** Two moves of one node, each allowed by what it read before either wrote,
      leave it stating nothing exactly when together they withdraw all it
      stood in and neither puts it anywhere the other leaves it. */
  lemma {:induction false} CheckedBeforeEitherMoves(held: set<Stand>, nodes: set<Id>, known: set<Id>, node: Id,
          first: Id, put: Option<Id>, second: Id, putNext: Option<Id>)
    requires Refuses(nodes, known, held, node, first, put, true).None?
    requires Refuses(nodes, known, held, node, second, putNext, true).None?
    ensures SetOf(Moved(Moved(held, node, first, put, 3), node, second, putNext, 3), node) == {}
            <==> SetOf(held, node) == {first, second} && putNext.None? && (put.None? || put == Some(second))
  {
    MovedSet(held, node, first, put, 3);
    MovedSet(Moved(held, node, first, put, 3), node, second, putNext, 3);
    hide SetOf, Moved;
  }

  /** Declaring twice declares nothing the second time. */
  lemma {:induction false} DeclaringTwiceDeclaresNothing(active: seq<Id>, held: set<Stand>, metacontext: Id, again: Id)
    ensures Declared(active, Declared(active, held, metacontext), again) == Declared(active, held, metacontext)
  {
    var after := Declared(active, held, metacontext);
    forall n | n in active ensures SetOf(after, n) != {} {
      AnActStrandsIff(held, Declare(active, metacontext), n);
    }
  }

  // --- The storage these are written to ---

  datatype StampReport = StampReport(topicsSeen: nat, edgesWritten: nat, topicIds: seq<Id>)

  datatype DeclareReport = DeclareReport(declared: nat, alreadyIn: nat, nodeIds: seq<Id>)

  ghost predicate Distinct(ids: seq<Id>) { forall i, j :: 0 <= i < j < |ids| ==> ids[i] != ids[j] }

  function Elements(ids: seq<Id>): set<Id> { set n | n in ids }

  /** What a pass over one more topic adds: edges nobody wrote yet. */
  lemma {:induction false} OneMoreTopic(topics: seq<Id>, k: nat, uses: set<Use>, held: set<Stand>)
    requires k < |topics| && Distinct(topics)
    ensures var done, missing := Pass(Elements(topics[..k]), uses, held), Missing(uses, held, topics[k]);
            && Pass(Elements(topics[..k + 1]), uses, held) == done + PutIn(topics[k], missing)
            && |Pass(Elements(topics[..k + 1]), uses, held) - held| == |done - held| + |missing|
  {
    OneMoreElement(topics, k);
    hide *;
    StampsOfMore(Elements(topics[..k]), topics[k], uses, held);
  }

  lemma {:induction false} OneMoreElement(ids: seq<Id>, k: nat)
    requires k < |ids| && Distinct(ids)
    ensures ids[k] !in Elements(ids[..k]) && Elements(ids[..k + 1]) == Elements(ids[..k]) + {ids[k]}
  {}

  lemma {:induction false} NoTopicsYet(topics: seq<Id>, uses: set<Use>, held: set<Stand>)
    ensures Pass(Elements(topics[..0]), uses, held) == held
    ensures held <= Pass(Elements(topics), uses, held)
  {}

  lemma {:induction false} StampsOfMore(tags: set<Id>, t: Id, uses: set<Use>, held: set<Stand>)
    requires t !in tags
    ensures var missing := Missing(uses, held, t);
            && Pass(tags + {t}, uses, held) == Pass(tags, uses, held) + PutIn(t, missing)
            && |Pass(tags + {t}, uses, held) - held| == |Pass(tags, uses, held) - held| + |missing|
  {
    var missing := Missing(uses, held, t);
    var done, more := Stamps(tags, uses, held), Stamps(tags + {t}, uses, held);
    NothingTwice(tags, uses, held);
    NothingTwice(tags + {t}, uses, held);
    hide Missing;
    assert more == done + PutIn(t, missing) && done !! PutIn(t, missing);
    hide Stamps, PutIn;
    assert held + done - held == done && held + more - held == more;
    PutInCounts(t, missing);
  }

  lemma {:induction false} NothingTwice(tags: set<Id>, uses: set<Use>, held: set<Stand>)
    ensures Stamps(tags, uses, held) !! held
  {}

  lemma {:induction false} PutInCounts(node: Id, metacontexts: set<Id>)
    ensures |PutIn(node, metacontexts)| == |metacontexts|
  {
    if metacontexts != {} {
      var m :| m in metacontexts;
      PutInCounts(node, metacontexts - {m});
      assert PutIn(node, metacontexts) == PutIn(node, metacontexts - {m}) + {Stand(node, m)};
    }
  }

  lemma {:induction false} StampedSet(tags: set<Id>, uses: set<Use>, held: set<Stand>, t: Id)
    requires t in tags
    ensures SetOf(Pass(tags, uses, held), t) == SetOf(held, t) + Missing(uses, held, t)
    ensures SetOf(Pass(tags, uses, held), t) == SetOf(held, t) <==> Missing(uses, held, t) == {}
  {}

  lemma {:induction false} MovedSet(held: set<Stand>, node: Id, withdraw: Id, assign: Option<Id>, steps: nat)
    ensures SetOf(Moved(held, node, withdraw, assign, steps), node)
            == (if steps > 0 then SetOf(held, node) - {withdraw} else SetOf(held, node))
               + (if steps > 1 && assign.Some? then {assign.value} else {})
  {}

  lemma {:induction false} ABrokenMove(nodes: set<Id>, known: set<Id>, held: set<Stand>, node: Id, withdraw: Id,
          assign: Option<Id>, because: bool, steps: nat)
    requires Refuses(nodes, known, held, node, withdraw, assign, because).None?
    ensures Moved(held, node, withdraw, assign, 0) == held
    ensures steps > 0 && assign.None? ==> Moved(held, node, withdraw, assign, steps) == held - {Stand(node, withdraw)}
    ensures Moved(held, node, withdraw, assign, 1) == held - {Stand(node, withdraw)}
    ensures steps > 1 && assign.Some? ==>
              Moved(held, node, withdraw, assign, steps) == held - {Stand(node, withdraw)} + {Stand(node, assign.value)}
    ensures assign != Some(withdraw)
    ensures SetOf(Moved(held, node, withdraw, assign, steps), node) == {}
            <==> steps == 1 && assign.Some? && SetOf(held, node) == {withdraw}
  {
    MovedSet(held, node, withdraw, assign, steps);
    hide SetOf;
  }

  /** The sorted report of a move. */
  lemma {:induction false} MovedListing(held: set<Stand>, node: Id, withdraw: Id, assign: Option<Id>,
          steps: nat, remaining: seq<Id>)
    requires assign != Some(withdraw) && steps >= Writes(assign)
    requires Distinct(remaining) && Elements(remaining) == SetOf(held, node) - {withdraw}
    ensures var now, all := Sort(remaining + Listing(assign), TextLeq), SetOf(Moved(held, node, withdraw, assign, steps), node);
            && SortedBy(now, TextLeq) && (forall m :: m in now <==> m in all)
            && (|now| > |all| <==> assign.Some? && assign.value in SetOf(held, node))
  {
    MovedSet(held, node, withdraw, assign, steps);
    hide SetOf, Moved;
    TextPreorder();
    SortIsSorted(remaining + Listing(assign), TextLeq);
    hide Sort, TextLeq, SortedBy, TotalPreorder;
    ElementsCount(remaining);
    hide Distinct;
    assert forall m :: m in remaining <==> m in Elements(remaining);
  }

  function Listing(id: Option<Id>): seq<Id> { if id.Some? then [id.value] else [] }

  lemma {:induction false} TextPreorder()
    ensures TotalPreorder(TextLeq)
  {
    forall x: string, y: string ensures TextLeq(x, y) || TextLeq(y, x) {
      TextLeqTotal(x, y);
    }
    forall x: string, y: string, z: string | TextLeq(x, y) && TextLeq(y, z) ensures TextLeq(x, z) {
      TextLeqTransitive(x, y, z);
    }
  }

  lemma {:induction false} ElementsCount(ids: seq<Id>)
    requires Distinct(ids)
    ensures |Elements(ids)| == |ids|
  {
    if ids != [] {
      ElementsCount(ids[1..]);
      assert ids == [ids[0]] + ids[1..];
      assert Elements(ids) == {ids[0]} + Elements(ids[1..]);
    }
  }

  function StandingAt(ids: seq<Id>, metacontext: Id): set<Stand> { set n | n in ids :: Stand(n, metacontext) }

  lemma {:induction false} DeclaredCounts(without: seq<Id>, held: set<Stand>, metacontext: Id)
    requires Distinct(without) && forall n :: n in without ==> SetOf(held, n) == {}
    ensures |held + StandingAt(without, metacontext) - held| == |without|
  {
    forall n | n in without ensures Stand(n, metacontext) !in held {
      StandsSomewhere(held, n);
    }
    assert held + StandingAt(without, metacontext) - held == StandingAt(without, metacontext);
    StandingCounts(without, metacontext);
  }

  lemma {:induction false} DeclaredAre(active: seq<Id>, without: seq<Id>, held: set<Stand>, metacontext: Id)
    requires forall n :: n in without <==> n in active && SetOf(held, n) == {}
    ensures After(held, Declare(active, metacontext)) == held + StandingAt(without, metacontext)
  {
    hide SetOf;
  }

  lemma {:induction false} StandingCounts(ids: seq<Id>, metacontext: Id)
    requires Distinct(ids)
    ensures |StandingAt(ids, metacontext)| == |ids|
  {
    if ids != [] {
      StandingCounts(ids[1..], metacontext);
      assert ids == [ids[0]] + ids[1..];
      assert StandingAt(ids, metacontext) == {Stand(ids[0], metacontext)} + StandingAt(ids[1..], metacontext);
    }
  }

  method Listed(ids: set<Id>) returns (listing: seq<Id>)
    ensures Distinct(listing) && Elements(listing) == ids
  {
    listing := [];
    var left := ids;
    while left != {}
      invariant Distinct(listing) && left <= ids && Elements(listing) == ids - left
      decreases left
    {
      var n :| n in left;
      assert n !in Elements(listing);
      assert Elements(listing + [n]) == Elements(listing) + {n};
      listing, left := listing + [n], left - {n};
    }
  }

  class Graph {
    var held: set<Stand>
    var uses: set<Use>
    const nodes: set<Id>
    const known: set<Id>

    constructor (nodes: set<Id>, known: set<Id>, uses: set<Use>, held: set<Stand>)
      ensures this.nodes == nodes && this.known == known && this.uses == uses && this.held == held
    {
      this.nodes, this.known, this.uses, this.held := nodes, known, uses, held;
    }

    /** Every set is read before any edge is written, so this is one pass. */
    method StampTagMetacontexts(topics: seq<Id>) returns (r: StampReport)
      requires Distinct(topics)
      modifies this`held
      ensures held == Pass(Elements(topics), uses, old(held))
      ensures r.topicsSeen == |topics| && r.edgesWritten == |held - old(held)|
      ensures forall t :: t in r.topicIds <==> t in topics && SetOf(held, t) != SetOf(old(held), t)
    {
      hide Pass, Missing, PutIn, SetOf;
      ghost var before := held;
      NoTopicsYet(topics, uses, before);
      var read := held;
      var written, stamped := 0, [];
      for k := 0 to |topics|
        invariant held == Pass(Elements(topics[..k]), uses, before)
        invariant written == |held - before|
        invariant forall t :: t in stamped <==> t in topics[..k] && Missing(uses, before, t) != {}
      {
        var missing := Missing(uses, read, topics[k]);
        OneMoreTopic(topics, k, uses, before);
        held := held + PutIn(topics[k], missing);
        written := written + |missing|;
        if missing != {} {
          stamped := stamped + [topics[k]];
        }
      }
      assert topics[..|topics|] == topics;
      forall t | t in topics ensures SetOf(held, t) == SetOf(before, t) <==> Missing(uses, before, t) == {} {
        StampedSet(Elements(topics), uses, before, t);
      }
      r := StampReport(|topics|, written, stamped);
    }

    /** Refused, complete, or broken off after `steps` writes, which leaves the
        node stating nothing in one case. Assigning one it already stands in
        lists it twice. */
    method ReassignMetacontext(node: Id, withdraw: Id, assign: Option<Id>, because: bool, steps: nat)
      returns (r: Result<seq<Id>, Option<Refusal>>)
      modifies this`held
      ensures held == After(old(held), Reassign(nodes, known, node, withdraw, assign, because, steps))
      ensures r.Err? && r.error.Some? ==> r.error == Refuses(nodes, known, old(held), node, withdraw, assign, because)
      ensures r.Err? && r.error.Some? <==> Refuses(nodes, known, old(held), node, withdraw, assign, because).Some?
      ensures r == Err(None) ==> steps < Writes(assign)
      ensures r.Ok? <==> Refuses(nodes, known, old(held), node, withdraw, assign, because).None?
                         && steps >= (if assign.Some? then 3 else 2)
      ensures r == Err(None) ==>
                (SetOf(held, node) == {} <==> steps == 1 && assign.Some? && SetOf(old(held), node) == {withdraw})
      ensures r.Ok? ==> steps >= Writes(assign) && SetOf(held, node) != {} && SortedBy(r.value, TextLeq)
      ensures r.Ok? ==> forall m :: m in r.value <==> m in SetOf(held, node)
      ensures r.Ok? ==> (|r.value| > |SetOf(held, node)| <==> assign.Some? && assign.value in SetOf(old(held), node))
    {
      var refusal := Refuses(nodes, known, held, node, withdraw, assign, because);
      hide SetOf, Sort, SortedBy;
      if refusal.Some? {
        return Err(refusal);
      }
      ghost var before := held;
      ABrokenMove(nodes, known, held, node, withdraw, assign, because, steps);
      hide Moved, Refuses;
      var remaining := Listed(SetOf(held, node) - {withdraw});
      if steps == 0 {
        return Err(None);
      }
      held := held - {Stand(node, withdraw)};
      if assign.Some? {
        if steps == 1 {
          return Err(None);
        }
        held := held + {Stand(node, assign.value)};
      }
      if steps < Writes(assign) {
        return Err(None);
      }
      MovedListing(before, node, withdraw, assign, steps, remaining);
      r := Ok(Sort(remaining + Listing(assign), TextLeq));
    }

    method WithoutMetacontext(active: seq<Id>) returns (without: seq<Id>)
      requires Distinct(active)
      ensures Distinct(without) && |without| <= |active|
      ensures forall n :: n in without <==> n in active && SetOf(held, n) == {}
    {
      hide SetOf;
      without := [];
      for k := 0 to |active|
        invariant Distinct(without) && |without| <= k
        invariant forall n :: n in without <==> n in active[..k] && SetOf(held, n) == {}
      {
        assert active[..k + 1] == active[..k] + [active[k]];
        if SetOf(held, active[k]) == {} {
          without := without + [active[k]];
        }
      }
      assert active[..|active|] == active;
    }

    /** Every active node that stands nowhere is put in the metacontext; a node
        that stands somewhere is not touched. */
    method DeclareMetacontext(metacontext: Id, active: seq<Id>) returns (r: Option<DeclareReport>)
      requires Distinct(active)
      modifies this`held
      ensures r.None? <==> metacontext !in known
      ensures r.None? ==> held == old(held)
      ensures r.Some? ==> held == After(old(held), Declare(active, metacontext))
      ensures r.Some? ==> forall n :: n in r.value.nodeIds <==> n in active && SetOf(old(held), n) == {}
      ensures r.Some? ==> r.value.declared == |held - old(held)| && r.value.declared + r.value.alreadyIn == |active|
    {
      if metacontext !in known {
        return None;
      }
      hide SetOf;
      ghost var before := held;
      var without := WithoutMetacontext(active);
      for k := 0 to |without|
        invariant held == before + StandingAt(without[..k], metacontext)
      {
        assert without[..k + 1] == without[..k] + [without[k]];
        held := held + PutIn(without[k], {metacontext});
      }
      assert without[..|without|] == without;
      hide After, PutIn;
      DeclaredAre(active, without, before, metacontext);
      DeclaredCounts(without, before, metacontext);
      r := Some(DeclareReport(|without|, |active| - |without|, without));
    }
  }
}
