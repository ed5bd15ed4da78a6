/** One metacontext building on another: the `based_on` edge
    (epimemer/pipelines/metacontext_bases.py). */
module MetacontextBases {
  import opened Options
  import opened Order

  type Id = string

  /** Where two worlds part. Only a date or a named moment says. */
  datatype Instant = Precise(at: int) | Named(words: string) | Unknown | Unbounded

  datatype Edge = Edge(id: Id, src: Id, dst: Id, diverges: Option<Instant>, createdAt: int, retired: bool)

  // --- Following bases ---

  /** Where `n` steps up the chain of bases from `m` lead. */
  function Walk(bases: map<Id, Id>, m: Id, n: nat): Option<Id>
    decreases n
  {
    if n == 0 then Some(m) else if m in bases then Walk(bases, bases[m], n - 1) else None
  }

  ghost predicate Reaches(bases: map<Id, Id>, a: Id, b: Id) {
    exists n: nat :: Walk(bases, a, n) == Some(b)
  }

  ghost predicate Acyclic(bases: map<Id, Id>) {
    forall m, n: nat :: Walk(bases, m, n) == Some(m) ==> n == 0
  }

  lemma {:induction false} WalkOn(bases: map<Id, Id>, a: Id, i: nat, j: nat)
    requires Walk(bases, a, i).Some?
    ensures Walk(bases, a, i + j) == Walk(bases, Walk(bases, a, i).value, j)
    decreases i
  {
    if i > 0 {
      WalkOn(bases, bases[a], i - 1, j);
    }
  }

  /** Until it comes to `m`, a walk does not notice `m`'s base being set. */
  lemma {:induction false} WalkUntil(bases: map<Id, Id>, m: Id, b: Id, x: Id, n: nat) returns (i: nat)
    ensures i <= n
    ensures i < n ==> Walk(bases, x, i) == Some(m) && Walk(bases[m := b], x, i) == Some(m)
    ensures i == n ==> Walk(bases, x, n) == Walk(bases[m := b], x, n)
    decreases n
  {
    if n == 0 || x == m {
      i := 0;
    } else if x in bases {
      i := WalkUntil(bases, m, b, bases[x], n - 1);
      i := i + 1;
    } else {
      i := n;
    }
  }

  /** Setting a base keeps the graph acyclic exactly when the base does not
      already build on the metacontext. */
  lemma {:induction false} AcyclicUnlessReached(bases: map<Id, Id>, m: Id, b: Id)
    requires Acyclic(bases)
    ensures Acyclic(bases[m := b]) <==> !Reaches(bases, b, m)
  {
    var after := bases[m := b];
    if Reaches(bases, b, m) {
      var n: nat :| Walk(bases, b, n) == Some(m);
      var i := WalkUntil(bases, m, b, b, n);
      assert Walk(after, m, i + 1) == Some(m);
    } else {
      forall x, n: nat | Walk(after, x, n) == Some(x) ensures n == 0 {
        var i := WalkUntil(bases, m, b, x, n);
        if i < n {
          WalkOn(after, x, i, n - i);
          WalkOn(after, m, n - i, i);
          BaseReaches(bases, m, b, n - 1);
        }
      }
    }
  }

  /** Only run one after the other: two calls that are each fine on their own, and
      each check before either writes, leave a cycle together. */
  lemma {:induction false} CheckedBeforeEitherWrites(bases: map<Id, Id>, a: Id, b: Id)
    requires Acyclic(bases) && a != b && !Reaches(bases, b, a) && !Reaches(bases, a, b)
    ensures Acyclic(bases[a := b]) && Acyclic(bases[b := a])
    ensures !Acyclic(bases[a := b][b := a]) && bases[a := b][b := a] == bases[b := a][a := b]
  {
    AcyclicUnlessReached(bases, a, b);
    AcyclicUnlessReached(bases, b, a);
    var both := bases[a := b][b := a];
    assert Walk(both, a, 2) == Walk(both, b, 1) == Walk(both, a, 0);
  }

  lemma {:induction false} BaseReaches(bases: map<Id, Id>, m: Id, b: Id, n: nat)
    requires Walk(bases[m := b], b, n) == Some(m)
    ensures Reaches(bases, b, m)
  {
    var i := WalkUntil(bases, m, b, b, n);
  }

  /** Taking a base away never makes a cycle. */
  lemma {:induction false} WithdrawingKeepsAcyclic(bases: map<Id, Id>, m: Id)
    requires Acyclic(bases)
    ensures Acyclic(bases - {m})
  {
    forall x, n: nat | Walk(bases - {m}, x, n) == Some(x) ensures n == 0 {
      FewerBases(bases, m, x, n);
    }
  }

  lemma {:induction false} FewerBases(bases: map<Id, Id>, m: Id, x: Id, n: nat)
    requires Walk(bases - {m}, x, n).Some?
    ensures Walk(bases, x, n) == Walk(bases - {m}, x, n)
    decreases n
  {
    if n > 0 {
      FewerBases(bases, m, bases[x], n - 1);
    }
  }

  // --- The edge in force ---

  predicate NoLater(a: Edge, b: Edge) {
    a.createdAt < b.createdAt || (a.createdAt == b.createdAt && TextLeq(a.id, b.id))
  }

  /** `_current`: the first of the newest live edges listed. */
  function Current(listing: seq<Edge>): Option<Edge> {
    if listing == [] then None
    else
      var rest := Current(listing[1..]);
      if !listing[0].retired && (rest.None? || NoLater(rest.value, listing[0])) then Some(listing[0]) else rest
  }

  function From(edges: set<Edge>, m: Id): set<Edge> { set e | e in edges && e.src == m }

  function Live(edges: set<Edge>, m: Id): set<Edge> { set e | e in edges && e.src == m && !e.retired }

  function Elements(listing: seq<Edge>): set<Edge> { set e | e in listing }

  /** The backend lists an id's edges, in whatever order. */
  ghost predicate Lists(listing: seq<Edge>, edges: set<Edge>) {
    forall e :: e in listing <==> e in edges
  }

  ghost predicate UniqueIds(edges: set<Edge>) {
    forall e, f :: e in edges && f in edges && e.id == f.id ==> e == f
  }

  /** The newest edge was created last, and of those created together has the
      greatest id. */
  lemma {:induction false} NewestIs(e: Edge, edges: set<Edge>)
    ensures Newest(e, edges) <==>
              && e in edges && (forall f :: f in edges ==> f.createdAt <= e.createdAt)
              && forall f :: f in edges && f.createdAt == e.createdAt ==> TextLeq(f.id, e.id)
  {
    TextLeqTotal(e.id, e.id);
  }

  ghost predicate Newest(e: Edge, edges: set<Edge>) {
    e in edges && forall f :: f in edges ==> NoLater(f, e)
  }

  lemma {:induction false} CurrentIsNewest(listing: seq<Edge>)
    ensures Current(listing).None? <==> forall e :: e in listing ==> e.retired
    ensures Current(listing).Some? ==>
              && Current(listing).value in listing && !Current(listing).value.retired
              && forall f :: f in listing && !f.retired ==> NoLater(f, Current(listing).value)
  {
    if listing != [] {
      CurrentIsNewest(listing[1..]);
      assert listing == [listing[0]] + listing[1..];
      TextLeqTotal(listing[0].id, listing[0].id);
      if Current(listing[1..]).Some? {
        var rest := Current(listing[1..]).value;
        TextLeqTotal(rest.id, listing[0].id);
        if !listing[0].retired && NoLater(rest, listing[0]) {
          forall f | f in listing[1..] && !f.retired ensures NoLater(f, listing[0]) {
            NoLaterTransitive(f, rest, listing[0]);
          }
        }
      }
    }
  }

  lemma {:induction false} NoLaterTransitive(a: Edge, b: Edge, c: Edge)
    requires NoLater(a, b) && NoLater(b, c)
    ensures NoLater(a, c)
  {
    if a.createdAt == b.createdAt == c.createdAt {
      TextLeqTransitive(a.id, b.id, c.id);
    }
  }

  lemma {:induction false} NewestIsUnique(e: Edge, f: Edge, edges: set<Edge>)
    requires UniqueIds(edges) && Newest(e, edges) && Newest(f, edges)
    ensures e == f
  {
    TextLeqTotal(e.id, f.id);
  }

  lemma {:induction false} SomeNewest(edges: set<Edge>)
    requires edges != {}
    ensures exists e :: Newest(e, edges)
  {
    var e :| e in edges;
    TextLeqTotal(e.id, e.id);
    if edges == {e} {
      assert Newest(e, edges);
    } else {
      SomeNewest(edges - {e});
      var f :| Newest(f, edges - {e});
      TextLeqTotal(e.id, f.id);
      TextLeqTotal(f.id, f.id);
      if NoLater(e, f) {
        assert Newest(f, edges);
      } else {
        forall g | g in edges ensures NoLater(g, e) {
          if g != e {
            NoLaterTransitive(g, f, e);
          }
        }
        assert Newest(e, edges);
      }
    }
  }

  ghost function TheNewest(edges: set<Edge>): (e: Edge)
    requires edges != {}
    ensures Newest(e, edges)
  {
    SomeNewest(edges);
    var e :| Newest(e, edges);
    e
  }

  /** Each metacontext's base, where it has one. */
  ghost function Bases(edges: set<Edge>): map<Id, Id> {
    map m | m in (set e | e in edges :: e.src) && Live(edges, m) != {} :: TheNewest(Live(edges, m)).dst
  }

  lemma {:induction false} CurrentIsTheBase(edges: set<Edge>, m: Id, listing: seq<Edge>)
    requires UniqueIds(edges) && Lists(listing, From(edges, m))
    ensures Current(listing).Some? <==> m in Bases(edges)
    ensures Current(listing).Some? ==> Current(listing).value.dst == Bases(edges)[m]
    ensures Current(listing).Some? ==> Current(listing).value == TheNewest(Live(edges, m))
  {
    CurrentIsNewest(listing);
    if Current(listing).Some? {
      var e := Current(listing).value;
      assert e in Live(edges, m) && m in (set f | f in edges :: f.src);
      assert Newest(e, Live(edges, m));
      NewestIsUnique(e, TheNewest(Live(edges, m)), Live(edges, m));
    } else {
      assert Live(edges, m) == {};
    }
  }

  // --- Setting, replacing and withdrawing ---

  /** One call that passed the check. `previous` is the order the backend
      listed the old edges in; the backend fails after `steps` writes. */
  datatype Act = Act(m: Id, base: Option<Id>, diverges: Option<Instant>, newId: Id, at: int, previous: seq<Edge>, steps: nat)
  {
    function NewEdges(): set<Edge> {
      if base.Some? then {Edge(newId, m, base.value, diverges, at, false)} else {}
    }

    /** How many of the old edges get deleted. */
    function Deletions(): nat {
      var left := if base.Some? && steps > 0 then steps - 1 else steps;
      if left < |previous| then left else |previous|
    }

    function Deleted(): set<Edge> { Elements(previous[..Deletions()]) }

    predicate Complete() { steps >= |previous| + if base.Some? then 1 else 0 }
  }

  /** `write_base`, as far as it gets: the new edge first, then the deletions. */
  function AfterWrite(edges: set<Edge>, a: Act): set<Edge> {
    if a.steps == 0 then edges else edges + a.NewEdges() - a.Deleted()
  }

  ghost predicate Possible(edges: set<Edge>, a: Act) {
    && Lists(a.previous, From(edges, a.m))
    && (a.base.Some? ==> forall e :: e in edges ==> e.id != a.newId)
  }

  /** The new edge is dated after every edge it replaces. */
  ghost predicate Later(edges: set<Edge>, a: Act) {
    a.base.Some? ==> forall e :: e in From(edges, a.m) ==> e.createdAt < a.at
  }

  /** An interrupted withdrawal deleted the edge in force and left an older one. */
  ghost predicate Resurrects(edges: set<Edge>, a: Act) {
    && a.base.None? && Live(edges, a.m) != {} && Live(AfterWrite(edges, a), a.m) != {}
    && TheNewest(Live(edges, a.m)) in a.Deleted()
  }

  lemma {:induction false} OthersKeepTheirBases(edges: set<Edge>, after: set<Edge>, m: Id)
    requires forall e: Edge :: e.src != m ==> (e in edges <==> e in after)
    ensures Live(after, m) == {} ==> Bases(after) == Bases(edges) - {m}
    ensures Live(after, m) != {} ==> Bases(after) == Bases(edges)[m := TheNewest(Live(after, m)).dst]
  {
    forall x | x != m ensures Live(after, x) == Live(edges, x) {}
    if Live(after, m) != {} {
      var e := TheNewest(Live(after, m));
      assert e in after && m in Bases(after);
    }
    forall x | x != m ensures x in Bases(after) <==> x in Bases(edges) {
      if x in Bases(edges) {
        assert TheNewest(Live(edges, x)) in after;
      }
      if x in Bases(after) {
        assert TheNewest(Live(after, x)) in edges;
      }
    }
  }

  lemma {:induction false} WritesOnlyItsOwn(edges: set<Edge>, a: Act)
    requires Possible(edges, a)
    ensures forall e: Edge :: e.src != a.m ==> (e in edges <==> e in AfterWrite(edges, a))
    ensures a.Deleted() <= From(edges, a.m)
    ensures a.Complete() ==> a.Deleted() == From(edges, a.m)
  {
    assert a.previous[..|a.previous|] == a.previous;
    forall e | e in a.Deleted() ensures e in From(edges, a.m) {
      assert e in a.previous;
    }
  }

  /** An interrupted replacement never leaves the metacontext without a base,
      and when edges are dated in the order they are written it is the new one. */
  lemma {:induction false} ReplacingNeverLeavesNone(edges: set<Edge>, a: Act)
    requires UniqueIds(edges) && Possible(edges, a) && a.base.Some? && a.steps > 0
    ensures a.m in Bases(AfterWrite(edges, a))
    ensures a.Complete() || Later(edges, a) ==>
              && Bases(AfterWrite(edges, a)) == Bases(edges)[a.m := a.base.value]
              && TheNewest(Live(AfterWrite(edges, a), a.m)).diverges == a.diverges
    ensures var dst := Bases(AfterWrite(edges, a))[a.m];
            dst == a.base.value || exists e :: e in Live(edges, a.m) - a.Deleted() && e.dst == dst
  {
    var after := AfterWrite(edges, a);
    var new_ :| new_ in a.NewEdges();
    WritesOnlyItsOwn(edges, a);
    OthersKeepTheirBases(edges, after, a.m);
    assert new_ in Live(after, a.m);
    var e := TheNewest(Live(after, a.m));
    assert e in after;
    if e != new_ {
      assert NoLater(new_, e) && e in From(edges, a.m);
    }
  }

  /** An interrupted withdrawal leaves the base, or none, unless it deleted
      the edge in force while an older live one was left: then that one is the
      base again. */
  lemma {:induction false} WithdrawingUnlessResurrected(edges: set<Edge>, a: Act)
    requires UniqueIds(edges) && Possible(edges, a) && a.base.None?
    ensures var bases, after := Bases(edges), Bases(AfterWrite(edges, a));
            && (!Resurrects(edges, a) ==> after == bases || after == bases - {a.m})
            && (Resurrects(edges, a) ==>
                  exists e :: e in Live(edges, a.m) - {TheNewest(Live(edges, a.m))} && after == bases[a.m := e.dst])
            && (a.Complete() ==> after == bases - {a.m})
  {
    var after := AfterWrite(edges, a);
    WritesOnlyItsOwn(edges, a);
    OthersKeepTheirBases(edges, after, a.m);
    if Live(after, a.m) != {} {
      var e := TheNewest(Live(after, a.m));
      assert e in Live(edges, a.m);
      var was := TheNewest(Live(edges, a.m));
      assert was in after <==> was !in a.Deleted();
      hide Bases, Lists, UniqueIds;
      if was in after {
        KeptNewest(edges, after, a.m);
      }
    }
  }

  lemma {:induction false} KeptNewest(edges: set<Edge>, after: set<Edge>, m: Id)
    requires UniqueIds(edges) && after <= edges && Live(after, m) != {}
    requires Live(edges, m) != {} && TheNewest(Live(edges, m)) in after
    ensures m in Bases(edges) && Bases(edges)[m] == TheNewest(Live(after, m)).dst
    ensures TheNewest(Live(after, m)) == TheNewest(Live(edges, m))
  {
    var was := TheNewest(Live(edges, m));
    assert was in edges;
    assert Newest(was, Live(after, m));
    NewestIsUnique(was, TheNewest(Live(after, m)), Live(after, m));
  }

  // --- Runs ---

  datatype Refusal =
    | UnknownMetacontext | DivergesWithoutBase | NotADivergence | OwnBase | UnknownBase | Cycle(chain: seq<Id>)

  predicate Divergence(diverges: Option<Instant>) {
    diverges.None? || diverges.value.Precise? || diverges.value.Named?
  }

  /** What `check_base` lets through, whether or not `m` is stored yet. */
  ghost predicate BaseAllowed(edges: set<Edge>, known: set<Id>, m: Id, base: Option<Id>, diverges: Option<Instant>) {
    && Divergence(diverges) && (base.None? ==> diverges.None?)
    && (base.Some? ==> base.value != m && base.value in known && !Reaches(Bases(edges), base.value, m))
  }

  /** What `set_metacontext_base` lets through. */
  ghost predicate Allowed(edges: set<Edge>, known: set<Id>, m: Id, base: Option<Id>, diverges: Option<Instant>) {
    m in known && BaseAllowed(edges, known, m, base, diverges)
  }

  ghost function Step(edges: set<Edge>, known: set<Id>, a: Act): set<Edge> {
    if Allowed(edges, known, a.m, a.base, a.diverges) then AfterWrite(edges, a) else edges
  }

  ghost function Run(edges: set<Edge>, known: set<Id>, acts: seq<Act>): set<Edge>
    decreases |acts|
  {
    if acts == [] then edges else Run(Step(edges, known, acts[0]), known, acts[1..])
  }

  ghost predicate OneEach(edges: set<Edge>) {
    forall e, f :: e in edges && f in edges && e.src == f.src ==> e == f
  }

  /** No act is interrupted. */
  ghost predicate Serial(edges: set<Edge>, known: set<Id>, acts: seq<Act>)
    decreases |acts|
  {
    acts != [] ==>
      && Possible(edges, acts[0]) && acts[0].Complete()
      && Serial(Step(edges, known, acts[0]), known, acts[1..])
  }

  /** Any act may be interrupted anywhere, but edges are dated in the order they
      are written and no withdrawal brings an older base back. */
  ghost predicate Orderly(edges: set<Edge>, known: set<Id>, acts: seq<Act>)
    decreases |acts|
  {
    acts != [] ==>
      && Possible(edges, acts[0]) && Later(edges, acts[0]) && !Resurrects(edges, acts[0])
      && Orderly(Step(edges, known, acts[0]), known, acts[1..])
  }

  lemma {:induction false} StepKeepsAcyclic(edges: set<Edge>, known: set<Id>, a: Act)
    requires UniqueIds(edges) && Acyclic(Bases(edges)) && Possible(edges, a)
    requires a.Complete() || (Later(edges, a) && !Resurrects(edges, a))
    ensures UniqueIds(Step(edges, known, a)) && Acyclic(Bases(Step(edges, known, a)))
  {
    hide Acyclic, Bases, Reaches, Resurrects, Later, Live;
    if Allowed(edges, known, a.m, a.base, a.diverges) && a.steps > 0 {
      WritesOnlyItsOwn(edges, a);
      if a.base.Some? {
        ReplacingNeverLeavesNone(edges, a);
        AcyclicUnlessReached(Bases(edges), a.m, a.base.value);
      } else {
        WithdrawingUnlessResurrected(edges, a);
        WithdrawingKeepsAcyclic(Bases(edges), a.m);
      }
    }
  }

  /** Every serial run keeps the graph acyclic, with at most one base edge to a
      metacontext, however the edges are dated. */
  lemma {:induction false} SerialRunsKeepOneAcyclicBase(edges: set<Edge>, known: set<Id>, acts: seq<Act>)
    requires UniqueIds(edges) && Acyclic(Bases(edges)) && OneEach(edges) && Serial(edges, known, acts)
    ensures Acyclic(Bases(Run(edges, known, acts))) && OneEach(Run(edges, known, acts))
    decreases |acts|
  {
    if acts != [] {
      var next := Step(edges, known, acts[0]);
      StepKeepsAcyclic(edges, known, acts[0]);
      CompleteStepsKeepOneEach(edges, known, acts[0]);
      hide Step, Acyclic, OneEach, UniqueIds;
      SerialRunsKeepOneAcyclicBase(next, known, acts[1..]);
    }
  }

  lemma {:induction false} CompleteStepsKeepOneEach(edges: set<Edge>, known: set<Id>, a: Act)
    requires OneEach(edges) && Possible(edges, a) && a.Complete()
    ensures OneEach(Step(edges, known, a))
  {
    WritesOnlyItsOwn(edges, a);
    var after := AfterWrite(edges, a);
    forall e, f | e in after && f in after && e.src == f.src ensures e == f {
      if e.src == a.m {
        assert e in edges ==> e in a.Deleted();
        assert f in edges ==> f in a.Deleted();
      }
    }
  }

  /** So does every run interrupted anywhere, if it is orderly. */
  lemma {:induction false} OrderlyRunsKeepAcyclic(edges: set<Edge>, known: set<Id>, acts: seq<Act>)
    requires UniqueIds(edges) && Acyclic(Bases(edges)) && Orderly(edges, known, acts)
    ensures Acyclic(Bases(Run(edges, known, acts)))
    decreases |acts|
  {
    if acts != [] {
      var next := Step(edges, known, acts[0]);
      StepKeepsAcyclic(edges, known, acts[0]);
      hide Step, Acyclic, UniqueIds;
      OrderlyRunsKeepAcyclic(next, known, acts[1..]);
    }
  }

  /** A backend that lists edges oldest first never brings one back. */
  lemma {:induction false} OldestFirstNeverResurrects(edges: set<Edge>, a: Act)
    requires UniqueIds(edges) && Possible(edges, a) && SortedBy(a.previous, NoLater)
    ensures !Resurrects(edges, a)
  {
    if Resurrects(edges, a) {
      var was, left := TheNewest(Live(edges, a.m)), TheNewest(Live(AfterWrite(edges, a), a.m));
      WritesOnlyItsOwn(edges, a);
      assert left in Live(edges, a.m) && left in a.previous;
      var i :| 0 <= i < a.Deletions() && a.previous[i] == was;
      var j :| 0 <= j < |a.previous| && a.previous[j] == left;
      assert j >= a.Deletions();
      assert Newest(left, {was, left}) && Newest(was, {was, left});
      NewestIsUnique(was, left, {was, left});
    }
  }

  ghost predicate AllPossible(edges: set<Edge>, known: set<Id>, acts: seq<Act>)
    decreases |acts|
  {
    acts != [] ==> Possible(edges, acts[0]) && AllPossible(Step(edges, known, acts[0]), known, acts[1..])
  }

  lemma {:induction false} OneAct(edges: set<Edge>, known: set<Id>, a: Act, rest: seq<Act>, after: set<Edge>)
    requires Possible(edges, a) && Step(edges, known, a) == after && AllPossible(after, known, rest)
    ensures AllPossible(edges, known, [a] + rest) && Run(edges, known, [a] + rest) == Run(after, known, rest)
  {}

  lemma {:induction false} TheBaseIs(edges: set<Edge>, e: Edge)
    requires UniqueIds(edges) && e in edges && !e.retired
    requires forall f :: f in edges && f.src == e.src ==> f == e || f.createdAt < e.createdAt
    ensures e.src in Bases(edges) && Bases(edges)[e.src] == e.dst
  {
    TextLeqTotal(e.id, e.id);
    assert e in Live(edges, e.src) && Newest(e, Live(edges, e.src));
    NewestIsUnique(e, TheNewest(Live(edges, e.src)), Live(edges, e.src));
  }

  lemma {:induction false} NotReached(bases: map<Id, Id>, a: Id, b: Id)
    requires a != b && (a in bases ==> bases[a] != b && bases[a] !in bases)
    ensures !Reaches(bases, a, b)
  {
    forall n: nat ensures Walk(bases, a, n) != Some(b) {
      if n > 1 {
        assert Walk(bases, a, n) == if a in bases then Walk(bases, bases[a], n - 1) else None;
      }
    }
  }

  // --- The storage that is walked and written ---

  ghost predicate IsChain(bases: map<Id, Id>, chain: seq<Id>, start: Id, target: Id) {
    && chain != [] && chain[0] == start && chain[|chain| - 1] == target
    && forall i :: 0 <= i < |chain| - 1 ==> chain[i] in bases && bases[chain[i]] == chain[i + 1]
  }

  lemma {:induction false} AChainIsAWalk(bases: map<Id, Id>, chain: seq<Id>, start: Id, target: Id)
    requires IsChain(bases, chain, start, target)
    ensures Walk(bases, start, |chain| - 1) == Some(target) && Reaches(bases, start, target)
  {
    if |chain| > 1 {
      AChainIsAWalk(bases, chain[1..], chain[1], target);
    }
  }

  /** A walk does not leave a set the bases do not lead out of. */
  lemma {:induction false} NeverLeaves(bases: map<Id, Id>, seen: set<Id>, a: Id, n: nat)
    requires a in seen && forall x :: x in seen && x in bases ==> bases[x] in seen
    ensures Walk(bases, a, n).Some? ==> Walk(bases, a, n).value in seen
    decreases n
  {
    if n > 0 && a in bases {
      NeverLeaves(bases, seen, bases[a], n - 1);
    }
  }

  /** A walk that stops short of the target, or turns back, never gets there. */
  lemma {:induction false} DeadEnd(bases: map<Id, Id>, path: seq<Id>, seen: set<Id>, start: Id, current: Id, target: Id)
    requires IsChain(bases, path, start, current) && forall x :: x in seen <==> x in path
    requires target !in path && (current in bases ==> bases[current] in seen)
    ensures !Reaches(bases, start, target)
  {
    forall x | x in seen && x in bases ensures bases[x] in seen {
      var i :| 0 <= i < |path| && path[i] == x;
      if i < |path| - 1 {
        assert path[i + 1] in path;
      }
    }
    forall n: nat ensures Walk(bases, start, n) != Some(target) {
      NeverLeaves(bases, seen, start, n);
    }
  }

  /** What the metacontext is based on now, where the two part, and what it was. */
  datatype BaseSet = BaseSet(m: Id, basedOn: Option<Id>, diverges: Option<Instant>, replaced: Option<Id>)

  class Storage {
    var edges: set<Edge>
    const metacontexts: set<Id>

    constructor (metacontexts: set<Id>)
      ensures edges == {} && this.metacontexts == metacontexts
    {
      edges := {};
      this.metacontexts := metacontexts;
    }

    /** An id's edges, in an order the backend does not fix. */
    method GetEdgesFrom(m: Id) returns (listing: seq<Edge>)
      ensures Lists(listing, From(edges, m)) && |listing| == |From(edges, m)|
    {
      listing := [];
      var left := From(edges, m);
      while left != {}
        invariant Lists(listing, From(edges, m) - left)
        invariant left <= From(edges, m) && |listing| + |left| == |From(edges, m)|
        decreases left
      {
        var e :| e in left;
        listing, left := listing + [e], left - {e};
      }
    }

    /** `_chain_reaches`: ends on any data, cyclic or not, and decides whether
        the bases lead from `start` to `target`. */
    method ChainReaches(start: Id, target: Id) returns (chain: Option<seq<Id>>)
      requires UniqueIds(edges)
      ensures chain.Some? <==> Reaches(Bases(edges), start, target)
      ensures chain.Some? ==> IsChain(Bases(edges), chain.value, start, target)
    {
      hide Bases, Reaches, Live, From, Lists;
      ghost var bases := Bases(edges);
      var path, seen, current := [start], {start}, start;
      while current != target
        invariant IsChain(bases, path, start, current)
        invariant forall x :: x in seen <==> x in path
        invariant forall i :: 0 <= i < |path| - 1 ==> path[i] != target
        decreases bases.Values - seen
      {
        var listing := GetEdgesFrom(current);
        CurrentIsTheBase(edges, current, listing);
        var edge := Current(listing);
        if edge.None? || edge.value.dst in seen {
          DeadEnd(bases, path, seen, start, current, target);
          return None;
        }
        assert edge.value.dst in bases.Values;
        current := edge.value.dst;
        seen, path := seen + {current}, path + [current];
      }
      AChainIsAWalk(bases, path, start, target);
      chain := Some(path);
    }

    /** Refuses exactly what is not allowed, and an acyclic graph's refusals
        for a cycle are exactly the bases that would make one. */
    method CheckBase(m: Id, base: Option<Id>, diverges: Option<Instant>) returns (refusal: Option<Refusal>)
      requires UniqueIds(edges)
      ensures refusal.None? <==> BaseAllowed(edges, metacontexts, m, base, diverges)
      ensures refusal == Some(DivergesWithoutBase) <==> base.None? && diverges.Some?
      ensures refusal == Some(NotADivergence) <==> base.Some? && diverges in {Some(Unknown), Some(Unbounded)}
      ensures refusal == Some(OwnBase) <==> base == Some(m) && Divergence(diverges)
      ensures refusal == Some(UnknownBase) <==> base.Some? && base.value !in metacontexts + {m} && Divergence(diverges)
      ensures refusal.Some? && refusal.value.Cycle? ==>
                && base.Some? && IsChain(Bases(edges), refusal.value.chain, base.value, m)
                && (Acyclic(Bases(edges)) ==> !Acyclic(Bases(edges)[m := base.value]))
    {
      hide Bases, Reaches, Acyclic, IsChain;
      if diverges.Some? && base.None? {
        return Some(DivergesWithoutBase);
      }
      if !Divergence(diverges) {
        return Some(NotADivergence);
      }
      if base.None? {
        return None;
      }
      if base.value == m {
        return Some(OwnBase);
      }
      if base.value !in metacontexts {
        return Some(UnknownBase);
      }
      var chain := ChainReaches(base.value, m);
      if chain.Some? {
        if Acyclic(Bases(edges)) {
          AcyclicUnlessReached(Bases(edges), m, base.value);
        }
        return Some(Cycle(chain.value));
      }
      refusal := None;
    }

    /** Unchecked. The act returned says what was written; the backend fails
        after `steps` writes. */
    method WriteBase(m: Id, base: Option<Id>, diverges: Option<Instant>, newId: Id, at: int, steps: nat)
      returns (replaced: Option<Id>, act: Act)
      requires UniqueIds(edges) && forall e :: e in edges ==> e.id != newId
      modifies this
      ensures act == Act(m, base, diverges, newId, at, act.previous, steps)
      ensures Possible(old(edges), act) && |act.previous| == |From(old(edges), m)|
      ensures edges == AfterWrite(old(edges), act)
      ensures replaced == if m in Bases(old(edges)) then Some(Bases(old(edges))[m]) else None
    {
      hide Bases, Current, Live;
      var previous := GetEdgesFrom(m);
      CurrentIsTheBase(edges, m, previous);
      var current := Current(previous);
      replaced := if current.Some? then Some(current.value.dst) else None;
      act := Act(m, base, diverges, newId, at, previous, steps);
      if steps == 0 {
        return;
      }
      ghost var was := edges;
      if base.Some? {
        edges := edges + {Edge(newId, m, base.value, diverges, at, false)};
      }
      for k := 0 to act.Deletions()
        invariant edges == was + act.NewEdges() - Elements(previous[..k])
      {
        edges := set e | e in edges && e.id != previous[k].id;
        DeletedById(was + act.NewEdges(), previous, k);
      }
    }

    /** Sets, replaces or withdraws a base. Once every write went through, the
        bases are the old ones with just this one changed. */
    method SetMetacontextBase(m: Id, base: Option<Id>, diverges: Option<Instant>, newId: Id, at: int, steps: nat)
      returns (r: Result<BaseSet, Option<Refusal>>)
      requires UniqueIds(edges) && forall e :: e in edges ==> e.id != newId
      modifies this
      ensures r.Ok? ==> Bases(edges) == if base.Some? then Bases(old(edges))[m := base.value] else Bases(old(edges)) - {m}
      ensures r.Ok? ==> r.value == BaseSet(m, base, diverges, if m in Bases(old(edges)) then Some(Bases(old(edges))[m]) else None)
      ensures r.Err? && r.error.Some? <==> !Allowed(old(edges), metacontexts, m, base, diverges)
      ensures r.Err? && r.error.Some? ==> edges == old(edges)
      ensures r.Err? && r.error.None? <==> Allowed(old(edges), metacontexts, m, base, diverges)
                                           && steps < |From(old(edges), m)| + if base.Some? then 1 else 0
      ensures r.Err? && r.error.None? ==>
                exists a: Act :: a.m == m && a.base == base && a.at == at && a.steps == steps
                                 && Possible(old(edges), a) && edges == AfterWrite(old(edges), a)
      ensures Acyclic(Bases(old(edges))) && r.Ok? ==> Acyclic(Bases(edges))
    {
      hide Bases, Live, Reaches, Acyclic, Possible, UniqueIds, AfterWrite, Lists;
      if m !in metacontexts {
        return Err(Some(UnknownMetacontext));
      }
      var refusal := CheckBase(m, base, diverges);
      if refusal.Some? {
        return Err(refusal);
      }
      ghost var was := edges;
      var replaced, act := WriteBase(m, base, diverges, newId, at, steps);
      if !act.Complete() {
        return Err(None);
      }
      WrittenWhole(was, metacontexts, act);
      var listing := GetEdgesFrom(m);
      CurrentIsTheBase(edges, m, listing);
      var current := Current(listing);
      r := Ok(if current.Some? then BaseSet(m, Some(current.value.dst), current.value.diverges, replaced)
              else BaseSet(m, None, None, replaced));
    }
  }

  lemma {:induction false} WrittenWhole(edges: set<Edge>, known: set<Id>, a: Act)
    requires UniqueIds(edges) && Possible(edges, a) && a.Complete() && Allowed(edges, known, a.m, a.base, a.diverges)
    ensures var after := AfterWrite(edges, a);
            && UniqueIds(after)
            && Bases(after) == (if a.base.Some? then Bases(edges)[a.m := a.base.value] else Bases(edges) - {a.m})
            && (a.base.Some? ==> Live(after, a.m) != {} && TheNewest(Live(after, a.m)).diverges == a.diverges)
            && (Acyclic(Bases(edges)) ==> Acyclic(Bases(after)))
  {
    WritesOnlyItsOwn(edges, a);
    assert UniqueIds(AfterWrite(edges, a));
    hide Bases, Live, Acyclic;
    if a.base.Some? {
      ReplacingNeverLeavesNone(edges, a);
    } else {
      WithdrawingUnlessResurrected(edges, a);
    }
    if Acyclic(Bases(edges)) {
      StepKeepsAcyclic(edges, known, a);
    }
  }

  lemma {:induction false} DeletedById(stored: set<Edge>, previous: seq<Edge>, k: nat)
    requires UniqueIds(stored) && k < |previous| && forall e :: e in previous ==> e in stored
    ensures var left := stored - Elements(previous[..k]);
            (set e | e in left && e.id != previous[k].id) == stored - Elements(previous[..k + 1])
  {}

  // --- What an unordered listing allows ---

  const WORLDS: set<Id> := {"A", "B", "C"}
  const AB := Edge("1", "A", "B", None, 0, false)
  const AC := Edge("2", "A", "C", None, 1, false)
  const BA := Edge("3", "B", "A", None, 2, false)
  const SET_AB := Act("A", Some("B"), None, "1", 0, [], 1)
  const MOVE_AC := Act("A", Some("C"), None, "2", 1, [AB], 1)
  const SET_BA := Act("B", Some("A"), None, "3", 2, [], 1)
  const WITHDRAW_A := Act("A", None, None, "", 3, [AC, AB], 1)

  /** No backend promises that order, and in the other one three worlds come to
      build on each other although every call passes the check: A's base is
      moved from B to C, interrupted before the deletion; B is based on A; A's
      base is withdrawn, interrupted after deleting the edge to C. */
  lemma {:induction false} AResurrectedBaseMakesACycle()
    ensures var acts := [SET_AB] + ([MOVE_AC] + ([SET_BA] + ([WITHDRAW_A] + [])));
            AllPossible({}, WORLDS, acts) && !Acyclic(Bases(Run({}, WORLDS, acts)))
  {
    FirstActs();
    ThirdAct();
    LastAct();
    TheyBuildOnEachOther();
    hide Bases, Reaches, Acyclic, Walk, Step, Possible, Allowed;
    OneAct({AB, AC, BA}, WORLDS, WITHDRAW_A, [], {AB, BA});
    OneAct({AB, AC}, WORLDS, SET_BA, [WITHDRAW_A] + [], {AB, AC, BA});
    OneAct({AB}, WORLDS, MOVE_AC, [SET_BA] + ([WITHDRAW_A] + []), {AB, AC});
    OneAct({}, WORLDS, SET_AB, [MOVE_AC] + ([SET_BA] + ([WITHDRAW_A] + [])), {AB});
  }

  lemma {:induction false} FirstActs()
    ensures Possible({}, SET_AB) && Step({}, WORLDS, SET_AB) == {AB}
    ensures Possible({AB}, MOVE_AC) && Step({AB}, WORLDS, MOVE_AC) == {AB, AC}
  {}

  lemma {:induction false} ThirdAct()
    ensures Possible({AB, AC}, SET_BA) && Step({AB, AC}, WORLDS, SET_BA) == {AB, AC, BA}
  {
    hide Bases, Reaches;
    AMovedToC();
    assert SET_BA.Deleted() == {};
  }

  lemma {:induction false} AMovedToC()
    ensures !Reaches(Bases({AB, AC}), "A", "B")
  {
    TheBaseIs({AB, AC}, AC);
    assert "C" !in Bases({AB, AC});
    hide Bases;
    NotReached(Bases({AB, AC}), "A", "B");
  }

  lemma {:induction false} LastAct()
    ensures Possible({AB, AC, BA}, WITHDRAW_A) && Step({AB, AC, BA}, WORLDS, WITHDRAW_A) == {AB, BA}
  {
    hide Bases, Reaches;
    assert WITHDRAW_A.previous[..1] == [AC];
    assert WITHDRAW_A.Deleted() == {AC};
  }

  lemma {:induction false} TheyBuildOnEachOther()
    ensures !Acyclic(Bases({AB, BA}))
  {
    TheBaseIs({AB, BA}, AB);
    TheBaseIs({AB, BA}, BA);
    hide Bases;
    var bases := Bases({AB, BA});
    assert Walk(bases, "A", 2) == Walk(bases, "B", 1) == Walk(bases, "A", 0);
  }
}
