/** Valid time: imprecise instants, validity intervals and their comparison
    (epimemer/core/temporal.py).

    Time is a `real`; the two sentinels are constructors of their own. An
    interval is read as the set of concrete half-open periods it may stand for,
    and every answer the module gives is compared with that set. */
module Temporal {
  import opened Options

  // --- The source's values and functions ---

  datatype Instant =
    | Precise(at: real, words: Option<string>)
    | Named(phrase: string)
    | Unknown
    | Unbounded

  datatype Basis = Stated | Inferred

  datatype Interval = Interval(
    start: Instant,
    end: Instant,
    timeline: Option<string>,
    witnessedAt: Option<Instant>,
    basis: Basis)

  datatype Contradiction = StartsAfterItEnds | WitnessedOutside

  datatype Relation = Before | After | Overlap | Undecided

  /** `datetime | None` with the two sentinels told apart by identity. */
  datatype Position = Nowhere | Beginning | At(t: real) | EndOfTime

  function StartPosition(instant: Instant): Position {
    match instant
    case Precise(at, _) => At(at)
    case Unbounded => Beginning
    case _ => Nowhere
  }

  function EndPosition(instant: Instant): Position {
    match instant
    case Precise(at, _) => At(at)
    case Unbounded => EndOfTime
    case _ => Nowhere
  }

  function Located(instant: Option<Instant>): Option<real> {
    if instant.Some? && instant.value.Precise? then Some(instant.value.at) else None
  }

  predicate StrictlyEarlier(earlier: Position, later: Position) {
    if earlier == later then false
    else if earlier.Beginning? || later.EndOfTime? then true
    else if earlier.EndOfTime? || later.Beginning? then false
    else earlier.At? && later.At? && earlier.t < later.t
  }

  predicate ReachesNoLaterThan(earlier: Position, later: Position) {
    if earlier.Beginning? || later.EndOfTime? then true
    else if earlier.EndOfTime? || later.Beginning? then false
    else earlier.At? && later.At? && earlier.t <= later.t
  }

  /** Only two located positions can contradict each other: a sentinel lies
      strictly outside every located moment. */
  function IntervalInconsistency(i: Interval): Option<Contradiction> {
    var start, end, seen := StartPosition(i.start), EndPosition(i.end), Located(i.witnessedAt);
    if start.At? && end.At? && start.t >= end.t then Some(StartsAfterItEnds)
    else if seen.Some? && ((start.At? && seen.value < start.t) || (end.At? && seen.value >= end.t)) then
      Some(WitnessedOutside)
    else None
  }

  /** What the model validator lets exist. */
  predicate Accepted(i: Interval) {
    IntervalInconsistency(i).None?
  }

  predicate DefinitelyContains(i: Interval, moment: real) {
    ReachesNoLaterThan(StartPosition(i.start), At(moment)) && StrictlyEarlier(At(moment), EndPosition(i.end))
  }

  predicate DefinitelyHoldsAt(i: Interval, moment: real) {
    var seen := Located(i.witnessedAt);
    && (ReachesNoLaterThan(StartPosition(i.start), At(moment)) || (seen.Some? && seen.value <= moment))
    && (StrictlyEarlier(At(moment), EndPosition(i.end)) || (seen.Some? && moment <= seen.value))
  }

  predicate EndpointsOverlap(a: Interval, b: Interval) {
    && StrictlyEarlier(StartPosition(a.start), EndPosition(b.end))
    && StrictlyEarlier(StartPosition(b.start), EndPosition(a.end))
  }

  predicate DefinitelyOverlap(a: Interval, b: Interval) {
    var wa, wb := Located(a.witnessedAt), Located(b.witnessedAt);
    || EndpointsOverlap(a, b)
    || (wa.Some? && wa == wb)
    || (wa.Some? && DefinitelyContains(b, wa.value))
    || (wb.Some? && DefinitelyContains(a, wb.value))
  }

  function CompareIntervals(a: Interval, b: Interval): Relation {
    if a.timeline != b.timeline then Undecided
    else if DefinitelyOverlap(a, b) then Overlap
    else if ReachesNoLaterThan(EndPosition(a.end), StartPosition(b.start)) then Before
    else if ReachesNoLaterThan(EndPosition(b.end), StartPosition(a.start)) then After
    else Undecided
  }

  /** VALID, as opposed to UNKNOWN: some interval on the clock holds at the moment. */
  predicate ValidAt(intervals: seq<Interval>, moment: real, timeline: Option<string>) {
    exists i :: i in intervals && i.timeline == timeline && DefinitelyHoldsAt(i, moment)
  }

  predicate AssertionsAreDisjoint(a: seq<Interval>, b: seq<Interval>) {
    && a != [] && b != []
    && forall one, other :: one in a && other in b ==> CompareIntervals(one, other) in {Before, After}
  }

  /** The method below as a function: what each interval of `folded` adds. */
  function Merged(kept: seq<Interval>, folded: seq<Interval>): seq<Interval>
    decreases folded
  {
    if folded == [] then kept
    else Merged(if folded[0] in kept then kept else kept + [folded[0]], folded[1..])
  }

  method MergedValidity(kept: seq<Interval>, folded: seq<Interval>) returns (merged: seq<Interval>)
    ensures merged == Merged(kept, folded)
  {
    merged := kept;
    for k := 0 to |folded|
      invariant Merged(merged, folded[k..]) == Merged(kept, folded)
    {
      if folded[k] !in merged {
        merged := merged + [folded[k]];
      }
      assert folded[k..][1..] == folded[k + 1..];
    }
  }

  // --- What an interval stands for ---

  datatype Bound = NegInf | Fin(t: real) | PosInf

  /** A concrete half-open period `[lo, hi)`. */
  datatype Period = Period(lo: Bound, hi: Bound)

  predicate Below(x: Bound, y: Bound) {
    (x.NegInf? && !y.NegInf?) || (x.Fin? && y.Fin? && x.t < y.t) || (y.PosInf? && !x.PosInf?)
  }

  predicate Inside(m: real, p: Period) {
    !Below(Fin(m), p.lo) && Below(Fin(m), p.hi)
  }

  /** `p` is one of the periods `i` may stand for: nonempty, with the located
      endpoints where they are, an unlocated boundary anywhere finite, and the
      located witness inside. */
  predicate Denotes(i: Interval, p: Period) {
    && Below(p.lo, p.hi)
    && (match i.start case Precise(at, _) => p.lo == Fin(at) case Unbounded => p.lo == NegInf case _ => p.lo.Fin?)
    && (match i.end case Precise(at, _) => p.hi == Fin(at) case Unbounded => p.hi == PosInf case _ => p.hi.Fin?)
    && (Located(i.witnessedAt).Some? ==> Inside(Located(i.witnessedAt).value, p))
  }

  ghost predicate EveryPeriodHolds(i: Interval, m: real) {
    forall p :: Denotes(i, p) ==> Inside(m, p)
  }

  predicate Meet(p: Period, q: Period) {
    Below(p.lo, q.hi) && Below(q.lo, p.hi)
  }

  ghost predicate AlwaysMeet(a: Interval, b: Interval) {
    forall p, q :: Denotes(a, p) && Denotes(b, q) ==> Meet(p, q)
  }

  ghost predicate NeverMeet(a: Interval, b: Interval) {
    forall p, q :: Denotes(a, p) && Denotes(b, q) ==> !Meet(p, q)
  }

  ghost predicate AlwaysBefore(a: Interval, b: Interval) {
    forall p, q :: Denotes(a, p) && Denotes(b, q) ==> !Below(q.lo, p.hi)
  }

  /** `Meet` is what it says: two nonempty periods share a moment. */
  lemma MeetIsACommonMoment(p: Period, q: Period)
    requires Below(p.lo, p.hi) && Below(q.lo, q.hi)
    ensures Meet(p, q) <==> exists m :: Inside(m, p) && Inside(m, q)
  {
    if Meet(p, q) {
      var lo := if Below(p.lo, q.lo) then q.lo else p.lo;
      var hi := if Below(p.hi, q.hi) then p.hi else q.hi;
      var m := if lo.Fin? then lo.t else if hi.Fin? then hi.t - 1.0 else 0.0;
      assert Inside(m, p) && Inside(m, q);
    }
  }

  // --- Periods an interval certainly has ---

  function Abs(x: real): real { if x < 0.0 then -x else x }

  /** A distance every located moment of `i` stays within. */
  function Reach(i: Interval): real {
    var w := Located(i.witnessedAt);
    1.0 + (if i.start.Precise? then Abs(i.start.at) else 0.0)
    + (if i.end.Precise? then Abs(i.end.at) else 0.0)
    + (if w.Some? then Abs(w.value) else 0.0)
  }

  /** The widest period of `i` with unlocated boundaries `x` away. */
  function Wide(i: Interval, x: real): Period {
    Period(
      match i.start case Precise(at, _) => Fin(at) case Unbounded => NegInf case _ => Fin(-x),
      match i.end case Precise(at, _) => Fin(at) case Unbounded => PosInf case _ => Fin(x))
  }

  lemma WideIsDenoted(i: Interval, x: real)
    requires x >= Reach(i)
    ensures Denotes(i, Wide(i, x)) <==> Accepted(i)
  {}

  /** The validator accepts an interval exactly when it stands for something. */
  lemma AcceptedIffSatisfiable(i: Interval)
    ensures Accepted(i) <==> exists p :: Denotes(i, p)
  {
    if Accepted(i) {
      WideIsDenoted(i, Reach(i));
    }
  }

  /** How late a start may fall: at most a moment, short of one, or anywhere. */
  datatype Limit = Infinite | Attained(v: real) | Short(v: real) | Free

  function LatestStart(i: Interval): Limit {
    if i.start.Precise? then Attained(i.start.at)
    else if i.start.Unbounded? then Infinite
    else if Located(i.witnessedAt).Some? then Attained(Located(i.witnessedAt).value)
    else if i.end.Precise? then Short(i.end.at)
    else Free
  }

  /** How early an end may fall. */
  function EarliestEnd(i: Interval): Limit {
    if i.end.Precise? then Attained(i.end.at)
    else if i.end.Unbounded? then Infinite
    else if Located(i.witnessedAt).Some? then Short(Located(i.witnessedAt).value)
    else if i.start.Precise? then Short(i.start.at)
    else Free
  }

  /** Every start within the first limit falls before every end within the second. */
  predicate Clear(start: Limit, end: Limit) {
    || start.Infinite? || end.Infinite?
    || (!start.Free? && !end.Free?
        && (if start.Attained? && end.Attained? then start.v < end.v else start.v <= end.v))
  }

  lemma StartCanBe(i: Interval, y: real) returns (p: Period)
    requires Accepted(i)
    requires match LatestStart(i) case Attained(v) => y == v case Short(v) => y < v case Free => true case Infinite => false
    ensures Denotes(i, p) && p.lo == Fin(y)
  {
    p := Period(Fin(y), match i.end case Precise(at, _) => Fin(at) case Unbounded => PosInf case _ => Fin(y + Abs(y) + Reach(i)));
  }

  lemma EndCanBe(i: Interval, y: real) returns (p: Period)
    requires Accepted(i)
    requires match EarliestEnd(i) case Attained(v) => y == v case Short(v) => y > v case Free => true case Infinite => false
    ensures Denotes(i, p) && p.hi == Fin(y)
  {
    p := Period(match i.start case Precise(at, _) => Fin(at) case Unbounded => NegInf case _ => Fin(y - Abs(y) - Reach(i)), Fin(y));
  }

  lemma ClearIsForced(a: Interval, b: Interval)
    requires Accepted(a) && Accepted(b)
    ensures Clear(LatestStart(a), EarliestEnd(b))
            <==> forall p, q :: Denotes(a, p) && Denotes(b, q) ==> Below(p.lo, q.hi)
  {
    var s, e := LatestStart(a), EarliestEnd(b);
    if !Clear(s, e) {
      // A start and an end at one moment: no start of `a` need precede the end of `b`.
      var y :=
        if s.Attained? then s.v
        else if e.Attained? then e.v
        else if s.Free? then (if e.Free? then 0.0 else e.v + 1.0)
        else if e.Free? then s.v - 1.0
        else (s.v + e.v) / 2.0;
      var z := if e.Attained? then e.v else y;
      var p := StartCanBe(a, y);
      var q := EndCanBe(b, z);
      assert !Below(p.lo, q.hi);
    }
  }

  // --- Soundness and exactness ---

  /** BEFORE and AFTER are decided exactly: the answer is given whenever, and
      only when, no reading of the two intervals says otherwise. */
  lemma BeforeIsExact(a: Interval, b: Interval)
    requires Accepted(a) && Accepted(b) && a.timeline == b.timeline
    ensures CompareIntervals(a, b) == Before <==> AlwaysBefore(a, b)
    ensures CompareIntervals(a, b) == After <==> AlwaysBefore(b, a)
  {
    var x := Reach(a) + Reach(b);
    WideIsDenoted(a, x);
    WideIsDenoted(b, x);
    if CompareIntervals(a, b) == Overlap {
      OverlapIsSound(a, b);
    }
    assert AlwaysBefore(a, b) ==> !Below(Wide(b, x).lo, Wide(a, x).hi);
    assert AlwaysBefore(b, a) ==> !Below(Wide(a, x).lo, Wide(b, x).hi);
  }

  /** OVERLAP is never given unless the two must share a moment. */
  lemma OverlapIsSound(a: Interval, b: Interval)
    requires CompareIntervals(a, b) == Overlap
    ensures AlwaysMeet(a, b)
  {
    forall p, q | Denotes(a, p) && Denotes(b, q)
      ensures Meet(p, q)
    {
      var wa, wb := Located(a.witnessedAt), Located(b.witnessedAt);
      if !EndpointsOverlap(a, b) {
        MeetIsACommonMoment(p, q);
        var m := if wa.Some? && (wa == wb || DefinitelyContains(b, wa.value)) then wa.value else wb.value;
        assert Inside(m, p) && Inside(m, q);
      }
    }
  }

  /** What a full reading of the located endpoints and witnesses settles: the
      reference `CompareIntervals` falls short of. */
  predicate ForcedOverlap(a: Interval, b: Interval) {
    Clear(LatestStart(a), EarliestEnd(b)) && Clear(LatestStart(b), EarliestEnd(a))
  }

  lemma ForcedOverlapIsExact(a: Interval, b: Interval)
    requires Accepted(a) && Accepted(b)
    ensures ForcedOverlap(a, b) <==> AlwaysMeet(a, b)
  {
    ClearIsForced(a, b);
    ClearIsForced(b, a);
    if AlwaysMeet(a, b) {
      forall p, q | Denotes(a, p) && Denotes(b, q) ensures Below(p.lo, q.hi) && Below(q.lo, p.hi) {
        assert Meet(p, q);
      }
    }
  }

  /** `p` has the endpoints `i` says, an unlocated boundary anywhere finite. It
      may be empty, and the witness outside: the endpoints alone speak. */
  predicate EndpointsSay(i: Interval, p: Period) {
    && (match i.start case Precise(at, _) => p.lo == Fin(at) case Unbounded => p.lo == NegInf case _ => p.lo.Fin?)
    && (match i.end case Precise(at, _) => p.hi == Fin(at) case Unbounded => p.hi == PosInf case _ => p.hi.Fin?)
  }

  ghost predicate EndpointsMeet(a: Interval, b: Interval) {
    forall p, q :: EndpointsSay(a, p) && EndpointsSay(b, q) ==> Meet(p, q)
  }

  ghost predicate EndpointsHold(i: Interval, m: real) {
    forall p :: EndpointsSay(i, p) ==> Inside(m, p)
  }

  /** OVERLAP is answered exactly on one clock and where the endpoints alone force
      a meeting, or one moment witnessed in an interval is witnessed in the other
      as well or is forced into it by its endpoints. */
  lemma OverlapAnswersIff(a: Interval, b: Interval)
    ensures var wa, wb := Located(a.witnessedAt), Located(b.witnessedAt);
            CompareIntervals(a, b) == Overlap <==>
              && a.timeline == b.timeline
              && (|| EndpointsMeet(a, b)
                  || (wa.Some? && wb.Some? && wa.value == wb.value)
                  || (wa.Some? && EndpointsHold(b, wa.value))
                  || (wb.Some? && EndpointsHold(a, wb.value)))
  {
    EndpointsMeetIff(a, b);
    var wa, wb := Located(a.witnessedAt), Located(b.witnessedAt);
    if wa.Some? {
      EndpointsHoldIff(b, wa.value);
    }
    if wb.Some? {
      EndpointsHoldIff(a, wb.value);
    }
    hide EndpointsMeet, EndpointsHold, EndpointsOverlap, DefinitelyContains;
  }

  lemma EndpointsMeetIff(a: Interval, b: Interval)
    ensures EndpointsMeet(a, b) <==> EndpointsOverlap(a, b)
  {
    if EndpointsMeet(a, b) {
      StartsBeforeTheEnd(a, b);
      StartsBeforeTheEnd(b, a);
    }
  }

  /** A start and an end that need not be in order, as late and as early as they go. */
  lemma StartsBeforeTheEnd(a: Interval, b: Interval)
    requires EndpointsMeet(a, b) || EndpointsMeet(b, a)
    ensures StrictlyEarlier(StartPosition(a.start), EndPosition(b.end))
  {
    var start := if a.start.Precise? then a.start.at else if b.end.Precise? then b.end.at else 0.0;
    var end := if b.end.Precise? then b.end.at else start;
    var p, q := Placed(a, start), Placed(b, end);
    assert EndpointsSay(a, p) && EndpointsSay(b, q);
    assert Meet(p, q) || Meet(q, p);
  }

  /** The reading of `i` with its unlocated boundaries at `x`. */
  function Placed(i: Interval, x: real): Period {
    Period(
      match i.start case Precise(at, _) => Fin(at) case Unbounded => NegInf case _ => Fin(x),
      match i.end case Precise(at, _) => Fin(at) case Unbounded => PosInf case _ => Fin(x))
  }

  lemma EndpointsHoldIff(i: Interval, m: real)
    ensures EndpointsHold(i, m) <==> DefinitelyContains(i, m)
  {
    var late, early := Placed(i, m + 1.0), Placed(i, m);
    assert EndpointsSay(i, late) && EndpointsSay(i, early);
  }

  predicate Settled(instant: Instant) { instant.Precise? || instant.Unbounded? }

  /** Both endpoints say where they are, or neither does. */
  predicate Uniform(i: Interval) { Settled(i.start) <==> Settled(i.end) }

  /** OVERLAP is exact on uniform intervals. */
  lemma OverlapIsExactOnUniform(a: Interval, b: Interval)
    requires Accepted(a) && Accepted(b) && a.timeline == b.timeline
    requires Uniform(a) && Uniform(b)
    ensures CompareIntervals(a, b) == Overlap <==> AlwaysMeet(a, b)
  {
    ForcedOverlapIsExact(a, b);
    if CompareIntervals(a, b) == Overlap {
      OverlapIsSound(a, b);
    }
  }

  /** With all four endpoints settled on one clock, there is always an answer,
      and it is the whole truth about the two. */
  lemma SettledEndpointsAreDecided(a: Interval, b: Interval)
    requires Accepted(a) && Accepted(b) && a.timeline == b.timeline
    requires Settled(a.start) && Settled(a.end) && Settled(b.start) && Settled(b.end)
    ensures CompareIntervals(a, b) != Undecided
    ensures CompareIntervals(a, b) == Overlap <==> AlwaysMeet(a, b)
    ensures CompareIntervals(a, b) in {Before, After} <==> NeverMeet(a, b)
  {
    OverlapIsExactOnUniform(a, b);
    DisjointIsExact(a, b);
  }

  /** BEFORE or AFTER is given exactly when no reading lets the two meet. */
  lemma DisjointIsExact(a: Interval, b: Interval)
    requires Accepted(a) && Accepted(b) && a.timeline == b.timeline
    ensures CompareIntervals(a, b) in {Before, After} <==> NeverMeet(a, b)
  {
    BeforeIsExact(a, b);
    var x := Reach(a) + Reach(b);
    WideIsDenoted(a, x);
    WideIsDenoted(b, x);
    if NeverMeet(a, b) {
      assert !Meet(Wide(a, x), Wide(b, x));
      if CompareIntervals(a, b) == Overlap {
        OverlapIsSound(a, b);
        assert false;
      }
    }
  }

  /** An interval whose overlaps are never missed: it has no boundary at all,
      or nothing about it is located. */
  predicate NothingToMiss(i: Interval) {
    || (i.start.Unbounded? && i.end.Unbounded?)
    || (!i.start.Precise? && !i.end.Precise? && Located(i.witnessedAt).None?)
  }

  function Dated(start: Instant, end: Instant, seen: Option<real>, timeline: Option<string>): Interval {
    Interval(start, end, timeline, if seen.Some? then Some(Precise(seen.value, None)) else None, Stated)
  }

  function On(t: real): Instant { Precise(t, None) }

  /** An interval that must overlap `i`, which the comparison leaves undecided. */
  function MissedPartner(i: Interval): Interval
    requires !NothingToMiss(i)
  {
    var seen := Located(i.witnessedAt);
    if i.start.Precise? && i.end.Unbounded? then Dated(i.start, Unknown, None, i.timeline)
    else if i.start.Precise? then Dated(Unknown, On(i.start.at + 1.0), Some(i.start.at - 1.0), i.timeline)
    else if i.end.Precise? && i.start.Unbounded? then Dated(Unknown, i.end, None, i.timeline)
    else if i.end.Precise? then Dated(On(i.end.at - 1.0), Unknown, Some(i.end.at + 1.0), i.timeline)
    else if i.start.Unbounded? then Dated(On(seen.value - 2.0), On(seen.value - 1.0), None, i.timeline)
    else if i.end.Unbounded? then Dated(On(seen.value + 1.0), On(seen.value + 2.0), None, i.timeline)
    else Dated(On(seen.value - 1.0), Unknown, Some(seen.value + 1.0), i.timeline)
  }

  lemma PartnerIsMissed(i: Interval)
    requires Accepted(i) && !NothingToMiss(i)
    ensures var b := MissedPartner(i);
            Accepted(b) && b.timeline == i.timeline && ForcedOverlap(i, b) && CompareIntervals(i, b) != Overlap
  {}

  lemma NothingIsMissed(i: Interval, b: Interval)
    requires Accepted(i) && Accepted(b) && NothingToMiss(i) && b.timeline == i.timeline && ForcedOverlap(i, b)
    ensures CompareIntervals(i, b) == Overlap
  {}

  /** Exactly which intervals OVERLAP is complete for. Every other one has a
      partner it must overlap without being told so. */
  lemma OverlapIsCompleteIff(i: Interval)
    requires Accepted(i)
    ensures NothingToMiss(i)
            <==> forall b :: Accepted(b) && b.timeline == i.timeline && AlwaysMeet(i, b) ==> CompareIntervals(i, b) == Overlap
  {
    hide CompareIntervals, ForcedOverlap, AlwaysMeet, MissedPartner;
    if NothingToMiss(i) {
      forall b | Accepted(b) && b.timeline == i.timeline && AlwaysMeet(i, b)
        ensures CompareIntervals(i, b) == Overlap
      {
        ForcedOverlapIsExact(i, b);
        NothingIsMissed(i, b);
      }
    } else {
      PartnerIsMissed(i);
      ForcedOverlapIsExact(i, MissedPartner(i));
    }
  }

  /** Two of the overlaps the comparison leaves undecided. */
  lemma OverlapsLeftUndecided()
    ensures var a, b := Dated(Unknown, On(10.0), None, None), Dated(On(5.0), On(20.0), None, None);
            Accepted(a) && Accepted(b) && AlwaysMeet(a, b) && CompareIntervals(a, b) == Undecided
    ensures var a, b := Dated(Unknown, Unknown, Some(5.0), None), Dated(On(3.0), Unknown, Some(10.0), None);
            Accepted(a) && Accepted(b) && AlwaysMeet(a, b) && CompareIntervals(a, b) == Undecided
  {
    ForcedOverlapIsExact(Dated(Unknown, On(10.0), None, None), Dated(On(5.0), On(20.0), None, None));
    ForcedOverlapIsExact(Dated(Unknown, Unknown, Some(5.0), None), Dated(On(3.0), Unknown, Some(10.0), None));
  }

  /** The one moment `DefinitelyHoldsAt` misses: a period certainly holds at
      its own start, but with nothing located after it the answer is no. */
  predicate AtABareStart(i: Interval, m: real) {
    i.start.Precise? && i.start.at == m && !Settled(i.end) && Located(i.witnessedAt).None?
  }

  lemma HoldsAtIsExact(i: Interval, m: real)
    requires Accepted(i)
    ensures DefinitelyHoldsAt(i, m) || AtABareStart(i, m) <==> EveryPeriodHolds(i, m)
    ensures !(DefinitelyHoldsAt(i, m) && AtABareStart(i, m))
  {
    if !DefinitelyHoldsAt(i, m) && !AtABareStart(i, m) {
      var s, e := LatestStart(i), EarliestEnd(i);
      var startMissed := !ReachesNoLaterThan(StartPosition(i.start), At(m)) && !(Located(i.witnessedAt).Some? && Located(i.witnessedAt).value <= m);
      if startMissed {
        var y := match s case Attained(v) => v case Short(v) => (if m < v then (m + v) / 2.0 else v - 1.0) case _ => m + 1.0;
        var p := StartCanBe(i, y);
        assert !Inside(m, p);
      } else {
        var y := match e case Attained(v) => v case Short(v) => (if v < m then m else v + 1.0) case _ => m;
        var p := EndCanBe(i, y);
        assert !Inside(m, p);
      }
    }
  }

  /** VALID is answered exactly where an interval on the asked clock holds at the
      moment in every reading, bare starts apart. */
  lemma ValidAtIsExact(intervals: seq<Interval>, m: real, timeline: Option<string>)
    requires forall i :: i in intervals ==> Accepted(i)
    ensures ValidAt(intervals, m, timeline)
            <==> exists i :: i in intervals && i.timeline == timeline && EveryPeriodHolds(i, m) && !AtABareStart(i, m)
  {
    forall i | i in intervals ensures DefinitelyHoldsAt(i, m) <==> EveryPeriodHolds(i, m) && !AtABareStart(i, m) {
      HoldsAtIsExact(i, m);
    }
    hide DefinitelyHoldsAt, EveryPeriodHolds, AtABareStart;
  }

  // --- Order, information and disjointness laws ---

  lemma RelationsConverse(a: Interval, b: Interval)
    requires Accepted(a) && Accepted(b)
    ensures CompareIntervals(a, b) == Before <==> CompareIntervals(b, a) == After
    ensures CompareIntervals(a, b) == Overlap <==> CompareIntervals(b, a) == Overlap
  {}

  lemma BeforeIsAStrictOrder(a: Interval, b: Interval, c: Interval)
    requires Accepted(a) && Accepted(b) && Accepted(c)
    ensures CompareIntervals(a, a) != Before
    ensures CompareIntervals(a, b) == Before ==> CompareIntervals(b, a) != Before
    ensures CompareIntervals(a, b) == Before && CompareIntervals(b, c) == Before ==> CompareIntervals(a, c) == Before
  {
    if a.timeline == b.timeline == c.timeline {
      BeforeIsExact(a, c);
      BeforeIsExact(a, b);
      BeforeIsExact(b, c);
      var q := Wide(b, Reach(b));
      WideIsDenoted(b, Reach(b));
      if CompareIntervals(a, b) == Before && CompareIntervals(b, c) == Before {
        forall p, r | Denotes(a, p) && Denotes(c, r) ensures !Below(r.lo, p.hi) {
          assert !Below(q.lo, p.hi) && !Below(r.lo, q.hi);
        }
      }
    }
  }

  /** `j` says at least what `i` says: settled endpoints and a located witness
      stay, an unlocated boundary may have been named or located since. */
  predicate Resolves(i: Interval, j: Interval) {
    && i.timeline == j.timeline
    && (if Settled(i.start) then StartPosition(j.start) == StartPosition(i.start) else !j.start.Unbounded?)
    && (if Settled(i.end) then EndPosition(j.end) == EndPosition(i.end) else !j.end.Unbounded?)
    && (Located(i.witnessedAt).Some? ==> Located(j.witnessedAt) == Located(i.witnessedAt))
  }

  /** Learning more shrinks what an interval may stand for, and a moment it
      provably held at stays one. */
  lemma ResolvingShrinks(i: Interval, j: Interval, m: real)
    requires Resolves(i, j) && Accepted(j)
    ensures forall p :: Denotes(j, p) ==> Denotes(i, p)
    ensures DefinitelyHoldsAt(i, m) ==> DefinitelyHoldsAt(j, m)
  {}

  lemma ResolvingKeepsOverlap(a: Interval, b: Interval, a': Interval, b': Interval)
    requires Resolves(a, a') && Resolves(b, b')
    requires DefinitelyOverlap(a, b)
    ensures DefinitelyOverlap(a', b')
  {}

  /** And an answer already given never flips. */
  lemma ResolvingKeepsAnswers(a: Interval, b: Interval, a': Interval, b': Interval)
    requires Resolves(a, a') && Resolves(b, b') && Accepted(a') && Accepted(b')
    ensures CompareIntervals(a, b) != Undecided ==> CompareIntervals(a', b') == CompareIntervals(a, b)
  {
    if CompareIntervals(a, b) == Overlap {
      ResolvingKeepsOverlap(a, b, a', b');
    } else if CompareIntervals(a, b) != Undecided {
      assert !DefinitelyOverlap(a', b');
    }
  }

  /** The flag is raised exactly when both sides are dated, every cross pair
      shares a clock, and no reading of any pair lets the two meet. */
  lemma DisjointnessIsExact(a: seq<Interval>, b: seq<Interval>)
    requires forall i :: i in a + b ==> Accepted(i)
    ensures AssertionsAreDisjoint(a, b)
            <==> a != [] && b != [] && forall i, j :: i in a && j in b ==> i.timeline == j.timeline && NeverMeet(i, j)
    ensures AssertionsAreDisjoint(a, b) <==> AssertionsAreDisjoint(b, a)
  {
    forall i, j | i in a && j in b
      ensures CompareIntervals(i, j) in {Before, After} <==> i.timeline == j.timeline && NeverMeet(i, j)
      ensures CompareIntervals(i, j) in {Before, After} <==> CompareIntervals(j, i) in {Before, After}
    {
      assert i in a + b && j in a + b;
      if i.timeline == j.timeline {
        DisjointIsExact(i, j);
      }
      RelationsConverse(i, j);
      RelationsConverse(j, i);
    }
  }

  /** A wider side can suppress the flag and never raise it. */
  lemma WideningOnlySuppresses(a: seq<Interval>, wider: seq<Interval>, b: seq<Interval>)
    requires a != [] && forall i :: i in a ==> i in wider
    ensures AssertionsAreDisjoint(wider, b) ==> AssertionsAreDisjoint(a, b)
  {}

  lemma ACommonMomentIsAMeeting(i: Interval, j: Interval, m: real)
    requires Accepted(i) && Accepted(j)
    requires DefinitelyHoldsAt(i, m) && DefinitelyHoldsAt(j, m)
    ensures !NeverMeet(i, j)
  {
    var p, q := Wide(i, Reach(i)), Wide(j, Reach(j));
    WideIsDenoted(i, Reach(i));
    WideIsDenoted(j, Reach(j));
    HoldsAtIsExact(i, m);
    HoldsAtIsExact(j, m);
    MeetIsACommonMoment(p, q);
    assert Inside(m, p) && Inside(m, q);
  }

  /** Disjoint assertions are never both VALID at one moment on one clock. */
  lemma DisjointExcludesACommonMoment(a: seq<Interval>, b: seq<Interval>, m: real, timeline: Option<string>)
    requires forall i :: i in a + b ==> Accepted(i)
    requires AssertionsAreDisjoint(a, b)
    ensures !(ValidAt(a, m, timeline) && ValidAt(b, m, timeline))
  {
    forall i, j | i in a && j in b && DefinitelyHoldsAt(i, m) && DefinitelyHoldsAt(j, m) && i.timeline == j.timeline
      ensures CompareIntervals(i, j) !in {Before, After}
    {
      assert i in a + b && j in a + b;
      DisjointIsExact(i, j);
      ACommonMomentIsAMeeting(i, j, m);
    }
  }

  /** Folding one source's periods together keeps `kept` in place, adds every
      missing period once, and changes no verdict the two lists gave. */
  lemma {:induction false} MergedIsTheUnion(kept: seq<Interval>, folded: seq<Interval>)
    ensures kept <= Merged(kept, folded)
    ensures forall i :: i in Merged(kept, folded) <==> i in kept || i in folded
    ensures forall j, k :: |kept| <= j < |Merged(kept, folded)| && 0 <= k < j
                           ==> Merged(kept, folded)[j] != Merged(kept, folded)[k]
    decreases folded
  {
    if folded != [] {
      MergedIsTheUnion(if folded[0] in kept then kept else kept + [folded[0]], folded[1..]);
    }
  }

  lemma MergingKeepsVerdicts(kept: seq<Interval>, folded: seq<Interval>, other: seq<Interval>, m: real,
          timeline: Option<string>)
    ensures ValidAt(Merged(kept, folded), m, timeline) <==> ValidAt(kept, m, timeline) || ValidAt(folded, m, timeline)
    ensures kept != [] && folded != [] ==>
              (AssertionsAreDisjoint(Merged(kept, folded), other)
               <==> AssertionsAreDisjoint(kept, other) && AssertionsAreDisjoint(folded, other))
    ensures Merged(Merged(kept, folded), folded) == Merged(kept, folded)
  {
    MergedIsTheUnion(kept, folded);
    NothingNewToMerge(Merged(kept, folded), folded);
  }

  /** Missing periods are added in the order they come in. */
  lemma {:induction false} MergedInOrder(kept: seq<Interval>, folded: seq<Interval>, i: Interval)
    ensures Merged(kept, folded + [i])
            == Merged(kept, folded) + if i in kept || i in folded then [] else [i]
  {
    MergedIsTheUnion(kept, folded);
    OneMoreMerged(kept, folded, i);
  }

  lemma {:induction false} OneMoreMerged(kept: seq<Interval>, folded: seq<Interval>, i: Interval)
    ensures Merged(kept, folded + [i])
            == if i in Merged(kept, folded) then Merged(kept, folded) else Merged(kept, folded) + [i]
    decreases folded
  {
    if folded == [] {
      assert folded + [i] == [i];
    } else {
      assert (folded + [i])[1..] == folded[1..] + [i];
      OneMoreMerged(if folded[0] in kept then kept else kept + [folded[0]], folded[1..], i);
    }
  }

  lemma {:induction false} NothingNewToMerge(kept: seq<Interval>, folded: seq<Interval>)
    requires forall i :: i in folded ==> i in kept
    ensures Merged(kept, folded) == kept
  {
    if folded != [] {
      NothingNewToMerge(kept, folded[1..]);
    }
  }
}
