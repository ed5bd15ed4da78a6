/** Who a write is credited to: the judges claimed on one connection, their
    tokens, and the graph the write lands in (epimemer/mcp/server.py). */
module JudgeSession {
  import opened Options
  import opened Seats

  datatype Judge = Judge(agentId: string, digest: string)

  /** A judge as the connection holds it, with the seat it was claimed in. */
  datatype Stored = Stored(judge: Judge, seat: Seat)

  /** What one connection remembers. */
  datatype Connection = Connection(judge: Option<Stored>, tokens: map<string, Stored>, confirmed: map<string, string>)

  const FRESH := Connection(None, map[], map[])

  /** The graphs this process serves. `active` is what the process goes by and
      `wire` is the graph the backend answers from: a mover points the connection
      elsewhere before, or without, changing which graph is active. */
  datatype Graphs = Graphs(
    active: string,
    wire: string,
    moving: bool,
    approved: map<string, set<string>>,
    requireJudge: map<string, bool>,
    processDefault: bool)
  {
    predicate Approves(graph: string, judge: Judge) { graph in approved && judge.agentId in approved[graph] }

    predicate Requires(graph: string) { if graph in requireJudge then requireJudge[graph] else processDefault }
  }

  /** Outside a move the two are one graph. */
  predicate Settled(g: Graphs) { g.moving || g.wire == g.active }

  datatype Refusal = WrongGraph | UnknownToken | SeatChanged(changes: seq<Change>) | JudgeRequired

  /** Whether a call may run where it is: it must name the active graph. */
  predicate RightGraph(g: Graphs, expected: Option<string>) { expected == Some(g.active) }

  /** The first stretch of the gate, up to its first wait: the judge held for this
      write, before anything is asked of the graph. */
  function Compare(g: Graphs, c: Connection, expected: Option<string>, token: Option<string>, seat: Seat)
    : Result<Option<Stored>, Refusal>
  {
    if !RightGraph(g, expected) then Err(WrongGraph)
    else if token.Some? && token.value !in c.tokens then Err(UnknownToken)
    else
      var stored := if token.Some? then Some(c.tokens[token.value]) else c.judge;
      if stored.None? || SeatChanges(stored.value.seat, seat) == [] then Ok(stored)
      else Err(SeatChanged(SeatChanges(stored.value.seat, seat)))
  }

  /** The approved ids as the backend answers them. */
  function ApprovedJudge(g: Graphs, stored: Option<Stored>): Option<Judge> {
    if stored.Some? && g.Approves(g.wire, stored.value.judge) then Some(stored.value.judge) else None
  }

  /** `_judge_for_write`: the judge a write is credited to, or why it is refused.
      It waits in between: the graphs are what they are when it compares, when it
      reads the approved ids, and when it reads the policy. */
  function JudgeForWrite(comparing: Graphs, reading: Graphs, asking: Graphs, c: Connection,
                         expected: Option<string>, token: Option<string>, seat: Seat)
    : Result<Option<Judge>, Refusal>
  {
    match Compare(comparing, c, expected, token, seat)
    case Err(refusal) => Err(refusal)
    case Ok(stored) =>
      var judge := ApprovedJudge(reading, stored);
      if judge.None? && asking.Requires(asking.wire) then Err(JudgeRequired) else Ok(judge)
  }

  // --- Runs ---

  /** A claim this connection made, the token it was given, the graph that was
      active when it went through, and the one that was when the user was asked. */
  datatype Claim = Claim(judge: Judge, seat: Seat, token: string, graph: string, askedIn: string)

  /** A write past the first stretch, with the judge held for it. */
  datatype Check = Check(stored: Option<Stored>, expected: string, token: Option<string>, seat: Seat, comparedAt: nat)

  /** One whose approved ids were read and name no judge for it. */
  datatype Unjudged = Unjudged(check: Check, readAt: nat)

  /** A write let through, before it takes its turn over the graph. */
  datatype Write = Write(
    judge: Option<Judge>, expected: string, token: Option<string>, seat: Seat,
    comparedAt: nat, readAt: nat, policyAt: nat)

  /** A write that ran, and in which graph. */
  datatype Credit = Credit(write: Write, graph: string, landedAt: nat)

  /** A use_graph call: the binding it found, then whether that is approved. */
  datatype Asked = Reading(stored: Stored, askedAt: nat) | Read(judge: Option<Judge>, askedAt: nat, readAt: nat)

  datatype State = State(
    graphs: Graphs,
    connection: Connection,
    switching: set<Asked>,
    claims: seq<Claim>,
    comparing: set<Check>,
    asking: set<Unjudged>,
    checked: set<Write>,
    credits: seq<Credit>,
    been: set<string>,
    clock: nat)

  /** One event is one stretch between two waits, or something the graphs do. A
      mover's turn runs from `MoveBegins` to `MoveEnds`: a switch points the
      connection elsewhere and then makes that the active graph, a borrowed read
      points it elsewhere and back. */
  datatype Event =
    | Claimed(judge: Judge, seat: Seat, minted: string, askedIn: string)
    | Compared(expected: Option<string>, token: Option<string>, seat: Seat)
    | ApprovalRead(check: Check)
    | PolicyRead(unjudged: Unjudged)
    | Landed(write: Write)
    | SwitchAsked
    | SwitchRead(asked: Asked)
    | SwitchChecked(asked: Asked)
    | MoveBegins
    | Repointed(graph: string)
    | ActiveSet
    | MoveEnds
    | Approved(graph: string, agentId: string)
    | Revoked(graph: string, agentId: string)
    | Policy(graph: string, judgeNeeded: bool)

  function Start(g: Graphs): State { State(g, FRESH, {}, [], {}, {}, {}, [], {}, 0) }

  /** Tokens are drawn at random, so one is never drawn twice. A claim takes no
      turn: whatever graph was active before, the user may have been asked in it.
      Nothing lands during a move: a write runs inside a user's turn. */
  ghost predicate Possible(s: State, e: Event) {
    match e
    case Claimed(_, _, token, askedIn) =>
      (askedIn == s.graphs.active || askedIn in s.been) && forall c :: c in s.claims ==> c.token != token
    case ApprovalRead(check) => check in s.comparing
    case PolicyRead(unjudged) => unjudged in s.asking
    case Landed(write) => write in s.checked && !s.graphs.moving
    case SwitchRead(asked) => asked in s.switching && asked.Reading?
    case SwitchChecked(asked) =>
      asked in s.switching && asked.Read? && s.graphs.moving && s.graphs.wire == s.graphs.active
    case MoveBegins => !s.graphs.moving
    case Repointed(_) => s.graphs.moving
    case ActiveSet => s.graphs.moving
    case MoveEnds => s.graphs.moving && s.graphs.wire == s.graphs.active
    case _ => true
  }

  function BoundJudge(c: Connection, stored: Option<Stored>): Connection { c.(judge := stored) }

  function WithClaim(c: Connection, graph: string, judge: Judge, seat: Seat, token: string): Connection {
    Connection(Some(Stored(judge, seat)), c.tokens[token := Stored(judge, seat)], c.confirmed[graph := judge.agentId])
  }

  function ApprovedIn(g: Graphs, graph: string): set<string> { if graph in g.approved then g.approved[graph] else {} }

  function GraphsAfter(g: Graphs, e: Event): Graphs {
    match e
    case MoveBegins => g.(moving := true)
    case Repointed(graph) => g.(wire := graph)
    case ActiveSet => g.(active := g.wire)
    case MoveEnds => g.(moving := false)
    case Approved(graph, agentId) => g.(approved := g.approved[graph := ApprovedIn(g, graph) + {agentId}])
    case Revoked(graph, agentId) => g.(approved := g.approved[graph := ApprovedIn(g, graph) - {agentId}])
    case Policy(graph, judgeNeeded) => g.(requireJudge := g.requireJudge[graph := judgeNeeded])
    case _ => g
  }

  function LetThrough(c: Check, judge: Option<Judge>, readAt: nat, policyAt: nat): Write {
    Write(judge, c.expected, c.token, c.seat, c.comparedAt, readAt, policyAt)
  }

  function Acted(s: State, e: Event): State {
    match e
    case Claimed(judge, seat, token, askedIn) =>
      s.(connection := WithClaim(s.connection, s.graphs.active, judge, seat, token),
         claims := s.claims + [Claim(judge, seat, token, s.graphs.active, askedIn)])
    case Compared(expected, token, seat) =>
      (match Compare(s.graphs, s.connection, expected, token, seat)
       case Err(_) => s
       case Ok(stored) =>
         var check := Check(stored, expected.value, token, seat, s.clock);
         if stored.Some? then s.(comparing := s.comparing + {check})
         else s.(asking := s.asking + {Unjudged(check, s.clock)}))
    case ApprovalRead(check) =>
      var judge, left := ApprovedJudge(s.graphs, check.stored), s.(comparing := s.comparing - {check});
      if judge.Some? then left.(checked := s.checked + {LetThrough(check, judge, s.clock, s.clock)})
      else left.(asking := s.asking + {Unjudged(check, s.clock)})
    case PolicyRead(unjudged) =>
      var left := s.(asking := s.asking - {unjudged});
      if s.graphs.Requires(s.graphs.wire) then left
      else left.(checked := s.checked + {LetThrough(unjudged.check, None, unjudged.readAt, s.clock)})
    case Landed(write) =>
      var left := s.(checked := s.checked - {write});
      if RightGraph(s.graphs, Some(write.expected)) then
        left.(credits := s.credits + [Credit(write, s.graphs.active, s.clock)])
      else left
    case SwitchAsked =>
      var asked := if s.connection.judge.Some? then Reading(s.connection.judge.value, s.clock) else Read(None, s.clock, s.clock);
      s.(switching := s.switching + {asked})
    case SwitchRead(asked) =>
      if asked.Reading? then
        var read := Read(ApprovedJudge(s.graphs, Some(asked.stored)), asked.askedAt, s.clock);
        s.(switching := s.switching - {asked} + {read})
      else s
    case SwitchChecked(asked) =>
      var left := s.(switching := s.switching - {asked});
      if asked.Read? && asked.judge.Some? && !s.graphs.Approves(s.graphs.wire, asked.judge.value) then
        left.(connection := BoundJudge(s.connection, None))
      else left
    case _ => s
  }

  function After(s: State, e: Event): State {
    Acted(s, e).(graphs := GraphsAfter(s.graphs, e), clock := s.clock + 1,
                 been := if e.ActiveSet? then s.been + {s.graphs.active} else s.been)
  }

  ghost predicate Steps(ss: seq<State>, es: seq<Event>) {
    && |ss| == |es| + 1
    && forall i :: 0 <= i < |es| ==> Possible(ss[i], es[i]) && ss[i + 1] == After(ss[i], es[i])
  }

  /** A run of this process, as the states it goes through. */
  ghost predicate Trace(ss: seq<State>, es: seq<Event>) {
    Steps(ss, es) && Settled(ss[0].graphs) && ss[0] == Start(ss[0].graphs)
  }

  /** The tokens are those of the claims, each naming its own. */
  ghost predicate TokensNameClaims(tokens: map<string, Stored>, claims: seq<Claim>) {
    && (forall t :: t in tokens ==> exists i :: 0 <= i < |claims| && claims[i].token == t)
    && (forall i :: 0 <= i < |claims| ==> claims[i].token in tokens)
    && (forall i :: 0 <= i < |claims| ==> tokens[claims[i].token] == Stored(claims[i].judge, claims[i].seat))
  }

  /** For each graph, the judge last claimed there. */
  ghost predicate MemoIsLastClaim(confirmed: map<string, string>, claims: seq<Claim>) {
    && (forall c :: c in claims ==> c.graph in confirmed)
    && (forall g :: g in confirmed ==> exists i :: LastIn(claims, g, i) && claims[i].judge.agentId == confirmed[g])
  }

  ghost predicate LastIn(claims: seq<Claim>, graph: string, i: int) {
    0 <= i < |claims| && claims[i].graph == graph && forall j :: i < j < |claims| ==> claims[j].graph != graph
  }

  /** The binding is the latest claim, or was cleared. */
  ghost predicate BindingIsLastClaim(judge: Option<Stored>, claims: seq<Claim>) {
    judge.Some? ==> claims != [] && judge.value == Stored(claims[|claims| - 1].judge, claims[|claims| - 1].seat)
  }

  /** What holds of the connection and the graphs at every moment. */
  ghost predicate Invariant(s: State) {
    && Settled(s.graphs)
    && TokensNameClaims(s.connection.tokens, s.claims) && MemoIsLastClaim(s.connection.confirmed, s.claims)
    && BindingIsLastClaim(s.connection.judge, s.claims)
  }

  lemma {:induction false} StepKeepsInvariant(s: State, e: Event)
    requires Invariant(s) && Possible(s, e)
    ensures Invariant(After(s, e))
  {
    hide TokensNameClaims, MemoIsLastClaim, Compare;
    match e {
      case Claimed(judge, seat, token, askedIn) =>
        var claim := Claim(judge, seat, token, s.graphs.active, askedIn);
        OneMoreToken(s.connection.tokens, s.claims, claim);
        OneMoreMemo(s.connection.confirmed, s.claims, claim);
      case _ =>
    }
  }

  lemma {:induction false} OneMoreToken(tokens: map<string, Stored>, claims: seq<Claim>, claim: Claim)
    requires TokensNameClaims(tokens, claims) && forall c :: c in claims ==> c.token != claim.token
    ensures TokensNameClaims(tokens[claim.token := Stored(claim.judge, claim.seat)], claims + [claim])
  {
    var all, more := tokens[claim.token := Stored(claim.judge, claim.seat)], claims + [claim];
    assert forall i :: 0 <= i < |claims| ==> more[i] == claims[i] && claims[i] in claims;
    assert more[|claims|] == claim;
    forall t | t in all ensures exists i :: 0 <= i < |more| && more[i].token == t {
      if t in tokens {
        var i :| 0 <= i < |claims| && claims[i].token == t;
        assert more[i].token == t;
      }
    }
  }

  lemma {:induction false} OneMoreMemo(confirmed: map<string, string>, claims: seq<Claim>, claim: Claim)
    requires MemoIsLastClaim(confirmed, claims)
    ensures MemoIsLastClaim(confirmed[claim.graph := claim.judge.agentId], claims + [claim])
  {
    var more, now := claims + [claim], confirmed[claim.graph := claim.judge.agentId];
    assert LastIn(more, claim.graph, |claims|);
    forall g | g in confirmed && g != claim.graph
      ensures exists i :: LastIn(more, g, i) && more[i].judge.agentId == now[g]
    {
      var i :| LastIn(claims, g, i) && claims[i].judge.agentId == confirmed[g];
      assert LastIn(more, g, i);
    }
  }

  lemma {:induction false} TraceKeepsInvariant(ss: seq<State>, es: seq<Event>, k: nat)
    requires Trace(ss, es) && k < |ss|
    ensures Invariant(ss[k]) && ss[k].clock == k
  {
    hide Possible, Acted, TokensNameClaims, MemoIsLastClaim;
    if k > 0 {
      TraceKeepsInvariant(ss, es, k - 1);
      assert Possible(ss[k - 1], es[k - 1]) && ss[k] == After(ss[k - 1], es[k - 1]);
      StepKeepsInvariant(ss[k - 1], es[k - 1]);
    } else {
      NothingClaimedYet();
    }
  }

  lemma {:induction false} NothingClaimedYet()
    ensures TokensNameClaims(map[], []) && MemoIsLastClaim(map[], [])
  {}

  // --- What is on record ---

  ghost predicate WellCompared(ss: seq<State>, c: Check) {
    && c.comparedAt < |ss|
    && var s := ss[c.comparedAt]; Compare(s.graphs, s.connection, Some(c.expected), c.token, c.seat) == Ok(c.stored)
  }

  ghost predicate WellRead(ss: seq<State>, u: Unjudged) {
    && WellCompared(ss, u.check) && u.check.comparedAt <= u.readAt < |ss|
    && ApprovedJudge(ss[u.readAt].graphs, u.check.stored) == None
  }

  /** The write was let through by what the graphs were at three moments. */
  ghost predicate WellAnswered(ss: seq<State>, w: Write) {
    && w.comparedAt <= w.readAt <= w.policyAt < |ss|
    && JudgeForWrite(ss[w.comparedAt].graphs, ss[w.readAt].graphs, ss[w.policyAt].graphs, ss[w.comparedAt].connection,
                     Some(w.expected), w.token, w.seat) == Ok(w.judge)
  }

  ghost predicate WellLanded(ss: seq<State>, c: Credit) {
    && WellAnswered(ss, c.write) && c.write.policyAt <= c.landedAt < |ss|
    && var g := ss[c.landedAt].graphs; !g.moving && g.active == c.graph == c.write.expected
  }

  /** The switch read the binding at one moment and its approval at another. */
  ghost predicate WellAsked(ss: seq<State>, a: Asked) {
    && a.askedAt < |ss|
    && var was := ss[a.askedAt].connection.judge;
       match a
       case Reading(stored, _) => was == Some(stored)
       case Read(judge, _, readAt) => a.askedAt <= readAt < |ss| && judge == ApprovedJudge(ss[readAt].graphs, was)
  }

  function LastMoment(a: Asked): nat { if a.Read? then a.readAt else a.askedAt }

  ghost predicate Records(ss: seq<State>, s: State, k: nat) {
    && (forall a :: a in s.switching ==> LastMoment(a) < k && WellAsked(ss, a))
    && (forall c :: c in s.comparing ==> c.comparedAt < k && WellCompared(ss, c))
    && (forall u :: u in s.asking ==> u.readAt < k && WellRead(ss, u))
    && (forall w :: w in s.checked ==> w.policyAt < k && WellAnswered(ss, w))
    && (forall c :: c in s.credits ==> c.landedAt < k && WellLanded(ss, c))
  }

  lemma {:induction false} StepKeepsRecords(ss: seq<State>, es: seq<Event>, k: nat)
    requires k < |es| && k + 1 < |ss| && ss[k].clock == k && Records(ss, ss[k], k)
    requires Possible(ss[k], es[k]) && ss[k + 1] == After(ss[k], es[k])
    ensures Records(ss, ss[k + 1], k + 1)
  {
    var s := ss[k];
    hide WellCompared, WellRead, WellAnswered, WellLanded, WellAsked, Compare, ApprovedJudge;
    match es[k] {
      case SwitchAsked =>
        SwitchAskedWell(ss, k);
      case SwitchRead(asked) =>
        SwitchReadWell(ss, k, asked);
      case Compared(expected, token, seat) =>
        ComparedWell(ss, k, expected, token, seat);
      case ApprovalRead(check) =>
        ReadWell(ss, k, check);
      case PolicyRead(u) =>
        AskedWell(ss, k, u);
      case Landed(w) =>
        if w.expected == s.graphs.active {
          LandedWell(ss, k, w);
        }
      case _ =>
    }
  }

  lemma {:induction false} SwitchAskedWell(ss: seq<State>, k: nat)
    requires k < |ss|
    ensures var was := ss[k].connection.judge; WellAsked(ss, if was.Some? then Reading(was.value, k) else Read(None, k, k))
  {}

  lemma {:induction false} SwitchReadWell(ss: seq<State>, k: nat, asked: Asked)
    requires k < |ss| && asked.Reading? && asked.askedAt <= k && WellAsked(ss, asked)
    ensures WellAsked(ss, Read(ApprovedJudge(ss[k].graphs, Some(asked.stored)), asked.askedAt, k))
  {
    hide ApprovedJudge;
  }

  lemma {:induction false} ComparedWell(ss: seq<State>, k: nat, expected: Option<string>, token: Option<string>, seat: Seat)
    requires k < |ss|
    ensures var r := Compare(ss[k].graphs, ss[k].connection, expected, token, seat);
            r.Ok? ==>
              && var c := Check(r.value, expected.value, token, seat, k);
              && WellCompared(ss, c) && (r.value.None? ==> WellRead(ss, Unjudged(c, k)))
  {
    hide SeatChanges;
  }

  lemma {:induction false} ReadWell(ss: seq<State>, k: nat, c: Check)
    requires k < |ss| && c.comparedAt <= k && WellCompared(ss, c)
    ensures var judge := ApprovedJudge(ss[k].graphs, c.stored);
            if judge.Some? then WellAnswered(ss, LetThrough(c, judge, k, k)) else WellRead(ss, Unjudged(c, k))
  {
    hide Compare;
  }

  lemma {:induction false} AskedWell(ss: seq<State>, k: nat, u: Unjudged)
    requires k < |ss| && u.readAt <= k && WellRead(ss, u)
    ensures !ss[k].graphs.Requires(ss[k].graphs.wire) ==> WellAnswered(ss, LetThrough(u.check, None, u.readAt, k))
  {
    hide Compare;
  }

  lemma {:induction false} LandedWell(ss: seq<State>, k: nat, w: Write)
    requires k < |ss| && w.policyAt <= k && WellAnswered(ss, w)
    requires !ss[k].graphs.moving && w.expected == ss[k].graphs.active
    ensures WellLanded(ss, Credit(w, ss[k].graphs.active, k))
  {}

  lemma {:induction false} TraceKeepsRecords(ss: seq<State>, es: seq<Event>, k: nat)
    requires Trace(ss, es) && k < |ss|
    ensures Records(ss, ss[k], k)
  {
    hide Possible, After, Records, Invariant;
    if k > 0 {
      TraceKeepsRecords(ss, es, k - 1);
      TraceKeepsInvariant(ss, es, k - 1);
      assert Possible(ss[k - 1], es[k - 1]) && ss[k] == After(ss[k - 1], es[k - 1]);
      StepKeepsRecords(ss, es, k - 1);
    } else {
      NothingOnRecordYet(ss);
    }
  }

  lemma {:induction false} NothingOnRecordYet(ss: seq<State>)
    requires ss != [] && ss[0] == Start(ss[0].graphs)
    ensures Records(ss, ss[0], 0)
  {}

  // --- Each stretch runs once ---

  /** The event takes up something that waits for it. */
  predicate Resumes(e: Event) { e.ApprovalRead? || e.PolicyRead? || e.Landed? || e.SwitchRead? || e.SwitchChecked? }

  predicate Awaited(s: State, e: Event)
    requires Resumes(e)
  {
    match e
    case ApprovalRead(check) => check in s.comparing
    case PolicyRead(unjudged) => unjudged in s.asking
    case Landed(write) => write in s.checked
    case SwitchRead(asked) => asked in s.switching
    case SwitchChecked(asked) => asked in s.switching
  }

  /** When what it takes up began to wait. */
  function Since(e: Event): nat
    requires Resumes(e)
  {
    match e
    case ApprovalRead(check) => check.comparedAt
    case PolicyRead(unjudged) => unjudged.readAt
    case Landed(write) => write.policyAt
    case SwitchRead(asked) => LastMoment(asked)
    case SwitchChecked(asked) => LastMoment(asked)
  }

  /** A check is answered once, a write lands once and a switch clears once. */
  lemma {:induction false} EveryStretchRunsOnce(ss: seq<State>, es: seq<Event>, j: nat, l: nat)
    requires Trace(ss, es) && j < l < |es| && Resumes(es[j])
    ensures es[l] != es[j]
  {
    GoneStaysGone(ss, es, j, l);
    assert Possible(ss[l], es[l]);
    hide Trace;
  }

  lemma {:induction false} GoneStaysGone(ss: seq<State>, es: seq<Event>, j: nat, k: nat)
    requires Trace(ss, es) && j < k < |ss| && Resumes(es[j])
    ensures Since(es[j]) < j && !Awaited(ss[k], es[j])
  {
    hide After, Possible, Awaited, Since, Acted, Settled, Start;
    WaitedSince(ss, es, j);
    StepAt(ss, es, j);
    StepAt(ss, es, k - 1);
    if k == j + 1 {
      TakenUp(ss[j], es[j]);
    } else {
      GoneStaysGone(ss, es, j, k - 1);
      NothingOldIsAdded(ss[k - 1], es[k - 1], es[j]);
    }
  }

  lemma {:induction false} StepAt(ss: seq<State>, es: seq<Event>, k: nat)
    requires Trace(ss, es) && k < |es|
    ensures |ss| == |es| + 1 && ss[k].clock == k && Possible(ss[k], es[k]) && ss[k + 1] == After(ss[k], es[k])
  {
    TraceKeepsInvariant(ss, es, k);
    hide Invariant, Possible, After;
  }

  lemma {:induction false} WaitedSince(ss: seq<State>, es: seq<Event>, j: nat)
    requires Trace(ss, es) && j < |es| && Resumes(es[j])
    ensures Since(es[j]) < j
  {
    TraceKeepsRecords(ss, es, j);
    StepAt(ss, es, j);
    hide Trace, After, WellCompared, WellRead, WellAnswered, WellLanded, WellAsked;
  }

  lemma {:induction false} TakenUp(s: State, e: Event)
    requires Possible(s, e) && Resumes(e) && Since(e) < s.clock
    ensures !Awaited(After(s, e), e)
  {}

  lemma {:induction false} NothingOldIsAdded(s: State, e: Event, old_: Event)
    requires Resumes(old_) && Since(old_) < s.clock && !Awaited(s, old_)
    ensures !Awaited(After(s, e), old_)
  {
    hide Compare, ApprovedJudge;
  }

  // --- Who is credited ---

  /** The claim a write is credited to: made from the seat the write comes from,
      and named by its token, or else the latest there was. */
  ghost predicate Earns(claims: seq<Claim>, w: Write, i: int) {
    && 0 <= i < |claims| && claims[i].seat == w.seat
    && (if w.token.Some? then claims[i].token == w.token.value else i == |claims| - 1)
  }

  /** Over every run, a write that ran had named the graph it ran in, and that
      was the active one both when it was compared and when it ran, with nothing
      moving then. A judge it is credited to had been claimed before, from a seat
      equal in all four fields, by the claim the write's token names or without
      one the latest; and when the approved ids were read, the graph that answered
      approved the judge. Credited to nobody, it was let through by a policy that
      asks for no judge, of the graph that answered when the policy was read. */
  lemma {:induction false} CreditsAreEarned(ss: seq<State>, es: seq<Event>, k: nat, credit: Credit)
    requires Trace(ss, es) && k < |ss| && credit in ss[k].credits
    ensures var w := credit.write;
            && w.comparedAt <= w.readAt <= credit.landedAt < k
            && credit.graph == w.expected == ss[w.comparedAt].graphs.active
            && credit.graph == ss[credit.landedAt].graphs.active == ss[credit.landedAt].graphs.wire
            && (w.token.Some? ==> exists c :: c in ss[w.comparedAt].claims && c.token == w.token.value)
            && (w.judge.None? ==>
                  w.readAt <= w.policyAt <= credit.landedAt && !ss[w.policyAt].graphs.Requires(ss[w.policyAt].graphs.wire))
            && (w.judge.Some? ==>
                  && ss[w.readAt].graphs.Approves(ss[w.readAt].graphs.wire, w.judge.value)
                  && exists i :: Earns(ss[w.comparedAt].claims, w, i) && ss[w.comparedAt].claims[i].judge == w.judge.value)
  {
    TraceKeepsRecords(ss, es, k);
    var w := credit.write;
    TraceKeepsInvariant(ss, es, credit.landedAt);
    TraceKeepsInvariant(ss, es, w.comparedAt);
    hide Trace, MemoIsLastClaim;
    AnsweredIsEarned(ss, w);
  }

  lemma {:induction false} AnsweredIsEarned(ss: seq<State>, w: Write)
    requires WellAnswered(ss, w)
    requires var s := ss[w.comparedAt];
             TokensNameClaims(s.connection.tokens, s.claims) && BindingIsLastClaim(s.connection.judge, s.claims)
    ensures var s, g := ss[w.comparedAt], ss[w.readAt].graphs;
            && s.graphs.active == w.expected
            && (w.token.Some? ==> exists c :: c in s.claims && c.token == w.token.value)
            && (w.judge.Some? ==>
                  g.Approves(g.wire, w.judge.value) && exists i :: Earns(s.claims, w, i) && s.claims[i].judge == w.judge.value)
  {
    var s := ss[w.comparedAt];
    var stored := if w.token.Some? then Some(s.connection.tokens[w.token.value]) else s.connection.judge;
    if stored.Some? {
      NothingChangedIff(stored.value.seat, w.seat);
      var i := if w.token.None? then |s.claims| - 1
               else var i :| 0 <= i < |s.claims| && s.claims[i].token == w.token.value; i;
      assert s.claims[i] in s.claims && stored.value == Stored(s.claims[i].judge, s.claims[i].seat);
      assert Earns(s.claims, w, i);
    }
    hide SeatChanges;
  }

  /** While no move begins the backend answers from the active graph. */
  lemma {:induction false} NothingMoves(ss: seq<State>, es: seq<Event>, i: nat, j: nat)
    requires Trace(ss, es) && i <= j < |ss| && !ss[i].graphs.moving
    requires forall m :: i <= m < j ==> !es[m].MoveBegins?
    ensures !ss[j].graphs.moving && ss[j].graphs.wire == ss[j].graphs.active == ss[i].graphs.active
    decreases j
  {
    hide Acted;
    TraceKeepsInvariant(ss, es, i);
    hide Invariant;
    if i < j {
      NothingMoves(ss, es, i, j - 1);
      assert Possible(ss[j - 1], es[j - 1]) && ss[j] == After(ss[j - 1], es[j - 1]);
    }
  }

  /** So a judge credited was approved in the graph the write ran in, when that
      was read, wherever no move was under way at the comparison and none began
      before the read. */
  lemma {:induction false} UnmovedCreditsAreApprovedHere(ss: seq<State>, es: seq<Event>, k: nat, credit: Credit)
    requires Trace(ss, es) && k < |ss| && credit in ss[k].credits && credit.write.judge.Some?
    requires credit.write.comparedAt < |ss| && !ss[credit.write.comparedAt].graphs.moving
    requires forall m :: credit.write.comparedAt <= m < credit.write.readAt && m < |es| ==> !es[m].MoveBegins?
    ensures credit.write.readAt < k
    ensures ss[credit.write.readAt].graphs.Approves(credit.graph, credit.write.judge.value)
  {
    hide Earns, Possible, After;
    CreditsAreEarned(ss, es, k, credit);
    NothingMoves(ss, es, credit.write.comparedAt, credit.write.readAt);
  }

  /** Exactly so: that a credit means approval in the graph the write names, no
      matter what each graph approves, is the backend answering from that graph. */
  lemma {:induction false} ApprovedWhereNamedIff(comparing: Graphs, reading: Graphs, asking: Graphs, c: Connection,
                                                 expected: string, token: Option<string>, seat: Seat, judge: Judge)
    requires var r := Compare(comparing, c, Some(expected), token, seat); r.Ok? && r.value.Some? && r.value.value.judge == judge
    ensures (forall approved ::
               var g := reading.(approved := approved);
               JudgeForWrite(comparing, g, asking, c, Some(expected), token, seat) == Ok(Some(judge)) ==> g.Approves(expected, judge))
            <==> reading.wire == expected
  {
    hide Compare;
    var elsewhere := map[reading.wire := {judge.agentId}];
    var g := reading.(approved := elsewhere);
    assert JudgeForWrite(comparing, g, asking, c, Some(expected), token, seat) == Ok(Some(judge));
  }

  /** A write credited to nobody ran in a graph that asked for no judge when its
      policy was read, wherever no move was under way at the comparison and none
      began before that. */
  lemma {:induction false} UnmovedJudgelessIsAllowedHere(ss: seq<State>, es: seq<Event>, k: nat, credit: Credit)
    requires Trace(ss, es) && k < |ss| && credit in ss[k].credits && credit.write.judge.None?
    requires credit.write.comparedAt < |ss| && !ss[credit.write.comparedAt].graphs.moving
    requires forall m :: credit.write.comparedAt <= m < credit.write.policyAt && m < |es| ==> !es[m].MoveBegins?
    ensures credit.write.policyAt < k
    ensures !ss[credit.write.policyAt].graphs.Requires(credit.graph)
  {
    hide Earns, Possible, After;
    CreditsAreEarned(ss, es, k, credit);
    NothingMoves(ss, es, credit.write.comparedAt, credit.write.policyAt);
  }

  /** Exactly so: that a write let through under nobody means a graph that asks for
      no judge, whatever each graph's policy, is the backend answering from the
      graph the write names when the policy is read. */
  lemma {:induction false} AllowedWhereNamedIff(comparing: Graphs, reading: Graphs, asking: Graphs, c: Connection,
                                                expected: string, token: Option<string>, seat: Seat)
    requires var r := Compare(comparing, c, Some(expected), token, seat); r.Ok? && ApprovedJudge(reading, r.value).None?
    ensures (forall policy ::
               var g := asking.(requireJudge := policy);
               JudgeForWrite(comparing, reading, g, c, Some(expected), token, seat) == Ok(None) ==> !g.Requires(expected))
            <==> asking.wire == expected
  {
    hide Compare, ApprovedJudge;
    var elsewhere := map[expected := true, asking.wire := false];
    var g := asking.(requireJudge := elsewhere);
    assert JudgeForWrite(comparing, reading, g, c, Some(expected), token, seat) == Ok(None);
  }

  /** And a read can be borrowed in between: nothing here switches graphs or
      changes an approval, the judge is approved in another graph and not in this
      one, and the write lands in this one credited to it. */
  lemma {:induction false} ABorrowAnswersForAnotherGraph(g: Graphs, other: string, judge: Judge, seat: Seat, token: string)
    returns (ss: seq<State>, es: seq<Event>)
    requires !g.moving && Settled(g) && g.Approves(other, judge) && !g.Approves(g.active, judge)
    ensures Trace(ss, es) && ss[0] == Start(g)
    ensures forall e :: e in es ==> !e.ActiveSet? && !e.Approved? && !e.Revoked?
    ensures var credits := ss[|ss| - 1].credits;
            |credits| == 1 && credits[0].graph == g.active && credits[0].write.judge == Some(judge)
  {
    hide After, Acted, GraphsAfter, Possible, Start, Trace, Steps, Compare, ApprovedJudge;
    var check := Check(Some(Stored(judge, seat)), g.active, Some(token), seat, 1);
    var write := LetThrough(check, Some(judge), 4, 4);
    var s0, s1 := Start(g), After(Start(g), Claimed(judge, seat, token, g.active));
    var s2 := ClaimedAndCompared(g, judge, seat, token);
    var s3, s4, s5 := ReadWhileBorrowed(s2, other, check, judge);
    var s6, s7, s8 := LandedAfterwards(s5, g, write);
    es := [Claimed(judge, seat, token, g.active), Compared(Some(g.active), Some(token), seat), MoveBegins, Repointed(other),
           ApprovalRead(check), Repointed(g.active), MoveEnds, Landed(write)];
    Fresh(g);
    ss := EightSteps(s0, s1, s2, s3, s4, s5, s6, s7, s8, es);
  }

  lemma {:induction false} EightSteps(s0: State, s1: State, s2: State, s3: State, s4: State, s5: State, s6: State,
                                      s7: State, s8: State, es: seq<Event>) returns (ss: seq<State>)
    requires |es| == 8 && Settled(s0.graphs) && s0 == Start(s0.graphs)
    requires Possible(s0, es[0]) && Possible(s1, es[1]) && Possible(s2, es[2]) && Possible(s3, es[3])
    requires Possible(s4, es[4]) && Possible(s5, es[5]) && Possible(s6, es[6]) && Possible(s7, es[7])
    requires s1 == After(s0, es[0]) && s2 == After(s1, es[1]) && s3 == After(s2, es[2]) && s4 == After(s3, es[3])
    requires s5 == After(s4, es[4]) && s6 == After(s5, es[5]) && s7 == After(s6, es[6]) && s8 == After(s7, es[7])
    ensures Trace(ss, es) && ss[0] == s0 && ss[|ss| - 1] == s8
  {
    hide Possible, After, Settled, Start;
    ss := [s0, s1, s2, s3, s4, s5, s6, s7, s8];
  }

  lemma {:induction false} Fresh(g: Graphs)
    ensures Start(g).graphs == g
  {}

  lemma {:induction false} ReadWhileBorrowed(s: State, other: string, check: Check, judge: Judge)
    returns (one: State, two: State, three: State)
    requires !s.graphs.moving && s.comparing == {check} && s.checked == {} && s.credits == [] && s.clock == 2
    requires check.stored.Some? && check.stored.value.judge == judge && s.graphs.Approves(other, judge)
    ensures one == After(s, MoveBegins) && two == After(one, Repointed(other)) && three == After(two, ApprovalRead(check))
    ensures Possible(s, MoveBegins) && Possible(one, Repointed(other)) && Possible(two, ApprovalRead(check))
    ensures one.graphs == s.graphs.(moving := true) && two.graphs == three.graphs == s.graphs.(moving := true, wire := other)
    ensures three.checked == {LetThrough(check, Some(judge), 4, 4)} && three.credits == [] && three.clock == 5
  {
    one := After(s, MoveBegins);
    two := After(one, Repointed(other));
    three := After(two, ApprovalRead(check));
  }

  lemma {:induction false} LandedAfterwards(s: State, g: Graphs, write: Write)
    returns (one: State, two: State, three: State)
    requires !g.moving && g.wire == g.active == write.expected && s.graphs.(moving := false, wire := g.wire) == g
    requires s.graphs.moving && s.checked == {write} && s.credits == []
    ensures one == After(s, Repointed(g.active)) && two == After(one, MoveEnds) && three == After(two, Landed(write))
    ensures Possible(s, Repointed(g.active)) && Possible(one, MoveEnds) && Possible(two, Landed(write))
    ensures one.graphs == g.(moving := true) && two.graphs == three.graphs == g
    ensures |three.credits| == 1 && three.credits[0].write == write && three.credits[0].graph == g.active
  {
    one := After(s, Repointed(g.active));
    two := After(one, MoveEnds);
    three := After(two, Landed(write));
  }

  lemma {:induction false} ClaimedAndCompared(g: Graphs, judge: Judge, seat: Seat, token: string) returns (s: State)
    requires Settled(g)
    ensures var s1 := After(Start(g), Claimed(judge, seat, token, g.active));
            && s == After(s1, Compared(Some(g.active), Some(token), seat))
            && Possible(Start(g), Claimed(judge, seat, token, g.active)) && s1.graphs == g
            && Possible(s1, Compared(Some(g.active), Some(token), seat))
    ensures s.graphs == g && s.clock == 2 && s.checked == {} && s.asking == {} && s.credits == []
    ensures s.comparing == {Check(Some(Stored(judge, seat)), g.active, Some(token), seat, 1)}
  {
    NothingChangedIff(seat, seat);
    hide SeatChanges;
    var s1 := After(Start(g), Claimed(judge, seat, token, g.active));
    s := After(s1, Compared(Some(g.active), Some(token), seat));
  }

  /** The memo that spares a re-claim the question answers, over every run, with
      the judge last claimed in the active graph and nobody else's. */
  lemma {:induction false} TheMemoIsTheLastClaimHere(ss: seq<State>, es: seq<Event>, k: nat)
    requires Trace(ss, es) && k < |ss|
    ensures var s := ss[k];
            if forall c :: c in s.claims ==> c.graph != s.graphs.active then s.graphs.active !in s.connection.confirmed
            else exists i :: LastIn(s.claims, s.graphs.active, i) && s.graphs.active in s.connection.confirmed
                             && s.connection.confirmed[s.graphs.active] == s.claims[i].judge.agentId
  {
    TraceKeepsInvariant(ss, es, k);
    var s := ss[k];
    hide Trace, TokensNameClaims;
    if s.graphs.active in s.connection.confirmed {
      var i :| LastIn(s.claims, s.graphs.active, i);
      assert s.claims[i] in s.claims;
    }
  }

  /** The user confirmed the judge the memo names where it names it, in every run
      in which no claim went through in another graph than it was asked in. */
  lemma {:induction false} TheMemoWasConfirmedHere(ss: seq<State>, es: seq<Event>, k: nat)
    requires Trace(ss, es) && k < |ss|
    requires forall m :: 0 <= m < k && es[m].Claimed? ==> es[m].askedIn == ss[m].graphs.active
    ensures var s := ss[k];
            s.graphs.active in s.connection.confirmed ==>
              exists i :: LastIn(s.claims, s.graphs.active, i) && s.claims[i].askedIn == s.graphs.active
                          && s.connection.confirmed[s.graphs.active] == s.claims[i].judge.agentId
  {
    TheMemoIsTheLastClaimHere(ss, es, k);
    AskedWhereTheyWent(ss, es, k);
    hide Trace;
  }

  lemma {:induction false} AskedWhereTheyWent(ss: seq<State>, es: seq<Event>, k: nat)
    requires Trace(ss, es) && k < |ss|
    requires forall m :: 0 <= m < k && es[m].Claimed? ==> es[m].askedIn == ss[m].graphs.active
    ensures forall c :: c in ss[k].claims ==> c.askedIn == c.graph
  {
    hide Compare, ApprovedJudge;
    if k > 0 {
      AskedWhereTheyWent(ss, es, k - 1);
      assert ss[k] == After(ss[k - 1], es[k - 1]);
    }
  }

  /** A claim asked about in one graph and answered after a switch is remembered
      in the other, where nobody was asked. */
  lemma {:induction false} AnAnswerIsRememberedElsewhere(g: Graphs, other: string, judge: Judge, seat: Seat, token: string)
    returns (ss: seq<State>, es: seq<Event>)
    requires !g.moving && Settled(g) && other != g.active
    ensures Trace(ss, es) && ss[0] == Start(g) && |ss| == 6
    ensures es == [MoveBegins, Repointed(other), ActiveSet, MoveEnds, Claimed(judge, seat, token, g.active)]
    ensures var s := ss[5];
            && s.graphs.active == other && other in s.connection.confirmed && s.connection.confirmed[other] == judge.agentId
            && forall c :: c in s.claims ==> c.askedIn != other
  {
    var s0 := Start(g);
    var s1 := After(s0, MoveBegins);
    var s2 := After(s1, Repointed(other));
    var s3 := After(s2, ActiveSet);
    var s4 := After(s3, MoveEnds);
    var s5 := After(s4, Claimed(judge, seat, token, g.active));
    ss, es := [s0, s1, s2, s3, s4, s5],
      [MoveBegins, Repointed(other), ActiveSet, MoveEnds, Claimed(judge, seat, token, g.active)];
  }

  /** What an approval, a revocation and a policy change of one graph, and nothing
      else. A graph with no policy of its own has the process's. */
  lemma {:induction false} OneGraphChanges(g: Graphs, graph: string, agentId: string, judgeNeeded: bool, h: string, judge: Judge)
    ensures GraphsAfter(g, Approved(graph, agentId)).Approves(h, judge)
            <==> g.Approves(h, judge) || (h == graph && judge.agentId == agentId)
    ensures GraphsAfter(g, Revoked(graph, agentId)).Approves(h, judge)
            <==> g.Approves(h, judge) && !(h == graph && judge.agentId == agentId)
    ensures GraphsAfter(g, Policy(graph, judgeNeeded)).Requires(h) == if h == graph then judgeNeeded else g.Requires(h)
    ensures g.requireJudge == map[] ==> g.Requires(h) == g.processDefault
    ensures g.approved == map[] ==> !g.Approves(h, judge)
  {}

  // --- What the gate answers ---

  /** Whatever was claimed since, a token is good for the claim that minted it
      and for nothing else. */
  lemma {:induction false} ATokenCreditsItsOwnClaim(s: State, i: nat, reading: Graphs, asking: Graphs,
                                                    expected: Option<string>, seat: Seat)
    requires TokensNameClaims(s.connection.tokens, s.claims) && i < |s.claims|
    ensures var claim := s.claims[i];
            var r := JudgeForWrite(s.graphs, reading, asking, s.connection, expected, Some(claim.token), seat);
            && (r == Ok(Some(claim.judge)) <==>
                  RightGraph(s.graphs, expected) && seat == claim.seat && reading.Approves(reading.wire, claim.judge))
            && (r.Ok? && r.value.Some? ==> r.value.value == claim.judge)
            && (r.Err? ==> r.error != UnknownToken)
  {
    assert s.connection.tokens[s.claims[i].token] == Stored(s.claims[i].judge, s.claims[i].seat);
    NothingChangedIff(s.claims[i].seat, seat);
    hide SeatChanges, TokensNameClaims;
  }

  /** A token nobody was given never gets a write through, whoever is bound. */
  lemma {:induction false} AnUnknownTokenIsRefused(s: State, token: string, reading: Graphs, asking: Graphs,
                                                   expected: Option<string>, seat: Seat)
    requires TokensNameClaims(s.connection.tokens, s.claims) && forall c :: c in s.claims ==> c.token != token
    ensures var r := JudgeForWrite(s.graphs, reading, asking, s.connection, expected, Some(token), seat);
            r == Err(if RightGraph(s.graphs, expected) then UnknownToken else WrongGraph)
  {
    assert token !in s.connection.tokens;
    hide SeatChanges;
  }

  /** What a write is let through as: under a judge the graph that answers
      approves, or under none where the graph that answers next does not ask
      for one. */
  lemma {:induction false} LetThroughIff(s: State, reading: Graphs, asking: Graphs,
                                         expected: Option<string>, token: Option<string>, seat: Seat)
    requires TokensNameClaims(s.connection.tokens, s.claims)
    ensures var r := JudgeForWrite(s.graphs, reading, asking, s.connection, expected, token, seat);
            r.Ok? <==>
              && RightGraph(s.graphs, expected)
              && (token.Some? ==> exists i :: 0 <= i < |s.claims| && s.claims[i].token == token.value)
              && var stored := if token.Some? then Some(s.connection.tokens[token.value]) else s.connection.judge;
              && (stored.Some? ==> stored.value.seat == seat)
              && (asking.Requires(asking.wire) ==> stored.Some? && reading.Approves(reading.wire, stored.value.judge))
  {
    if token.None? || token.value in s.connection.tokens {
      var stored := if token.Some? then Some(s.connection.tokens[token.value]) else s.connection.judge;
      if stored.Some? {
        NothingChangedIff(stored.value.seat, seat);
      }
    }
    hide SeatChanges;
  }

  /** And what it is refused as: first for the graph, then for a token not issued
      here, then for a seat that is no longer the judge's, naming each field that
      changed from what it was to what it is; last for want of a judge. */
  lemma {:induction false} RefusedBecause(s: State, reading: Graphs, asking: Graphs,
                                          expected: Option<string>, token: Option<string>, seat: Seat, field: Field)
    requires TokensNameClaims(s.connection.tokens, s.claims)
    ensures var r := JudgeForWrite(s.graphs, reading, asking, s.connection, expected, token, seat);
            var known := token.None? || exists i :: 0 <= i < |s.claims| && s.claims[i].token == token.value;
            && (r == Err(WrongGraph) <==> expected != Some(s.graphs.active))
            && (r == Err(UnknownToken) <==> expected == Some(s.graphs.active) && !known)
            && (expected == Some(s.graphs.active) && known ==>
                  var stored := if token.Some? then Some(s.connection.tokens[token.value]) else s.connection.judge;
                  && (r.Err? && r.error.SeatChanged? <==> stored.Some? && stored.value.seat != seat)
                  && (r.Err? && r.error.SeatChanged? ==>
                        (Change(field, Known(stored.value.seat, field), Known(seat, field)) in r.error.changes
                         <==> Known(stored.value.seat, field) != Known(seat, field)))
                  && (r == Err(JudgeRequired) ==>
                        asking.Requires(asking.wire) && (stored.Some? ==> !reading.Approves(reading.wire, stored.value.judge))))
  {
    if token.None? || token.value in s.connection.tokens {
      var stored := if token.Some? then Some(s.connection.tokens[token.value]) else s.connection.judge;
      if stored.Some? {
        NothingChangedIff(stored.value.seat, seat);
        ChangesAre(stored.value.seat, seat, field);
      }
    }
    hide SeatChanges, Known;
  }

  /** Over every run, switches overlapping anyhow: a switch clears the binding
      exactly if a judge was bound when it asked, the graph answering then approved
      it, and the graph it lands in does not; otherwise it leaves the connection
      alone. Tokens and memo stay. So a write without a token, from the seat of a
      binding the new graph approves, is credited to it exactly if nothing was
      cleared. */
  lemma {:induction false} ASwitchClearsIff(ss: seq<State>, es: seq<Event>, k: nat, asked: Asked)
    requires Trace(ss, es) && k < |es| && es[k] == SwitchChecked(asked)
    ensures asked.Read? && asked.askedAt <= asked.readAt < k
    ensures var was, read, g := ss[asked.askedAt].connection.judge, ss[asked.readAt].graphs, ss[k].graphs;
            var clears := was.Some? && read.Approves(read.wire, was.value.judge) && !g.Approves(g.active, was.value.judge);
            var held, now := ss[k].connection, ss[k + 1].connection;
            && ss[k + 1].graphs == g
            && now == (if clears then held.(judge := None) else held)
            && (held.judge.Some? && g.Approves(g.active, held.judge.value.judge) ==>
                  (JudgeForWrite(g, g, g, now, Some(g.active), None, held.judge.value.seat) == Ok(Some(held.judge.value.judge))
                   <==> !clears))
  {
    TraceKeepsRecords(ss, es, k);
    assert Possible(ss[k], es[k]) && ss[k + 1] == After(ss[k], es[k]);
    if ss[k].connection.judge.Some? {
      NothingChangedIff(ss[k].connection.judge.value.seat, ss[k].connection.judge.value.seat);
    }
    hide Trace, SeatChanges;
  }

  /** A write that names the graph that is active both when it is compared and when
      it lands, from a seat equal to that of the judge held for it, whom the graph
      answering at the reading approves, lands credited to that judge. */
  lemma {:induction false} AnApprovedWriteIsCredited(ss: seq<State>, es: seq<Event>, i: nat, j: nat, l: nat, stored: Stored,
                                                     token: Option<string>)
    requires Trace(ss, es) && i < j < l < |es|
    requires var c := ss[i].connection;
             if token.Some? then token.value in c.tokens && c.tokens[token.value] == stored else c.judge == Some(stored)
    requires ss[j].graphs.Approves(ss[j].graphs.wire, stored.judge) && ss[l].graphs.active == ss[i].graphs.active
    requires var check := Check(Some(stored), ss[i].graphs.active, token, stored.seat, i);
             && es[i] == Compared(Some(ss[i].graphs.active), token, stored.seat) && es[j] == ApprovalRead(check)
             && es[l] == Landed(LetThrough(check, Some(stored.judge), j, j))
    ensures var check := Check(Some(stored), ss[i].graphs.active, token, stored.seat, i);
            var write := LetThrough(check, Some(stored.judge), j, j);
            && check in ss[i + 1].comparing && write in ss[j + 1].checked
            && Credit(write, ss[i].graphs.active, l) in ss[l + 1].credits
  {
    var check := Check(Some(stored), ss[i].graphs.active, token, stored.seat, i);
    TraceKeepsInvariant(ss, es, j);
    TraceKeepsInvariant(ss, es, l);
    assert ss[j + 1] == After(ss[j], es[j]) && ss[l + 1] == After(ss[l], es[l]);
    AComparedWriteGoesOn(ss, es, i, token, stored.seat);
    hide Steps, Invariant, After;
    AnApprovedCheckIsLetThrough(ss[j], check, stored);
    AWriteInItsGraphIsCredited(ss[l], LetThrough(check, Some(stored.judge), j, j));
  }

  lemma {:induction false} AnApprovedCheckIsLetThrough(s: State, check: Check, stored: Stored)
    requires check.stored == Some(stored) && s.graphs.Approves(s.graphs.wire, stored.judge)
    ensures LetThrough(check, Some(stored.judge), s.clock, s.clock) in After(s, ApprovalRead(check)).checked
  {}

  lemma {:induction false} AWriteInItsGraphIsCredited(s: State, write: Write)
    requires s.graphs.active == write.expected
    ensures Credit(write, write.expected, s.clock) in After(s, Landed(write)).credits
  {}

  /** A write that names the active graph, with a token issued here or none, from
      the seat of the judge held for it if there is one, is not refused yet. */
  lemma {:induction false} AComparedWriteGoesOn(ss: seq<State>, es: seq<Event>, i: nat, token: Option<string>, seat: Seat)
    requires Trace(ss, es) && i < |es| && es[i] == Compared(Some(ss[i].graphs.active), token, seat)
    requires token.Some? ==> token.value in ss[i].connection.tokens
    ensures var c := ss[i].connection;
            var stored := if token.Some? then Some(c.tokens[token.value]) else c.judge;
            var check := Check(stored, ss[i].graphs.active, token, seat, i);
            if stored.None? then Unjudged(check, i) in ss[i + 1].asking
            else stored.value.seat == seat ==> check in ss[i + 1].comparing
  {
    TraceKeepsInvariant(ss, es, i);
    NothingChangedIff(seat, seat);
    assert ss[i + 1] == After(ss[i], es[i]);
    hide Trace, Invariant, SeatChanges;
  }

  /** And one for which the graph answering approves no judge lands credited to
      nobody, where the graph answering next asks for none; where it asks for one,
      it is let through no more. */
  lemma {:induction false} AJudgelessWriteLandsIff(ss: seq<State>, es: seq<Event>, j: nat, l: nat, check: Check)
    requires Trace(ss, es) && j < l < |es| && es[j] == ApprovalRead(check) && es[l] == PolicyRead(Unjudged(check, j))
    requires ApprovedJudge(ss[j].graphs, check.stored).None?
    ensures Unjudged(check, j) in ss[j + 1].asking && Unjudged(check, j) !in ss[l + 1].asking
    ensures LetThrough(check, None, j, l) in ss[l + 1].checked <==> !ss[l].graphs.Requires(ss[l].graphs.wire)
  {
    TraceKeepsInvariant(ss, es, j);
    TraceKeepsInvariant(ss, es, l);
    TraceKeepsRecords(ss, es, l);
    assert ss[j + 1] == After(ss[j], es[j]) && ss[l + 1] == After(ss[l], es[l]);
    hide Trace, Invariant;
  }

  /** A switch reads the binding before it takes its turn. A claim made between
      the two is cleared with it, though the new graph approves that judge, and
      its writes without a token are then credited to nobody. */
  lemma {:induction false} ASwitchCanClearANewerClaim(s: State, old_: Judge, new_: Judge, seat: Seat, one: string,
                                                      two: string, graph: string) returns (ss: seq<State>, es: seq<Event>)
    requires !s.graphs.moving && Settled(s.graphs) && one != two
    requires forall c :: c in s.claims ==> c.token != one && c.token != two
    requires s.graphs.Approves(s.graphs.active, old_) && !s.graphs.Approves(graph, old_) && s.graphs.Approves(graph, new_)
    requires !s.graphs.Requires(graph)
    ensures Steps(ss, es) && ss[0] == s && |es| == 9
    ensures es == [Claimed(old_, seat, one, s.graphs.active), SwitchAsked, SwitchRead(Reading(Stored(old_, seat), s.clock + 1)),
                   Claimed(new_, seat, two, s.graphs.active), MoveBegins, Repointed(graph), ActiveSet,
                   SwitchChecked(Read(Some(old_), s.clock + 1, s.clock + 2)), MoveEnds]
    ensures var c, g := ss[9].connection, ss[9].graphs;
            && g.active == graph && g.Approves(graph, new_) && c.judge.None?
            && JudgeForWrite(g, g, g, c, Some(graph), None, seat) == Ok(None)
            && JudgeForWrite(g, g, g, c, Some(graph), Some(two), seat) == Ok(Some(new_))
  {
    hide After, Possible, Settled;
    var reading, read := Reading(Stored(old_, seat), s.clock + 1), Read(Some(old_), s.clock + 1, s.clock + 2);
    var s1, s2, s3, s4 := ClaimedBeforeTheTurn(s, old_, new_, seat, one, two);
    var s5, s6, s7, s8, s9 := ClearedInTheTurn(s4, read, old_, graph);
    GateAfterClearing(s9.graphs, s9.connection, new_, seat, two);
    es := [Claimed(old_, seat, one, s.graphs.active), SwitchAsked, SwitchRead(reading),
           Claimed(new_, seat, two, s.graphs.active), MoveBegins, Repointed(graph), ActiveSet, SwitchChecked(read), MoveEnds];
    ss := [s, s1, s2, s3, s4, s5, s6, s7, s8, s9];
  }

  lemma {:induction false} ClaimedBeforeTheTurn(s: State, old_: Judge, new_: Judge, seat: Seat, one: string, two: string)
    returns (s1: State, s2: State, s3: State, s4: State)
    requires Settled(s.graphs) && !s.graphs.moving && one != two && forall c :: c in s.claims ==> c.token != one && c.token != two
    requires s.graphs.Approves(s.graphs.active, old_)
    ensures var reading := Reading(Stored(old_, seat), s.clock + 1);
            var asks, again := Claimed(old_, seat, one, s.graphs.active), Claimed(new_, seat, two, s.graphs.active);
            && s1 == After(s, asks) && s2 == After(s1, SwitchAsked) && s3 == After(s2, SwitchRead(reading)) && s4 == After(s3, again)
            && Possible(s, asks) && Possible(s1, SwitchAsked) && Possible(s2, SwitchRead(reading)) && Possible(s3, again)
    ensures Read(Some(old_), s.clock + 1, s.clock + 2) in s4.switching && s4.graphs == s.graphs
    ensures two in s4.connection.tokens && s4.connection.tokens[two] == Stored(new_, seat)
  {
    s1 := After(s, Claimed(old_, seat, one, s.graphs.active));
    s2 := After(s1, SwitchAsked);
    s3 := After(s2, SwitchRead(Reading(Stored(old_, seat), s.clock + 1)));
    s4 := After(s3, Claimed(new_, seat, two, s.graphs.active));
  }

  lemma {:induction false} ClearedInTheTurn(s: State, read: Asked, old_: Judge, graph: string)
    returns (one: State, two: State, three: State, four: State, five: State)
    requires !s.graphs.moving && read in s.switching && read.Read? && read.judge == Some(old_) && !s.graphs.Approves(graph, old_)
    ensures one == After(s, MoveBegins) && two == After(one, Repointed(graph)) && three == After(two, ActiveSet)
    ensures four == After(three, SwitchChecked(read)) && five == After(four, MoveEnds)
    ensures Possible(s, MoveBegins) && Possible(one, Repointed(graph)) && Possible(two, ActiveSet)
    ensures Possible(three, SwitchChecked(read)) && Possible(four, MoveEnds)
    ensures five.graphs == s.graphs.(active := graph, wire := graph) && five.connection == s.connection.(judge := None)
  {
    one := After(s, MoveBegins);
    two := After(one, Repointed(graph));
    three := After(two, ActiveSet);
    four := After(three, SwitchChecked(read));
    five := After(four, MoveEnds);
  }

  lemma {:induction false} GateAfterClearing(g: Graphs, c: Connection, judge: Judge, seat: Seat, token: string)
    requires g.wire == g.active && g.Approves(g.active, judge) && !g.Requires(g.active)
    requires c.judge.None? && token in c.tokens && c.tokens[token] == Stored(judge, seat)
    ensures JudgeForWrite(g, g, g, c, Some(g.active), None, seat) == Ok(None)
    ensures JudgeForWrite(g, g, g, c, Some(g.active), Some(token), seat) == Ok(Some(judge))
  {
    NothingChangedIff(seat, seat);
    hide SeatChanges;
  }

  // --- The connection's own dict ---

  class ConnectionState {
    var judge: Option<Stored>
    var tokens: map<string, Stored>
    var confirmed: map<string, string>

    function Held(): Connection
      reads this
    {
      Connection(judge, tokens, confirmed)
    }

    constructor ()
      ensures Held() == FRESH
    {
      judge, tokens, confirmed := None, map[], map[];
    }

    method BindJudge(bound: Option<Judge>, seat: Option<Seat>)
      modifies this
      ensures Held() == BoundJudge(old(Held()),
                                   if bound.None? then None
                                   else Some(Stored(bound.value, if seat.Some? then seat.value else NO_SEAT)))
    {
      judge := if bound.None? then None else Some(Stored(bound.value, if seat.Some? then seat.value else NO_SEAT));
    }

    method MintJudgeToken(claimed: Judge, seat: Seat, token: string)
      requires token !in tokens
      modifies this
      ensures Held() == old(Held()).(tokens := old(tokens)[token := Stored(claimed, seat)])
    {
      tokens := tokens[token := Stored(claimed, seat)];
    }

    method RememberJudgeConfirmed(graph: string, agentId: string)
      modifies this
      ensures Held() == old(Held()).(confirmed := old(confirmed)[graph := agentId])
    {
      confirmed := confirmed[graph := agentId];
    }

    /** What a claim that went through leaves behind. */
    method Claim(claimed: Judge, seat: Seat, token: string, graph: string)
      requires token !in tokens
      modifies this
      ensures Held() == WithClaim(old(Held()), graph, claimed, seat, token)
    {
      BindJudge(Some(claimed), Some(seat));
      MintJudgeToken(claimed, seat, token);
      RememberJudgeConfirmed(graph, claimed.agentId);
    }

    /** The gate every write goes through; it changes nothing. The binding and
        the tokens are read before it first waits. */
    method CheckWrite(comparing: Graphs, reading: Graphs, asking: Graphs,
                      expected: Option<string>, token: Option<string>, seat: Seat)
      returns (r: Result<Option<Judge>, Refusal>)
      ensures r == JudgeForWrite(comparing, reading, asking, Held(), expected, token, seat)
    {
      if !RightGraph(comparing, expected) {
        return Err(WrongGraph);
      }
      var stored := judge;
      if token.Some? {
        if token.value !in tokens {
          return Err(UnknownToken);
        }
        stored := Some(tokens[token.value]);
      }
      if stored.Some? {
        var changes := SeatChanges(stored.value.seat, seat);
        if changes != [] {
          return Err(SeatChanged(changes));
        }
      }
      var approved := ApprovedJudge(reading, stored);
      if approved.Some? {
        return Ok(approved);
      }
      if !asking.Requires(asking.wire) {
        return Ok(None);
      }
      r := Err(JudgeRequired);
    }
  }
}
