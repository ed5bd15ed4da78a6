/** The active-graph guard (epimemer/storage/active_graph.py) and the tool-call
    boundary that takes its turns (epimemer/mcp/server.py).

    Tasks interleave at every await. One event is one stretch of code between
    two awaits, so the guard's critical sections are atomic as they are in
    asyncio. A lock release hands the turnstile to the longest waiter. */
module ActiveGraph {
  import opened Options

  type Task = nat
  type Graph = string

  /** One `async with` block a task is inside, innermost first. */
  datatype Frame =
    | Used(gate: Option<Graph>)    // using(), registered; the graph a gated call was checked against
    | FreeUse                      // using() inside a move
    | Moved                        // moving(), holding the turnstile
    | FreeMove                     // moving() inside a move
    | NoTurn(gate: Option<Graph>)  // a call that waits on a person takes no turn

  datatype Place = Ready | AwaitsTurnToUse | AwaitsTurnToMove | AwaitsIdle | Done

  /** A task with the two context depths it was born with. */
  datatype TaskState = TaskState(at: Place, frames: seq<Frame>, bornUsing: nat, bornMoving: nat)

  datatype State = State(
    users: int,
    idle: bool,
    holder: Option<Task>,
    queue: seq<Task>,
    tasks: seq<TaskState>,
    graph: Graph)

  datatype Event =
    | EnterUsing(t: Task)
    | EnterMoving(t: Task)
    | GrantUse(t: Task)
    | GrantMove(t: Task)
    | SeeIdle(t: Task)
    | Leave(t: Task)
    | TakeNoTurn(t: Task)
    | Check(t: Task, expected: Graph)
    | Switch(t: Task, target: Graph)
    | Spawn(t: Task)
    | Finish(t: Task)

  function Uses(frames: seq<Frame>): nat {
    if frames == [] then 0 else (if frames[0].Used? then 1 else 0) + Uses(frames[1..])
  }

  function Moves(frames: seq<Frame>): nat {
    if frames == [] then 0 else (if frames[0].Moved? then 1 else 0) + Moves(frames[1..])
  }

  function UsingDepth(ts: TaskState): nat { ts.bornUsing + Uses(ts.frames) }

  function MovingDepth(ts: TaskState): nat { ts.bornMoving + Moves(ts.frames) }

  predicate TurnstileFree(s: State) { s.holder.None? && s.queue == [] }

  predicate Enabled(s: State, e: Event) {
    && e.t < |s.tasks|
    && var ts := s.tasks[e.t];
       match e
       case GrantUse(t) => s.holder.None? && s.queue != [] && s.queue[0] == t && ts.at.AwaitsTurnToUse?
       case GrantMove(t) => s.holder.None? && s.queue != [] && s.queue[0] == t && ts.at.AwaitsTurnToMove?
       case SeeIdle(t) => ts.at.AwaitsIdle? && s.holder == Some(t) && s.idle
       case Leave(_) => ts.at.Ready? && ts.frames != []
       case Finish(_) => ts.at.Ready? && ts.frames == []
       case Check(_, _) => ts.at.Ready? && ts.frames != [] && (ts.frames[0].Used? || ts.frames[0].NoTurn?)
       case Switch(_, _) => ts.at.Ready? && ts.frames != [] && (ts.frames[0].Moved? || ts.frames[0].FreeMove?)
       case _ => ts.at.Ready?
  }

  function Push(ts: TaskState, frame: Frame): TaskState {
    ts.(at := Ready, frames := [frame] + ts.frames)
  }

  /** The acting task after the event. */
  function Acted(s: State, e: Event): TaskState
    requires Enabled(s, e)
  {
    var ts := s.tasks[e.t];
    match e
    case EnterUsing(_) =>
      if MovingDepth(ts) > 0 then Push(ts, FreeUse)
      else if TurnstileFree(s) then Push(ts, Used(None))
      else ts.(at := AwaitsTurnToUse)
    case EnterMoving(_) =>
      if MovingDepth(ts) > 0 then Push(ts, FreeMove)
      else if UsingDepth(ts) > 0 then ts  // raises: waiting for itself to finish would hang
      else if TurnstileFree(s) then ts.(at := AwaitsIdle)
      else ts.(at := AwaitsTurnToMove)
    case GrantUse(_) => Push(ts, Used(None))
    case GrantMove(_) => ts.(at := AwaitsIdle)
    case SeeIdle(_) => Push(ts, Moved)
    case Leave(_) => ts.(frames := ts.frames[1..])
    case TakeNoTurn(_) => Push(ts, NoTurn(None))
    case Check(_, expected) =>
      if s.graph != expected then ts  // refused: wrong graph
      else ts.(frames := [ts.frames[0].(gate := Some(expected))] + ts.frames[1..])
    case Finish(_) => ts.(at := Done)
    case _ => ts
  }

  function After(s: State, e: Event): State
    requires Enabled(s, e)
  {
    var ts := s.tasks[e.t];
    var next := s.(tasks := s.tasks[e.t := Acted(s, e)]);
    match e
    case EnterUsing(t) =>
      if MovingDepth(ts) > 0 then next
      else if TurnstileFree(s) then next.(users := s.users + 1, idle := false)
      else next.(queue := s.queue + [t])
    case EnterMoving(t) =>
      if MovingDepth(ts) > 0 || UsingDepth(ts) > 0 then next
      else if TurnstileFree(s) then next.(holder := Some(t))
      else next.(queue := s.queue + [t])
    case GrantUse(_) => next.(users := s.users + 1, idle := false, queue := s.queue[1..])
    case GrantMove(t) => next.(holder := Some(t), queue := s.queue[1..])
    case Leave(_) =>
      if ts.frames[0].Used? then next.(users := s.users - 1, idle := s.idle || s.users - 1 == 0)
      else if ts.frames[0].Moved? then next.(holder := None)
      else next
    case Switch(_, target) => next.(graph := target)
    case Spawn(_) => next.(tasks := next.tasks + [TaskState(Ready, [], UsingDepth(ts), MovingDepth(ts))])
    case _ => next
  }

  ghost predicate Initial(s: State) {
    && s.users == 0 && s.idle && s.holder.None? && s.queue == []
    && forall t :: 0 <= t < |s.tasks| ==> s.tasks[t] == TaskState(Ready, [], 0, 0)
  }

  /** No child task outlives the move it inherited. */
  ghost predicate Structured(s: State, e: Event) {
    e.Leave? && e.t < |s.tasks| && s.tasks[e.t].frames != [] && s.tasks[e.t].frames[0].Moved? ==>
      forall c :: 0 <= c < |s.tasks| && c != e.t ==> s.tasks[c].at.Done? || s.tasks[c].bornMoving == 0
  }

  /** No task enters using() while already holding it. */
  ghost predicate Unnested(s: State, e: Event) {
    e.EnterUsing? && e.t < |s.tasks| && MovingDepth(s.tasks[e.t]) == 0 ==> UsingDepth(s.tasks[e.t]) == 0
  }

  // --- The invariant ---

  function TotalUses(tasks: seq<TaskState>): nat {
    if tasks == [] then 0 else Uses(tasks[0].frames) + TotalUses(tasks[1..])
  }

  /** Each frame was entered in a context that allowed it. */
  ghost predicate Stacked(frames: seq<Frame>, bornMoving: nat) {
    frames == [] ||
    (&& Stacked(frames[1..], bornMoving)
     && (frames[0].Used? || frames[0].Moved? ==> bornMoving + Moves(frames[1..]) == 0)
     && (frames[0].Moved? ==> Uses(frames[1..]) == 0)
     && (frames[0].FreeUse? || frames[0].FreeMove? ==> bornMoving + Moves(frames[1..]) > 0))
  }

  predicate Waits(ts: TaskState) { ts.at.AwaitsTurnToUse? || ts.at.AwaitsTurnToMove? }

  ghost predicate TaskOk(ts: TaskState) {
    && Stacked(ts.frames, ts.bornMoving)
    && (ts.at.Done? ==> ts.frames == [])
    && (Waits(ts) || ts.at.AwaitsIdle? ==> MovingDepth(ts) == 0)
    && (ts.at.AwaitsTurnToMove? || ts.at.AwaitsIdle? ==> UsingDepth(ts) == 0)
  }

  ghost predicate CountsOk(s: State) {
    s.users == TotalUses(s.tasks) && (s.idle <==> s.users == 0)
  }

  ghost predicate QueueOk(s: State) {
    && (forall i, j :: 0 <= i < j < |s.queue| ==> s.queue[i] != s.queue[j])
    && (forall t: Task :: t in s.queue <==> t < |s.tasks| && Waits(s.tasks[t]))
  }

  predicate MoverBody(s: State, t: Task) { t < |s.tasks| && Moves(s.tasks[t].frames) > 0 }

  /** The turnstile is held by the one mover there is, waiting or inside. */
  ghost predicate HolderOk(s: State) {
    && (s.holder.Some? ==>
          && s.holder.value < |s.tasks|
          && (s.tasks[s.holder.value].at.AwaitsIdle? || MoverBody(s, s.holder.value)))
    && (forall t :: 0 <= t < |s.tasks| && (s.tasks[t].at.AwaitsIdle? || MoverBody(s, t)) ==> s.holder == Some(t))
    && (s.holder.Some? && MoverBody(s, s.holder.value) ==> s.users == 0)
  }

  /** Whoever counts itself inside a move is inside the move there is. */
  ghost predicate MovesAreLive(s: State) {
    forall t :: 0 <= t < |s.tasks| && !s.tasks[t].at.Done? && MovingDepth(s.tasks[t]) > 0 ==>
      s.holder.Some? && MoverBody(s, s.holder.value)
  }

  ghost predicate GatesHold(s: State) {
    forall t, f :: 0 <= t < |s.tasks| && f in s.tasks[t].frames && f.Used? && f.gate.Some? ==> f.gate.value == s.graph
  }

  ghost predicate Invariant(s: State) {
    && CountsOk(s) && QueueOk(s) && HolderOk(s) && MovesAreLive(s) && GatesHold(s)
    && forall t :: 0 <= t < |s.tasks| ==> TaskOk(s.tasks[t])
  }

  lemma {:induction false} TotalUsesUpdate(tasks: seq<TaskState>, t: Task, ts: TaskState)
    requires t < |tasks|
    ensures TotalUses(tasks[t := ts]) == TotalUses(tasks) - Uses(tasks[t].frames) + Uses(ts.frames)
    ensures Uses(tasks[t].frames) <= TotalUses(tasks)
  {
    if t == 0 {
      assert tasks[t := ts][1..] == tasks[1..];
    } else {
      TotalUsesUpdate(tasks[1..], t - 1, ts);
      assert tasks[t := ts][1..] == tasks[1..][t - 1 := ts];
    }
  }

  lemma {:induction false} TotalUsesAppend(tasks: seq<TaskState>, ts: TaskState)
    ensures TotalUses(tasks + [ts]) == TotalUses(tasks) + Uses(ts.frames)
  {
    if tasks == [] {
      assert tasks + [ts] == [ts];
    } else {
      TotalUsesAppend(tasks[1..], ts);
      assert (tasks + [ts])[1..] == tasks[1..] + [ts];
    }
  }

  lemma {:induction false} InitiallyNobody(tasks: seq<TaskState>)
    requires forall t :: 0 <= t < |tasks| ==> tasks[t].frames == []
    ensures TotalUses(tasks) == 0
  {
    if tasks != [] {
      InitiallyNobody(tasks[1..]);
    }
  }

  lemma {:induction false} SomeoneUses(tasks: seq<TaskState>) returns (t: Task)
    requires TotalUses(tasks) > 0
    ensures t < |tasks| && Uses(tasks[t].frames) > 0
  {
    if Uses(tasks[0].frames) > 0 {
      t := 0;
    } else {
      var u := SomeoneUses(tasks[1..]);
      t := u + 1;
    }
  }

  lemma {:induction false} MembersCount(frames: seq<Frame>, f: Frame)
    requires f in frames
    ensures f.Used? ==> Uses(frames) > 0
    ensures f.Moved? ==> Moves(frames) > 0
  {
    if f != frames[0] {
      MembersCount(frames[1..], f);
    }
  }

  lemma {:induction false} FreeFramesNeedAMove(frames: seq<Frame>, bornMoving: nat, f: Frame)
    requires Stacked(frames, bornMoving) && f in frames && (f.FreeUse? || f.FreeMove?)
    ensures bornMoving + Moves(frames) > 0
  {
    if f != frames[0] {
      FreeFramesNeedAMove(frames[1..], bornMoving, f);
    }
  }

  lemma {:induction false} NobodyUses(s: State, t: Task)
    requires CountsOk(s) && s.users == 0 && t < |s.tasks|
    ensures Uses(s.tasks[t].frames) == 0
    ensures forall f :: f in s.tasks[t].frames ==> !f.Used?
  {
    TotalUsesUpdate(s.tasks, t, s.tasks[t]);
    forall f | f in s.tasks[t].frames ensures !f.Used? {
      MembersCount(s.tasks[t].frames, f);
    }
  }

  lemma {:induction false} ActedUses(s: State, e: Event)
    requires Enabled(s, e)
    ensures Uses(Acted(s, e).frames) - Uses(s.tasks[e.t].frames) == After(s, e).users - s.users
    ensures After(s, e).users > s.users ==> !After(s, e).idle
    ensures After(s, e).users == s.users ==> After(s, e).idle == s.idle
    ensures After(s, e).users < s.users ==> After(s, e).idle == (s.idle || After(s, e).users == 0)
  {}

  lemma {:induction false} CountsKept(s: State, e: Event)
    requires CountsOk(s) && Enabled(s, e)
    ensures CountsOk(After(s, e))
  {
    hide Acted, Uses, Moves, TotalUses;
    var s' := After(s, e);
    ActedUses(s, e);
    TotalUsesUpdate(s.tasks, e.t, Acted(s, e));
    if e.Spawn? {
      NobodyIn(s'.tasks[|s.tasks|]);
      TotalUsesAppend(s.tasks[e.t := Acted(s, e)], s'.tasks[|s.tasks|]);
    }
  }

  lemma {:induction false} NobodyIn(ts: TaskState)
    requires ts.frames == []
    ensures Uses(ts.frames) == 0
  {}

  lemma {:induction false} PushStacks(ts: TaskState, frame: Frame)
    requires Stacked(ts.frames, ts.bornMoving)
    requires (frame.Used? || frame.Moved? ==> MovingDepth(ts) == 0) && (frame.Moved? ==> UsingDepth(ts) == 0)
    requires frame.FreeUse? || frame.FreeMove? ==> MovingDepth(ts) > 0
    ensures Stacked(Push(ts, frame).frames, ts.bornMoving)
  {}

  lemma {:induction false} ActedIsOk(s: State, e: Event)
    requires Enabled(s, e) && TaskOk(s.tasks[e.t])
    ensures TaskOk(Acted(s, e))
  {
    var ts := s.tasks[e.t];
    if e.EnterUsing? {
      PushStacks(ts, if MovingDepth(ts) > 0 then FreeUse else Used(None));
    } else if e.EnterMoving? && MovingDepth(ts) > 0 {
      PushStacks(ts, FreeMove);
    } else if e.GrantUse? {
      PushStacks(ts, Used(None));
    } else if e.SeeIdle? {
      PushStacks(ts, Moved);
    } else if e.TakeNoTurn? {
      PushStacks(ts, NoTurn(None));
    }
    hide Uses, Moves;
  }

  /** Only the acting task changes; a task it spawns starts with no frames. */
  ghost predicate OnlyActs(s: State, s': State, t: Task) {
    && t < |s.tasks| <= |s'.tasks|
    && (forall u :: 0 <= u < |s.tasks| && u != t ==> s'.tasks[u] == s.tasks[u])
    && (forall u :: |s.tasks| <= u < |s'.tasks| ==> s'.tasks[u].at.Ready? && s'.tasks[u].frames == [])
  }

  lemma {:induction false} QueueOfUpdate(s: State, s': State, t: Task)
    requires QueueOk(s) && OnlyActs(s, s', t)
    requires
      || (s'.queue == s.queue && (Waits(s'.tasks[t]) <==> Waits(s.tasks[t])))
      || (s.queue == [t] + s'.queue && !Waits(s'.tasks[t]))
      || (s'.queue == s.queue + [t] && !Waits(s.tasks[t]) && Waits(s'.tasks[t]))
    ensures QueueOk(s')
  {
    if s'.queue == s.queue + [t] {
      assert t !in s.queue;
    } else if s'.queue != s.queue {
      assert s.queue[0] == t;
      forall i | 0 <= i < |s'.queue| ensures s'.queue[i] == s.queue[i + 1] && s'.queue[i] != t {
        assert s.queue[0] != s.queue[i + 1];
      }
      assert forall u: Task :: u in [t] + s'.queue <==> u == t || u in s'.queue;
    }
  }

  lemma {:induction false} QueueKept(s: State, e: Event)
    requires QueueOk(s) && Enabled(s, e)
    ensures QueueOk(After(s, e))
  {
    hide QueueOk, Uses, Moves;
    var s' := After(s, e);
    if e.GrantUse? || e.GrantMove? {
      assert s.queue == [e.t] + s'.queue;
    }
    QueueOfUpdate(s, s', e.t);
  }

  /** What an event does to the turnstile. */
  datatype Turn = Takes | Enters | Releases | Keeps

  function TurnOf(s: State, e: Event): Turn
    requires Enabled(s, e)
  {
    var ts := s.tasks[e.t];
    if e.GrantMove? || (e.EnterMoving? && MovingDepth(ts) == 0 && UsingDepth(ts) == 0 && TurnstileFree(s)) then Takes
    else if e.SeeIdle? then Enters
    else if e.Leave? && ts.frames[0].Moved? then Releases
    else Keeps
  }

  lemma {:induction false} ActsAlone(s: State, e: Event)
    requires Enabled(s, e)
    ensures OnlyActs(s, After(s, e), e.t)
    ensures After(s, e).tasks[e.t] == Acted(s, e)
    ensures After(s, e).holder == (match TurnOf(s, e) case Takes => Some(e.t) case Releases => None case _ => s.holder)
  {}

  lemma {:induction false} ActedTurn(s: State, e: Event)
    requires Enabled(s, e) && TaskOk(s.tasks[e.t])
    ensures TurnOf(s, e).Takes? ==> s.holder.None?
    ensures TurnOf(s, e).Enters? ==> s.holder == Some(e.t) && s.idle
    ensures Acted(s, e).at.AwaitsIdle? <==> TurnOf(s, e).Takes? || (s.tasks[e.t].at.AwaitsIdle? && !TurnOf(s, e).Enters?)
    ensures Moves(Acted(s, e).frames)
            == Moves(s.tasks[e.t].frames) + (match TurnOf(s, e) case Enters => 1 case Releases => -1 case _ => 0)
    ensures TurnOf(s, e).Releases? ==> Moves(Acted(s, e).frames) == 0 && Acted(s, e).bornMoving == 0 && !Acted(s, e).at.AwaitsIdle?
  {}

  lemma {:induction false} TurnTaken(s: State, e: Event)
    requires Enabled(s, e) && TaskOk(s.tasks[e.t])
    ensures OnlyActs(s, After(s, e), e.t)
    ensures After(s, e).tasks[e.t] == Acted(s, e)
    ensures After(s, e).holder == (match TurnOf(s, e) case Takes => Some(e.t) case Releases => None case _ => s.holder)
    ensures TurnOf(s, e).Takes? ==> s.holder.None?
    ensures TurnOf(s, e).Enters? ==> s.holder == Some(e.t) && s.idle
    ensures Acted(s, e).at.AwaitsIdle? <==> TurnOf(s, e).Takes? || (s.tasks[e.t].at.AwaitsIdle? && !TurnOf(s, e).Enters?)
    ensures Moves(Acted(s, e).frames)
            == Moves(s.tasks[e.t].frames) + (match TurnOf(s, e) case Enters => 1 case Releases => -1 case _ => 0)
    ensures TurnOf(s, e).Releases? ==> Moves(Acted(s, e).frames) == 0 && Acted(s, e).bornMoving == 0 && !Acted(s, e).at.AwaitsIdle?
  {
    hide After, Acted, TurnOf, TaskOk, Moves;
    ActsAlone(s, e);
    ActedTurn(s, e);
  }

  lemma {:induction false} HolderOfUpdate(s: State, s': State, t: Task, turn: Turn)
    requires HolderOk(s) && OnlyActs(s, s', t)
    requires s'.holder == (match turn case Takes => Some(t) case Releases => None case _ => s.holder)
    requires turn.Takes? ==> s.holder.None?
    requires turn.Enters? ==> s.holder == Some(t) && s.users == 0
    requires s'.tasks[t].at.AwaitsIdle? <==> turn.Takes? || (s.tasks[t].at.AwaitsIdle? && !turn.Enters?)
    requires Moves(s'.tasks[t].frames)
             == Moves(s.tasks[t].frames) + (match turn case Enters => 1 case Releases => -1 case _ => 0)
    requires turn.Releases? ==> Moves(s'.tasks[t].frames) == 0 && !s'.tasks[t].at.AwaitsIdle?
    requires (s.holder.Some? && s.users == 0 && MoverBody(s, s.holder.value)) || turn.Enters? ==> s'.users == 0
    ensures HolderOk(s')
  {}

  lemma {:induction false} NobodyRegisters(s: State, e: Event)
    requires CountsOk(s) && Enabled(s, e)
    requires s.users == 0 && s.holder.Some?
    ensures After(s, e).users == 0
  {
    NobodyUses(s, e.t);
  }

  lemma {:induction false} HolderKept(s: State, e: Event)
    requires HolderOk(s) && CountsOk(s) && Enabled(s, e) && TaskOk(s.tasks[e.t])
    ensures HolderOk(After(s, e))
  {
    hide After, Acted, TurnOf, TaskOk, Moves;
    TurnTaken(s, e);
    if s.users == 0 && s.holder.Some? {
      NobodyRegisters(s, e);
    }
    HolderOfUpdate(s, After(s, e), e.t, TurnOf(s, e));
  }

  lemma {:induction false} MovesKept(s: State, e: Event)
    requires HolderOk(s) && MovesAreLive(s) && Enabled(s, e) && TaskOk(s.tasks[e.t]) && Structured(s, e)
    ensures MovesAreLive(After(s, e))
  {
    hide Acted, Moves, Uses, TaskOk;
    var s' := After(s, e);
    TurnTaken(s, e);
    SpawnInherits(s, e);
    forall t | 0 <= t < |s'.tasks| && !s'.tasks[t].at.Done? && MovingDepth(s'.tasks[t]) > 0
      ensures s'.holder.Some? && MoverBody(s', s'.holder.value)
    {
      var u := if t < |s.tasks| then t else e.t;
      assert s'.tasks[u] == if u == e.t then Acted(s, e) else s.tasks[u];
      assert TurnOf(s, e).Enters? || (!s.tasks[u].at.Done? && MovingDepth(s.tasks[u]) > 0);
      assert MoverBody(s, u) ==> s.holder == Some(u);
      assert MoverBody(s, e.t) ==> s.holder == Some(e.t);
    }
  }

  lemma {:induction false} SpawnInherits(s: State, e: Event)
    requires Enabled(s, e)
    ensures forall c :: |s.tasks| <= c < |After(s, e).tasks| ==> MovingDepth(After(s, e).tasks[c]) == MovingDepth(s.tasks[e.t])
    ensures Acted(s, e).bornMoving == s.tasks[e.t].bornMoving && !s.tasks[e.t].at.Done?
  {}

  lemma {:induction false} GatesKept(s: State, e: Event)
    requires GatesHold(s) && HolderOk(s) && CountsOk(s) && MovesAreLive(s) && Enabled(s, e) && TaskOk(s.tasks[e.t])
    ensures GatesHold(After(s, e))
  {
    hide Moves, Uses;
    var s', ts := After(s, e), s.tasks[e.t];
    if e.Switch? {
      if ts.frames[0].FreeMove? {
        FreeFramesNeedAMove(ts.frames, ts.bornMoving, ts.frames[0]);
      }
      assert MovingDepth(ts) > 0 by {
        MembersCount(ts.frames, ts.frames[0]);
      }
      forall t, f | 0 <= t < |s.tasks| && f in s.tasks[t].frames ensures !f.Used? {
        NobodyUses(s, t);
      }
    }
  }

  lemma {:induction false} TasksKept(s: State, e: Event)
    requires Enabled(s, e) && forall t :: 0 <= t < |s.tasks| ==> TaskOk(s.tasks[t])
    ensures forall t :: 0 <= t < |After(s, e).tasks| ==> TaskOk(After(s, e).tasks[t])
  {
    hide After, Acted, TurnOf;
    assert TaskOk(s.tasks[e.t]);
    ActedIsOk(s, e);
    TurnTaken(s, e);
  }

  /** Every step of a structured run keeps the invariant. */
  lemma {:induction false} StepKeepsInvariant(s: State, e: Event)
    requires Invariant(s) && Enabled(s, e) && Structured(s, e)
    ensures Invariant(After(s, e))
  {
    hide After, Acted, CountsOk, QueueOk, HolderOk, MovesAreLive, GatesHold, TaskOk;
    assert TaskOk(s.tasks[e.t]);
    CountsKept(s, e);
    QueueKept(s, e);
    HolderKept(s, e);
    MovesKept(s, e);
    GatesKept(s, e);
    TasksKept(s, e);
  }

  // --- Runs and safety ---

  ghost predicate Steps(ss: seq<State>, es: seq<Event>) {
    && |ss| == |es| + 1
    && forall i :: 0 <= i < |es| ==> Enabled(ss[i], es[i]) && ss[i + 1] == After(ss[i], es[i])
  }

  ghost predicate Run(ss: seq<State>, es: seq<Event>) {
    Steps(ss, es) && Initial(ss[0])
  }

  ghost predicate StructuredRun(ss: seq<State>, es: seq<Event>) {
    Run(ss, es) && forall i :: 0 <= i < |es| ==> Structured(ss[i], es[i])
  }

  lemma {:induction false} RunsKeepTheInvariant(ss: seq<State>, es: seq<Event>, k: nat)
    requires StructuredRun(ss, es) && k < |ss|
    ensures Invariant(ss[k])
  {
    if k == 0 {
      InitiallyNobody(ss[0].tasks);
    } else {
      RunsKeepTheInvariant(ss, es, k - 1);
      assert Enabled(ss[k - 1], es[k - 1]) && Structured(ss[k - 1], es[k - 1]);
      StepKeepsInvariant(ss[k - 1], es[k - 1]);
    }
  }

  /** In every state of every structured run: the counter counts the registered
      turns, the event is set exactly when there is none, and inside a move
      there is no user and no other mover. Whoever is inside using() for free
      is the mover or a task born inside a move. */
  lemma {:induction false} MoversExcludeEveryone(ss: seq<State>, es: seq<Event>, k: nat, m: Task)
    requires StructuredRun(ss, es) && k < |ss|
    ensures ss[k].users == TotalUses(ss[k].tasks) && (ss[k].idle <==> ss[k].users == 0)
    ensures MoverBody(ss[k], m) ==>
              && ss[k].users == 0
              && forall t, f :: 0 <= t < |ss[k].tasks| && f in ss[k].tasks[t].frames ==>
                                  && !f.Used?
                                  && (f.Moved? ==> t == m)
                                  && (f.FreeUse? || f.FreeMove? ==> t == m || ss[k].tasks[t].bornMoving > 0)
  {
    var s := ss[k];
    RunsKeepTheInvariant(ss, es, k);
    if MoverBody(s, m) {
      forall t, f | 0 <= t < |s.tasks| && f in s.tasks[t].frames
        ensures !f.Used? && (f.Moved? ==> t == m) && (f.FreeUse? || f.FreeMove? ==> t == m || s.tasks[t].bornMoving > 0)
      {
        NobodyUses(s, t);
        MembersCount(s.tasks[t].frames, f);
        assert TaskOk(s.tasks[t]);
        assert MoverBody(s, t) ==> s.holder == Some(t);
        if f.FreeUse? || f.FreeMove? {
          FreeFramesNeedAMove(s.tasks[t].frames, s.tasks[t].bornMoving, f);
        }
      }
    }
  }

  /** A call that passed the wrong-graph gate inside its turn is in that graph
      until it leaves the turn. */
  lemma {:induction false} GatedCallsStayInTheirGraph(ss: seq<State>, es: seq<Event>, k: nat, t: Task, expected: Graph)
    requires StructuredRun(ss, es) && k < |ss| && t < |ss[k].tasks|
    ensures Used(Some(expected)) in ss[k].tasks[t].frames ==> ss[k].graph == expected
    ensures k < |es| && es[k] == Check(t, expected) && ss[k].tasks[t].frames[0].Used? ==>
              (ss[k + 1].tasks[t].frames[0] == Used(Some(expected)) <==> ss[k].graph == expected)
    ensures k < |es| && es[k] != Leave(t) && !es[k].Check? ==>
              forall f :: f in ss[k].tasks[t].frames ==> f in ss[k + 1].tasks[t].frames
  {
    RunsKeepTheInvariant(ss, es, k);
    hide Moves, Uses, Acted, After, TaskOk;
    if k < |es| {
      assert Enabled(ss[k], es[k]) && ss[k + 1] == After(ss[k], es[k]);
      hide Enabled;
      CheckingGates(ss[k], es[k], t, expected);
      if es[k] != Leave(t) && !es[k].Check? {
        FramesStay(ss[k], es[k], t);
      }
    }
  }

  lemma {:induction false} CheckingGates(s: State, e: Event, t: Task, expected: Graph)
    requires GatesHold(s) && Enabled(s, e)
    ensures e == Check(t, expected) && s.tasks[t].frames[0].Used? ==>
              && After(s, e).tasks[t].frames != []
              && (After(s, e).tasks[t].frames[0] == Used(Some(expected)) <==> s.graph == expected)
  {
    if e == Check(t, expected) && s.graph != expected {
      assert s.tasks[t].frames[0] in s.tasks[t].frames;
    }
  }

  lemma {:induction false} FramesStay(s: State, e: Event, t: Task)
    requires Enabled(s, e) && t < |s.tasks| && e != Leave(t) && !e.Check?
    ensures t < |After(s, e).tasks| && forall f :: f in s.tasks[t].frames ==> f in After(s, e).tasks[t].frames
  {
    hide Moves, Uses;
  }

  // --- Blocks inside blocks ---

  /** Inside a move both managers let their caller in at once, and leaving the
      inner block gives back the very state it was entered in. */
  lemma {:induction false} ReenteringIsFree(s: State, t: Task)
    requires t < |s.tasks| && s.tasks[t].at.Ready? && MovingDepth(s.tasks[t]) > 0
    ensures forall e :: e in {EnterUsing(t), EnterMoving(t)} ==>
              && Enabled(s, e) && After(s, e).tasks[t].at.Ready?
              && Enabled(After(s, e), Leave(t)) && After(After(s, e), Leave(t)) == s
  {
    EnteredAndLeft(s, EnterUsing(t), FreeUse);
    EnteredAndLeft(s, EnterMoving(t), FreeMove);
  }

  lemma {:induction false} EnteredAndLeft(s: State, e: Event, frame: Frame)
    requires Enabled(s, e) && s.tasks[e.t].at.Ready? && !frame.Used? && !frame.Moved?
    requires After(s, e) == s.(tasks := s.tasks[e.t := Push(s.tasks[e.t], frame)])
    ensures Enabled(After(s, e), Leave(e.t)) && After(After(s, e), Leave(e.t)) == s
  {
    var ts := s.tasks[e.t];
    assert Push(ts, frame).frames[1..] == ts.frames;
    assert s.tasks[e.t := Push(ts, frame)][e.t := ts] == s.tasks;
  }

  /** A turn taken and given back with nobody in the way leaves the guard as it was. */
  lemma {:induction false} TurnsAreGivenBack(s: State, t: Task)
    requires t < |s.tasks| && s.tasks[t].at.Ready? && MovingDepth(s.tasks[t]) == 0
    requires TurnstileFree(s) && (s.idle <==> s.users == 0) && s.users >= 0
    ensures After(After(s, EnterUsing(t)), Leave(t)) == s
    ensures s.idle && UsingDepth(s.tasks[t]) == 0 ==> After(After(After(s, EnterMoving(t)), SeeIdle(t)), Leave(t)) == s
    ensures After(After(s, TakeNoTurn(t)), Leave(t)) == s
  {
    var ts := s.tasks[t];
    hide Uses, Moves;
    EnteredAndLeft(s, TakeNoTurn(t), NoTurn(None));
    forall frame: Frame ensures Push(ts, frame).frames[1..] == ts.frames {}
    assert s.tasks[t := Push(ts, Used(None))][t := ts] == s.tasks;
    if s.idle && UsingDepth(ts) == 0 {
      AMoveIsGivenBack(s, t);
    }
  }

  lemma {:induction false} AMoveIsGivenBack(s: State, t: Task)
    requires t < |s.tasks| && s.tasks[t].at.Ready? && MovingDepth(s.tasks[t]) == 0 && UsingDepth(s.tasks[t]) == 0
    requires TurnstileFree(s) && s.idle
    ensures After(After(After(s, EnterMoving(t)), SeeIdle(t)), Leave(t)) == s
  {
    hide Uses, Moves;
    var ts := s.tasks[t];
    var s1 := s.(holder := Some(t), tasks := s.tasks[t := ts.(at := AwaitsIdle)]);
    assert s1 == After(s, EnterMoving(t));
    var s2 := s1.(tasks := s1.tasks[t := Push(s1.tasks[t], Moved)]);
    assert s2 == After(s1, SeeIdle(t));
    assert s2.tasks[t].frames[1..] == ts.frames;
    assert s2.tasks[t := ts] == s.tasks;
  }

  /** A child counts itself inside whatever its parent is inside: moving() raises
      in it exactly where it would in the parent, and lets it in at once exactly
      where the parent is inside a move. */
  lemma {:induction false} ChildrenInherit(s: State, t: Task)
    requires t < |s.tasks| && s.tasks[t].at.Ready?
    ensures var child, parent, s1 := |s.tasks|, s.tasks[t], After(s, Spawn(t));
            && child < |s1.tasks| && Enabled(s1, EnterMoving(child))
            && var s2 := After(s1, EnterMoving(child));
               && (s2 == s1 <==> MovingDepth(parent) == 0 && UsingDepth(parent) > 0)
               && (s2.tasks[child].frames != [] <==> MovingDepth(parent) > 0)
  {
    hide Moves, Uses;
    NoFramesNoTurns();
    var child, s1 := |s.tasks|, After(s, Spawn(t));
    assert s1.tasks[child] == TaskState(Ready, [], UsingDepth(s.tasks[t]), MovingDepth(s.tasks[t]));
    assert s1.tasks[child := s1.tasks[child]] == s1.tasks;
  }

  lemma {:induction false} NoFramesNoTurns()
    ensures Uses([]) == 0 && Moves([]) == 0
  {}

  datatype Block = UseBlock | MoveBlock | NoTurnBlock

  /** The block an event opens for its task. */
  function Opens(s: State, e: Event): Option<Block>
    requires Enabled(s, e)
  {
    match e
    case EnterUsing(t) => if MovingDepth(s.tasks[t]) > 0 || TurnstileFree(s) then Some(UseBlock) else None
    case EnterMoving(t) => if MovingDepth(s.tasks[t]) > 0 then Some(MoveBlock) else None
    case GrantUse(_) => Some(UseBlock)
    case SeeIdle(_) => Some(MoveBlock)
    case TakeNoTurn(_) => Some(NoTurnBlock)
    case _ => None
  }

  /** The blocks the task is inside after `k` events, innermost first. */
  ghost function OpenBlocks(ss: seq<State>, es: seq<Event>, k: nat, t: Task): seq<Block>
    requires Steps(ss, es) && k <= |es|
  {
    if k == 0 then []
    else
      var before := OpenBlocks(ss, es, k - 1, t);
      if es[k - 1].t != t || !Enabled(ss[k - 1], es[k - 1]) then before
      else if es[k - 1].Leave? then (if before == [] then [] else before[1..])
      else match Opens(ss[k - 1], es[k - 1]) case Some(block) => [block] + before case None => before
  }

  function BlockOf(frame: Frame): Block {
    match frame
    case Used(_) | FreeUse => UseBlock
    case Moved | FreeMove => MoveBlock
    case NoTurn(_) => NoTurnBlock
  }

  predicate SameBlocks(frames: seq<Frame>, blocks: seq<Block>) {
    |frames| == |blocks| && forall i :: 0 <= i < |frames| ==> BlockOf(frames[i]) == blocks[i]
  }

  /** A task's frames are the blocks it opened and has not left. */
  lemma {:induction false} FramesAreTheOpenBlocks(ss: seq<State>, es: seq<Event>, k: nat, t: Task)
    requires Run(ss, es) && k < |ss|
    ensures if t < |ss[k].tasks| then SameBlocks(ss[k].tasks[t].frames, OpenBlocks(ss, es, k, t))
            else OpenBlocks(ss, es, k, t) == []
  {
    if k > 0 {
      FramesAreTheOpenBlocks(ss, es, k - 1, t);
      assert Enabled(ss[k - 1], es[k - 1]) && ss[k] == After(ss[k - 1], es[k - 1]);
      var before := OpenBlocks(ss, es, k - 1, t);
      hide Uses, Moves, Steps;
      if t == es[k - 1].t {
        ABlockIsAFrame(ss[k - 1], es[k - 1], before);
      } else {
        OthersBlocks(ss[k - 1], es[k - 1], t);
      }
    }
  }

  lemma {:induction false} OthersBlocks(s: State, e: Event, t: Task)
    requires Enabled(s, e) && t != e.t
    ensures |s.tasks| <= |After(s, e).tasks|
    ensures t < |s.tasks| ==> After(s, e).tasks[t] == s.tasks[t]
    ensures |s.tasks| <= t < |After(s, e).tasks| ==> After(s, e).tasks[t].frames == []
  {
    hide Uses, Moves;
  }

  lemma {:induction false} ABlockIsAFrame(s: State, e: Event, blocks: seq<Block>)
    requires Enabled(s, e) && SameBlocks(s.tasks[e.t].frames, blocks)
    ensures e.t < |After(s, e).tasks|
    ensures SameBlocks(After(s, e).tasks[e.t].frames,
                       if e.Leave? then (if blocks == [] then [] else blocks[1..])
                       else match Opens(s, e) case Some(block) => [block] + blocks case None => blocks)
  {
    hide Uses, Moves, After, SameBlocks, Acted, Opens;
    ActsAlone(s, e);
    ActedBlocks(s, e, blocks);
  }

  lemma {:induction false} ActedBlocks(s: State, e: Event, blocks: seq<Block>)
    requires Enabled(s, e) && SameBlocks(s.tasks[e.t].frames, blocks)
    ensures SameBlocks(Acted(s, e).frames,
                       if e.Leave? then (if blocks == [] then [] else blocks[1..])
                       else match Opens(s, e) case Some(block) => [block] + blocks case None => blocks)
  {
    hide Uses, Moves;
  }

  /** A task born outside any move holds the turnstile as long as it is inside any
      moving() block, and gives it back exactly when it leaves the outermost. */
  lemma {:induction false} HeldUntilTheOutermost(ss: seq<State>, es: seq<Event>, k: nat, t: Task)
    requires StructuredRun(ss, es) && k < |ss| && t < |ss[k].tasks| && ss[k].tasks[t].bornMoving == 0
    ensures MoveBlock in OpenBlocks(ss, es, k, t) ==> ss[k].holder == Some(t)
    ensures k < |es| && MoveBlock in OpenBlocks(ss, es, k, t) ==>
              (ss[k + 1].holder != Some(t) <==> es[k] == Leave(t) && MoveBlock !in OpenBlocks(ss, es, k + 1, t))
  {
    RunsKeepTheInvariant(ss, es, k);
    FramesAreTheOpenBlocks(ss, es, k, t);
    assert TaskOk(ss[k].tasks[t]);
    InsideMeansAMoved(ss[k].tasks[t], OpenBlocks(ss, es, k, t));
    if k < |es| && MoveBlock in OpenBlocks(ss, es, k, t) {
      RunsKeepTheInvariant(ss, es, k + 1);
      FramesAreTheOpenBlocks(ss, es, k + 1, t);
      assert Enabled(ss[k], es[k]) && ss[k + 1] == After(ss[k], es[k]);
      assert TaskOk(ss[k + 1].tasks[t]) && ss[k + 1].tasks[t].bornMoving == 0 by {
        assert t < |ss[k + 1].tasks|;
      }
      InsideMeansAMoved(ss[k + 1].tasks[t], OpenBlocks(ss, es, k + 1, t));
      OnlyLeavingReleases(ss[k], es[k], t);
    }
  }

  lemma {:induction false} InsideMeansAMoved(ts: TaskState, blocks: seq<Block>)
    requires TaskOk(ts) && ts.bornMoving == 0 && SameBlocks(ts.frames, blocks)
    ensures MoveBlock in blocks <==> Moves(ts.frames) > 0
  {
    if MoveBlock in blocks {
      var i :| 0 <= i < |blocks| && blocks[i] == MoveBlock;
      assert ts.frames[i] in ts.frames;
      MembersCount(ts.frames, ts.frames[i]);
      if ts.frames[i].FreeMove? {
        FreeFramesNeedAMove(ts.frames, ts.bornMoving, ts.frames[i]);
      }
    }
    if Moves(ts.frames) > 0 {
      var i := AMovedFrame(ts.frames);
      assert blocks[i] == MoveBlock;
    }
  }

  lemma {:induction false} AMovedFrame(frames: seq<Frame>) returns (i: nat)
    requires Moves(frames) > 0
    ensures i < |frames| && frames[i].Moved?
  {
    if frames[0].Moved? {
      i := 0;
    } else {
      i := AMovedFrame(frames[1..]);
      i := i + 1;
    }
  }

  lemma {:induction false} OnlyLeavingReleases(s: State, e: Event, t: Task)
    requires Enabled(s, e) && s.holder == Some(t) && TaskOk(s.tasks[e.t]) && HolderOk(s)
    ensures After(s, e).holder != Some(t) ==> e == Leave(t)
  {
    TurnTaken(s, e);
    if TurnOf(s, e).Releases? {
      MembersCount(s.tasks[e.t].frames, s.tasks[e.t].frames[0]);
      assert MoverBody(s, e.t);
    }
  }

  // --- What each rule is for ---

  function Fresh(): TaskState { TaskState(Ready, [], 0, 0) }

  /** A child can outlive the move it was born in: the run leaves it counting
      itself inside a move that is over. */
  lemma {:induction false} OrphansAreReachable(s0: State) returns (ss: seq<State>, es: seq<Event>)
    requires s0 == State(0, true, None, [], [Fresh(), Fresh()], "here")
    ensures Run(ss, es) && ss[0] == s0 && es == [EnterMoving(0), SeeIdle(0), Spawn(0), Leave(0)]
    ensures ss[4] == s0.(tasks := [Fresh(), Fresh(), TaskState(Ready, [], 0, 1)])
  {
    var s1 := s0.(holder := Some(0), tasks := [Fresh().(at := AwaitsIdle), Fresh()]);
    assert s1 == After(s0, EnterMoving(0));
    var s2 := s1.(tasks := [Push(Fresh(), Moved), Fresh()]);
    assert s2 == After(s1, SeeIdle(0));
    var s3 := s2.(tasks := s2.tasks + [TaskState(Ready, [], 0, 1)]);
    assert s3 == After(s2, Spawn(0));
    var s4 := s3.(holder := None, tasks := [Fresh(), Fresh(), TaskState(Ready, [], 0, 1)]);
    assert s4 == After(s3, Leave(0));
    ss, es := [s0, s1, s2, s3, s4], [EnterMoving(0), SeeIdle(0), Spawn(0), Leave(0)];
  }

  /** With the guard at rest, a fresh task can move the graph. */
  lemma {:induction false} AMoveRuns(s: State, t: Task, target: Graph) returns (ss: seq<State>)
    requires TurnstileFree(s) && s.idle && t < |s.tasks| && s.tasks[t] == Fresh()
    ensures Steps(ss, [EnterMoving(t), SeeIdle(t), Switch(t, target)]) && ss[0] == s
    ensures ss[2] == s.(holder := Some(t), tasks := s.tasks[t := Push(Fresh(), Moved)])
    ensures ss[3] == ss[2].(graph := target)
  {
    var s1 := s.(holder := Some(t), tasks := s.tasks[t := Fresh().(at := AwaitsIdle)]);
    assert s1 == After(s, EnterMoving(t));
    var s2 := s1.(tasks := s1.tasks[t := Push(Fresh(), Moved)]);
    assert s2 == After(s1, SeeIdle(t));
    var s3 := s2.(graph := target);
    assert s3 == After(s2, Switch(t, target));
    assert s2.tasks == s.tasks[t := Push(Fresh(), Moved)];
    ss := [s, s1, s2, s3];
  }

  /** Whenever the guard is at rest with such a child about, the child is let
      into using() for free and any fresh task then moves the graph under it. */
  lemma {:induction false} OrphansBreakTheGuard(s: State, c: Task, t: Task, target: Graph) returns (ss: seq<State>)
    requires TurnstileFree(s) && s.idle && c < |s.tasks| && t < |s.tasks| && c != t && s.tasks[t] == Fresh()
    requires s.tasks[c].at.Ready? && MovingDepth(s.tasks[c]) > 0
    ensures Steps(ss, [EnterUsing(c)] + [EnterMoving(t), SeeIdle(t), Switch(t, target)]) && ss[0] == s
    ensures |ss[3].tasks| == |ss[4].tasks| == |s.tasks|
    ensures ss[3].tasks[c] == ss[4].tasks[c] == Push(s.tasks[c], FreeUse) && ss[4].tasks[t].frames == [Moved]
    ensures ss[3].graph == s.graph && ss[4].graph == target
  {
    var s1 := s.(tasks := s.tasks[c := Push(s.tasks[c], FreeUse)]);
    assert s1 == After(s, EnterUsing(c));
    var rest := AMoveRuns(s1, t, target);
    ss := [s] + rest;
  }

  /** A call that takes no turn can pass its gate and lose its graph. */
  lemma {:induction false} UnturnedCallsCanLoseTheirGraph(s0: State) returns (ss: seq<State>, es: seq<Event>)
    requires s0 == State(0, true, None, [], [Fresh(), Fresh()], "here")
    ensures StructuredRun(ss, es) && ss[0] == s0 && es == [TakeNoTurn(0), Check(0, "here"), EnterMoving(1), SeeIdle(1), Switch(1, "elsewhere")]
    ensures |ss[5].tasks| == 2 && ss[5].tasks[0].frames == [NoTurn(Some("here"))] && ss[5].graph == "elsewhere"
  {
    var s1 := s0.(tasks := [Push(Fresh(), NoTurn(None)), Fresh()]);
    assert s1 == After(s0, TakeNoTurn(0));
    var s2 := s1.(tasks := [Push(Fresh(), NoTurn(Some("here"))), Fresh()]);
    assert s2 == After(s1, Check(0, "here"));
    var s3 := s2.(holder := Some(1), tasks := [s2.tasks[0], Fresh().(at := AwaitsIdle)]);
    assert s3 == After(s2, EnterMoving(1));
    var s4 := s3.(tasks := [s2.tasks[0], Push(Fresh(), Moved)]);
    assert s4 == After(s3, SeeIdle(1));
    var s5 := s4.(graph := "elsewhere");
    assert s5 == After(s4, Switch(1, "elsewhere"));
    ss, es := [s0, s1, s2, s3, s4, s5], [TakeNoTurn(0), Check(0, "here"), EnterMoving(1), SeeIdle(1), Switch(1, "elsewhere")];
  }

  /** A user inside using() that asks for it again behind a waiting mover. */
  predicate Stuck(s: State, m: Task, u: Task) {
    && m < |s.tasks| && u < |s.tasks|
    && s.holder == Some(m) && s.tasks[m].at.AwaitsIdle?
    && s.tasks[u].at.AwaitsTurnToUse? && Uses(s.tasks[u].frames) > 0
  }

  lemma {:induction false} NestingGetsStuck(s0: State) returns (ss: seq<State>, es: seq<Event>)
    requires s0 == State(0, true, None, [], [Fresh(), Fresh()], "here")
    ensures StructuredRun(ss, es) && ss[0] == s0 && es == [EnterUsing(0), EnterMoving(1), EnterUsing(0)]
    ensures Stuck(ss[3], 1, 0)
  {
    var s1 := s0.(users := 1, idle := false, tasks := [Push(Fresh(), Used(None)), Fresh()]);
    assert s1 == After(s0, EnterUsing(0));
    var s2 := s1.(holder := Some(1), tasks := [s1.tasks[0], Fresh().(at := AwaitsIdle)]);
    assert s2 == After(s1, EnterMoving(1));
    var s3 := s2.(queue := [0], tasks := [s1.tasks[0].(at := AwaitsTurnToUse), s2.tasks[1]]);
    assert s3 == After(s2, EnterUsing(0));
    ss, es := [s0, s1, s2, s3], [EnterUsing(0), EnterMoving(1), EnterUsing(0)];
  }

  lemma {:induction false} StuckStays(s: State, e: Event, m: Task, u: Task)
    requires Invariant(s) && Enabled(s, e) && Stuck(s, m, u)
    ensures Structured(s, e) && Stuck(After(s, e), m, u)
  {
    TotalUsesUpdate(s.tasks, u, s.tasks[u]);
    assert MoverBody(s, e.t) ==> s.holder == Some(e.t);
    assert TaskOk(s.tasks[e.t]);
    TurnTaken(s, e);
    assert e.t != m && e.t != u;
  }

  /** Once stuck, no continuation of the run ever frees the two. */
  lemma {:induction false} StuckForever(ss: seq<State>, es: seq<Event>, k: nat, m: Task, u: Task)
    requires Steps(ss, es) && Invariant(ss[0]) && Stuck(ss[0], m, u) && k < |ss|
    ensures Invariant(ss[k]) && Stuck(ss[k], m, u)
  {
    if k > 0 {
      StuckForever(ss, es, k - 1, m, u);
      assert Enabled(ss[k - 1], es[k - 1]);
      StuckStays(ss[k - 1], es[k - 1], m, u);
      StepKeepsInvariant(ss[k - 1], es[k - 1]);
    }
  }

  // --- Progress ---

  predicate WaitsToMove(s: State, m: Task) {
    m < |s.tasks| && (s.tasks[m].at.AwaitsTurnToMove? || s.tasks[m].at.AwaitsIdle?)
  }

  /** The events by which turns are given and given back. */
  predicate GuardEvent(s: State, e: Event)
    requires Enabled(s, e)
  {
    || e.GrantUse? || e.GrantMove? || e.SeeIdle?
    || (e.Leave? && (s.tasks[e.t].frames[0].Used? || s.tasks[e.t].frames[0].Moved?))
  }

  /** The guard events still owed to the waiters up to and including `m`. */
  function QueueWork(queue: seq<Task>, tasks: seq<TaskState>, m: Task): nat {
    if queue == [] then 0
    else if queue[0] == m then 2
    else (if queue[0] < |tasks| && tasks[queue[0]].at.AwaitsTurnToMove? then 3 else 2) + QueueWork(queue[1..], tasks, m)
  }

  function HolderWork(s: State): nat {
    if s.holder.None? then 0
    else if s.holder.value < |s.tasks| && s.tasks[s.holder.value].at.AwaitsIdle? then 2
    else 1
  }

  /** How many guard events `m` still has to wait for. */
  function Owed(s: State, m: Task): int {
    s.users + if s.holder == Some(m) then 1 else HolderWork(s) + QueueWork(s.queue, s.tasks, m)
  }

  lemma {:induction false} QueueWorkFrame(queue: seq<Task>, tasks: seq<TaskState>, tasks': seq<TaskState>, m: Task)
    requires |tasks| <= |tasks'|
    requires forall t: Task :: t in queue ==> t < |tasks| && tasks'[t].at == tasks[t].at
    ensures QueueWork(queue, tasks', m) == QueueWork(queue, tasks, m)
  {
    if queue != [] {
      assert queue == [queue[0]] + queue[1..];
      assert forall t: Task :: t in queue[1..] ==> t in queue;
      QueueWorkFrame(queue[1..], tasks, tasks', m);
    }
  }

  lemma {:induction false} QueueWorkAppend(queue: seq<Task>, tasks: seq<TaskState>, m: Task, t: Task)
    requires m in queue
    ensures QueueWork(queue + [t], tasks, m) == QueueWork(queue, tasks, m)
  {
    if queue[0] != m {
      assert (queue + [t])[1..] == queue[1..] + [t];
      QueueWorkAppend(queue[1..], tasks, m, t);
    }
  }

  lemma {:induction false} NewcomersQueueBehind(s: State, e: Event, m: Task)
    requires QueueOk(s) && HolderOk(s) && Enabled(s, e) && TaskOk(s.tasks[e.t]) && WaitsToMove(s, m)
    requires !e.GrantUse? && !e.GrantMove?
    ensures After(s, e).queue == s.queue || (After(s, e).queue == s.queue + [e.t] && e.t !in s.queue)
    ensures s.holder != Some(m) ==>
              m in s.queue && QueueWork(After(s, e).queue, After(s, e).tasks, m) == QueueWork(s.queue, s.tasks, m)
    ensures s.users + (if e.Leave? && s.tasks[e.t].frames[0].Used? then -1 else 0) == After(s, e).users
    ensures !TurnOf(s, e).Takes?
  {
    hide Acted, Uses, Moves, TaskOk;
    var s' := After(s, e);
    TurnTaken(s, e);
    assert s.tasks[m].at.AwaitsIdle? ==> s.holder == Some(m);
    if s.holder != Some(m) {
      assert e.t !in s.queue;
      QueueWorkFrame(s.queue, s.tasks, s'.tasks, m);
      if s'.queue != s.queue {
        QueueWorkAppend(s.queue, s'.tasks, m, e.t);
      }
    }
  }

  lemma {:induction false} GrantShortensTheQueue(s: State, e: Event, m: Task)
    requires QueueOk(s) && HolderOk(s) && Enabled(s, e) && WaitsToMove(s, m)
    requires e.GrantUse? || e.GrantMove?
    ensures m in s.queue && s.queue == [e.t] + After(s, e).queue
    ensures QueueWork(s.queue, s.tasks, m)
            == if e.t == m then 2
               else (if e.GrantMove? then 3 else 2) + QueueWork(After(s, e).queue, After(s, e).tasks, m)
    ensures e.t != m ==> After(s, e).tasks[m] == s.tasks[m]
  {
    var s' := After(s, e);
    assert s.tasks[m].at.AwaitsIdle? ==> s.holder == Some(m);
    assert s.queue == [e.t] + s'.queue;
    assert s.queue[0] == e.t;
    forall t: Task | t in s'.queue ensures t in s.queue && t != e.t {
      var i :| 0 <= i < |s'.queue| && s'.queue[i] == t;
      assert s.queue[i + 1] == t;
    }
    QueueWorkFrame(s'.queue, s.tasks, s'.tasks, m);
  }

  /** Nothing makes a waiting mover wait longer, and every turn given or given
      back brings it closer, until the turn given is its own. */
  lemma {:induction false} WaitingShortens(s: State, e: Event, m: Task)
    requires Invariant(s) && Enabled(s, e) && WaitsToMove(s, m) && e != SeeIdle(m)
    ensures WaitsToMove(After(s, e), m)
    ensures 0 <= Owed(After(s, e), m) <= Owed(s, m)
    ensures GuardEvent(s, e) ==> Owed(After(s, e), m) < Owed(s, m)
  {
    hide Uses, Moves, QueueWork, TaskOk, GatesHold, MovesAreLive, QueueOk;
    var s', t := After(s, e), e.t;
    assert TaskOk(s.tasks[t]);
    TurnTaken(s, e);
    CountsKept(s, e);
    assert s.tasks[m].at.AwaitsIdle? ==> s.holder == Some(m);
    if e.GrantUse? || e.GrantMove? {
      GrantShortensTheQueue(s, e, m);
    } else {
      NewcomersQueueBehind(s, e, m);
      assert e.SeeIdle? ==> HolderWork(s) == 2;
      assert e.t != m;
    }
  }

  /** The turns given or given back in the first `k` events. */
  ghost function Turns(ss: seq<State>, es: seq<Event>, k: nat): nat
    requires Steps(ss, es) && k <= |es|
  {
    if k == 0 then 0
    else Turns(ss, es, k - 1) + (if Enabled(ss[k - 1], es[k - 1]) && GuardEvent(ss[k - 1], es[k - 1]) then 1 else 0)
  }

  /** While a mover goes on waiting, at most the turns owed to it at the start
      are given or given back. */
  lemma {:induction false} WaitingIsBounded(ss: seq<State>, es: seq<Event>, m: Task, k: nat)
    requires Steps(ss, es) && Invariant(ss[0]) && k <= |es|
    requires forall i :: 0 <= i < k ==> Structured(ss[i], es[i]) && WaitsToMove(ss[i], m) && es[i] != SeeIdle(m)
    requires WaitsToMove(ss[0], m)
    ensures Invariant(ss[k]) && WaitsToMove(ss[k], m)
    ensures Turns(ss, es, k) + Owed(ss[k], m) <= Owed(ss[0], m) && Owed(ss[k], m) >= 0
  {
    if k > 0 {
      WaitingIsBounded(ss, es, m, k - 1);
      assert Enabled(ss[k - 1], es[k - 1]) && Structured(ss[k - 1], es[k - 1]);
      StepKeepsInvariant(ss[k - 1], es[k - 1]);
      WaitingShortens(ss[k - 1], es[k - 1], m);
    }
  }

  /** Nobody holding using() is waiting to enter it again. */
  ghost predicate NobodyNests(s: State) {
    forall t :: 0 <= t < |s.tasks| && s.tasks[t].at.AwaitsTurnToUse? ==> UsingDepth(s.tasks[t]) == 0
  }

  lemma {:induction false} UnnestedStepsNeverNest(s: State, e: Event)
    requires Enabled(s, e) && Unnested(s, e) && NobodyNests(s)
    ensures NobodyNests(After(s, e))
  {
    hide After, Acted, Unnested, Enabled;
    ActsAlone(s, e);
    ActedNeverNests(s, e);
  }

  lemma {:induction false} ActedNeverNests(s: State, e: Event)
    requires Enabled(s, e) && Unnested(s, e)
    ensures Acted(s, e).at.AwaitsTurnToUse? ==> UsingDepth(Acted(s, e)) == 0
  {
    hide Uses, Moves;
  }

  /** In no state of a run in which nobody enters using() while holding it does
      a holder wait to enter. */
  lemma {:induction false} UnnestedRunsNeverNest(ss: seq<State>, es: seq<Event>, k: nat)
    requires Run(ss, es) && k < |ss| && forall i :: 0 <= i < |es| ==> Unnested(ss[i], es[i])
    ensures NobodyNests(ss[k])
  {
    if k > 0 {
      UnnestedRunsNeverNest(ss, es, k - 1);
      assert Enabled(ss[k - 1], es[k - 1]) && Unnested(ss[k - 1], es[k - 1]);
      hide Unnested, NobodyNests;
      UnnestedStepsNeverNest(ss[k - 1], es[k - 1]);
    }
  }

  /** A body the guard let in, free to go on. */
  predicate BodyRuns(s: State, t: Task) {
    t < |s.tasks| && s.tasks[t].at.Ready? && (Uses(s.tasks[t].frames) > 0 || Moves(s.tasks[t].frames) > 0)
  }

  /** Without nesting there is no deadlock: while a mover waits, a turn can be
      given, or some body that has one is running. */
  lemma {:induction false} SomebodyCanProceed(s: State, m: Task) returns (e: Event)
    requires Invariant(s) && NobodyNests(s) && WaitsToMove(s, m)
    ensures (Enabled(s, e) && GuardEvent(s, e)) || BodyRuns(s, e.t)
  {
    if s.holder.Some? {
      var h := s.holder.value;
      e := SeeIdle(h);
      assert TaskOk(s.tasks[h]);
      if s.tasks[h].at.AwaitsIdle? && !s.idle {
        var u := SomeoneUses(s.tasks);
        assert TaskOk(s.tasks[u]);
        assert s.tasks[u].at.AwaitsTurnToUse? ==> UsingDepth(s.tasks[u]) == 0;
        e := SeeIdle(u);
      }
    } else {
      assert m in s.queue;
      var q := s.queue[0];
      assert q in s.queue;
      e := if s.tasks[q].at.AwaitsTurnToUse? then GrantUse(q) else GrantMove(q);
    }
  }

  // --- Every waiting mover can enter ---

  /** What gives turns back: no new turn is asked for and no task is started. */
  predicate Winds(e: Event) { e.GrantUse? || e.GrantMove? || e.SeeIdle? || e.Leave? || e.Finish? }

  /** What bodies and tasks have left to do. */
  function Unfinished(tasks: seq<TaskState>): nat {
    if tasks == [] then 0
    else |tasks[0].frames| + (if tasks[0].at.Done? then 0 else 1) + Unfinished(tasks[1..])
  }

  lemma {:induction false} UnfinishedUpdate(tasks: seq<TaskState>, t: Task, ts: TaskState)
    requires t < |tasks|
    ensures Unfinished(tasks[t := ts]) + |tasks[t].frames| + (if tasks[t].at.Done? then 0 else 1)
            == Unfinished(tasks) + |ts.frames| + (if ts.at.Done? then 0 else 1)
  {
    if t == 0 {
      assert tasks[t := ts][1..] == tasks[1..];
    } else {
      UnfinishedUpdate(tasks[1..], t - 1, ts);
      assert tasks[t := ts][1..] == tasks[1..][t - 1 := ts];
    }
  }

  lemma {:induction false} LeavingFinishes(s: State, e: Event)
    requires Enabled(s, e) && (e.Leave? || e.Finish?)
    ensures Unfinished(After(s, e).tasks) < Unfinished(s.tasks)
  {
    UnfinishedUpdate(s.tasks, e.t, Acted(s, e));
    hide Unfinished, Uses, Moves;
  }

  /** A task inside a move never waits for the guard. */
  lemma {:induction false} InsideAMoveIsReady(ts: TaskState)
    requires TaskOk(ts) && MovingDepth(ts) > 0 && !ts.at.Done?
    ensures ts.at.Ready?
    ensures ts.bornMoving > 0 ==> Moves(ts.frames) == 0
  {
    hide Uses;
    if ts.bornMoving > 0 {
      BornInsideNeverMoves(ts.frames, ts.bornMoving);
    }
  }

  lemma {:induction false} BornInsideNeverMoves(frames: seq<Frame>, bornMoving: nat)
    requires Stacked(frames, bornMoving) && bornMoving > 0
    ensures Moves(frames) == 0
  {
    if frames != [] {
      BornInsideNeverMoves(frames[1..], bornMoving);
    }
  }

  lemma {:induction false} UserCanLeave(s: State) returns (e: Event)
    requires CountsOk(s) && NobodyNests(s) && s.users > 0 && forall t :: 0 <= t < |s.tasks| ==> TaskOk(s.tasks[t])
    ensures e.Leave? && Enabled(s, e) && Structured(s, e)
  {
    var u := SomeoneUses(s.tasks);
    assert TaskOk(s.tasks[u]);
    assert s.tasks[u].at.AwaitsTurnToUse? ==> UsingDepth(s.tasks[u]) == 0;
    e := Leave(u);
  }

  /** The mover leaves once the tasks born in its move are done. */
  lemma {:induction false} MoverCanLeave(s: State, h: Task) returns (e: Event)
    requires h < |s.tasks| && MoverBody(s, h) && forall t :: 0 <= t < |s.tasks| ==> TaskOk(s.tasks[t])
    ensures (e.Leave? || e.Finish?) && Enabled(s, e) && Structured(s, e)
  {
    assert TaskOk(s.tasks[h]);
    InsideAMoveIsReady(s.tasks[h]);
    if c :| 0 <= c < |s.tasks| && c != h && !s.tasks[c].at.Done? && s.tasks[c].bornMoving > 0 {
      assert TaskOk(s.tasks[c]);
      InsideAMoveIsReady(s.tasks[c]);
      e := if s.tasks[c].frames == [] then Finish(c) else Leave(c);
    } else {
      e := Leave(h);
    }
  }

  /** While a mover waits, the next thing it waits for can happen. */
  lemma {:induction false} NextThing(s: State, m: Task) returns (e: Event)
    requires Invariant(s) && NobodyNests(s) && WaitsToMove(s, m)
    ensures Winds(e) && Enabled(s, e) && Structured(s, e) && (GuardEvent(s, e) || e.Leave? || e.Finish?)
  {
    hide MovesAreLive, GatesHold, TaskOk, NobodyNests, Structured;
    if s.holder.Some? {
      var h := s.holder.value;
      if s.tasks[h].at.AwaitsIdle? && s.idle {
        e := SeeIdle(h);
        assert Structured(s, e) by {
          NotALeave(s, e);
        }
      } else if s.tasks[h].at.AwaitsIdle? {
        e := UserCanLeave(s);
      } else {
        e := MoverCanLeave(s, h);
      }
    } else {
      assert m in s.queue;
      var q := s.queue[0];
      assert q in s.queue;
      e := if s.tasks[q].at.AwaitsTurnToUse? then GrantUse(q) else GrantMove(q);
      NotALeave(s, e);
    }
  }

  lemma {:induction false} NotALeave(s: State, e: Event)
    requires !e.Leave? && !e.EnterUsing?
    ensures Structured(s, e) && Unnested(s, e)
  {}

  /** The run in which waiters are given their turns and bodies come to their
      ends, and nobody asks for anything new. */
  ghost predicate WindsDown(ss: seq<State>, es: seq<Event>, m: Task) {
    && |ss| == |es| + 1 && es != [] && es[|es| - 1] == SeeIdle(m)
    && (forall i :: 0 <= i < |es| ==> WindingStep(ss[i], es[i], ss[i + 1], m))
    && (forall i :: 0 <= i < |es| - 1 ==> es[i] != SeeIdle(m))
  }

  ghost predicate WindingStep(s: State, e: Event, s': State, m: Task) {
    Winds(e) && Enabled(s, e) && Structured(s, e) && s' == After(s, e) && WaitsToMove(s, m)
  }

  lemma {:induction false} WindingDownIsARun(ss: seq<State>, es: seq<Event>, m: Task)
    requires WindsDown(ss, es, m)
    ensures Steps(ss, es)
    ensures forall i :: 0 <= i < |es| ==> Winds(es[i]) && Structured(ss[i], es[i]) && WaitsToMove(ss[i], m)
  {
    hide Enabled, After, Structured, WaitsToMove, Winds;
    forall i | 0 <= i < |es|
      ensures Enabled(ss[i], es[i]) && ss[i + 1] == After(ss[i], es[i])
      ensures Winds(es[i]) && Structured(ss[i], es[i]) && WaitsToMove(ss[i], m)
    {
      assert WindingStep(ss[i], es[i], ss[i + 1], m);
    }
  }

  /** Every waiting mover can enter: while nobody nests, whatever else is going
      on, bodies that end and turns that are given bring it in, and no more turns
      are given or given back on the way than are owed to it. */
  lemma {:induction false} EveryMoverCanEnter(s: State, m: Task) returns (ss: seq<State>, es: seq<Event>)
    requires Invariant(s) && NobodyNests(s) && WaitsToMove(s, m)
    ensures WindsDown(ss, es, m) && Steps(ss, es) && ss[0] == s && Invariant(ss[|es|]) && MoverBody(ss[|es|], m)
    ensures Turns(ss, es, |es| - 1) <= Owed(s, m)
  {
    ss, es := WindDown(s, m);
    WindingDownIsARun(ss, es, m);
    hide Invariant, Owed, WindingStep;
    WaitingIsBounded(ss, es, m, |es| - 1);
    Entered(ss[|es| - 1], m, ss[|es|]);
  }

  lemma {:induction false} Entered(s: State, m: Task, s': State)
    requires Invariant(s) && Enabled(s, SeeIdle(m)) && Structured(s, SeeIdle(m)) && s' == After(s, SeeIdle(m))
    ensures Invariant(s') && MoverBody(s', m)
  {
    StepKeepsInvariant(s, SeeIdle(m));
    hide Invariant;
    assert s'.tasks[m] == Push(s.tasks[m], Moved);
    assert Push(s.tasks[m], Moved).frames[0] == Moved;
  }

  lemma {:induction false} WindDown(s: State, m: Task) returns (ss: seq<State>, es: seq<Event>)
    requires Invariant(s) && NobodyNests(s) && WaitsToMove(s, m)
    ensures WindsDown(ss, es, m) && ss[0] == s
    decreases Owed(s, m), Unfinished(s.tasks)
  {
    hide Invariant, NobodyNests, Owed, Unfinished, GuardEvent, WindsDown;
    var e := NextThing(s, m);
    var s' := After(s, e);
    if e == SeeIdle(m) {
      ss, es := [s, s'], [e];
      EnteringIsTheEnd(s, m);
    } else {
      OwedIsNatural(s, m);
      Progress(s, e, m);
      var rest, events := WindDown(s', m);
      ss, es := [s] + rest, [e] + events;
      OneMoreStep(s, e, m, rest, events);
    }
  }

  /** And it comes in however they go on: while nobody asks for anything new, a
      run can keep it waiting for so many events only. */
  lemma {:induction false} NoWindingRunKeepsItWaiting(ss: seq<State>, es: seq<Event>, m: Task, k: nat)
    requires Steps(ss, es) && Invariant(ss[0]) && WaitsToMove(ss[0], m) && k <= |es|
    requires forall i :: 0 <= i < k ==> Winds(es[i]) && Structured(ss[i], es[i]) && es[i] != SeeIdle(m)
    ensures Invariant(ss[k]) && WaitsToMove(ss[k], m) && Owed(ss[k], m) >= 0
    ensures k + 2 * Owed(ss[k], m) + Unfinished(ss[k].tasks) <= 2 * Owed(ss[0], m) + Unfinished(ss[0].tasks)
  {
    hide Invariant, Owed, Unfinished, WaitsToMove, After, Winds, Structured;
    if k > 0 {
      NoWindingRunKeepsItWaiting(ss, es, m, k - 1);
      var s, e := ss[k - 1], es[k - 1];
      assert Enabled(s, e) && ss[k] == After(s, e);
      StepKeepsInvariant(s, e);
      WindingCosts(s, e, m);
    } else {
      OwedIsNatural(ss[0], m);
    }
  }

  /** Nothing is left to do but to ask for something new. */
  ghost predicate WoundDown(s: State) {
    forall e :: Enabled(s, e) && Winds(e) ==> !Structured(s, e)
  }

  /** So every such run that goes on as long as it can lets the mover in, and so
      does every one longer than what is owed and left to do. */
  lemma {:induction false} EveryWindingRunLetsItIn(ss: seq<State>, es: seq<Event>, m: Task)
    requires Steps(ss, es) && Invariant(ss[0]) && NobodyNests(ss[0]) && WaitsToMove(ss[0], m)
    requires forall i :: 0 <= i < |es| ==> Winds(es[i]) && Structured(ss[i], es[i])
    requires WoundDown(ss[|es|]) || |es| > 2 * Owed(ss[0], m) + Unfinished(ss[0].tasks)
    ensures SeeIdle(m) in es
  {
    hide Invariant, Owed, Unfinished, WaitsToMove, After, Winds, Structured, NobodyNests, Enabled;
    if SeeIdle(m) !in es {
      NoWindingRunKeepsItWaiting(ss, es, m, |es|);
      WindingNeverNests(ss, es, |es|);
      var e := NextThing(ss[|es|], m);
      assert false;
    }
  }

  lemma {:induction false} WindingNeverNests(ss: seq<State>, es: seq<Event>, k: nat)
    requires Steps(ss, es) && NobodyNests(ss[0]) && k <= |es| && forall i :: 0 <= i < |es| ==> Winds(es[i])
    ensures NobodyNests(ss[k])
  {
    hide NobodyNests, After, Enabled;
    if k > 0 {
      WindingNeverNests(ss, es, k - 1);
      assert Enabled(ss[k - 1], es[k - 1]) && Winds(es[k - 1]);
      UnnestedStepsNeverNest(ss[k - 1], es[k - 1]);
    }
  }

  lemma {:induction false} WindingCosts(s: State, e: Event, m: Task)
    requires Invariant(s) && Enabled(s, e) && Structured(s, e) && Winds(e) && WaitsToMove(s, m) && e != SeeIdle(m)
    ensures WaitsToMove(After(s, e), m) && Owed(After(s, e), m) >= 0
    ensures 2 * Owed(After(s, e), m) + Unfinished(After(s, e).tasks) < 2 * Owed(s, m) + Unfinished(s.tasks)
  {
    hide Invariant, Owed, Unfinished, WaitsToMove, After, Structured;
    WaitingShortens(s, e, m);
    if e.Leave? || e.Finish? {
      LeavingFinishes(s, e);
    } else {
      GrantsAddLittle(s, e);
    }
  }

  lemma {:induction false} GrantsAddLittle(s: State, e: Event)
    requires Enabled(s, e) && (e.GrantUse? || e.GrantMove? || e.SeeIdle?)
    ensures GuardEvent(s, e) && Unfinished(After(s, e).tasks) <= Unfinished(s.tasks) + 1
  {
    UnfinishedUpdate(s.tasks, e.t, Acted(s, e));
    hide Unfinished, Uses, Moves;
  }

  lemma {:induction false} EnteringIsTheEnd(s: State, m: Task)
    requires Enabled(s, SeeIdle(m)) && WaitsToMove(s, m)
    ensures WindsDown([s, After(s, SeeIdle(m))], [SeeIdle(m)], m)
  {
    hide After, Enabled;
    NotALeave(s, SeeIdle(m));
  }

  lemma {:induction false} OwedIsNatural(s: State, m: Task)
    requires Invariant(s)
    ensures Owed(s, m) >= 0
  {
    hide HolderWork, QueueWork;
  }

  lemma {:induction false} Progress(s: State, e: Event, m: Task)
    requires Invariant(s) && NobodyNests(s) && WaitsToMove(s, m)
    requires Winds(e) && Enabled(s, e) && Structured(s, e) && e != SeeIdle(m)
    requires GuardEvent(s, e) || e.Leave? || e.Finish?
    ensures Invariant(After(s, e)) && NobodyNests(After(s, e)) && WaitsToMove(After(s, e), m)
    ensures 0 <= Owed(After(s, e), m) <= Owed(s, m)
    ensures Owed(After(s, e), m) == Owed(s, m) ==> Unfinished(After(s, e).tasks) < Unfinished(s.tasks)
  {
    hide Invariant, NobodyNests, Owed, Unfinished, GuardEvent, WaitsToMove, After;
    StepKeepsInvariant(s, e);
    UnnestedStepsNeverNest(s, e);
    WaitingShortens(s, e, m);
    if e.Leave? || e.Finish? {
      LeavingFinishes(s, e);
    }
  }

  lemma {:induction false} OneMoreStep(s: State, e: Event, m: Task, rest: seq<State>, events: seq<Event>)
    requires Enabled(s, e) && Winds(e) && Structured(s, e) && e != SeeIdle(m) && WaitsToMove(s, m)
    requires WindsDown(rest, events, m) && rest[0] == After(s, e)
    ensures WindsDown([s] + rest, [e] + events, m)
  {
    var ss, es := [s] + rest, [e] + events;
    assert WindingStep(s, e, rest[0], m);
    hide Enabled, After, Structured, WaitsToMove, Winds, WindingStep;
    forall i | 0 <= i < |es| ensures WindingStep(ss[i], es[i], ss[i + 1], m) {
      if i > 0 {
        assert ss[i] == rest[i - 1] && es[i] == events[i - 1] && ss[i + 1] == rest[i];
      }
    }
    forall i | 0 <= i < |es| - 1 ensures es[i] != SeeIdle(m) {
      assert i > 0 ==> es[i] == events[i - 1];
    }
  }

  /** `a` is ahead of `b` in the line for the turnstile. */
  ghost predicate Ahead(s: State, a: Task, b: Task) {
    exists i, j :: 0 <= i < j < |s.queue| && s.queue[i] == a && s.queue[j] == b
  }

  /** No user overtakes a waiting mover: while it holds the turnstile nobody
      registers, and before that only a task already ahead of it in the line. */
  lemma {:induction false} NobodyOvertakes(s: State, e: Event, m: Task, u: Task)
    requires QueueOk(s) && HolderOk(s) && Enabled(s, e) && TaskOk(s.tasks[e.t]) && WaitsToMove(s, m) && u < |s.tasks|
    requires Uses(After(s, e).tasks[u].frames) > Uses(s.tasks[u].frames)
    ensures s.holder != Some(m) && e == GrantUse(u) && Ahead(s, u, m)
  {
    TurnTaken(s, e);
    assert e.t == u;
    if e.GrantUse? {
      GrantShortensTheQueue(s, e, m);
      assert s.queue[0] == u && u != m;
    } else {
      NewcomersQueueBehind(s, e, m);
      assert false;
    }
  }

  /** And nobody gets ahead of it later. */
  lemma {:induction false} TheLineKeepsItsOrder(s: State, e: Event, m: Task, u: Task)
    requires QueueOk(s) && HolderOk(s) && Enabled(s, e) && TaskOk(s.tasks[e.t]) && WaitsToMove(s, m)
    requires Ahead(After(s, e), u, m)
    ensures Ahead(s, u, m)
  {}

  // --- The guard as the source has it: closures over shared state ---

  class GraphGuard {
    var users: int
    var idle: bool
    var holder: Option<Task>
    var queue: seq<Task>
    var tasks: seq<TaskState>
    var graph: Graph

    constructor (graph: Graph, tasks: nat)
      ensures Initial(Snapshot()) && Valid() && this.graph == graph && |this.tasks| == tasks
    {
      users, idle, holder, queue := 0, true, None, [];
      this.tasks := seq(tasks, _ => Fresh());
      this.graph := graph;
      new;
      InitiallyNobody(this.tasks);
    }

    function Snapshot(): State
      reads this
    {
      State(users, idle, holder, queue, tasks, graph)
    }

    ghost predicate Valid()
      reads this
    {
      Invariant(Snapshot())
    }

    method Using(t: Task)
      requires Valid() && Enabled(Snapshot(), EnterUsing(t))
      modifies this
      ensures Valid() && Snapshot() == After(old(Snapshot()), EnterUsing(t))
    {
      StepKeepsInvariant(Snapshot(), EnterUsing(t));
      if MovingDepth(tasks[t]) > 0 {
        tasks := tasks[t := Push(tasks[t], FreeUse)];
      } else if holder.None? && queue == [] {
        users := users + 1;
        idle := false;
        tasks := tasks[t := Push(tasks[t], Used(None))];
      } else {
        queue := queue + [t];
        tasks := tasks[t := tasks[t].(at := AwaitsTurnToUse)];
      }
    }

    method Moving(t: Task) returns (raised: bool)
      requires Valid() && Enabled(Snapshot(), EnterMoving(t))
      modifies this
      ensures Valid() && Snapshot() == After(old(Snapshot()), EnterMoving(t))
      ensures raised <==> MovingDepth(old(tasks[t])) == 0 && UsingDepth(old(tasks[t])) > 0
      ensures raised ==> Snapshot() == old(Snapshot())
    {
      StepKeepsInvariant(Snapshot(), EnterMoving(t));
      raised := false;
      if MovingDepth(tasks[t]) > 0 {
        tasks := tasks[t := Push(tasks[t], FreeMove)];
      } else if UsingDepth(tasks[t]) > 0 {
        raised := true;
        tasks := tasks[t := tasks[t]];
      } else if holder.None? && queue == [] {
        holder := Some(t);
        tasks := tasks[t := tasks[t].(at := AwaitsIdle)];
      } else {
        queue := queue + [t];
        tasks := tasks[t := tasks[t].(at := AwaitsTurnToMove)];
      }
    }

    method ResumeUsing(t: Task)
      requires Valid() && Enabled(Snapshot(), GrantUse(t))
      modifies this
      ensures Valid() && Snapshot() == After(old(Snapshot()), GrantUse(t))
    {
      StepKeepsInvariant(Snapshot(), GrantUse(t));
      queue := queue[1..];
      users := users + 1;
      idle := false;
      tasks := tasks[t := Push(tasks[t], Used(None))];
    }

    method ResumeMoving(t: Task)
      requires Valid() && Enabled(Snapshot(), GrantMove(t))
      modifies this
      ensures Valid() && Snapshot() == After(old(Snapshot()), GrantMove(t))
    {
      StepKeepsInvariant(Snapshot(), GrantMove(t));
      queue := queue[1..];
      holder := Some(t);
      tasks := tasks[t := tasks[t].(at := AwaitsIdle)];
    }

    method EnterMove(t: Task)
      requires Valid() && Enabled(Snapshot(), SeeIdle(t))
      modifies this
      ensures Valid() && Snapshot() == After(old(Snapshot()), SeeIdle(t))
    {
      StepKeepsInvariant(Snapshot(), SeeIdle(t));
      tasks := tasks[t := Push(tasks[t], Moved)];
    }

    method Exit(t: Task)
      requires Valid() && Enabled(Snapshot(), Leave(t)) && Structured(Snapshot(), Leave(t))
      modifies this
      ensures Valid() && Snapshot() == After(old(Snapshot()), Leave(t))
    {
      StepKeepsInvariant(Snapshot(), Leave(t));
      var frame := tasks[t].frames[0];
      tasks := tasks[t := tasks[t].(frames := tasks[t].frames[1..])];
      if frame.Used? {
        users := users - 1;
        if users == 0 {
          idle := true;
        }
      } else if frame.Moved? {
        holder := None;
      }
    }
  }
}
