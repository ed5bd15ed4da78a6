# Epimemer, verified

A model of the parts of the Epimemer graph memory server whose correctness spans
calls, and proofs about it. Each module follows one source file or one component:

- `Temporal`: valid time. An interval with precise, named, unknown or unbounded
  ends and an optional witness stands for a set of concrete half-open periods;
  the comparisons are held against that reading. Time is real.
- `ActiveGraph`: the guard over the active graph and the tool boundary that uses
  it, as a state machine over tasks that interleave at every await, with a class
  whose methods are the guard's stretches of code between awaits.
- `Json`, `Bundles`, `Timestamps`, `GraphTransfer`: the JSON Lines files of a graph
  bundle, export, transactional import, and retention.
- `MetacontextBases`, `Metacontexts`, `NameResolution`: what updates keep about
  `based_on` edges, stamping as a fixpoint, and how names resolve.
- `AgentRegistry`, `RegistryWrites`, `RegistryRuns`, `RegistryOverlaps`: the judges of a
  graph, what storing one of their records does, and whole runs of calls that read,
  wait and store.
- `Seats`, `JudgeSession`: the seats judges are confirmed in, and who a write is
  credited to.
- `EventBus`, `Bm25`, `RelationVerdicts`: an index, a scorer and a suppression set
  that must agree with simple specifications.
- `Options`, `Order`, `Characters`: shared result shapes, sorting, character classes.

`dafny verify dfyconfig.toml` checks everything.

Where the code does not do what its own documentation says, the model follows the
code, and says exactly when the two agree and where they part:

- A subscription to a base class with no category is never called for a subclass
  (`EventBus.ABaseClassIsNeverCalled`), though documented as "(or subclasses)".
- `absorbing` promises that the current description is the latest claim; it is not
  when an earlier text is repeated (`AgentRegistry.CurrentIsTheLatestIff`).
- `upsert_agent` leaves it to its caller to read, edit and write back, and descriptions
  are append-only by that; a claim waits for the user in between, so a claim, rename or
  consolidation stored meanwhile is undone by it
  (`RegistryOverlaps.AClaimThatWaitedKeepsTheOtherIff`,
  `RegistryOverlaps.AClaimUndoesAConsolidation`), and exactly which stores lose nothing
  is `RegistryRuns.OverlappingRunsKeepIff`.
- Names are unique "where a name is set"; two calls that check before either stores set
  one name twice (`RegistryOverlaps.TwoRenamesShareAName`).
- A confirmation is said to outlive the process; one stored while another claim waits is
  overwritten (`Seats.AnAnswerIsLost`). The memo keyed on the graph can be written under
  a graph nobody was asked in (`JudgeSession.AnAnswerIsRememberedElsewhere`).
- `live_successor` says it returns the node it was given when the trail ends
  retired; it returns where the trail ends (`NameResolution.ALineResolvesToItsEndIff`).
- `TagMetacontextStamping` says a rerun writes nothing; where a tag is itself tagged
  it may write more (`Metacontexts.OnePassIsEnoughIff`).
- `reassign_metacontext` says moving in one call never leaves a node stating nothing;
  its two writes are apart, and a failure between them, or a second move checked
  before the first wrote, does (`Metacontexts.RunsStrandANodeIff`,
  `Metacontexts.CheckedBeforeEitherMoves`).
- `judge_is_approved` says it answers for the active graph; it answers for the graph
  the backend's connection points at, and the check before a write takes no turn, so
  a borrowed read can put another graph there
  (`JudgeSession.ABorrowAnswersForAnotherGraph`).
- A section holding U+0085, U+2028 or U+2029 in a string cannot be read back
  (`Bundles.SectionRoundTrip`).
- `metacontexts_now` is documented as a set; it lists a metacontext twice when the
  one assigned was already held (`Metacontexts.Graph.ReassignMetacontext`).
- An interrupted replacement leaves the newest edge in force, as documented, and the
  older one stored; an interrupted withdrawal can then bring the older one back and
  make a cycle that no check let through (`MetacontextBases.AResurrectedBaseMakesACycle`).

## Model

| member | source | states |
|---|---|---|
| `Temporal.AcceptedIffSatisfiable` | epimemer/core/temporal.py:197-229 | The validator accepts an interval exactly when some concrete period fits its endpoints and its witness. |
| `Temporal.BeforeIsExact` | epimemer/core/temporal.py:279-303 | On one clock BEFORE (AFTER) is answered if and only if every reading of the two puts one wholly before the other. |
| `Temporal.OverlapIsSound` | epimemer/core/temporal.py:529-554 | OVERLAP is answered only when every reading of the two shares a moment, witness paths included. |
| `Temporal.OverlapAnswersIff` | epimemer/core/temporal.py:529-554 | On readings: OVERLAP is answered if and only if the two share a clock and every pair of endpoint readings meets, unlocated boundaries anywhere finite and empty ones allowed, or one moment witnesses both, or a witness lies in every endpoint reading of the other. |
| `Temporal.ForcedOverlapIsExact` | epimemer/core/temporal.py:529-554 | Independent reference: when a shared moment is forced, from the latest start and earliest end of each interval. |
| `Temporal.OverlapIsCompleteIff` | epimemer/core/temporal.py:529-554 | OVERLAP never misses a forced overlap of an interval if and only if the interval has no boundary, or nothing about it is located; every other interval has a partner it is missed with. |
| `Temporal.OverlapsLeftUndecided` | epimemer/core/temporal.py:529-554 | Two concrete pairs that must overlap and come back UNKNOWN. |
| `Temporal.OverlapIsExactOnUniform` | epimemer/core/temporal.py:529-554 | OVERLAP is exact where both endpoints of each interval are located or neither is. |
| `Temporal.SettledEndpointsAreDecided` | epimemer/core/temporal.py:279-303 | With four precise or unbounded endpoints on one clock the answer is never UNKNOWN and says exactly whether the two meet. |
| `Temporal.DisjointIsExact` | epimemer/core/temporal.py:279-303 | BEFORE or AFTER is answered if and only if no reading lets the two meet. |
| `Temporal.HoldsAtIsExact` | epimemer/core/temporal.py:503-526 | An interval is said to hold at a moment exactly when every reading contains it, except at a precise start with an unlocated end and no witness, which is always missed. |
| `Temporal.ValidAtIsExact` | epimemer/core/temporal.py:332-367 | VALID is answered exactly where an interval on the asked clock holds at the moment in every reading, bare starts apart. |
| `Temporal.RelationsConverse` | epimemer/core/temporal.py:279-303 | AFTER is the converse of BEFORE; OVERLAP is symmetric. |
| `Temporal.BeforeIsAStrictOrder` | epimemer/core/temporal.py:279-303 | BEFORE is irreflexive, asymmetric and transitive over accepted intervals. |
| `Temporal.ResolvingShrinks` | epimemer/core/temporal.py:420-447 | Naming or locating an endpoint only removes readings, and a moment the interval held at stays one. |
| `Temporal.ResolvingKeepsAnswers` | epimemer/core/temporal.py:279-303 | Resolving unknown or named endpoints never changes a definite answer. |
| `Temporal.DisjointnessIsExact` | epimemer/core/temporal.py:370-405 | The disjointness flag is raised exactly when both sides are dated, every cross pair shares a clock and no pair can meet. |
| `Temporal.WideningOnlySuppresses` | epimemer/core/temporal.py:370-405 | Adding intervals to a nonempty side can lower the flag and never raise it. |
| `Temporal.DisjointExcludesACommonMoment` | epimemer/core/temporal.py:332-405 | Disjoint assertions are never both VALID at one moment on one clock. |
| `Temporal.MergedValidity` | epimemer/core/temporal.py:232-255 | The loop that folds one source's periods together computes the union function below, and changes nothing it was given. |
| `Temporal.MergedIsTheUnion` | epimemer/core/temporal.py:232-255 | The result keeps the kept periods in place and adds each missing period once. |
| `Temporal.MergedInOrder` | epimemer/core/temporal.py:251-255 | Missing periods are added in the order they come in. |
| `Temporal.MergingKeepsVerdicts` | epimemer/core/temporal.py:232-255 | Folding changes no VALID or disjointness verdict the two lists gave, and folding again adds nothing. |
| `ActiveGraph.StepKeepsInvariant` | epimemer/storage/active_graph.py:75-134 | Every interleaved step of using() and moving() keeps: the counter counts registered turns, the event is set iff there are none, the turnstile is held by the one mover, whoever counts itself inside a move is inside it. |
| `ActiveGraph.MoversExcludeEveryone` | epimemer/storage/active_graph.py:90-132 | In every state of every run in which no child outlives the move it was born in: inside a move there is no user and no other mover. |
| `ActiveGraph.GatedCallsStayInTheirGraph` | epimemer/mcp/server.py:515-536 | A call that passed the wrong-graph gate inside its turn stays in that graph until it leaves the turn. |
| `ActiveGraph.ReenteringIsFree` | epimemer/storage/active_graph.py:93-116 | Inside a move, using() and moving() let their caller in at once, and leaving the inner block gives back the very state it was entered in. |
| `ActiveGraph.TurnsAreGivenBack` | epimemer/storage/active_graph.py:98-132 | A turn of either kind taken with nobody in the way and given back leaves the guard as it was; so does a call that takes none. |
| `ActiveGraph.ChildrenInherit` | epimemer/storage/active_graph.py:84-89 | A child counts itself inside whatever its parent is inside: moving() raises in it, or lets it in at once, exactly where it would in the parent. |
| `ActiveGraph.FramesAreTheOpenBlocks` | epimemer/storage/active_graph.py:90-132 | Over every run a task is inside exactly the blocks it opened and has not left, innermost first. |
| `ActiveGraph.HeldUntilTheOutermost` | epimemer/storage/active_graph.py:114-132 | Over every structured run a task born outside any move holds the turnstile while it is inside any moving() block, and gives it back exactly when it leaves the outermost. |
| `ActiveGraph.OrphansAreReachable` | epimemer/storage/active_graph.py:84-89 | A run after which a child task outlives its move and still counts itself inside one. |
| `ActiveGraph.OrphansBreakTheGuard` | epimemer/storage/active_graph.py:93-96 | Whenever the guard is at rest with any such child about, the child gets into using() unregistered and any fresh task then moves the graph while the child is inside. |
| `ActiveGraph.UnturnedCallsCanLoseTheirGraph` | epimemer/mcp/server.py:446-460 | A call that waits on a person takes no turn; a run in which it passes its gate and the graph is moved under it. |
| `ActiveGraph.NestingGetsStuck` | epimemer/storage/active_graph.py:93-101 | A reachable state: a user re-enters using() behind a waiting mover. |
| `ActiveGraph.StuckForever` | epimemer/storage/active_graph.py:90-132 | No continuation of any run ever frees that user or that mover. |
| `ActiveGraph.WaitingShortens` | epimemer/storage/active_graph.py:118-132 | No step makes a waiting mover wait longer, and every turn given or given back strictly lowers the number still owed to it. |
| `ActiveGraph.WaitingIsBounded` | epimemer/storage/active_graph.py:118-132 | Over any run, the turns given and given back while a mover waits, plus those still owed to it, are at most the number owed to it at the start. |
| `ActiveGraph.SomebodyCanProceed` | epimemer/storage/active_graph.py:90-132 | Without nested using() there is no deadlock: while a mover waits, a turn can be given or a body with a turn is running. |
| `ActiveGraph.UnnestedRunsNeverNest` | epimemer/storage/active_graph.py:91-101 | In no state of a run in which nobody enters using() while holding it does a task that holds it wait for it: the condition the progress rows need. |
| `ActiveGraph.EveryMoverCanEnter` | epimemer/storage/active_graph.py:90-132 | Every waiting mover can enter: from every state that keeps the invariant and where nobody nests, a run in which bodies end and turns are given, and nothing new is asked for, ends with the mover inside its move, and at most the turns owed to it are given or given back before. |
| `ActiveGraph.NoWindingRunKeepsItWaiting` | epimemer/storage/active_graph.py:90-132 | However they go on: as long as nothing new is asked for and the mover is still out, the number of events is bounded by the turns owed to it and the bodies and tasks not yet ended. |
| `ActiveGraph.EveryWindingRunLetsItIn` | epimemer/storage/active_graph.py:90-132 | So where nobody nests, every run in which nothing new is asked for and which goes on as long as it can, or longer than that bound, lets the mover in. |
| `ActiveGraph.NobodyOvertakes` | epimemer/storage/active_graph.py:98-101 | While a mover holds the turnstile no user registers; before that, only users already ahead of it in the line. |
| `ActiveGraph.TheLineKeepsItsOrder` | epimemer/storage/active_graph.py:98-132 | Nobody gets ahead of a waiting mover later. |
| `ActiveGraph.GraphGuard.Using` | epimemer/storage/active_graph.py:91-101 | Entering using() on the shared variables is the state machine's step and keeps the invariant. |
| `ActiveGraph.GraphGuard.Moving` | epimemer/storage/active_graph.py:112-126 | Entering moving() is the state machine's step, inside a move, first in line or queued; it raises, changing nothing, exactly when the caller holds using() and no move. |
| `ActiveGraph.GraphGuard.ResumeUsing` | epimemer/storage/active_graph.py:98-101 | A queued user granted the turnstile registers. |
| `ActiveGraph.GraphGuard.ResumeMoving` | epimemer/storage/active_graph.py:126-127 | A queued mover granted the turnstile keeps it and waits for the event. |
| `ActiveGraph.GraphGuard.EnterMove` | epimemer/storage/active_graph.py:127-128 | A mover that sees the event set enters its move. |
| `ActiveGraph.GraphGuard.Exit` | epimemer/storage/active_graph.py:103-132 | Leaving either turn is the step: the last user sets the event, the mover frees the turnstile. |
| `Json.ValueRoundTrip` | epimemer/pipelines/transfer.py:228-241 | Parsing printed JSON, NaN and the infinities included, followed by anything that cannot continue it gives back the value and the rest. |
| `Json.NumbersAre` | epimemer/pipelines/transfer.py:228-241 | A number is a sign or none, an integer without leading zeros, a fraction or none and an exponent or none (section 6 of RFC 8259), and nothing else is. |
| `Json.DictsLoadBack` | epimemer/pipelines/transfer.py:228-241 | A printed dict parses back to itself. |
| `Json.CutDictsDoNotParse` | epimemer/pipelines/transfer.py:228-241 | No proper prefix of a printed dict is JSON. |
| `Json.TextBreaks` | epimemer/pipelines/transfer.py:228-241 | The printed text holds a character splitlines cuts on exactly when some string in the value holds U+0085, U+2028 or U+2029 (section 7 of RFC 8259 escapes the rest). |
| `Json.InsertionOrderDoesNotShow` | epimemer/pipelines/transfer.py:228-241 | Two dicts with the same distinct keys and values print the same text, whatever order they were filled in. |
| `Json.CanonicalTwice` | epimemer/pipelines/transfer.py:228-241 | Sorting keys throughout is idempotent. |
| `Bundles.SectionRoundTrip` | epimemer/pipelines/transfer.py:262-281 | Reading a written section back gives exactly its records if no string in it holds U+0085, U+2028 or U+2029, and fails if one does. |
| `Bundles.SecondExportIsByteIdentical` | epimemer/pipelines/transfer.py:262-281 | Writing out what was read back writes the same text again. |
| `Bundles.OneGraphPerBundle` | epimemer/pipelines/transfer.py:433-441 | No file name is a dated bundle of two graphs. |
| `Bundles.TheLastSegmentDecides` | epimemer/pipelines/transfer.py:463-467 | Whatever directory a name stands in and whatever slashes follow it, the last segment is what is looked at. |
| `Bundles.DatedBundlesAre` | epimemer/pipelines/transfer.py:433-441 | A dated bundle is exactly the graph name, a year, month and day in digits whether or not there is such a day, and the suffix, one newline at the end not counting. |
| `Bundles.OneNewlineAtTheEnd` | epimemer/pipelines/transfer.py:433-441 | One newline after a bundle's name does not count, two do. |
| `Bundles.DefaultNamesSortByDay` | epimemer/pipelines/transfer.py:421-430 | The names bundles are given are dated bundles of their graph and sort by the day they were written. |
| `Bundles.OlderSortsFirst` | epimemer/pipelines/transfer.py:444-468 | Among one graph's bundles, text order of the names is order of the dates in them. |
| `Bundles.RetentionKeepsTheNewest` | epimemer/pipelines/transfer.py:444-468 | Retention takes the oldest beyond `keep`, leaves min(keep, total), nothing kept sorts before anything taken, and a second run takes nothing. |
| `Bundles.Destination.PruneBundles` | epimemer/pipelines/transfer.py:481-514 | The loop deletes every stale bundle it can: what is left is what was there less the stale ones that could be deleted, `kept` counts the graph's bundles left, the deleted and the refused ones are reported; nothing is there or `keep < 1` changes nothing. |
| `Timestamps.TextOrderIsTimeOrder` | epimemer/storage/timestamps.py:11-28 | For all instants of years 1 to 9999 text order of the renderings is time order, and equal text is one instant (the ordering section 5.1 of RFC 3339 aims at). |
| `Timestamps.RenderingReadsBack` | epimemer/storage/timestamps.py:11-28 | The rendering is `YYYY-MM-DDThh:mm:ss.ffffffZ`, and each field reads back as the instant's. |
| `Timestamps.TheCalendarIs` | epimemer/storage/timestamps.py:11-28 | The calendar the order is proved over is the Gregorian one, in closed form. |
| `Timestamps.DatesAdvance` | epimemer/storage/timestamps.py:11-28 | Calendar order of dates is order of days elapsed, leap years included. |
| `GraphTransfer.ExportIsCanonical` | epimemer/pipelines/transfer.py:314-378 | The bundle does not depend on the order the backend returns rows in, where ids are unique. |
| `GraphTransfer.ExportIsInOrder` | epimemer/pipelines/transfer.py:314-378 | Every section holds the graph's records by ascending id, the approved ids are in order, the settings are the graph's. |
| `GraphTransfer.ImportRoundTrip` | epimemer/pipelines/transfer.py:753-863 | Exporting what an import of an export made gives the same bundle, section for section, in whatever order either backend returns rows. |
| `GraphTransfer.ExportsImport` | epimemer/pipelines/transfer.py:836-848 | A bundle that was exported is never refused for its counts. |
| `GraphTransfer.RepeatedIdsAreRefused` | epimemer/pipelines/transfer.py:836-848 | A bundle whose manifest counts only what the bundle holds is taken if and only if no section it counts holds two records that overwrite each other: one id twice, or one label name twice; verdicts never do. |
| `GraphTransfer.TakenIffNothingRepeats` | epimemer/pipelines/transfer.py:836-848 | Without a manifest, or with the counts of the bundle itself, that is every section. |
| `GraphTransfer.CountsAgreeIff` | epimemer/pipelines/transfer.py:836-848 | The comparison made passes exactly when every part it names is counted at one record to a key, not at the number of rows. |
| `GraphTransfer.CountsAgreeIffHeld` | epimemer/pipelines/transfer.py:837-848 | With a manifest that counts anything, the import is taken if and only if each part counted is counted at exactly the records the restored graph holds; with none, if and only if no two records overwrite each other. |
| `GraphTransfer.WhatRepeats` | epimemer/pipelines/transfer.py:811-823 | Two records overwrite each other exactly when they are labels of one name or other records of one id; verdicts never do. |
| `GraphTransfer.TheLastOneIsStored` | epimemer/pipelines/transfer.py:811-823 | Under every key the last of the bundle's records is stored; verdicts are all stored, in order. |
| `GraphTransfer.Database.ImportGraph` | epimemer/pipelines/transfer.py:785-863 | Either exactly one new graph holding the bundle, or the graphs as they were; the active graph is restored both ways; success exactly when the name is legal and free, nothing fails while embedding, writing, restoring or counting, and the manifest counts what the restored graph holds. |
| `GraphTransfer.Database.RestoreSettings` | epimemer/pipelines/transfer.py:753-765 | The ten setters in turn, up to the one that fails. |
| `GraphTransfer.SettersInTurn` | epimemer/pipelines/transfer.py:753-765 | However far the setters get, the settings they got to are the bundle's and the others the graph's: policy, thresholds, overrides, approvals, counters. |
| `GraphTransfer.NamesAtTheEdge` | epimemer/storage/protocol.py:46-68 | What a legal graph name is, at its edges: which characters and how many. |
| `Metacontexts.PassIsMonotone` | epimemer/pipelines/metacontexts.py:310-318 | A pass only adds, adds nothing exactly when every tag stands where its users do, and adds no less to a graph that says more. |
| `Metacontexts.PassesReachTheLeastClosed` | epimemer/pipelines/metacontexts.py:333-385 | As many passes as there are tags reach the least graph in which every tag stands where its users stand. |
| `Metacontexts.AStampFollowsTheUses` | epimemer/pipelines/metacontexts.py:353-385 | A stamping at the end of any run puts every tag wherever its users stand by then, and takes nothing away. |
| `Metacontexts.OnePassIsEnoughIff` | epimemer/pipelines/metacontexts.py:321-385 | Running twice writes nothing the second time, for every assignment, if and only if whoever uses a tagged tag is, or itself uses, what that tag is tagged with. |
| `Metacontexts.OnePassIsNotEnough` | epimemer/pipelines/metacontexts.py:353-385 | Otherwise one metacontext on one node needs a further pass, because all sets are read before any write. |
| `Metacontexts.UntaggedTagsNeedOnePass` | epimemer/pipelines/metacontexts.py:321-385 | One pass is idempotent where no tag is itself tagged with another. |
| `Metacontexts.Graph.StampTagMetacontexts` | epimemer/pipelines/metacontexts.py:353-385 | The loop over topics writes exactly one pass and reports the edges written and the topics whose set changed. |
| `Metacontexts.Graph.ReassignMetacontext` | epimemer/pipelines/metacontexts.py:91-223 | Refused for the first reason that applies and nothing written; or complete, the node stating something; or broken off after some of its writes, the node then stating nothing exactly when it stood in the withdrawn one only and the assigned one was not stored. The report lists one twice exactly when it was assigned one it already held. |
| `Metacontexts.RefusedForTheFirstReason` | epimemer/pipelines/metacontexts.py:108-181 | A move is refused for the first of six reasons that applies, each in its own terms, and let through exactly when none does; the metacontext assigned then exists. |
| `Metacontexts.Graph.DeclareMetacontext` | epimemer/pipelines/metacontexts.py:403-473 | Puts exactly the active nodes that state nothing in the metacontext, and counts them. |
| `Metacontexts.RunsStrandANodeIff` | epimemer/pipelines/metacontexts.py:184-197 | Over every run of stamping, declaring and moving, the moves broken off anywhere, a node that stands somewhere or is declared first is never without a metacontext if and only if no move out of its only metacontext is broken off between its two writes (the docstring promises that state is never reached). |
| `Metacontexts.CompleteRunsStrandNobody` | epimemer/pipelines/metacontexts.py:91-473 | Where every move is complete, no run takes a node's last metacontext. |
| `Metacontexts.RunsStayWhereMetacontextsAre` | epimemer/pipelines/metacontexts.py:91-473 | No run, moves broken off or not, puts a node where there is no metacontext. |
| `Metacontexts.ABrokenMoveStrands` | epimemer/pipelines/metacontexts.py:184-197 | The smallest such move: one node, one metacontext, the backend fails on the second write. |
| `Metacontexts.DeclaredInTheMiddle` | epimemer/pipelines/metacontexts.py:184-197 | A declaration that runs between the two writes puts the node in its own metacontext as well exactly when the move was out of the only one. |
| `Metacontexts.CheckedBeforeEitherMoves` | epimemer/pipelines/metacontexts.py:130-186 | Two moves of one node that each pass the check before either writes leave it stating nothing exactly when they withdraw all it stood in and the second assigns nothing, nor the first anything the second does not withdraw. |
| `Metacontexts.DeclaringTwiceDeclaresNothing` | epimemer/pipelines/metacontexts.py:403-473 | A second declaration finds nothing to declare. |
| `MetacontextBases.AcyclicUnlessReached` | epimemer/pipelines/metacontext_bases.py:173-181 | Setting a base keeps the bases acyclic if and only if the base does not already build on the metacontext. |
| `MetacontextBases.CurrentIsTheBase` | epimemer/pipelines/metacontext_bases.py:94-97 | The newest live edge of any listing is the base in force, whatever order the backend lists in. |
| `MetacontextBases.NewestIs` | epimemer/pipelines/metacontext_bases.py:94-97 | Newest is created last, and of those created together the greatest id. |
| `MetacontextBases.Storage.ChainReaches` | epimemer/pipelines/metacontext_bases.py:125-141 | The walk ends on any data, cyclic or not, decides reachability, and returns the chain it walked. |
| `MetacontextBases.Storage.CheckBase` | epimemer/pipelines/metacontext_bases.py:144-181 | Refuses exactly what is not allowed, whether or not the metacontext is stored yet, and for which reason; a refusal for a cycle comes with a chain and with a base that would make one. |
| `MetacontextBases.Storage.WriteBase` | epimemer/pipelines/metacontext_bases.py:184-210 | Stores the new edge, then deletes the old ones one by one, as far as the backend lets it. |
| `MetacontextBases.Storage.SetMetacontextBase` | epimemer/pipelines/metacontext_bases.py:213-235 | Where every write went through, exactly this base changed, the divergence given is in force and acyclicity is kept; a refusal changes nothing; an interruption leaves a prefix of the writes. |
| `MetacontextBases.SerialRunsKeepOneAcyclicBase` | epimemer/pipelines/metacontext_bases.py:144-210 | Every serial run of set, replace and withdraw keeps the bases acyclic and at most one base edge each, however the edges are dated. |
| `MetacontextBases.OrderlyRunsKeepAcyclic` | epimemer/pipelines/metacontext_bases.py:184-210 | So does every run interrupted anywhere, if edges are dated in writing order and no withdrawal brings an older base back. |
| `MetacontextBases.ReplacingNeverLeavesNone` | epimemer/pipelines/metacontext_bases.py:197-209 | An interrupted replacement leaves the old or the new base in force, never none; the new one, with the divergence given, if it is dated last or every write went through. |
| `MetacontextBases.WithdrawingUnlessResurrected` | epimemer/pipelines/metacontext_bases.py:197-209 | An interrupted withdrawal leaves the base or none, except where it deleted the newest edge and left an older live one: that one is the base again. |
| `MetacontextBases.OldestFirstNeverResurrects` | epimemer/pipelines/metacontext_bases.py:197-209 | A backend that lists edges oldest first never does that. |
| `MetacontextBases.AResurrectedBaseMakesACycle` | epimemer/pipelines/metacontext_bases.py:184-210 | Otherwise: four allowed calls, two of them interrupted, after which two worlds build on each other. |
| `MetacontextBases.CheckedBeforeEitherWrites` | epimemer/pipelines/metacontext_bases.py:213-235 | Two calls that each pass the check before either writes leave a cycle together. |
| `NameResolution.KeyIsSpelling` | epimemer/pipelines/name_resolution.py:60-69 | Two names have one key exactly when they differ only in case and separators; a key is its own key. |
| `NameResolution.TagShapedIffOneWord` | epimemer/pipelines/name_resolution.py:72-80 | A name is tag-shaped exactly when it is one word, with whitespace around it at most. |
| `NameResolution.OneNameIff` | epimemer/pipelines/name_resolution.py:83-90 | Two names are one exactly when both are one word and they differ only in case and separators. |
| `NameResolution.WhatSeparates` | epimemer/pipelines/name_resolution.py:60-69 | Whitespace, underscores and hyphens may be written or left out anywhere in a name, and nothing else may. |
| `NameResolution.LaterTopicsMoveANameIff` | epimemer/pipelines/name_resolution.py:93-121 | Appending topics never moves a name a tag answers to; it moves a statement topic's name exactly when one of them is a tag of its key. |
| `NameResolution.ASpacedTagDisplacesASlug` | epimemer/pipelines/name_resolution.py:83-121 | A tag with a space in it takes a slug from the statement topic written with that slug, though the two are not one name. |
| `NameResolution.SpellingDoesNotMatter` | epimemer/pipelines/name_resolution.py:109-121 | Which topic answers does not depend on the spelling, beyond the name being one word or not. |
| `NameResolution.LiveSuccessor` | epimemer/pipelines/name_resolution.py:144-178 | The bounded walk ends on any lineage at a stored node at most sixteen successor edges on; an active node is returned untouched. |
| `NameResolution.MergesComeFirst` | epimemer/pipelines/name_resolution.py:161-177 | A node's successors are what it was merged into and what superseded it, and the first merge is followed before any supersession. |
| `NameResolution.ThenSupersessions` | epimemer/pipelines/name_resolution.py:161-177 | A node that was never merged goes on to what first superseded it. |
| `NameResolution.ALineResolvesToItsEndIff` | epimemer/pipelines/name_resolution.py:144-178 | On a single-successor line a node resolves to the end if and only if it is within sixteen hops of it, else to the retired node sixteen on. A line that ends retired gives its end. |
| `NameResolution.AWrongTurnIsNotTakenBack` | epimemer/pipelines/name_resolution.py:161-177 | Where a node has two successors the first is taken, even into a dead end beside an active one. |
| `RegistryRuns.RunsKeepTheInvariant` | epimemer/mcp/tools.py:9927-9964 | Over every run of claims, renames and marks (retiring, reinstating, confirming) whose calls wait and overlap but store nothing once what they read has moved (the record they edit, the one they absorb, who has the name they ask for): the live judges' ids partition every recorded id, live names are unique up to case, and every record keeps each digest and each id it answers for. |
| `AgentRegistry.NoJudgesYet` | epimemer/core/types.py:2253-2286 | A graph without judges satisfies it. |
| `RegistryRuns.DecisionsStayReadable` | epimemer/core/types.py:2427-2466 | After every run in which each record stored fits what is stored by then, an id and digest recorded at any time are answered by exactly one live judge, which still has the digest. |
| `AgentRegistry.RenamingKeeps` | epimemer/mcp/tools.py:9894-9975 | A rename during which nobody else stores a record, whether it renames, asks, consolidates or refuses, keeps the registry in order and loses nothing. |
| `AgentRegistry.ClaimingKeeps` | epimemer/mcp/tools.py:10365-10391 | So does such a claim, by a known judge or as a new one. |
| `RegistryWrites.AStoredRecordKeepsIff` | epimemer/storage/protocol.py:1705-1714 | Storing a record whole, whenever it was read, keeps the registry in order and loses nothing if and only if it holds all that is stored under its id and, its judge live, takes over whole judges at most and a name nobody else has, or, its judge absorbed, gains no live judge and says nothing the absorber does not. |
| `RegistryRuns.OverlappingRunsKeepIff` | epimemer/mcp/tools.py:10306-10391 | Over every run of calls that list the judges, wait and store, overlapping anyhow: every step keeps the registry in order and loses nothing if and only if every record stored fits in that sense. |
| `RegistryRuns.RunsKeepWhatWasAddedIff` | epimemer/storage/protocol.py:1705-1714 | Over every run, orderly or not: a store loses no digest, and no id answered for, if and only if its record holds those added under its id since its call read. |
| `RegistryRuns.UnmovedFits` | epimemer/mcp/tools.py:9927-9964 | A record fits where what its call read has not moved. |
| `RegistryRuns.NothingStoredIsUnmoved` | epimemer/mcp/tools.py:9927-9964 | In particular where nobody stored a record in between. |
| `RegistryRuns.AReadThenAStore` | epimemer/mcp/tools.py:9927-9964 | A call that stores at once does what it is for: the claim, the rename or the consolidation; a mark leaves the records as they are. |
| `RegistryOverlaps.AClaimThatWaitedKeepsTheOtherIff` | epimemer/mcp/tools.py:10365-10391 | Two claims of one judge, the first waiting for the user while the second is stored: once the first is stored too, the second's wording is on record if and only if the judge had said it before or the first says it as well. |
| `RegistryOverlaps.TwoRenamesShareAName` | epimemer/mcp/tools.py:9927-9964 | Two renames to one free name, both checked before either stores, leave two live judges called that. |
| `RegistryOverlaps.TwoClaimsShareAName` | epimemer/mcp/tools.py:10306-10391 | So do two claims of one new name. |
| `RegistryOverlaps.AClaimUndoesAConsolidation` | epimemer/mcp/tools.py:9948-9950 | A claim that waits across a consolidation into its judge undoes it: the absorbed judge is live again and its id is lost to the holder. |
| `RegistryOverlaps.AClaimOfAnAbsorbedJudgeKeepsIff` | epimemer/mcp/tools.py:10365-10391 | A claim stored after its judge was absorbed leaves the registry in order if and only if one of the two judges had said what it says. |
| `AgentRegistry.RenamingAnswers` | epimemer/mcp/tools.py:9923-9949 | Which answer a rename gets: a name some other live judge is called is a question exactly then, and only yes consolidates. |
| `AgentRegistry.RenamingChangesOneRecord` | epimemer/mcp/tools.py:9947-9975 | A rename changes one record: the judge under its new name, or the holder answering for all the other's ids, which is live no more; otherwise nothing. |
| `AgentRegistry.ClaimingRecordsTheClaim` | epimemer/mcp/tools.py:10368-10391 | What was said is what the claimed judge is then read as claiming; it is the judge the handle names, or a new one called that; no other record changes. |
| `AgentRegistry.DescriptionsAreAppended` | epimemer/core/types.py:2214-2235 | Saying what is current already adds nothing; anything else is added at the end, and nothing is taken away. |
| `AgentRegistry.ResolvingIgnoresOrder` | epimemer/core/types.py:2343-2371 | Which judge a handle names does not depend on the order judges are listed in. |
| `AgentRegistry.ANamelessJudgeIsCalledItsId` | epimemer/core/types.py:2243-2250 | A judge nobody named is found by its id in any case. |
| `AgentRegistry.AbsorbedIdFindsItsAbsorberIff` | epimemer/core/types.py:2343-2371 | An absorbed id finds its absorber if and only if no other live judge's name folds to it. |
| `AgentRegistry.ANewNameTakesAnAbsorbedId` | epimemer/core/types.py:2343-2371 | A new judge may be called an absorbed id in another case, and from then on that id finds the new judge. |
| `AgentRegistry.AnAbsorbedIdIsTaken` | epimemer/core/types.py:2343-2371 | A concrete such graph and claim. |
| `AgentRegistry.AbsorbingKeepsEverything` | epimemer/core/types.py:2427-2466 | The survivor answers for both judges' ids and has every digest of either. |
| `AgentRegistry.MergedHistory` | epimemer/core/types.py:2444-2448 | The merged history is in order of time, whatever order the two were in, and holds the first saying of everything either judge said, once; what the judge then reads as claiming was first said no earlier than anything else. |
| `AgentRegistry.CurrentIsTheLastClaimIff` | epimemer/core/types.py:2434-2448 | On the two judges' own lists: with no two sayings at one time, the merged judge reads as claiming its latest claim if and only if nothing was first said after that was. |
| `AgentRegistry.FormerIdsInOrder` | epimemer/core/types.py:2453-2459 | The merged ids hold no id twice, the survivor's first. |
| `AgentRegistry.CurrentIsTheLatestIff` | epimemer/core/types.py:2427-2466 | The merged judge is read as claiming what either claimed last exactly where nothing new was said since that was first said (the docstring promises it always). |
| `AgentRegistry.ALateRepeatIsNotCurrent` | epimemer/core/types.py:2427-2466 | X at 1, Y at 2 absorbing X at 3 is read as claiming Y. |
| `AgentRegistry.Absorb` | epimemer/core/types.py:2442-2448 | The loop that fills the dict of versions computes that merge. |
| `Seats.NothingChangedIff` | epimemer/core/seat.py:80-91 | Two seats show no change exactly when they are equal in all four fields, unknown being a value. |
| `Seats.ChangesAre` | epimemer/core/seat.py:80-91 | The changes are exactly the fields that differ, each from what it was to what it is, in the order conversation, client, its version, model. |
| `Seats.CarriesOverIff` | epimemer/core/seat.py:104-114 | A confirmation carries over exactly into a complete seat the judge was confirmed in; it is then the earliest such. |
| `Seats.SameIff` | epimemer/core/seat.py:94-114 | A confirmation is of a judge in a seat exactly when it names that judge and all four fields are the seat's. |
| `Seats.AskedWithNoChangeIff` | epimemer/core/seat.py:117-148 | The reason names no change exactly when the judge's latest confirmation in this conversation was in this very seat, and then a confirmation carries over. |
| `Seats.TheReasonIs` | epimemer/core/seat.py:117-148 | Which reason is given: no conversation, no model, first in the conversation, or what changed since the latest confirmation there. |
| `Seats.NotAskedIff` | epimemer/mcp/tools.py:10277-10291 | The user is not asked exactly when the judge is approved and, in a seat known well enough, was confirmed in it before, or, in any other, is the judge this process had confirmed here. |
| `Seats.NoReasonGivenIff` | epimemer/mcp/tools.py:10279-10296 | The user is asked with an empty change exactly when that holds and the judge is no longer approved. |
| `Seats.RememberingKeepsOrder` | epimemer/core/seat.py:151-172 | The list stays sorted, bounded and one to a judge and seat; nothing newer is dropped for something older. |
| `Seats.EveryRememberedListIsInOrder` | epimemer/core/seat.py:151-172 | Over every run of answers, in whatever order they are dated and however the claims that read and store the list overlap. |
| `Seats.RememberedIsCarried` | epimemer/core/seat.py:104-172 | A confirmation remembered while none is dated later is the last one kept, and carries over next time if nobody stores an older list meanwhile. |
| `Seats.AnAnswerKeepsTheOthersIff` | epimemer/mcp/tools.py:10345-10363 | An answer stored over the list there is by then keeps all it does not replace, while there is room, if and only if all of that was in the list its claim read. |
| `Seats.AnAnswerIsLost` | epimemer/mcp/tools.py:10345-10363 | Two claims waiting at once: the answer stored first would carry over, and after the second is stored the user is asked again. |
| `JudgeSession.CreditsAreEarned` | epimemer/mcp/server.py:4829-4913 | Over every run, with a wait between the comparison, the reading of the approved ids, the reading of the policy and the write: a write that ran had named the graph active when it was compared and when it ran; a judge it is credited to had been claimed from an equal seat, by the claim its token names or else the latest, and the graph the backend answered from at the reading approved the judge then; credited to nobody, the graph answering when the policy was read asked for no judge. |
| `JudgeSession.AnApprovedWriteIsCredited` | epimemer/mcp/server.py:4883-4903 | Conversely, a write that names the active graph throughout, from the seat of the judge held for it, whom the graph answering approves, lands credited to that judge. |
| `JudgeSession.AComparedWriteGoesOn` | epimemer/mcp/server.py:4883-4899 | A write naming the active graph, with a token issued here or none, from the seat of the judge held for it if any, is not refused before its waits. |
| `JudgeSession.AJudgelessWriteLandsIff` | epimemer/mcp/server.py:4900-4907 | One for which no judge is approved is let through exactly where the graph answering next asks for none. |
| `JudgeSession.EveryStretchRunsOnce` | epimemer/mcp/server.py:4829-4913 | Over every run a check is answered once, a write lands once and a switch clears once. |
| `JudgeSession.OneGraphChanges` | epimemer/mcp/tools.py:9608-9616 | Approving, revoking and setting a policy change one graph and, of approvals, one judge; a graph without a policy has the process's. |
| `JudgeSession.UnmovedCreditsAreApprovedHere` | epimemer/mcp/server.py:4884-4913 | That graph is the one the write ran in where no move was under way at the comparison and none began before the reading. |
| `JudgeSession.ApprovedWhereNamedIff` | epimemer/mcp/tools.py:9608-9616 | A credit means approval in the graph the write names, whatever each graph approves, if and only if the backend answers from that graph when the ids are read. |
| `JudgeSession.UnmovedJudgelessIsAllowedHere` | epimemer/mcp/server.py:4902-4907 | A write credited to nobody ran in a graph that asked for no judge when that was read, where no move was under way at the comparison and none began before it. |
| `JudgeSession.AllowedWhereNamedIff` | epimemer/mcp/server.py:4902-4907 | That it means so, whatever each graph's policy, is the backend answering from the graph the write names when the policy is read, exactly. |
| `JudgeSession.ABorrowAnswersForAnotherGraph` | epimemer/storage/surrealdb_adapter.py:1715-1733 | It need not: for any judge approved in another graph and not in the active one, a run in which a borrowed read falls between the two, no graph is switched and no approval changes, and the write is credited to the judge in the active graph. |
| `JudgeSession.TheMemoIsTheLastClaimHere` | epimemer/mcp/server.py:4793-4826 | In every state of every run the memo that spares a re-claim the question answers with the judge of the last claim that went through while this graph was active, and is silent where none did. |
| `JudgeSession.TheMemoWasConfirmedHere` | epimemer/mcp/server.py:4816-4826 | That is a judge the user was asked about in this graph, in every run in which no claim went through in another graph than it was asked in. |
| `JudgeSession.AnAnswerIsRememberedElsewhere` | epimemer/mcp/server.py:5491-5517 | It need not be: a claim asked about in one graph and answered after a switch is remembered in the other, where nobody was asked. |
| `JudgeSession.ATokenCreditsItsOwnClaim` | epimemer/mcp/server.py:4753-4769 | A token is good for the claim that minted it, whatever was claimed since, and for no other judge. |
| `JudgeSession.AnUnknownTokenIsRefused` | epimemer/mcp/server.py:4890-4897 | A token nobody was given never lets a write through, whoever is bound. |
| `JudgeSession.LetThroughIff` | epimemer/mcp/server.py:4829-4913 | A write is let through exactly when it names the graph active at the comparison, its token if any was issued here, the seat is unchanged, and the judge is approved by the graph answering then or the policy read last asks for none. |
| `JudgeSession.RefusedBecause` | epimemer/mcp/server.py:4883-4913 | Why a write is refused: for the graph, else for the token, else for the seat, naming each field that changed and from what to what, else for want of a judge. |
| `JudgeSession.ASwitchClearsIff` | epimemer/mcp/server.py:5550-5576 | Over every run, switches overlapping anyhow: a switch clears the binding if and only if a judge was bound when it asked, the graph answering then approved it and the graph landed in does not; otherwise the connection is unchanged, and a write without a token under a judge the new graph approves is credited to it. |
| `JudgeSession.ASwitchCanClearANewerClaim` | epimemer/mcp/server.py:5550-5576 | The binding is read before the switch takes its turn: a claim made between the two is cleared although the new graph approves it. |
| `JudgeSession.ConnectionState.Claim` | epimemer/mcp/server.py:5491-5517 | A claim that went through leaves the binding, its token and the confirmation memo. |
| `JudgeSession.ConnectionState.BindJudge` | epimemer/mcp/server.py:4782-4790 | Binding or clearing changes the binding alone; without a seat it is one where nothing is known. |
| `JudgeSession.ConnectionState.MintJudgeToken` | epimemer/mcp/server.py:4753-4769 | Minting adds one token, naming the claim and its seat, and forgets none. |
| `JudgeSession.ConnectionState.CheckWrite` | epimemer/mcp/server.py:4884-4913 | The gate every write goes through computes that decision from the graphs at its three waits and changes nothing. |
| `EventBus.RunsAgree` | epimemer/visualization/event_bus.py:153-189 | Over every run of subscribing and unsubscribing the indexes agree with the subscriptions, and those are the ones made and not undone since. |
| `EventBus.PublishCallsTheReached` | epimemer/visualization/event_bus.py:137-151 | Publishing calls exactly the standing subscriptions that match and are global, have a category, or name the event's exact class. |
| `EventBus.PublishIsAFullFilterIff` | epimemer/visualization/event_bus.py:137-151 | So it equals a full filter exactly where no matching one names only a base class. |
| `EventBus.ABaseClassIsNeverCalled` | epimemer/visualization/event_bus.py:65-69 | A subscription to a base class with no category matches an instance of a subclass and never hears of it, against the documented "(or subclasses)". |
| `EventBus.InProcessEventBus.Publish` | epimemer/visualization/event_bus.py:137-151 | The loop over the candidates starts each called subscription once. |
| `EventBus.InProcessEventBus.Subscribe` | epimemer/visualization/event_bus.py:153-179 | The tables after a subscription; without a handler nothing changes. |
| `EventBus.InProcessEventBus.Unsubscribe` | epimemer/visualization/event_bus.py:181-189 | The tables after the closure ran, once or again. |
| `EventBus.ActionIdsSortByNumber` | epimemer/visualization/event_bus.py:124-135 | Action ids sort as text by number while twelve digits are enough; the first longer one sorts too early. |
| `EventBus.InProcessEventBus.NextActionId` | epimemer/visualization/event_bus.py:124-135 | Each call gives the next number, padded. |
| `Bm25.TokensAreTheMaximalRuns` | epimemer/storage/bm25.py:117-138 | The unfolded tokens are exactly the maximal runs of one character class, in order, covering everything but whitespace. |
| `Bm25.AnalyzingTwice` | epimemer/storage/bm25.py:117-138 | Tokens joined by spaces are read back as they were. |
| `Bm25.Analyze` | epimemer/storage/bm25.py:117-138 | The pass with a buffer computes those tokens, folded, empty foldings dropped. |
| `Bm25.TokensAreFoldedRuns` | epimemer/storage/bm25.py:117-138 | A text's tokens are its runs, each folded, in order, those that fold to nothing dropped. |
| `Bm25.WeightSaturates` | epimemer/storage/bm25.py:159-166 | A weight is positive and below k1 + 1, rises with every occurrence and never with the length. |
| `Bm25.WeightIs` | epimemer/storage/bm25.py:159-166 | The weight in closed form, and the number of occurrences at which it is half of what it can come to. |
| `Bm25.CommonTokensSayNothing` | epimemer/storage/bm25.py:141-156 | A token contributes nothing exactly when it is in half the corpus or more, and a rarer one never less. |
| `Bm25.OddsAre` | epimemer/storage/bm25.py:141-156 | A token nobody holds has the odds 2N + 1, and holding and not holding have reciprocal ones. |
| `Bm25.ScoredIffATermIsHeld` | epimemer/storage/bm25.py:169-229 | A document is scored exactly when it holds every token of some term. |
| `Bm25.PositiveIffSomethingRare` | epimemer/storage/bm25.py:141-229 | A matching document scores above zero exactly where some token it was matched on is in less than half the corpus. |
| `Bm25.SayingMoreScoresMore` | epimemer/storage/bm25.py:169-229 | Of two documents of a corpus, the one that says every token asked for at least as often and is no longer scores at least as much; more, if it says a rare token of a matched term more often, or is shorter and length counts. |
| `Bm25.FrequencyCountsDocuments` | epimemer/storage/bm25.py:206-206 | The document frequency of a token is the number of documents that hold it. |
| `Bm25.TheAverageIs` | epimemer/storage/bm25.py:205-205 | The average length is the mean of the lengths. |
| `Bm25.AddingTermsNeverHurts` | epimemer/storage/bm25.py:169-229 | More terms never drop a document and never lower a score. |
| `Bm25.Bm25Scores` | epimemer/storage/bm25.py:205-229 | The loop that fills the dict computes those scores. |
| `Bm25.ContainingRowsComeFirst` | epimemer/storage/bm25.py:89-114 | Every row that holds a term literally, then every other row above zero, each half best first with ties by id, nothing else and nothing twice. |
| `Bm25.HoldsATermIff` | epimemer/storage/bm25.py:68-86 | A row holds a term exactly when the folded term stands somewhere in its folded text, which is empty where it has none. |
| `RelationVerdicts.StandsIffLastWordStands` | epimemer/core/types.py:2068-2085 | A pair is kept out exactly when its greatest row by date and id is not a reopening. |
| `RelationVerdicts.KeptOutIff` | epimemer/core/types.py:2002-2085 | On the rows: two labels are kept out exactly when the row about them decided last, the greater id where two were at once, does not reopen; a pair is its two labels in order. |
| `RelationVerdicts.OrderDoesNotMatter` | epimemer/core/types.py:2068-2085 | Whatever order rows with unique ids arrive in. |
| `RelationVerdicts.LabelOrderDoesNotMatter` | epimemer/core/types.py:2002-2011 | Whichever order each row names its two labels in. |
| `RelationVerdicts.ANewerRowDecidesItsPair` | epimemer/core/types.py:2068-2085 | A row later than all others settles its own pair and no other. |
| `RelationVerdicts.StandingRelationPairs` | epimemer/core/types.py:2080-2085 | The sort-then-overwrite loop computes that set. |

## Left out

- Temporal.AcceptedIffSatisfiable: an instant precise at `datetime.min` or `datetime.max`; the validator compares the sentinels by value and the comparisons by identity, so the two differ there. The conversion of zones to UTC is left out too.
- ActiveGraph.WaitingIsBounded: counts turns, not time; that bodies end is the callers' part, and timeouts and cancellation of a task inside a turn are not modelled, nor is a parent that awaits a child which itself waits for a turn.
- GraphTransfer.Database.ImportGraph: a cancelled task is not caught by `except Exception` and leaves the new graph behind; a failure while cleaning up, or before the guarded part, is not modelled. Embeddings are reduced to whether computing them fails.
- Json.ValueRoundTrip: numbers are kept as their literals; duplicate keys, lone surrogates in `\u` escapes and UTF-8 itself are not part of this model, nor the model classes that validate a row.
- Bundles.OneGraphPerBundle: `\d` is read as the ASCII digits.
- Bundles.DatedBundlesAre: so here; the pattern also takes the decimal digits of other scripts.
- Timestamps.TextOrderIsTimeOrder: the instant is already in UTC.
- MetacontextBases.SerialRunsKeepOneAcyclicBase: one call after another, interrupted or not; interleaved calls are only shown to break it.
- Metacontexts.Graph.StampTagMetacontexts: edges are pairs, so two edges saying the same thing are one.
- Metacontexts.Graph.ReassignMetacontext: of the trail kept on the node, only that it is the last write; withdrawing several edges of one pair counts as one write.
- Metacontexts.Graph.DeclareMetacontext: an interrupted declaration or stamping, which only leaves some of its edges unwritten, and a node put somewhere after the sweep listed it, which the sweep then puts in its own metacontext too.
- NameResolution.KeyIsSpelling: lower case is that of ASCII letters; other scripts keep their case.
- AgentRegistry.ResolvingIgnoresOrder: case folding is that of ASCII letters; a digest stands for its text.
- RegistryRuns.RunsKeepTheInvariant: retiring, reinstating and stamping a description as confirmed store the record as read; the marks themselves are left out, and so is deleting a judge nothing names. It is one graph's registry: a claim whose graph is switched or borrowed while it waits stores into the other one's.
- JudgeSession.CreditsAreEarned: the seat of a call is an input, as is what the user answers; a claim is modelled by where it was asked and by what it leaves behind, the binding, token and memo in one step. The guard enters as what it allows: no write runs during a move.
- EventBus.InProcessEventBus.Publish: handlers are numbered subscriptions; what they do, concurrently or by raising, is not modelled.
- Bm25.ScoredIffATermIsHeld: scores are real numbers, and the Unicode tables, the folding and the logarithm are parameters; only that the logarithm increases and is 0 at 1 is used.
- `resolve_name`, `shared_metacontext_set`, `combined_metacontext_set`, lifecycle and retirement episodes: short enough to read.
- Storage adapters, archives and remote filesystems, elicitation, configuration, logging, embeddings, edge-shape tables and views: not part of this model.
