/** Exporting a graph whole and importing it as a new one
    (epimemer/pipelines/transfer.py). */
module GraphTransfer {
  import opened Options
  import opened Order

  datatype Section =
    | Metacontexts | Agents | Nodes | Edges | Decisions
    | RelationLabels | RelationVerdicts | Timelines | Documents | Segments

  const SECTIONS: set<Section> :=
    {Metacontexts, Agents, Nodes, Edges, Decisions, RelationLabels, RelationVerdicts, Timelines, Documents, Segments}

  /** A stored record: its id, the name and kind of a relation label, and the
      rest of its fields. */
  datatype Row = Row(id: string, name: string, content: string)

  datatype GraphSettings = GraphSettings(
    requireJudge: Option<bool>,
    reflectThreshold: Option<int>,
    backupThreshold: Option<int>,
    storesSinceReflect: int,
    reflectRound: int,
    storesSinceBackup: int,
    mergeOverrides: string,
    deferralOverrides: string,
    warningOverrides: string)

  const FRESH_SETTINGS := GraphSettings(None, None, None, 0, 0, 0, "", "", "")

  /** A graph's rows in the order the backend returns them. */
  datatype Graph = Graph(tables: map<Section, seq<Row>>, approved: seq<string>, settings: GraphSettings)

  predicate Whole(tables: map<Section, seq<Row>>) { tables.Keys == SECTIONS }

  function EmptyGraph(): (g: Graph)
    ensures Whole(g.tables)
  {
    Graph(map s | s in SECTIONS :: [], [], FRESH_SETTINGS)
  }

  datatype Part = Table(section: Section) | ApprovedAgents | SettingsRecord

  datatype Bundle = Bundle(
    tables: map<Section, seq<Row>>,
    approved: seq<string>,
    settings: GraphSettings,
    counts: map<Part, nat>)

  // --- Export ---

  predicate IdLeq(x: Row, y: Row) { TextLeq(x.id, y.id) }

  function SectionCounts(tables: map<Section, seq<Row>>, approved: seq<string>): map<Part, nat> {
    (map s | s in tables :: Table(s) := |tables[s]|) + map[ApprovedAgents := |approved|, SettingsRecord := 1]
  }

  function Export(g: Graph): Bundle {
    var tables := map s | s in g.tables :: Sort(g.tables[s], IdLeq);
    var approved := Sort(g.approved, TextLeq);
    Bundle(tables, approved, g.settings, SectionCounts(tables, approved))
  }

  /** One graph as two backends, or two reads of one, may return it. */
  ghost predicate SameGraph(g: Graph, h: Graph) {
    && g.tables.Keys == h.tables.Keys
    && (forall s :: s in g.tables ==> multiset(g.tables[s]) == multiset(h.tables[s]))
    && multiset(g.approved) == multiset(h.approved)
    && g.settings == h.settings
  }

  ghost predicate UniqueIds(g: Graph) {
    forall s :: s in g.tables ==> Untied(g.tables[s], IdLeq) && forall x :: multiset(g.tables[s])[x] <= 1
  }

  lemma {:induction false} IdOrder()
    ensures TotalPreorder(IdLeq) && TotalPreorder(TextLeq)
  {
    forall x: string, y: string ensures TextLeq(x, y) || TextLeq(y, x) {
      TextLeqTotal(x, y);
    }
    forall x: string, y: string, z: string | TextLeq(x, y) && TextLeq(y, z) ensures TextLeq(x, z) {
      TextLeqTransitive(x, y, z);
    }
  }

  lemma {:induction false} TextsNeverTie(xs: seq<string>)
    ensures Untied(xs, TextLeq)
  {
    forall x, y | x in xs && y in xs && TextLeq(x, y) && TextLeq(y, x) ensures x == y {
      TextLeqTotal(x, y);
    }
  }

  /** The bundle does not depend on the order the backend returned rows in. */
  lemma {:induction false} ExportIsCanonical(g: Graph, h: Graph)
    requires SameGraph(g, h) && UniqueIds(g)
    ensures Export(g) == Export(h)
  {
    IdOrder();
    hide Sort;
    forall s | s in g.tables ensures Sort(g.tables[s], IdLeq) == Sort(h.tables[s], IdLeq) {
      SortIsCanonical(g.tables[s], h.tables[s], IdLeq);
    }
    TextsNeverTie(g.approved);
    SortIsCanonical(g.approved, h.approved, TextLeq);
    assert Export(g).tables == Export(h).tables;
  }

  predicate AscendingIds(rows: seq<Row>) {
    forall i, j :: 0 <= i < j < |rows| ==> TextLeq(rows[i].id, rows[j].id)
  }

  /** Every section of a bundle holds the graph's records, by ascending id, and
      the counts are theirs. */
  lemma {:induction false} ExportIsInOrder(g: Graph, s: Section)
    requires s in g.tables
    ensures s in Export(g).tables && AscendingIds(Export(g).tables[s])
    ensures multiset(Export(g).tables[s]) == multiset(g.tables[s])
    ensures multiset(Export(g).approved) == multiset(g.approved) && SortedBy(Export(g).approved, TextLeq)
    ensures Export(g).settings == g.settings
  {
    IdOrder();
    SortIsSorted(g.tables[s], IdLeq);
    SortIsSorted(g.approved, TextLeq);
    hide Sort;
  }

  // --- Writing verbatim ---

  /** The key a record is stored under; verdicts are only ever appended. */
  function Slot(s: Section, row: Row): Option<string> {
    if s.RelationVerdicts? then None else if s.RelationLabels? then Some(row.name) else Some(row.id)
  }

  /** A dict assignment: an existing key keeps its place. */
  function Put(s: Section, rows: seq<Row>, row: Row): seq<Row> {
    if rows == [] then [row]
    else if Slot(s, row).Some? && Slot(s, rows[0]) == Slot(s, row) then [row] + rows[1..]
    else [rows[0]] + Put(s, rows[1..], row)
  }

  function PutAll(s: Section, rows: seq<Row>, incoming: seq<Row>): seq<Row>
    decreases incoming
  {
    if incoming == [] then rows else PutAll(s, Put(s, rows, incoming[0]), incoming[1..])
  }

  /** No record of the section would overwrite another. */
  ghost predicate UniqueSlots(s: Section, rows: seq<Row>) {
    forall i, j :: 0 <= i < j < |rows| ==> Slot(s, rows[i]).None? || Slot(s, rows[i]) != Slot(s, rows[j])
  }

  lemma {:induction false} PutAppends(s: Section, rows: seq<Row>, row: Row)
    requires forall i :: 0 <= i < |rows| ==> Slot(s, rows[i]).None? || Slot(s, rows[i]) != Slot(s, row)
    ensures Put(s, rows, row) == rows + [row]
  {
    if rows != [] {
      PutAppends(s, rows[1..], row);
    }
  }

  lemma {:induction false} PutAllAppends(s: Section, rows: seq<Row>, incoming: seq<Row>)
    requires UniqueSlots(s, rows + incoming)
    ensures PutAll(s, rows, incoming) == rows + incoming
    decreases incoming
  {
    if incoming != [] {
      var all := rows + incoming;
      assert forall i :: 0 <= i < |rows| ==> all[i] == rows[i] && all[|rows|] == incoming[0];
      PutAppends(s, rows, incoming[0]);
      assert rows + [incoming[0]] + incoming[1..] == all;
      PutAllAppends(s, rows + [incoming[0]], incoming[1..]);
    } else {
      assert rows + incoming == rows;
    }
  }

  /** `g` with the bundle's records written into it. */
  function Written(g: Graph, b: Bundle): (r: Graph)
    requires Whole(g.tables) && Whole(b.tables)
    ensures Whole(r.tables)
  {
    g.(tables := map s | s in SECTIONS :: PutAll(s, g.tables[s], b.tables[s]))
  }

  datatype Setter =
    | RequireJudge | ReflectThreshold | BackupThreshold | MergeOverrides | DeferralOverrides | WarningOverrides
    | ApprovedIds | ReflectCounter | ReflectRound | BackupCounter

  /** The order they are called in. */
  const SETTERS: seq<Setter> :=
    [RequireJudge, ReflectThreshold, BackupThreshold, MergeOverrides, DeferralOverrides, WarningOverrides,
     ApprovedIds, ReflectCounter, ReflectRound, BackupCounter]

  /** One setter called with what the bundle says. */
  function Set(g: Graph, b: Bundle, setter: Setter): (r: Graph)
    ensures r.tables == g.tables
  {
    var was, now := g.settings, b.settings;
    match setter
    case RequireJudge => g.(settings := was.(requireJudge := now.requireJudge))
    case ReflectThreshold => g.(settings := was.(reflectThreshold := now.reflectThreshold))
    case BackupThreshold => g.(settings := was.(backupThreshold := now.backupThreshold))
    case MergeOverrides => g.(settings := was.(mergeOverrides := now.mergeOverrides))
    case DeferralOverrides => g.(settings := was.(deferralOverrides := now.deferralOverrides))
    case WarningOverrides => g.(settings := was.(warningOverrides := now.warningOverrides))
    case ApprovedIds => g.(approved := b.approved)
    case ReflectCounter => g.(settings := was.(storesSinceReflect := now.storesSinceReflect))
    case ReflectRound => g.(settings := was.(reflectRound := now.reflectRound))
    case BackupCounter => g.(settings := was.(storesSinceBackup := now.storesSinceBackup))
  }

  /** `g` once the first `steps` of the setters have been called. */
  function AfterSetters(g: Graph, b: Bundle, steps: nat): (r: Graph)
    ensures r.tables == g.tables
  {
    if steps == 0 then g
    else if steps > |SETTERS| then AfterSetters(g, b, steps - 1)
    else Set(AfterSetters(g, b, steps - 1), b, SETTERS[steps - 1])
  }

  /** However far the setters get, the settings they got to are the bundle's and
      the others the graph's: thresholds before overrides, overrides before
      approvals, counters last. */
  lemma {:induction false} SettersInTurn(g: Graph, b: Bundle, steps: nat)
    ensures var r, was, now := AfterSetters(g, b, steps), g.settings, b.settings;
            && r.settings.requireJudge == (if 1 <= steps then now else was).requireJudge
            && r.settings.reflectThreshold == (if 2 <= steps then now else was).reflectThreshold
            && r.settings.backupThreshold == (if 3 <= steps then now else was).backupThreshold
            && r.settings.mergeOverrides == (if 4 <= steps then now else was).mergeOverrides
            && r.settings.deferralOverrides == (if 5 <= steps then now else was).deferralOverrides
            && r.settings.warningOverrides == (if 6 <= steps then now else was).warningOverrides
            && r.approved == (if 7 <= steps then b.approved else g.approved)
            && r.settings.storesSinceReflect == (if 8 <= steps then now else was).storesSinceReflect
            && r.settings.reflectRound == (if 9 <= steps then now else was).reflectRound
            && r.settings.storesSinceBackup == (if 10 <= steps then now else was).storesSinceBackup
  {
    if steps > 0 {
      SettersInTurn(g, b, steps - 1);
    }
  }

  lemma {:induction false} AllSetters(g: Graph, b: Bundle, steps: nat)
    requires steps >= 10
    ensures AfterSetters(g, b, steps) == g.(approved := b.approved, settings := b.settings)
    ensures AfterSetters(g, b, steps) == AfterSetters(g, b, 10)
  {
    SettersInTurn(g, b, steps);
    SettersInTurn(g, b, 10);
  }

  /** The graph an import that meets no trouble makes. */
  function Restored(b: Bundle): (g: Graph)
    requires Whole(b.tables)
    ensures Whole(g.tables)
  {
    AfterSetters(Written(EmptyGraph(), b), b, 10)
  }

  /** Ids and slots are unique, as the backend's own keys make them. */
  ghost predicate WellKeyed(g: Graph) {
    Whole(g.tables) && UniqueIds(g) && forall s :: s in g.tables ==> UniqueSlots(s, g.tables[s])
  }

  lemma {:induction false} SlotsSurviveSorting(s: Section, rows: seq<Row>, sorted: seq<Row>)
    requires UniqueSlots(s, rows) && multiset(rows) == multiset(sorted)
    requires forall x :: multiset(rows)[x] <= 1
    ensures UniqueSlots(s, sorted)
  {
    SameEntries(rows, sorted);
    forall i, j | 0 <= i < j < |sorted| ensures Slot(s, sorted[i]).None? || Slot(s, sorted[i]) != Slot(s, sorted[j]) {
      assert sorted[i] in sorted && sorted[j] in sorted;
      var k :| 0 <= k < |rows| && rows[k] == sorted[i];
      var l :| 0 <= l < |rows| && rows[l] == sorted[j];
      if k == l {
        TwiceInBag(sorted, i, j);
        assert false;
      }
    }
  }

  lemma {:induction false} TwiceInBag(rows: seq<Row>, i: nat, j: nat)
    requires i < j < |rows| && rows[i] == rows[j]
    ensures multiset(rows)[rows[i]] >= 2
  {
    assert rows == rows[..i] + [rows[i]] + rows[i + 1..j] + [rows[j]] + rows[j + 1..];
  }

  /** A restored section holds the bundle's records in the bundle's order. */
  lemma {:induction false} SectionRestored(g: Graph, s: Section)
    requires WellKeyed(g) && s in SECTIONS
    ensures Restored(Export(g)).tables[s] == Export(g).tables[s]
    ensures multiset(Export(g).tables[s]) == multiset(g.tables[s])
  {
    IdOrder();
    SortIsSorted(g.tables[s], IdLeq);
    hide Sort;
    var sorted := Export(g).tables[s];
    SlotsSurviveSorting(s, g.tables[s], sorted);
    assert [] + sorted == sorted;
    PutAllAppends(s, [], sorted);
  }

  /** Export, import, export: the same bundle, section for section, whatever
      order either backend returns its rows in. */
  lemma {:induction false} ImportRoundTrip(g: Graph, again: Graph)
    requires WellKeyed(g) && SameGraph(Restored(Export(g)), again)
    ensures Export(again) == Export(g)
  {
    var restored := Restored(Export(g));
    hide Restored, Export, UniqueIds;
    forall s | s in SECTIONS
      ensures restored.tables[s] == Export(g).tables[s] && multiset(restored.tables[s]) == multiset(g.tables[s])
    {
      SectionRestored(g, s);
    }
    RestoredIsTheGraph(g);
    ExportIsCanonical(g, restored);
    ExportIsCanonical(g, again);
  }

  lemma {:induction false} RestoredIsTheGraph(g: Graph)
    requires WellKeyed(g)
    ensures SameGraph(g, Restored(Export(g)))
  {
    IdOrder();
    SortIsSorted(g.approved, TextLeq);
    AllSetters(Written(EmptyGraph(), Export(g)), Export(g), 10);
    hide AfterSetters;
    forall s | s in SECTIONS ensures multiset(Restored(Export(g)).tables[s]) == multiset(g.tables[s]) {
      SectionRestored(g, s);
    }
    hide Sort, PutAll, Slot;
  }

  // --- Import ---

  datatype Stage = Embedding | Writing | Restoring(steps: nat) | Counting

  datatype ImportError = InvalidName | AlreadyExists | Failed(stage: Stage) | CountsDisagree

  datatype ImportReport = ImportReport(graph: string, counts: map<Part, nat>)

  predicate ValidGraphName(name: string) {
    1 <= |name| <= 64 && forall i :: 0 <= i < |name| ==> NameChar(name[i])
  }

  predicate NameChar(c: char) {
    'A' <= c <= 'Z' || 'a' <= c <= 'z' || '0' <= c <= '9' || c == '_' || c == '-'
  }

  /** A graph's name is one to sixty-four letters, digits, underscores and hyphens:
      what is just inside and just outside. */
  lemma {:induction false} NamesAtTheEdge(c: char, n: nat)
    ensures forall k :: 0 <= k < 8 ==> ValidGraphName(["AZaz09_-"[k]])
    ensures forall k :: 0 <= k < 10 ==> !ValidGraphName(["@[`{/:. ,~"[k]])
    ensures c > 'z' || c < '-' ==> !ValidGraphName([c])
    ensures ValidGraphName([c]) ==> (ValidGraphName(seq(n, i => c)) <==> 1 <= n <= 64)
    ensures !ValidGraphName([c]) && n > 0 ==> !ValidGraphName(seq(n, i => if i == n - 1 then c else 'a'))
  {
    forall d: char ensures ValidGraphName([d]) <==> NameChar(d) {
      assert [d][0] == d;
    }
    var same, other := seq(n, i => c), seq(n, i => if i == n - 1 then c else 'a');
    assert n > 0 ==> same[0] == c && other[n - 1] == c;
  }

  /** The manifest's counts, or the bundle's own where the manifest has none. */
  function Expected(b: Bundle): map<Part, nat> {
    if b.counts == map[] then SectionCounts(b.tables, b.approved) else b.counts
  }

  predicate CountsAgree(expected: map<Part, nat>, written: map<Part, nat>) {
    forall p :: p in expected && p in written ==> expected[p] == written[p]
  }

  class Database {
    var graphs: map<string, Graph>
    var active: string

    constructor (name: string)
      ensures Valid() && graphs == map[name := EmptyGraph()] && active == name
    {
      graphs := map[name := EmptyGraph()];
      active := name;
    }

    ghost predicate Valid()
      reads this
    {
      active in graphs && forall n :: n in graphs ==> Whole(graphs[n].tables)
    }

    method SwitchDatabase(name: string)
      requires Valid()
      modifies this
      ensures Valid() && active == name
      ensures graphs == if name in old(graphs) then old(graphs) else old(graphs)[name := EmptyGraph()]
    {
      if name !in graphs {
        graphs := graphs[name := EmptyGraph()];
      }
      active := name;
    }

    method DeleteDatabase(name: string) returns (deleted: bool)
      requires Valid()
      modifies this
      ensures Valid() && active == old(active)
      ensures deleted <==> name != active && name in old(graphs)
      ensures graphs == if deleted then old(graphs) - {name} else old(graphs)
    {
      deleted := name != active && name in graphs;
      if deleted {
        graphs := graphs - {name};
      }
    }

    /** All of the bundle's records, or, when the backend fails, none. */
    method WriteVerbatim(b: Bundle, fails: bool) returns (written: bool)
      requires Valid() && Whole(b.tables)
      modifies this
      ensures Valid() && active == old(active) && written == !fails
      ensures graphs == if written then old(graphs[active := Written(graphs[active], b)]) else old(graphs)
    {
      written := !fails;
      if written {
        graphs := graphs[active := Written(graphs[active], b)];
      }
    }

    /** The setters in turn, up to the one that fails. */
    method RestoreSettings(b: Bundle, steps: nat) returns (restored: bool)
      requires Valid()
      modifies this
      ensures Valid() && active == old(active) && restored == (steps >= 10)
      ensures graphs == old(graphs[active := AfterSetters(graphs[active], b, steps)])
    {
      ghost var was, before := graphs[active], graphs;
      for k := 0 to |SETTERS|
        invariant k <= steps && active == old(active) && Valid()
        invariant graphs == before[active := AfterSetters(was, b, k)]
      {
        if k == steps {
          return false;
        }
        graphs := graphs[active := Set(graphs[active], b, SETTERS[k])];
      }
      AllSetters(was, b, steps);
      restored := true;
    }

    /** The guarded part: write, restore, count again. On trouble the active
        graph is left however far that got; no other graph is touched. */
    method Rebuild(b: Bundle, fault: Option<Stage>) returns (outcome: Result<map<Part, nat>, ImportError>)
      requires Valid() && Whole(b.tables) && graphs[active] == EmptyGraph()
      modifies this
      ensures Valid() && active == old(active)
      ensures graphs == old(graphs)[active := graphs[active]]
      ensures outcome.Ok? ==> graphs[active] == Restored(b) && outcome.value == Export(Restored(b)).counts
      ensures outcome.Ok? <==> !Strikes(fault) && CountsAgree(Expected(b), Export(Restored(b)).counts)
    {
      hide Export, EmptyGraph, Whole, Written, AfterSetters, CountsAgree, Expected;
      if fault == Some(Embedding) {
        return Err(Failed(Embedding));
      }
      var written := WriteVerbatim(b, fault == Some(Writing));
      if !written {
        return Err(Failed(Writing));
      }
      var steps := match fault case Some(Restoring(n)) => n case _ => 10;
      var restored := RestoreSettings(b, steps);
      if !restored {
        return Err(Failed(Restoring(steps)));
      }
      AllSetters(Written(EmptyGraph(), b), b, steps);
      if fault == Some(Counting) {
        return Err(Failed(Counting));
      }
      var counts := Export(graphs[active]).counts;
      if !CountsAgree(Expected(b), counts) {
        return Err(CountsDisagree);
      }
      outcome := Ok(counts);
    }

    /** Either exactly one new graph, holding what the bundle holds, or no
        change at all; the active graph is the one it was either way. `fault`
        is the stage the backend or the embedder fails at, if any. */
    method ImportGraph(b: Bundle, name: string, fault: Option<Stage>) returns (r: Result<ImportReport, ImportError>)
      requires Valid() && Whole(b.tables)
      modifies this
      ensures Valid() && active == old(active)
      ensures r.Err? ==> graphs == old(graphs)
      ensures r.Ok? ==> name !in old(graphs) && graphs == old(graphs)[name := Restored(b)]
      ensures r.Ok? ==> r.value == ImportReport(name, Export(Restored(b)).counts)
      ensures r.Ok? <==> ValidGraphName(name) && name !in old(graphs) && !Strikes(fault) && CountsHold(b)
    {
      hide CountsHold, Slots, Export, EmptyGraph, Whole, Restored, CountsAgree, Expected, ValidGraphName, Strikes;
      CountsAgreeIffHeld(b);
      if !ValidGraphName(name) {
        return Err(InvalidName);
      }
      if name in graphs {
        return Err(AlreadyExists);
      }
      var original := active;
      SwitchDatabase(name);
      var outcome := Rebuild(b, fault);
      SwitchDatabase(original);
      if outcome.Err? {
        var _ := DeleteDatabase(name);
        return Err(outcome.error);
      }
      r := Ok(ImportReport(name, outcome.value));
    }
  }

  predicate Strikes(fault: Option<Stage>) {
    fault.Some? && (fault.value.Restoring? ==> fault.value.steps < 10)
  }

  /** An exported bundle is never refused for its counts. */
  lemma {:induction false} ExportsImport(g: Graph)
    requires WellKeyed(g)
    ensures CountsAgree(Expected(Export(g)), Export(Restored(Export(g))).counts)
  {
    ImportRoundTrip(g, Restored(Export(g)));
  }

  // --- What the count comparison refuses ---

  function Slots(s: Section, rows: seq<Row>): set<Option<string>> {
    set i | 0 <= i < |rows| :: Slot(s, rows[i])
  }

  /** How many of a section's records are there once all are written. */
  function Kept(s: Section, rows: seq<Row>): nat {
    if s.RelationVerdicts? then |rows| else |Slots(s, rows)|
  }

  lemma {:induction false} SlotsOfMore(s: Section, row: Row, rows: seq<Row>)
    ensures Slots(s, [row] + rows) == {Slot(s, row)} + Slots(s, rows)
    ensures Slots(s, rows + [row]) == Slots(s, rows) + {Slot(s, row)}
  {
    hide Slot;
    forall k | k in {Slot(s, row)} + Slots(s, rows) ensures k in Slots(s, [row] + rows) && k in Slots(s, rows + [row]) {
      if k == Slot(s, row) {
        assert ([row] + rows)[0] == row && (rows + [row])[|rows|] == row;
      } else {
        var i :| 0 <= i < |rows| && Slot(s, rows[i]) == k;
        assert ([row] + rows)[i + 1] == rows[i] && (rows + [row])[i] == rows[i];
      }
    }
  }

  lemma {:induction false} SlotsCount(s: Section, rows: seq<Row>)
    requires !s.RelationVerdicts?
    ensures |Slots(s, rows)| <= |rows|
    ensures |Slots(s, rows)| == |rows| <==> UniqueSlots(s, rows)
  {
    if rows != [] {
      var first, rest := rows[0], rows[1..];
      assert rows == [first] + rest;
      SlotsCount(s, rest);
      SlotsOfMore(s, first, rest);
      UniqueFromTheFirst(s, first, rest);
      hide Slots, UniqueSlots, Slot;
      assert Slot(s, first) in Slots(s, rest) ==> {Slot(s, first)} + Slots(s, rest) == Slots(s, rest);
    }
  }

  lemma {:induction false} UniqueFromTheFirst(s: Section, first: Row, rest: seq<Row>)
    requires Slot(s, first).Some?
    ensures UniqueSlots(s, [first] + rest) <==> UniqueSlots(s, rest) && Slot(s, first) !in Slots(s, rest)
  {
    var rows := [first] + rest;
    hide Slot;
    assert forall i :: 0 <= i < |rest| ==> rest[i] == rows[i + 1];
    if UniqueSlots(s, rows) {
      assert forall i :: 0 < i < |rows| ==> Slot(s, rows[0]) != Slot(s, rows[i]);
    } else if Slot(s, first) !in Slots(s, rest) {
      TwoSharers(s, first, rest);
    }
  }

  lemma {:induction false} TwoSharers(s: Section, first: Row, rest: seq<Row>)
    requires !UniqueSlots(s, [first] + rest) && Slot(s, first) !in Slots(s, rest)
    ensures !UniqueSlots(s, rest)
  {
    var rows := [first] + rest;
    hide Slot;
    var i, j :| 0 <= i < j < |rows| && Slot(s, rows[i]).Some? && Slot(s, rows[i]) == Slot(s, rows[j]);
    assert rows[j] == rest[j - 1] && Slot(s, rest[j - 1]) in Slots(s, rest);
    assert rows[i] == rest[i - 1];
  }

  /** A record written to a taken slot replaces what was there. */
  lemma {:induction false} PutKeepsSlots(s: Section, rows: seq<Row>, row: Row)
    requires !s.RelationVerdicts?
    ensures Slots(s, Put(s, rows, row)) == Slots(s, rows) + {Slot(s, row)}
    ensures |Put(s, rows, row)| == |rows| + if Slot(s, row) in Slots(s, rows) then 0 else 1
  {
    assert Slot(s, row).Some?;
    if rows == [] {
      SlotsOfMore(s, row, []);
      assert [] + [row] == [row];
    } else {
      var first, rest := rows[0], rows[1..];
      assert rows == [first] + rest;
      SlotsOfMore(s, first, rest);
      SlotsOfMore(s, row, rest);
      hide Slots, Slot;
      if Slot(s, first) != Slot(s, row) {
        PutKeepsSlots(s, rest, row);
        SlotsOfMore(s, first, Put(s, rest, row));
      }
    }
  }

  lemma {:induction false} PutAllKeepsSlots(s: Section, rows: seq<Row>, incoming: seq<Row>)
    requires !s.RelationVerdicts? && |rows| == |Slots(s, rows)|
    ensures |PutAll(s, rows, incoming)| == |Slots(s, rows) + Slots(s, incoming)|
    decreases incoming
  {
    if incoming == [] {
      assert Slots(s, rows) + Slots(s, incoming) == Slots(s, rows);
    } else {
      var now, row, rest := Put(s, rows, incoming[0]), incoming[0], incoming[1..];
      assert PutAll(s, rows, incoming) == PutAll(s, now, rest);
      hide *;
      PutKeepsSlots(s, rows, row);
      SlotsOfMore(s, row, rest);
      assert incoming == [row] + rest;
      OneMoreInSet(Slots(s, rows), Slot(s, row), Slots(s, rest));
      PutAllKeepsSlots(s, now, rest);
    }
  }

  lemma {:induction false} OneMoreInSet<T>(a: set<T>, x: T, b: set<T>)
    ensures |a + {x}| == |a| + if x in a then 0 else 1
    ensures a + {x} + b == a + ({x} + b)
  {
    if x in a {
      assert a + {x} == a;
    }
  }

  lemma {:induction false} EverySection(s: Section)
    ensures s in SECTIONS
  {
    match s {
      case Metacontexts => case Agents => case Nodes => case Edges => case Decisions =>
      case RelationLabels => case RelationVerdicts => case Timelines => case Documents => case Segments =>
    }
  }

  /** One record is kept to a slot, so all are kept exactly where no two share one. */
  lemma {:induction false} AllKeptIffUnique(s: Section, rows: seq<Row>)
    ensures |PutAll(s, [], rows)| == Kept(s, rows) <= |rows|
    ensures Kept(s, rows) == |rows| <==> UniqueSlots(s, rows)
  {
    assert [] + rows == rows;
    if s.RelationVerdicts? {
      PutAllAppends(s, [], rows);
    } else {
      SlotsCount(s, rows);
      assert Slots(s, []) == {} && {} + Slots(s, rows) == Slots(s, rows);
      PutAllKeepsSlots(s, [], rows);
    }
  }

  /** What the manifest has to say of a part for its bundle to be taken. */
  function PartKept(b: Bundle, p: Part): nat
    requires Whole(b.tables)
  {
    match p
    case Table(s) => EverySection(s); Kept(s, b.tables[s])
    case ApprovedAgents => |b.approved|
    case SettingsRecord => 1
  }

  /** An export's counts are the sizes of the graph's own tables. */
  lemma {:induction false} ExportCounts(g: Graph, p: Part)
    requires Whole(g.tables)
    ensures p in Export(g).counts
    ensures p.Table? ==> p.section in g.tables && Export(g).counts[p] == |g.tables[p.section]|
    ensures p.ApprovedAgents? ==> Export(g).counts[p] == |g.approved|
    ensures p.SettingsRecord? ==> Export(g).counts[p] == 1
  {
    IdOrder();
    if p.Table? {
      EverySection(p.section);
      SameSize(g.tables[p.section], IdLeq);
    } else {
      SameSize(g.approved, TextLeq);
    }
    hide Sort, IdLeq, TotalPreorder;
  }

  lemma {:induction false} RestoredCounts(b: Bundle, p: Part)
    requires Whole(b.tables)
    ensures p in Export(Restored(b)).counts && Export(Restored(b)).counts[p] == PartKept(b, p)
  {
    RestoredTables(b);
    hide Export, Restored, PutAll, Kept;
    ExportCounts(Restored(b), p);
    if p.Table? {
      EverySection(p.section);
      AllKeptIffUnique(p.section, b.tables[p.section]);
    }
  }

  lemma {:induction false} RestoredTables(b: Bundle)
    requires Whole(b.tables)
    ensures Restored(b).approved == b.approved
    ensures forall s :: s in SECTIONS ==> Restored(b).tables[s] == PutAll(s, [], b.tables[s])
  {
    hide PutAll;
    AllSetters(Written(EmptyGraph(), b), b, 10);
  }

  lemma {:induction false} SameSize<T(!new)>(xs: seq<T>, leq: (T, T) -> bool)
    requires TotalPreorder(leq)
    ensures |Sort(xs, leq)| == |xs|
  {
    SortIsSorted(xs, leq);
    assert |multiset(xs)| == |multiset(Sort(xs, leq))|;
  }

  /** A bundle is taken exactly when its manifest counts, of every part it
      names, one record to a slot. */
  lemma {:induction false} CountsAgreeIff(b: Bundle)
    requires Whole(b.tables)
    ensures CountsAgree(Expected(b), Export(Restored(b)).counts)
            <==> forall p :: p in Expected(b) ==> Expected(b)[p] == PartKept(b, p)
  {
    hide Expected, Export, Restored, PartKept;
    var written := Export(Restored(b)).counts;
    forall p: Part ensures p in written && written[p] == PartKept(b, p) {
      RestoredCounts(b, p);
    }
  }

  /** How many records of a part a graph holds. */
  function HeldBy(g: Graph, p: Part): nat
    requires Whole(g.tables)
  {
    match p
    case Table(s) => EverySection(s); |g.tables[s]|
    case ApprovedAgents => |g.approved|
    case SettingsRecord => 1
  }

  /** The manifest counts what the restored graph holds; an empty one is taken at
      the bundle's word, which no record then may belie by overwriting another. */
  ghost predicate CountsHold(b: Bundle)
    requires Whole(b.tables)
  {
    if b.counts != map[] then forall p :: p in b.counts ==> b.counts[p] == HeldBy(Restored(b), p)
    else forall s :: s in b.tables ==> UniqueSlots(s, b.tables[s])
  }

  /** What the import compares, in terms of the manifest and the records. */
  lemma {:induction false} CountsAgreeIffHeld(b: Bundle)
    requires Whole(b.tables)
    ensures CountsAgree(Expected(b), Export(Restored(b)).counts) <==> CountsHold(b)
  {
    if b.counts == map[] {
      TakenIffNothingRepeats(b);
    } else {
      hide Export, Restored, UniqueSlots;
      var written := Export(Restored(b)).counts;
      forall p: Part ensures p in written && written[p] == HeldBy(Restored(b), p) {
        ExportCounts(Restored(b), p);
      }
      hide HeldBy;
    }
  }

  /** The manifest counts what the bundle holds, where it counts at all. */
  ghost predicate HonestManifest(b: Bundle)
    requires Whole(b.tables)
  {
    forall p :: p in b.counts ==> p in SectionCounts(b.tables, b.approved) && b.counts[p] == SectionCounts(b.tables, b.approved)[p]
  }

  /** No two records of the part overwrite each other. */
  ghost predicate PartUnique(b: Bundle, p: Part) {
    p.Table? && p.section in b.tables ==> UniqueSlots(p.section, b.tables[p.section])
  }

  lemma {:induction false} HonestPart(b: Bundle, p: Part)
    requires Whole(b.tables) && HonestManifest(b) && p in Expected(b)
    ensures Expected(b)[p] == PartKept(b, p) <==> PartUnique(b, p)
  {
    hide UniqueSlots, Kept;
    if p.Table? {
      EverySection(p.section);
      AllKeptIffUnique(p.section, b.tables[p.section]);
    }
  }

  lemma {:induction false} SectionsCounted(b: Bundle)
    requires Whole(b.tables) && (b.counts == map[] || b.counts == SectionCounts(b.tables, b.approved))
    ensures HonestManifest(b) && forall s :: Table(s) in Expected(b)
  {
    forall s ensures s in b.tables {
      EverySection(s);
    }
  }

  /** What overwriting each other is: two labels of one name, or two other records
      of one id; verdicts never do. */
  lemma {:induction false} WhatRepeats(s: Section, rows: seq<Row>)
    ensures UniqueSlots(s, rows) <==>
              s.RelationVerdicts? || forall i, j :: 0 <= i < j < |rows| ==>
                if s.RelationLabels? then rows[i].name != rows[j].name else rows[i].id != rows[j].id
  {}

  /** The record stored under a key. */
  function StoredAt(s: Section, rows: seq<Row>, key: string): Option<Row> {
    if rows == [] then None else if Slot(s, rows[0]) == Some(key) then Some(rows[0]) else StoredAt(s, rows[1..], key)
  }

  /** The last record with a key. */
  function LastWith(s: Section, rows: seq<Row>, key: string): Option<Row> {
    if rows == [] then None
    else if Slot(s, rows[|rows| - 1]) == Some(key) then Some(rows[|rows| - 1])
    else LastWith(s, rows[..|rows| - 1], key)
  }

  /** Under every key the last of the bundle's records is stored; verdicts have no
      key and are all there, in order. */
  lemma {:induction false} TheLastOneIsStored(s: Section, rows: seq<Row>, key: string)
    ensures StoredAt(s, PutAll(s, [], rows), key) == LastWith(s, rows, key)
    ensures s.RelationVerdicts? ==> PutAll(s, [], rows) == rows
  {
    PutAllStores(s, [], rows, key);
    assert [] + rows == rows;
    if s.RelationVerdicts? {
      PutAllAppends(s, [], rows);
    }
  }

  lemma {:induction false} PutStores(s: Section, rows: seq<Row>, row: Row, key: string)
    ensures StoredAt(s, Put(s, rows, row), key) == if Slot(s, row) == Some(key) then Some(row) else StoredAt(s, rows, key)
  {
    hide Slot;
    if rows != [] {
      PutStores(s, rows[1..], row, key);
      assert ([rows[0]] + Put(s, rows[1..], row))[1..] == Put(s, rows[1..], row);
      assert ([row] + rows[1..])[1..] == rows[1..];
    }
  }

  lemma {:induction false} PutAllStores(s: Section, rows: seq<Row>, incoming: seq<Row>, key: string)
    ensures StoredAt(s, PutAll(s, rows, incoming), key)
            == if LastWith(s, incoming, key).Some? then LastWith(s, incoming, key) else StoredAt(s, rows, key)
    decreases incoming
  {
    hide Slot, Put;
    if incoming != [] {
      PutStores(s, rows, incoming[0], key);
      PutAllStores(s, Put(s, rows, incoming[0]), incoming[1..], key);
      assert incoming == [incoming[0]] + incoming[1..];
      LastWithFront(s, incoming[0], incoming[1..], key);
    }
  }

  lemma {:induction false} LastWithFront(s: Section, first: Row, rest: seq<Row>, key: string)
    ensures LastWith(s, [first] + rest, key)
            == if LastWith(s, rest, key).Some? then LastWith(s, rest, key)
               else if Slot(s, first) == Some(key) then Some(first) else None
  {
    hide Slot;
    if rest != [] {
      var n := |rest|;
      assert ([first] + rest)[n] == rest[n - 1] && ([first] + rest)[..n] == [first] + rest[..n - 1];
      LastWithFront(s, first, rest[..n - 1], key);
    }
  }

  /** A bundle with an honest manifest is taken exactly when no two records of
      a section it counts overwrite each other. */
  lemma {:induction false} RepeatedIdsAreRefused(b: Bundle)
    requires Whole(b.tables) && HonestManifest(b)
    ensures CountsAgree(Expected(b), Export(Restored(b)).counts)
            <==> forall s :: s in b.tables && Table(s) in Expected(b) ==> UniqueSlots(s, b.tables[s])
  {
    CountsAgreeIff(b);
    hide Export, Restored, CountsAgree, PartKept, Expected, HonestManifest, UniqueSlots;
    forall p: Part | p in Expected(b) ensures Expected(b)[p] == PartKept(b, p) <==> PartUnique(b, p) {
      HonestPart(b, p);
    }
    if forall p :: p in Expected(b) ==> PartUnique(b, p) {
      forall s | s in b.tables && Table(s) in Expected(b) ensures UniqueSlots(s, b.tables[s]) {
        assert PartUnique(b, Table(s));
      }
    }
  }

  /** So an uncounted bundle, or one counted as it was exported, is taken
      exactly when no two records of any section overwrite each other. */
  lemma {:induction false} TakenIffNothingRepeats(b: Bundle)
    requires Whole(b.tables) && (b.counts == map[] || b.counts == SectionCounts(b.tables, b.approved))
    ensures CountsAgree(Expected(b), Export(Restored(b)).counts)
            <==> forall s :: s in b.tables ==> UniqueSlots(s, b.tables[s])
  {
    SectionsCounted(b);
    RepeatedIdsAreRefused(b);
    hide *;
  }
}
