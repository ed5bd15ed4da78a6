/** Which pairs of relation labels a standing verdict keeps out of the
    nomination sweep (epimemer/core/types.py). */
module RelationVerdicts {
  import opened Options
  import opened Order

  type Id = string

  datatype Verdict = Distinct | Synonymous | Reopened

  datatype Row = Row(id: Id, labelIds: seq<Id>, verdict: Verdict, decidedAt: int)

  datatype Pair = Pair(a: Id, b: Id)

  /** `relation_pair_key`: one key, whichever order the labels came in. */
  function PairKey(a: Id, b: Id): Pair { if TextLeq(a, b) then Pair(a, b) else Pair(b, a) }

  /** The pair a row is about; a row that does not name two labels is about none. */
  function PairOf(row: Row): Option<Pair> {
    if |row.labelIds| == 2 then Some(PairKey(row.labelIds[0], row.labelIds[1])) else None
  }

  /** By when it was decided, then by id. */
  predicate RowLeq(x: Row, y: Row) {
    x.decidedAt < y.decidedAt || (x.decidedAt == y.decidedAt && TextLeq(x.id, y.id))
  }

  // --- The loop ---

  /** The dict after the rows were written into it in turn. */
  function Newest(rows: seq<Row>): map<Pair, Row> {
    if rows == [] then map[]
    else
      var before, last := Newest(rows[..|rows| - 1]), rows[|rows| - 1];
      if PairOf(last).Some? then before[PairOf(last).value := last] else before
  }

  function Standing(rows: seq<Row>): set<Pair> {
    var newest := Newest(Sort(rows, RowLeq));
    set p | p in newest && !newest[p].verdict.Reopened?
  }

  method StandingRelationPairs(verdicts: seq<Row>) returns (pairs: set<Pair>)
    ensures pairs == Standing(verdicts)
  {
    var newest: map<Pair, Row> := map[];
    var rows := Sort(verdicts, RowLeq);
    for k := 0 to |rows|
      invariant newest == Newest(rows[..k])
    {
      assert rows[..k + 1][..k] == rows[..k];
      if |rows[k].labelIds| != 2 {
        continue;
      }
      newest := newest[PairKey(rows[k].labelIds[0], rows[k].labelIds[1]) := rows[k]];
    }
    assert rows[..|rows|] == rows;
    pairs := set p | p in newest && !newest[p].verdict.Reopened?;
  }

  // --- What it means ---

  /** The last word on a pair. */
  ghost predicate Decides(rows: seq<Row>, p: Pair, row: Row) {
    && row in rows && PairOf(row) == Some(p)
    && forall other :: other in rows && PairOf(other) == Some(p) ==> RowLeq(other, row)
  }

  ghost predicate UniqueIds(rows: seq<Row>) {
    forall x, y :: x in rows && y in rows && x.id == y.id ==> x == y
  }

  lemma {:induction false} RowOrder()
    ensures TotalPreorder(RowLeq)
  {
    forall x: Row, y: Row ensures RowLeq(x, y) || RowLeq(y, x) {
      TextLeqTotal(x.id, y.id);
    }
    forall x: Row, y: Row, z: Row | RowLeq(x, y) && RowLeq(y, z) ensures RowLeq(x, z) {
      if x.decidedAt == y.decidedAt == z.decidedAt {
        TextLeqTransitive(x.id, y.id, z.id);
      }
    }
  }

  lemma {:induction false} RowsNeverTie(rows: seq<Row>)
    requires UniqueIds(rows)
    ensures Untied(rows, RowLeq)
  {
    forall x, y | x in rows && y in rows && RowLeq(x, y) && RowLeq(y, x) ensures x == y {
      TextLeqTotal(x.id, y.id);
    }
  }

  lemma {:induction false} NewestDecides(rows: seq<Row>)
    requires SortedBy(rows, RowLeq) && TotalPreorder(RowLeq)
    ensures forall p :: p in Newest(rows) ==> Decides(rows, p, Newest(rows)[p])
    ensures forall p, row :: Decides(rows, p, row) ==> p in Newest(rows)
  {
    if rows != [] {
      var early, last := rows[..|rows| - 1], rows[|rows| - 1];
      assert rows == early + [last];
      NewestDecides(early);
      hide Newest, RowLeq, PairOf, TotalPreorder;
      LastIsGreatest(rows);
      OneMoreRow(early, last);
    }
  }

  lemma {:induction false} LastIsGreatest(rows: seq<Row>)
    requires rows != [] && SortedBy(rows, RowLeq) && TotalPreorder(RowLeq)
    ensures forall x :: x in rows ==> RowLeq(x, rows[|rows| - 1])
  {}

  lemma {:induction false} OneMoreRow(early: seq<Row>, last: Row)
    requires forall x :: x in early + [last] ==> RowLeq(x, last)
    requires forall p :: p in Newest(early) ==> Decides(early, p, Newest(early)[p])
    requires forall p, row :: Decides(early, p, row) ==> p in Newest(early)
    ensures var rows := early + [last];
            && (forall p :: p in Newest(rows) ==> Decides(rows, p, Newest(rows)[p]))
            && (forall p, row :: Decides(rows, p, row) ==> p in Newest(rows))
  {
    var rows := early + [last];
    assert rows[..|early|] == early && rows[|early|] == last;
    assert Newest(rows) == if PairOf(last).Some? then Newest(early)[PairOf(last).value := last] else Newest(early);
    assert last in rows && forall x :: x in early ==> x in rows;
    assert forall x :: x in rows ==> x in early || x == last;
    hide Newest, RowLeq, PairOf;
    forall p | p in Newest(rows) ensures Decides(rows, p, Newest(rows)[p]) {
      if PairOf(last) != Some(p) {
        assert Decides(early, p, Newest(early)[p]);
      }
    }
    forall p, row | Decides(rows, p, row) ensures p in Newest(rows) {
      if PairOf(last) != Some(p) {
        assert Decides(early, p, row);
      }
    }
  }

  /** The loop keeps out exactly the pairs whose last word, by date and then by
      id, is not a reopening, in whatever order the rows arrive. */
  lemma {:induction false} StandsIffLastWordStands(rows: seq<Row>, p: Pair)
    requires UniqueIds(rows)
    ensures p in Standing(rows) <==> exists row :: Decides(rows, p, row) && !row.verdict.Reopened?
  {
    var sorted := Sort(rows, RowLeq);
    RowOrder();
    SortIsSorted(rows, RowLeq);
    NewestDecides(sorted);
    RowsNeverTie(rows);
    hide Sort, Newest, RowLeq, PairOf, TotalPreorder, SortedBy, UniqueIds;
    forall row ensures Decides(sorted, p, row) <==> Decides(rows, p, row) {}
    if p in Newest(sorted) {
      var newest := Newest(sorted)[p];
      assert Decides(rows, p, newest);
      forall row | Decides(rows, p, row) ensures row == newest {}
    }
  }

  /** The row is about these two labels, in either order. */
  predicate Names(row: Row, a: Id, b: Id) { row.labelIds == [a, b] || row.labelIds == [b, a] }

  predicate NoLaterThan(row: Row, other: Row) {
    row.decidedAt < other.decidedAt || (row.decidedAt == other.decidedAt && TextLeq(row.id, other.id))
  }

  /** In the rows' own terms: two labels are kept out exactly when the row about
      them that was decided last, the greater id where two were at once, answered
      and did not reopen. A pair is its two labels in order. */
  lemma {:induction false} KeptOutIff(rows: seq<Row>, a: Id, b: Id)
    requires UniqueIds(rows)
    ensures PairKey(a, b) == PairKey(b, a) && PairKey(a, b) in {Pair(a, b), Pair(b, a)}
    ensures TextLeq(PairKey(a, b).a, PairKey(a, b).b)
    ensures PairKey(a, b) in Standing(rows) <==>
              exists row :: row in rows && Names(row, a, b) && !row.verdict.Reopened?
                            && forall other :: other in rows && Names(other, a, b) ==> NoLaterThan(other, row)
  {
    TextLeqTotal(a, b);
    StandsIffLastWordStands(rows, PairKey(a, b));
    forall row ensures PairOf(row) == Some(PairKey(a, b)) <==> Names(row, a, b) {
      OnePair(row, a, b);
    }
    hide PairKey, PairOf, Names, Standing;
    forall x: Row, y: Row ensures RowLeq(x, y) <==> NoLaterThan(x, y) {}
    hide RowLeq, NoLaterThan;
  }

  lemma {:induction false} OnePair(row: Row, a: Id, b: Id)
    ensures PairOf(row) == Some(PairKey(a, b)) <==> Names(row, a, b)
  {
    TextLeqTotal(a, b);
    if |row.labelIds| == 2 {
      assert row.labelIds == [row.labelIds[0], row.labelIds[1]];
      TextLeqTotal(row.labelIds[0], row.labelIds[1]);
    }
  }

  lemma {:induction false} OrderDoesNotMatter(rows: seq<Row>, others: seq<Row>)
    requires UniqueIds(rows) && multiset(rows) == multiset(others)
    ensures Standing(rows) == Standing(others)
  {
    RowOrder();
    RowsNeverTie(rows);
    SortIsCanonical(rows, others, RowLeq);
  }

  // --- Swapping labels ---

  function Swapped(row: Row): Row {
    if |row.labelIds| == 2 then row.(labelIds := [row.labelIds[1], row.labelIds[0]]) else row
  }

  ghost predicate SameUpToSwaps(rows: seq<Row>, others: seq<Row>) {
    |rows| == |others| && forall i :: 0 <= i < |rows| ==> others[i] == rows[i] || others[i] == Swapped(rows[i])
  }

  lemma {:induction false} SwappingKeepsThePair(row: Row)
    ensures PairOf(Swapped(row)) == PairOf(row)
    ensures Swapped(row).(labelIds := row.labelIds) == row && Swapped(Swapped(row)) == row
  {
    if |row.labelIds| == 2 {
      TextLeqTotal(row.labelIds[0], row.labelIds[1]);
      assert [row.labelIds[0], row.labelIds[1]] == row.labelIds;
    }
  }

  /** Which order a pair was judged in does not matter, row by row. */
  lemma {:induction false} LabelOrderDoesNotMatter(rows: seq<Row>, others: seq<Row>)
    requires UniqueIds(rows) && UniqueIds(others) && SameUpToSwaps(rows, others)
    ensures Standing(rows) == Standing(others)
  {
    forall p ensures p in Standing(rows) <==> p in Standing(others) {
      StandsIffLastWordStands(rows, p);
      StandsIffLastWordStands(others, p);
      SwapsBack(rows, others);
      if row :| Decides(rows, p, row) && !row.verdict.Reopened? {
        var _ := DecidesAcross(rows, others, p, row);
      }
      if row :| Decides(others, p, row) && !row.verdict.Reopened? {
        var _ := DecidesAcross(others, rows, p, row);
      }
    }
  }

  lemma {:induction false} SwapsBack(rows: seq<Row>, others: seq<Row>)
    requires SameUpToSwaps(rows, others)
    ensures SameUpToSwaps(others, rows)
  {}

  lemma {:induction false} DecidesAcross(rows: seq<Row>, others: seq<Row>, p: Pair, row: Row) returns (other: Row)
    requires SameUpToSwaps(rows, others) && Decides(rows, p, row)
    ensures Decides(others, p, other) && other.verdict == row.verdict
  {
    forall i | 0 <= i < |rows|
      ensures PairOf(others[i]) == PairOf(rows[i]) && others[i].verdict == rows[i].verdict
      ensures others[i].id == rows[i].id && others[i].decidedAt == rows[i].decidedAt
    {
      SwappingKeepsThePair(rows[i]);
    }
    hide PairOf, Swapped, SameUpToSwaps;
    var k :| 0 <= k < |rows| && rows[k] == row;
    other := others[k];
    forall o | o in others && PairOf(o) == Some(p) ensures RowLeq(o, other) {
      var i :| 0 <= i < |others| && others[i] == o;
      assert rows[i] in rows;
      assert RowLeq(rows[i], row);
    }
  }

  // --- One more row ---

  /** A row decided after all the others settles its own pair and no other. */
  lemma {:induction false} ANewerRowDecidesItsPair(rows: seq<Row>, row: Row)
    requires forall x :: x in rows ==>
                           x.decidedAt < row.decidedAt || (x.decidedAt == row.decidedAt && TextLeq(x.id, row.id) && x.id != row.id)
    ensures var own := if PairOf(row).Some? then {PairOf(row).value} else {};
            Standing(rows + [row]) == Standing(rows) - own + if row.verdict.Reopened? then {} else own
  {
    forall x | x in rows ensures RowLeq(x, row) && !RowLeq(row, x) {
      TextLeqTotal(x.id, row.id);
    }
    TextLeqTotal(row.id, row.id);
    GreatestStaysLast(rows, row, RowLeq);
    var sorted := Sort(rows, RowLeq);
    assert (sorted + [row])[..|sorted|] == sorted;
    hide Sort, RowLeq, PairOf;
  }
}
