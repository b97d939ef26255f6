/** The counting rules behind the deep-dive charts: two-key group counts,
    the five most frequent collision types by hour, the ten most frequent
    accident causes, and the collision-type frequency table. */
module DeepDives {

  import opened Cells
  import opened Seqs
  import opened Tables
  import opened Groups

  const HourColumn: string := "hour"
  const CollisionColumn: string := "type_of_collision"
  const CauseColumn: string := "cause_of_accident"
  const SeverityColumn: string := "accident_severity"

  /** The grouping key of one row in one column: a missing value forms no
      group (`groupby` and `value_counts` drop it). */
  function ColumnKeys(t: Table, a: string): (ks: seq<Option<Cell>>)
    requires WellFormed(t) && a in t.header
    ensures |ks| == |t.rows|
    ensures forall i :: 0 <= i < |t.rows| ==>
              (ks[i].Some? <==> !Get(t, i, a).Missing?) && (ks[i].Some? ==> ks[i].value == Get(t, i, a))
  {
    seq(|t.rows|, i requires 0 <= i < |t.rows| => if Get(t, i, a).Missing? then None else Some(Get(t, i, a)))
  }

  /** The grouping key of one row in two columns: present only when both
      values are. */
  function PairKeys(t: Table, a: string, b: string): (ks: seq<Option<(Cell, Cell)>>)
    requires WellFormed(t) && a in t.header && b in t.header
    ensures |ks| == |t.rows|
    ensures forall i :: 0 <= i < |t.rows| ==>
              (ks[i].Some? <==> !Get(t, i, a).Missing? && !Get(t, i, b).Missing?)
              && (ks[i].Some? ==> ks[i].value == (Get(t, i, a), Get(t, i, b)))
  {
    seq(|t.rows|, i requires 0 <= i < |t.rows| =>
      if Get(t, i, a).Missing? || Get(t, i, b).Missing? then None else Some((Get(t, i, a), Get(t, i, b))))
  }

  /** `df.groupby([a, b], observed=True).size()`. */
  function GroupCount2(t: Table, a: string, b: string): seq<Group<(Cell, Cell)>>
    requires WellFormed(t) && a in t.header && b in t.header
  {
    GroupSizes(PairKeys(t, a, b))
  }

  /** One line per observed pair of present values, counting the rows with
      that pair (so at least 1); the counts add up to the rows where both
      values are present. */
  lemma GroupCount2Spec(t: Table, a: string, b: string)
    requires WellFormed(t) && a in t.header && b in t.header
    ensures Distinct(Keys(GroupCount2(t, a, b)))
    ensures forall x, y :: (x, y) in Keys(GroupCount2(t, a, b)) <==>
              exists i :: 0 <= i < |t.rows| && Get(t, i, a) == x && Get(t, i, b) == y && !x.Missing? && !y.Missing?
    ensures forall i :: 0 <= i < |GroupCount2(t, a, b)| ==>
              GroupCount2(t, a, b)[i].count == Occurrences(PairKeys(t, a, b), GroupCount2(t, a, b)[i].key) >= 1
    ensures Total(GroupCount2(t, a, b)) == Present(PairKeys(t, a, b))
  {
    var ks := PairKeys(t, a, b);
    GroupSizesSpec(ks);
    forall x, y ensures (x, y) in Keys(GroupCount2(t, a, b)) <==>
              exists i :: 0 <= i < |t.rows| && Get(t, i, a) == x && Get(t, i, b) == y && !x.Missing? && !y.Missing?
    {
      if Some((x, y)) in ks {
        var i :| 0 <= i < |ks| && ks[i] == Some((x, y));
        assert Get(t, i, a) == x && Get(t, i, b) == y;
      }
      if exists i :: 0 <= i < |t.rows| && Get(t, i, a) == x && Get(t, i, b) == y && !x.Missing? && !y.Missing? {
        var i :| 0 <= i < |t.rows| && Get(t, i, a) == x && Get(t, i, b) == y && !x.Missing? && !y.Missing?;
        assert ks[i] == Some((x, y));
      }
    }
  }

  // ---------------------------------------------------------------------
  // Top five collision types by hour

  /** The collision type of an (hour, type) pair. */
  function CollisionOf(p: (Cell, Cell)): Cell { p.1 }

  /** The cause of a (cause, severity) pair. */
  function CauseOf(p: (Cell, Cell)): Cell { p.0 }

  /** `groupby(['hour', 'type_of_collision']).size()` re-summed per
      collision type. */
  function CollisionTotals(t: Table): seq<Group<Cell>>
    requires WellFormed(t) && HourColumn in t.header && CollisionColumn in t.header
  {
    Regroup(PairKeys(t, HourColumn, CollisionColumn), CollisionOf)
  }

  /** `...['count'].sum().nlargest(5).index.tolist()`. */
  function TopCollisionTypes(t: Table): seq<Cell>
    requires WellFormed(t) && HourColumn in t.header && CollisionColumn in t.header
  {
    Keys(TopK(CollisionTotals(t), 5))
  }

  /** The hour-by-type count restricted to the top collision types. */
  function KeepTopCollisions(t: Table): (r: seq<Group<(Cell, Cell)>>)
    requires WellFormed(t) && HourColumn in t.header && CollisionColumn in t.header
    ensures IsSubsequence(r, GroupCount2(t, HourColumn, CollisionColumn))
    ensures forall g :: g in r <==> g in GroupCount2(t, HourColumn, CollisionColumn) && g.key.1 in TopCollisionTypes(t)
  {
    var top := TopCollisionTypes(t);
    Filter(GroupCount2(t, HourColumn, CollisionColumn), (g: Group<(Cell, Cell)>) => g.key.1 in top)
  }

  /** Five types are kept, or all when there are fewer. The totals list exactly the types of
      the rows with both hour and type present, each with its number of
      such rows, and every type left out (listed or not) totals no more
      than any type kept. */
  lemma TopCollisionsSpec(t: Table)
    requires WellFormed(t) && HourColumn in t.header && CollisionColumn in t.header
    ensures |TopCollisionTypes(t)| == if 5 < |CollisionTotals(t)| then 5 else |CollisionTotals(t)|
    ensures forall i :: 0 <= i < |CollisionTotals(t)| ==>
              CollisionTotals(t)[i].count == OccurrencesBy(PairKeys(t, HourColumn, CollisionColumn), CollisionOf, CollisionTotals(t)[i].key)
    ensures forall i, j :: 0 <= i < |TopK(CollisionTotals(t), 5)| && 0 <= j < |Dropped(CollisionTotals(t), 5)| ==>
              Dropped(CollisionTotals(t), 5)[j].count <= TopK(CollisionTotals(t), 5)[i].count
    ensures forall x :: x in Keys(CollisionTotals(t)) <==> exists i :: 0 <= i < |t.rows| && HourAndType(t, i) && Get(t, i, CollisionColumn) == x
    ensures forall i, j ::
              (0 <= i < |t.rows| && HourAndType(t, i) && Get(t, i, CollisionColumn) !in TopCollisionTypes(t) && 0 <= j < |TopK(CollisionTotals(t), 5)|) ==>
              OccurrencesBy(PairKeys(t, HourColumn, CollisionColumn), CollisionOf, Get(t, i, CollisionColumn)) <= TopK(CollisionTotals(t), 5)[j].count
  {
    RegroupCounts(PairKeys(t, HourColumn, CollisionColumn), CollisionOf);
    TopKSpec(CollisionTotals(t), 5);
    CollisionTotalsListRows(t);
    CollisionTotalsDominate(t);
  }

  /** The listed types are exactly those of the rows with both values. */
  lemma CollisionTotalsListRows(t: Table)
    requires WellFormed(t) && HourColumn in t.header && CollisionColumn in t.header
    ensures forall x :: x in Keys(CollisionTotals(t)) <==> exists i :: 0 <= i < |t.rows| && HourAndType(t, i) && Get(t, i, CollisionColumn) == x
  {
    var ks := PairKeys(t, HourColumn, CollisionColumn);
    RegroupCounts(ks, CollisionOf);
    forall x ensures x in Keys(CollisionTotals(t)) <==> exists i :: 0 <= i < |t.rows| && HourAndType(t, i) && Get(t, i, CollisionColumn) == x {
      if x in Keys(CollisionTotals(t)) {
        var p :| Some(p) in ks && CollisionOf(p) == x;
        var i :| 0 <= i < |ks| && ks[i] == Some(p);
        assert HourAndType(t, i) && Get(t, i, CollisionColumn) == x;
      }
      if exists i :: 0 <= i < |t.rows| && HourAndType(t, i) && Get(t, i, CollisionColumn) == x {
        var i :| 0 <= i < |t.rows| && HourAndType(t, i) && Get(t, i, CollisionColumn) == x;
        assert Some(ks[i].value) in ks;
      }
    }
  }

  /** A row's type left out of the top list totals no more than any kept one. */
  lemma CollisionTotalsDominate(t: Table)
    requires WellFormed(t) && HourColumn in t.header && CollisionColumn in t.header
    ensures forall i, j ::
              (0 <= i < |t.rows| && HourAndType(t, i) && Get(t, i, CollisionColumn) !in TopCollisionTypes(t) && 0 <= j < |TopK(CollisionTotals(t), 5)|) ==>
              OccurrencesBy(PairKeys(t, HourColumn, CollisionColumn), CollisionOf, Get(t, i, CollisionColumn)) <= TopK(CollisionTotals(t), 5)[j].count
  {
    var ks := PairKeys(t, HourColumn, CollisionColumn);
    forall i | 0 <= i < |t.rows| && HourAndType(t, i) && Get(t, i, CollisionColumn) !in TopCollisionTypes(t)
      ensures forall j :: 0 <= j < |TopK(CollisionTotals(t), 5)| ==>
                OccurrencesBy(ks, CollisionOf, Get(t, i, CollisionColumn)) <= TopK(CollisionTotals(t), 5)[j].count
    {
      assert Some(ks[i].value) in ks;
      RegroupTopK(ks, CollisionOf, 5, ks[i].value);
    }
  }

  /** Row `i` has both an hour and a collision type. */
  predicate HourAndType(t: Table, i: nat)
    requires WellFormed(t) && HourColumn in t.header && CollisionColumn in t.header && i < |t.rows|
  {
    !Get(t, i, HourColumn).Missing? && !Get(t, i, CollisionColumn).Missing?
  }

  // ---------------------------------------------------------------------
  // Top ten causes

  /** `groupby(['cause_of_accident', 'accident_severity']).size()`
      re-summed per cause. */
  function CauseTotals(t: Table): seq<Group<Cell>>
    requires WellFormed(t) && CauseColumn in t.header && SeverityColumn in t.header
  {
    Regroup(PairKeys(t, CauseColumn, SeverityColumn), CauseOf)
  }

  /** `total_by_cause.nlargest(10).index.tolist()`. */
  function TopCauses(t: Table): seq<Cell>
    requires WellFormed(t) && CauseColumn in t.header && SeverityColumn in t.header
  {
    Keys(TopK(CauseTotals(t), 10))
  }

  /** The cause-by-severity count restricted to the top causes. */
  function KeepTopCauses(t: Table): (r: seq<Group<(Cell, Cell)>>)
    requires WellFormed(t) && CauseColumn in t.header && SeverityColumn in t.header
    ensures IsSubsequence(r, GroupCount2(t, CauseColumn, SeverityColumn))
    ensures forall g :: g in r <==> g in GroupCount2(t, CauseColumn, SeverityColumn) && g.key.0 in TopCauses(t)
  {
    var top := TopCauses(t);
    Filter(GroupCount2(t, CauseColumn, SeverityColumn), (g: Group<(Cell, Cell)>) => g.key.0 in top)
  }

  /** Ten causes are kept, or all when there are fewer. The totals list exactly the causes of
      the rows with a present severity, each with its number of such rows,
      and every cause left out totals no more than any cause kept. */
  lemma TopCausesSpec(t: Table)
    requires WellFormed(t) && CauseColumn in t.header && SeverityColumn in t.header
    ensures |TopCauses(t)| == if 10 < |CauseTotals(t)| then 10 else |CauseTotals(t)|
    ensures forall i :: 0 <= i < |CauseTotals(t)| ==>
              CauseTotals(t)[i].count == OccurrencesBy(PairKeys(t, CauseColumn, SeverityColumn), CauseOf, CauseTotals(t)[i].key)
    ensures forall i, j :: 0 <= i < |TopK(CauseTotals(t), 10)| && 0 <= j < |Dropped(CauseTotals(t), 10)| ==>
              Dropped(CauseTotals(t), 10)[j].count <= TopK(CauseTotals(t), 10)[i].count
    ensures forall x :: x in Keys(CauseTotals(t)) <==> exists i :: 0 <= i < |t.rows| && CauseAndSeverity(t, i) && Get(t, i, CauseColumn) == x
    ensures forall i, j ::
              (0 <= i < |t.rows| && CauseAndSeverity(t, i) && Get(t, i, CauseColumn) !in TopCauses(t) && 0 <= j < |TopK(CauseTotals(t), 10)|) ==>
              OccurrencesBy(PairKeys(t, CauseColumn, SeverityColumn), CauseOf, Get(t, i, CauseColumn)) <= TopK(CauseTotals(t), 10)[j].count
  {
    RegroupCounts(PairKeys(t, CauseColumn, SeverityColumn), CauseOf);
    TopKSpec(CauseTotals(t), 10);
    CauseTotalsListRows(t);
    CauseTotalsDominate(t);
  }

  /** The listed causes are exactly those of the rows with both values. */
  lemma CauseTotalsListRows(t: Table)
    requires WellFormed(t) && CauseColumn in t.header && SeverityColumn in t.header
    ensures forall x :: x in Keys(CauseTotals(t)) <==> exists i :: 0 <= i < |t.rows| && CauseAndSeverity(t, i) && Get(t, i, CauseColumn) == x
  {
    var ks := PairKeys(t, CauseColumn, SeverityColumn);
    RegroupCounts(ks, CauseOf);
    forall x ensures x in Keys(CauseTotals(t)) <==> exists i :: 0 <= i < |t.rows| && CauseAndSeverity(t, i) && Get(t, i, CauseColumn) == x {
      if x in Keys(CauseTotals(t)) {
        var p :| Some(p) in ks && CauseOf(p) == x;
        var i :| 0 <= i < |ks| && ks[i] == Some(p);
        assert CauseAndSeverity(t, i) && Get(t, i, CauseColumn) == x;
      }
      if exists i :: 0 <= i < |t.rows| && CauseAndSeverity(t, i) && Get(t, i, CauseColumn) == x {
        var i :| 0 <= i < |t.rows| && CauseAndSeverity(t, i) && Get(t, i, CauseColumn) == x;
        assert Some(ks[i].value) in ks;
      }
    }
  }

  /** A row's cause left out of the top list totals no more than any kept one. */
  lemma CauseTotalsDominate(t: Table)
    requires WellFormed(t) && CauseColumn in t.header && SeverityColumn in t.header
    ensures forall i, j ::
              (0 <= i < |t.rows| && CauseAndSeverity(t, i) && Get(t, i, CauseColumn) !in TopCauses(t) && 0 <= j < |TopK(CauseTotals(t), 10)|) ==>
              OccurrencesBy(PairKeys(t, CauseColumn, SeverityColumn), CauseOf, Get(t, i, CauseColumn)) <= TopK(CauseTotals(t), 10)[j].count
  {
    var ks := PairKeys(t, CauseColumn, SeverityColumn);
    forall i | 0 <= i < |t.rows| && CauseAndSeverity(t, i) && Get(t, i, CauseColumn) !in TopCauses(t)
      ensures forall j :: 0 <= j < |TopK(CauseTotals(t), 10)| ==>
                OccurrencesBy(ks, CauseOf, Get(t, i, CauseColumn)) <= TopK(CauseTotals(t), 10)[j].count
    {
      assert Some(ks[i].value) in ks;
      RegroupTopK(ks, CauseOf, 10, ks[i].value);
    }
  }

  /** Row `i` has both a cause and a severity. */
  predicate CauseAndSeverity(t: Table, i: nat)
    requires WellFormed(t) && CauseColumn in t.header && SeverityColumn in t.header && i < |t.rows|
  {
    !Get(t, i, CauseColumn).Missing? && !Get(t, i, SeverityColumn).Missing?
  }

  // ---------------------------------------------------------------------
  // Collision-type frequencies

  /** `df['type_of_collision'].value_counts().head(5)`. */
  function CollisionFrequencies(t: Table): seq<Group<Cell>>
    requires WellFormed(t) && CollisionColumn in t.header
  {
    TopK(GroupSizes(ColumnKeys(t, CollisionColumn)), 5)
  }

  /** Five lines (all, when fewer types occur), largest count first, each counting the rows of its
      collision type; every type left out, whether cut by `head(5)` or a
      row's type not listed, occurs no more often than any kept type. */
  lemma CollisionFrequenciesSpec(t: Table)
    requires WellFormed(t) && CollisionColumn in t.header
    ensures |CollisionFrequencies(t)| == if 5 < |GroupSizes(ColumnKeys(t, CollisionColumn))| then 5 else |GroupSizes(ColumnKeys(t, CollisionColumn))|
    ensures forall i, j :: 0 <= i < j < |CollisionFrequencies(t)| ==>
              CollisionFrequencies(t)[i].count >= CollisionFrequencies(t)[j].count
    ensures forall i :: 0 <= i < |CollisionFrequencies(t)| ==>
              CollisionFrequencies(t)[i].count == Occurrences(ColumnKeys(t, CollisionColumn), CollisionFrequencies(t)[i].key)
    ensures forall i, j :: 0 <= i < |CollisionFrequencies(t)| && 0 <= j < |Dropped(GroupSizes(ColumnKeys(t, CollisionColumn)), 5)| ==>
              Dropped(GroupSizes(ColumnKeys(t, CollisionColumn)), 5)[j].count <= CollisionFrequencies(t)[i].count
    ensures forall i, j ::
              (0 <= i < |t.rows| && !Get(t, i, CollisionColumn).Missing?
               && Get(t, i, CollisionColumn) !in Keys(CollisionFrequencies(t)) && 0 <= j < |CollisionFrequencies(t)|) ==>
              Occurrences(ColumnKeys(t, CollisionColumn), Get(t, i, CollisionColumn)) <= CollisionFrequencies(t)[j].count
  {
    TopKCounts(ColumnKeys(t, CollisionColumn), 5);
    CollisionFrequenciesDominate(t);
  }

  /** A row's collision type left out of the frequency table occurs no more
      often than any kept type. */
  lemma CollisionFrequenciesDominate(t: Table)
    requires WellFormed(t) && CollisionColumn in t.header
    ensures forall i, j ::
              (0 <= i < |t.rows| && !Get(t, i, CollisionColumn).Missing?
               && Get(t, i, CollisionColumn) !in Keys(CollisionFrequencies(t)) && 0 <= j < |CollisionFrequencies(t)|) ==>
              Occurrences(ColumnKeys(t, CollisionColumn), Get(t, i, CollisionColumn)) <= CollisionFrequencies(t)[j].count
  {
    var ks := ColumnKeys(t, CollisionColumn);
    forall i | 0 <= i < |t.rows| && !Get(t, i, CollisionColumn).Missing? && Get(t, i, CollisionColumn) !in Keys(CollisionFrequencies(t))
      ensures forall j :: 0 <= j < |CollisionFrequencies(t)| ==>
                Occurrences(ks, Get(t, i, CollisionColumn)) <= CollisionFrequencies(t)[j].count
    {
      assert Some(Get(t, i, CollisionColumn)) == ks[i];
      TopKCountsDominate(ks, 5, Get(t, i, CollisionColumn));
    }
  }
}
