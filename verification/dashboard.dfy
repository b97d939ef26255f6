/** The row-level rules of the two dashboards: the sidebar's area options,
    the severity-and-area row filter, the severe subset and the
    severe/fatal accident rate. The English and Chinese dashboards run the
    same rules over their own severity lists. */
module Dashboard {

  import opened Cells
  import opened Seqs
  import opened Tables
  import opened Categories

  const SeverityColumn: string := "accident_severity"
  const AreaColumn: string := "area_accident_occured"

  /** An exact fraction `num / den`. */
  datatype Ratio = Ratio(num: int, den: nat)

  /** The labels of a column, one per row: `None` where a cell has none. */
  function Labels(cells: seq<Cell>): (ls: seq<Option<string>>)
    ensures |ls| == |cells|
    ensures forall i :: 0 <= i < |cells| ==> ls[i] == Label(cells[i])
  {
    seq(|cells|, i requires 0 <= i < |cells| => Label(cells[i]))
  }

  // ---------------------------------------------------------------------
  // Area options (`df['area_accident_occured'].dropna().unique().tolist()`)

  /** The distinct labels of `cells`, in order of first appearance. */
  function Uniques(cells: seq<Cell>): (r: seq<string>)
    ensures Distinct(r)
    ensures forall x :: x in r <==> Some(x) in Labels(cells)
    decreases |cells|
  {
    if |cells| == 0 then []
    else
      var init := cells[..|cells| - 1];
      var u := Uniques(init);
      var c := cells[|cells| - 1];
      assert Labels(cells) == Labels(init) + [Label(c)];
      if Label(c).Some? && Label(c).value !in u then
        var r := u + [Label(c).value];
        assert forall i :: 0 <= i < |u| ==> r[i] == u[i];
        r
      else u
  }

  /** The area options offered (and preselected) in the sidebar. */
  function AreaOptions(t: Table): seq<string>
    requires WellFormed(t) && AreaColumn in t.header
  {
    Uniques(Column(t, AreaColumn))
  }

  /** The options have no duplicates and no missing value, and are exactly
      the labels that occur in the area column. */
  lemma AreaOptionsSpec(t: Table)
    requires WellFormed(t) && AreaColumn in t.header
    ensures Distinct(AreaOptions(t))
    ensures forall x :: x in AreaOptions(t) <==> exists i :: 0 <= i < |t.rows| && Label(Get(t, i, AreaColumn)) == Some(x)
  {
    var col := Column(t, AreaColumn);
    forall x ensures x in AreaOptions(t) <==> exists i :: 0 <= i < |t.rows| && Label(Get(t, i, AreaColumn)) == Some(x) {
      if x in AreaOptions(t) {
        var i :| 0 <= i < |col| && Labels(col)[i] == Some(x);
        assert Label(Get(t, i, AreaColumn)) == Some(x);
      }
      if exists i :: 0 <= i < |t.rows| && Label(Get(t, i, AreaColumn)) == Some(x) {
        var i :| 0 <= i < |t.rows| && Label(Get(t, i, AreaColumn)) == Some(x);
        assert Labels(col)[i] == Some(x);
      }
    }
  }

  // ---------------------------------------------------------------------
  // Row filter

  /** A boolean mask applied to the rows, `df[mask]`: the rows satisfying
      `p`, in their original order and with their repetitions, under the
      same header. */
  function KeepRows(t: Table, p: seq<Cell> -> bool): (r: Table)
    requires WellFormed(t)
    ensures WellFormed(r) && r.header == t.header
    ensures IsSubsequence(r.rows, t.rows)
    ensures forall row :: row in r.rows <==> row in t.rows && p(row)
    ensures forall row :: multiset(r.rows)[row] == if p(row) then multiset(t.rows)[row] else 0
  {
    var rows := Filter(t.rows, p);
    assert forall i :: 0 <= i < |rows| ==> |rows[i]| == |t.header| by {
      forall i | 0 <= i < |rows| ensures |rows[i]| == |t.header| {
        assert rows[i] in t.rows;
        var j :| 0 <= j < |t.rows| && t.rows[j] == rows[i];
      }
    }
    Table(t.header, rows)
  }

  /** Whether `row` of a table with header `hs` passes the sidebar filters:
      its severity is among `sevSel` and its area among `areaSel`. A missing
      value matches nothing. */
  predicate Selected(hs: seq<string>, sevSel: set<string>, areaSel: set<string>, row: seq<Cell>)
    requires SeverityColumn in hs && AreaColumn in hs
  {
    var s := IndexOf(hs, SeverityColumn);
    var a := IndexOf(hs, AreaColumn);
    s < |row| && a < |row| && IsIn(row[s], sevSel) && IsIn(row[a], areaSel)
  }

  /** The filtered table the charts and KPIs are drawn from. */
  function SelectRows(t: Table, sevSel: set<string>, areaSel: set<string>): (r: Table)
    requires WellFormed(t) && SeverityColumn in t.header && AreaColumn in t.header
    ensures WellFormed(r) && r.header == t.header
    ensures IsSubsequence(r.rows, t.rows)
    ensures forall row :: row in r.rows <==> row in t.rows && Selected(t.header, sevSel, areaSel, row)
    ensures forall row :: multiset(r.rows)[row] == if Selected(t.header, sevSel, areaSel, row) then multiset(t.rows)[row] else 0
  {
    KeepRows(t, row => Selected(t.header, sevSel, areaSel, row))
  }

  /** Widening either selection never loses a row: the narrower result is
      a subsequence of the wider one. */
  lemma SelectMonotone(t: Table, s1: set<string>, a1: set<string>, s2: set<string>, a2: set<string>)
    requires WellFormed(t) && SeverityColumn in t.header && AreaColumn in t.header
    requires s1 <= s2 && a1 <= a2
    ensures IsSubsequence(SelectRows(t, s1, a1).rows, SelectRows(t, s2, a2).rows)
  {
    FilterMonotone(t.rows, row => Selected(t.header, s1, a1, row), row => Selected(t.header, s2, a2, row));
  }

  /** Both columns of `row` hold a value with a label. */
  predicate Known(hs: seq<string>, row: seq<Cell>)
    requires SeverityColumn in hs && AreaColumn in hs
  {
    var s := IndexOf(hs, SeverityColumn);
    var a := IndexOf(hs, AreaColumn);
    s < |row| && a < |row| && Label(row[s]).Some? && Label(row[a]).Some?
  }

  /** With the default selections, every severity of `order` and every area
      option, exactly the rows whose severity and area are both present are
      kept, provided the severity column was cast onto `order`. */
  lemma SelectDefault(t: Table, order: seq<string>)
    requires WellFormed(t) && SeverityColumn in t.header && AreaColumn in t.header
    requires forall i :: 0 <= i < |t.rows| ==> InDomain(order, Get(t, i, SeverityColumn))
    ensures SelectRows(t, set s | s in order, set a | a in AreaOptions(t)).rows
            == Filter(t.rows, row => Known(t.header, row))
  {
    var sevAll, areaAll := set s | s in order, set a | a in AreaOptions(t);
    var col := Column(t, AreaColumn);
    forall row | row in t.rows
      ensures Selected(t.header, sevAll, areaAll, row) <==> Known(t.header, row)
    {
      var i :| 0 <= i < |t.rows| && t.rows[i] == row;
      var sv, a := IndexOf(t.header, SeverityColumn), IndexOf(t.header, AreaColumn);
      assert row[sv] == Get(t, i, SeverityColumn);
      assert Label(row[sv]).Some? ==> Label(row[sv]).value in order;
      assert Labels(col)[i] == Label(row[a]);
      assert Label(row[a]).Some? ==> Some(Label(row[a]).value) in Labels(col);
    }
    FilterCongruent(t.rows, row => Selected(t.header, sevAll, areaAll, row), row => Known(t.header, row));
  }

  // ---------------------------------------------------------------------
  // Severe subset and critical rate

  /** Whether `row`'s severity is one of `critical`. */
  predicate IsCritical(hs: seq<string>, critical: set<string>, row: seq<Cell>)
    requires SeverityColumn in hs
  {
    var s := IndexOf(hs, SeverityColumn);
    s < |row| && IsIn(row[s], critical)
  }

  /** `df[df['accident_severity'].isin(critical)]`. */
  function SevereSubset(t: Table, critical: set<string>): (r: Table)
    requires WellFormed(t) && SeverityColumn in t.header
    ensures WellFormed(r) && r.header == t.header
    ensures IsSubsequence(r.rows, t.rows)
    ensures forall row :: row in r.rows <==> row in t.rows && IsCritical(t.header, critical, row)
    ensures forall row :: multiset(r.rows)[row] == if IsCritical(t.header, critical, row) then multiset(t.rows)[row] else 0
  {
    KeepRows(t, row => IsCritical(t.header, critical, row))
  }

  /** The severe/fatal accident rate in percent: critical rows over all
      rows, times 100, and 0 for an empty table. */
  function CriticalRate(t: Table, critical: set<string>): (r: Ratio)
    requires WellFormed(t) && SeverityColumn in t.header
    ensures r.den > 0 && 0 <= r.num <= 100 * r.den
    ensures |t.rows| == 0 ==> r.num == 0
  {
    var n := |SevereSubset(t, critical).rows|;
    if |t.rows| > 0 then Ratio(100 * n, |t.rows|) else Ratio(0, 1)
  }

  /** The number of rows whose severity category has rank at least 1. */
  function TopRanked(t: Table): nat
    requires WellFormed(t) && SeverityColumn in t.header
  {
    var s := IndexOf(t.header, SeverityColumn);
    CountIf(t.rows, (row: seq<Cell>) => s < |row| && row[s].Category? && row[s].rank >= 1)
  }

  /** On a table whose severities were cast onto the English order, the
      critical rate counts exactly the rows of severity rank 1 or 2. */
  lemma CriticalRateRanks(t: Table)
    requires WellFormed(t) && SeverityColumn in t.header && |t.rows| > 0
    requires forall i :: 0 <= i < |t.rows| ==> InDomain(SeverityOrder, Get(t, i, SeverityColumn))
    ensures CriticalRate(t, set s | s in CriticalSeverity) == Ratio(100 * TopRanked(t), |t.rows|)
  {
    var crit := set s | s in CriticalSeverity;
    var s := IndexOf(t.header, SeverityColumn);
    var p := (row: seq<Cell>) => IsCritical(t.header, crit, row);
    var q := (row: seq<Cell>) => s < |row| && row[s].Category? && row[s].rank >= 1;
    forall row | row in t.rows ensures p(row) <==> q(row) {
      var i :| 0 <= i < |t.rows| && t.rows[i] == row;
      assert row[s] == Get(t, i, SeverityColumn);
      CriticalIsTopTwoRanks(row[s]);
    }
    FilterCongruent(t.rows, p, q);
    FilterLength(t.rows, q);
  }

  /** The same for the Chinese dashboard and its own severity order. */
  lemma CriticalRateRanksZh(t: Table)
    requires WellFormed(t) && SeverityColumn in t.header && |t.rows| > 0
    requires forall i :: 0 <= i < |t.rows| ==> InDomain(SeverityOrderZh, Get(t, i, SeverityColumn))
    ensures CriticalRate(t, set s | s in CriticalSeverityZh) == Ratio(100 * TopRanked(t), |t.rows|)
  {
    var crit := set s | s in CriticalSeverityZh;
    var s := IndexOf(t.header, SeverityColumn);
    var p := (row: seq<Cell>) => IsCritical(t.header, crit, row);
    var q := (row: seq<Cell>) => s < |row| && row[s].Category? && row[s].rank >= 1;
    forall row | row in t.rows ensures p(row) <==> q(row) {
      var i :| 0 <= i < |t.rows| && t.rows[i] == row;
      assert row[s] == Get(t, i, SeverityColumn);
      CriticalIsTopTwoRanksZh(row[s]);
    }
    FilterCongruent(t.rows, p, q);
    FilterLength(t.rows, q);
  }
}
