/** The KPI row of the overview section: the number of accidents, the mean
    casualty count and the severe/fatal rate, each guarded against an
    absent column or an empty table. */
module Overview {

  import opened Cells
  import opened Tables
  import opened Dashboard

  const CasualtyColumn: string := "casualty_count"

  /** The severities the overview counts as critical, written out in place. */
  const OverviewCritical: set<string> := {"Serious Injury", "Fatal Injury"}

  /** The three figures of the KPI row. `avgCasualties` is `None` where the
      dataframe's mean is NaN (a column with no numeric value). */
  datatype Kpis = Kpis(total: nat, avgCasualties: Option<Ratio>, criticalRate: Ratio)

  /** Sum and number of the numeric cells; the mean skips missing values. */
  function NumericSum(cells: seq<Cell>): int
  {
    if |cells| == 0 then 0
    else (if cells[0].Number? then cells[0].value else 0) + NumericSum(cells[1..])
  }

  function NumericCount(cells: seq<Cell>): nat
  {
    if |cells| == 0 then 0
    else (if cells[0].Number? then 1 else 0) + NumericCount(cells[1..])
  }

  /** `series.mean()`: the mean of the numeric cells, NaN when there are none. */
  function Mean(cells: seq<Cell>): (r: Option<Ratio>)
    ensures r.None? <==> NumericCount(cells) == 0
    ensures r.Some? ==> r.value.den > 0
  {
    if NumericCount(cells) == 0 then None else Some(Ratio(NumericSum(cells), NumericCount(cells)))
  }

  /** `show(df)`: the total, the mean casualty count (0 without the column)
      and the critical rate (0 without rows or without the column). */
  function Show(t: Table): (k: Kpis)
    requires WellFormed(t)
    ensures k.total == |t.rows|
    ensures CasualtyColumn !in t.header ==> k.avgCasualties == Some(Ratio(0, 1))
    ensures |t.rows| == 0 || SeverityColumn !in t.header ==> k.criticalRate.num == 0
    ensures k.criticalRate.den > 0 && 0 <= k.criticalRate.num <= 100 * k.criticalRate.den
  {
    var avg := if CasualtyColumn in t.header then Mean(Column(t, CasualtyColumn)) else Some(Ratio(0, 1));
    var rate := if |t.rows| > 0 && SeverityColumn in t.header then CriticalRate(t, OverviewCritical) else Ratio(0, 1);
    Kpis(|t.rows|, avg, rate)
  }

  /** With a severity column, the overview's rate is the dashboard's rate
      for the English critical severities. */
  lemma ShowMatchesDashboard(t: Table)
    requires WellFormed(t) && SeverityColumn in t.header
    ensures Show(t).criticalRate == CriticalRate(t, set s | s in Categories.CriticalSeverity)
  {
    assert (set s | s in Categories.CriticalSeverity) == OverviewCritical;
  }

  /** Every numeric cell between `lo` and `hi` puts the sum between `lo` and
      `hi` times the count, and so the mean, when there is one, between them. */
  lemma {:induction false} MeanBounds(cells: seq<Cell>, lo: int, hi: int)
    requires forall i :: 0 <= i < |cells| && cells[i].Number? ==> lo <= cells[i].value <= hi
    ensures lo * NumericCount(cells) <= NumericSum(cells) <= hi * NumericCount(cells)
    ensures Mean(cells).Some? ==> lo * Mean(cells).value.den <= Mean(cells).value.num <= hi * Mean(cells).value.den
    decreases |cells|
  {
    if |cells| > 0 {
      var rest := cells[1..];
      assert forall i :: 0 <= i < |rest| ==> rest[i] == cells[i + 1];
      MeanBounds(rest, lo, hi);
      var n := NumericCount(rest);
      if cells[0].Number? {
        assert NumericCount(cells) == n + 1;
        MulSucc(lo, n);
        MulSucc(hi, n);
      } else {
        assert NumericCount(cells) == n && NumericSum(cells) == NumericSum(rest);
      }
    }
  }

  lemma MulSucc(a: int, n: int)
    ensures a * (n + 1) == a * n + a
  {
  }
}
