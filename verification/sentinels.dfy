/** Sentinel clearing: `df.replace(['Unknown', 'unknown', 'na', '-1', 'Other'], np.nan)`. */
module Sentinels {

  import opened Cells
  import opened Tables

  /** The placeholder strings the raw data uses for "no value". */
  const SentinelList: seq<string> := ["Unknown", "unknown", "na", "-1", "Other"]

  /** Whole-string, case-sensitive membership in the sentinel list. */
  predicate IsSentinel(s: string) {
    s in SentinelList
  }

  /** One cell: a sentinel string becomes missing, anything else stays. */
  function ClearCell(c: Cell): (r: Cell)
    ensures r.Missing? <==> c.Missing? || (c.Text? && IsSentinel(c.text))
    ensures !r.Missing? ==> r == c
  {
    if c.Text? && IsSentinel(c.text) then Missing else c
  }

  /** The whole table, every column alike. */
  function ClearTable(t: Table): (r: Table)
    requires WellFormed(t)
    ensures WellFormed(r) && r.header == t.header && |r.rows| == |t.rows|
    ensures forall i, j :: 0 <= i < |t.rows| && 0 <= j < |t.header| ==>
              r.rows[i][j] == ClearCell(t.rows[i][j])
  {
    MapCells(t, ClearCell)
  }

  /** No cell of the cleared table is a sentinel string. */
  lemma ClearTableLeavesNoSentinel(t: Table)
    requires WellFormed(t)
    ensures forall i, j :: 0 <= i < |t.rows| && 0 <= j < |t.header| ==>
              !(ClearTable(t).rows[i][j].Text? && IsSentinel(ClearTable(t).rows[i][j].text))
  {
  }

  /** Clearing twice is clearing once. */
  lemma ClearTableIdempotent(t: Table)
    requires WellFormed(t)
    ensures ClearTable(ClearTable(t)) == ClearTable(t)
  {
    var a, b := ClearTable(ClearTable(t)), ClearTable(t);
    forall i | 0 <= i < |a.rows| ensures a.rows[i] == b.rows[i] {
      assert |a.rows[i]| == |b.rows[i]|;
    }
  }

  /** Matching is on the whole string and respects case: text that merely
      contains a sentinel, or spells one in another case, stays. */
  lemma SentinelsMatchExactly()
    ensures ClearCell(Text("Unknowns")) == Text("Unknowns")
    ensures ClearCell(Text("NA")) == Text("NA")
    ensures ClearCell(Text("other")) == Text("other")
    ensures ClearCell(Text("-1")) == Missing
    ensures ClearCell(Text("na")) == Missing
  {
    assert "Unknowns" !in SentinelList by {
      assert |"Unknowns"| != |"Unknown"|;
    }
    assert "NA" !in SentinelList by {
      assert "NA"[0] != "na"[0];
    }
    assert "other" !in SentinelList by {
      assert "other"[0] != "Other"[0];
    }
  }
}
