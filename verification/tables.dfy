/** The in-memory table: a header row and positional rows of cells.

    Headers are a sequence, not a set, so two columns may carry the same
    name. Looking a name up finds its first occurrence, and assigning to a
    name overwrites that column in place or, for a new name, appends a
    column at the right end, as `df[name] = values` does. */
module Tables {

  import opened Cells

  datatype Table = Table(header: seq<string>, rows: seq<seq<Cell>>)

  /** Every row has one cell per column. */
  predicate WellFormed(t: Table) {
    forall i :: 0 <= i < |t.rows| ==> |t.rows[i]| == |t.header|
  }

  /** Position of the first column named `name`. */
  function IndexOf(hs: seq<string>, name: string): (k: nat)
    requires name in hs
    ensures k < |hs| && hs[k] == name
    ensures forall j :: 0 <= j < k ==> hs[j] != name
  {
    if hs[0] == name then 0 else 1 + IndexOf(hs[1..], name)
  }

  lemma IndexOfPrefix(hs: seq<string>, extra: seq<string>, name: string)
    requires name in hs
    ensures name in hs + extra && IndexOf(hs + extra, name) == IndexOf(hs, name)
  {
    var k := IndexOf(hs, name);
    var k' := IndexOf(hs + extra, name);
    assert (hs + extra)[k] == name;
  }

  /** `df[name]` at row `i`. */
  function Get(t: Table, i: nat, name: string): Cell
    requires WellFormed(t) && i < |t.rows| && name in t.header
  {
    t.rows[i][IndexOf(t.header, name)]
  }

  /** The header after assigning to column `name`. */
  function HeaderAfterSet(hs: seq<string>, name: string): (r: seq<string>)
    ensures name in r
    ensures r == hs || r == hs + [name]
    ensures forall x :: x in hs ==> x in r && IndexOf(r, x) == IndexOf(hs, x)
  {
    if name in hs then hs
    else
      var r := hs + [name];
      forall x | x in hs ensures x in r && IndexOf(r, x) == IndexOf(hs, x) {
        IndexOfPrefix(hs, [name], x);
      }
      r
  }

  /** `df[name] = col`: the column named `name` (the first such, or a new
      one at the end) holds `col`; every other cell is kept. */
  function SetColumn(t: Table, name: string, col: seq<Cell>): (r: Table)
    requires WellFormed(t) && |col| == |t.rows|
    ensures WellFormed(r)
    ensures |r.rows| == |t.rows|
    ensures r.header == HeaderAfterSet(t.header, name)
    ensures forall i :: 0 <= i < |t.rows| ==> Get(r, i, name) == col[i]
    ensures forall i, j :: 0 <= i < |t.rows| && 0 <= j < |t.header| && j != IndexOf(r.header, name) ==>
              r.rows[i][j] == t.rows[i][j]
  {
    if name in t.header then
      var k := IndexOf(t.header, name);
      Table(t.header, seq(|t.rows|, i requires 0 <= i < |t.rows| => t.rows[i][k := col[i]]))
    else
      var r := Table(t.header + [name], seq(|t.rows|, i requires 0 <= i < |t.rows| => t.rows[i] + [col[i]]));
      assert IndexOf(r.header, name) == |t.header| by {
        assert r.header[|t.header|] == name;
      }
      r
  }

  /** `df[dst] = f(df[src])`, with `f` applied cell by cell. */
  function MapColumn(t: Table, src: string, dst: string, f: Cell -> Cell): (r: Table)
    requires WellFormed(t) && src in t.header
    ensures WellFormed(r)
    ensures |r.rows| == |t.rows|
    ensures r.header == HeaderAfterSet(t.header, dst)
    ensures forall i :: 0 <= i < |t.rows| ==> Get(r, i, dst) == f(Get(t, i, src))
    ensures forall i, x :: 0 <= i < |t.rows| && x in t.header && x != dst ==> Get(r, i, x) == Get(t, i, x)
    ensures forall i, j :: 0 <= i < |t.rows| && 0 <= j < |t.header| && t.header[j] != dst ==>
              r.rows[i][j] == t.rows[i][j]
  {
    var col := seq(|t.rows|, i requires 0 <= i < |t.rows| => f(Get(t, i, src)));
    SetColumn(t, dst, col)
  }

  /** Applies a cell-wise step only when its source column exists, as each
      `if '<column>' in df.columns:` block of the guarded pipeline does:
      `dst` gains `f` of `src` when `src` exists, a new `dst` is appended,
      and every other column keeps its cells. */
  function Guarded(t: Table, src: string, dst: string, f: Cell -> Cell): (r: Table)
    requires WellFormed(t)
    ensures WellFormed(r)
    ensures |r.rows| == |t.rows|
    ensures t.header <= r.header
    ensures r.header == t.header + (if src in t.header && dst !in t.header then [dst] else [])
    ensures src in t.header ==> forall i :: 0 <= i < |t.rows| ==> Get(r, i, dst) == f(Get(t, i, src))
    ensures forall i, x :: 0 <= i < |t.rows| && x in t.header && x != dst ==> Get(r, i, x) == Get(t, i, x)
    ensures src !in t.header ==> r == t
    ensures src in t.header ==> r == MapColumn(t, src, dst, f)
  {
    if src in t.header then MapColumn(t, src, dst, f) else t
  }

  /** Applies `f` to every cell of every row; the header is unchanged. */
  function MapCells(t: Table, f: Cell -> Cell): (r: Table)
    requires WellFormed(t)
    ensures WellFormed(r) && r.header == t.header && |r.rows| == |t.rows|
    ensures forall i, j :: 0 <= i < |t.rows| && 0 <= j < |t.header| ==> r.rows[i][j] == f(t.rows[i][j])
  {
    Table(t.header, seq(|t.rows|, i requires 0 <= i < |t.rows| =>
      seq(|t.rows[i]|, j requires 0 <= j < |t.rows[i]| => f(t.rows[i][j]))))
  }

  /** The cells of column `name`, top to bottom. */
  function Column(t: Table, name: string): (col: seq<Cell>)
    requires WellFormed(t) && name in t.header
    ensures |col| == |t.rows|
    ensures forall i :: 0 <= i < |t.rows| ==> col[i] == Get(t, i, name)
  {
    seq(|t.rows|, i requires 0 <= i < |t.rows| => Get(t, i, name))
  }

  // ---------------------------------------------------------------------
  // Algebra of column assignments

  /** Two in-place column updates that neither read nor write each other's
      column may be done in either order. Only the second may add a column. */
  lemma MapColumnCommute(t: Table, s1: string, d1: string, f1: Cell -> Cell,
                         s2: string, d2: string, f2: Cell -> Cell)
    requires WellFormed(t) && s1 in t.header && s2 in t.header && d1 in t.header
    requires d1 != d2 && d1 != s2 && d2 != s1
    ensures MapColumn(MapColumn(t, s1, d1, f1), s2, d2, f2)
         == MapColumn(MapColumn(t, s2, d2, f2), s1, d1, f1)
  {
    var a := MapColumn(MapColumn(t, s1, d1, f1), s2, d2, f2);
    var b := MapColumn(MapColumn(t, s2, d2, f2), s1, d1, f1);
    CommuteHeader(t, s1, d1, f1, s2, d2, f2);
    forall i | 0 <= i < |a.rows| ensures a.rows[i] == b.rows[i] {
      forall j | 0 <= j < |a.header| ensures a.rows[i][j] == b.rows[i][j] {
        CommuteCell(t, s1, d1, f1, s2, d2, f2, i, j);
      }
    }
  }

  lemma CommuteHeader(t: Table, s1: string, d1: string, f1: Cell -> Cell,
                      s2: string, d2: string, f2: Cell -> Cell)
    requires WellFormed(t) && s1 in t.header && s2 in t.header && d1 in t.header
    requires d1 != d2 && d1 != s2 && d2 != s1
    ensures MapColumn(MapColumn(t, s1, d1, f1), s2, d2, f2).header
         == MapColumn(MapColumn(t, s2, d2, f2), s1, d1, f1).header
         == HeaderAfterSet(t.header, d2)
  {
  }

  /** One cell of the two orders agrees. */
  lemma CommuteCell(t: Table, s1: string, d1: string, f1: Cell -> Cell,
                    s2: string, d2: string, f2: Cell -> Cell, i: nat, j: nat)
    requires WellFormed(t) && s1 in t.header && s2 in t.header && d1 in t.header
    requires d1 != d2 && d1 != s2 && d2 != s1
    requires i < |t.rows| && j < |HeaderAfterSet(t.header, d2)|
    ensures MapColumn(MapColumn(t, s1, d1, f1), s2, d2, f2).rows[i][j]
         == MapColumn(MapColumn(t, s2, d2, f2), s1, d1, f1).rows[i][j]
  {
    CommuteHeader(t, s1, d1, f1, s2, d2, f2);
    var t1, t2 := MapColumn(t, s1, d1, f1), MapColumn(t, s2, d2, f2);
    var a, b := MapColumn(t1, s2, d2, f2), MapColumn(t2, s1, d1, f1);
    var k1, k2 := IndexOf(t.header, d1), IndexOf(a.header, d2);
    assert IndexOf(a.header, d1) == k1;
    if j == k1 {
      assert a.rows[i][j] == Get(a, i, d1) && b.rows[i][j] == Get(b, i, d1);
    } else if j == k2 {
      assert a.rows[i][j] == Get(a, i, d2) && b.rows[i][j] == Get(b, i, d2);
    } else {
      assert a.rows[i][j] == t1.rows[i][j] == t.rows[i][j];
      assert b.rows[i][j] == t2.rows[i][j] == t.rows[i][j];
    }
  }

  /** Two cell-wise updates of one column in a row are one update by their
      composition. */
  lemma MapColumnFuse(t: Table, c: string, f: Cell -> Cell, g: Cell -> Cell, h: Cell -> Cell)
    requires WellFormed(t) && c in t.header
    requires forall x :: h(x) == g(f(x))
    ensures MapColumn(MapColumn(t, c, c, f), c, c, g) == MapColumn(t, c, c, h)
  {
    var a := MapColumn(MapColumn(t, c, c, f), c, c, g);
    var b := MapColumn(t, c, c, h);
    forall i | 0 <= i < |a.rows| ensures a.rows[i] == b.rows[i] {
      forall j | 0 <= j < |a.header| ensures a.rows[i][j] == b.rows[i][j] {
        if j == IndexOf(a.header, c) {
          assert a.rows[i][j] == Get(a, i, c) && b.rows[i][j] == Get(b, i, c);
        }
      }
    }
  }

  /** Two pairs of in-place updates of one column whose compositions agree
      on every cell give the same table. */
  lemma MapColumnSameComposite(t: Table, c: string, f: Cell -> Cell, g: Cell -> Cell,
                               f2: Cell -> Cell, g2: Cell -> Cell)
    requires WellFormed(t) && c in t.header
    requires forall x :: g(f(x)) == g2(f2(x))
    ensures MapColumn(MapColumn(t, c, c, f), c, c, g) == MapColumn(MapColumn(t, c, c, f2), c, c, g2)
  {
    MapColumnFuse(t, c, f, g, x => g(f(x)));
    MapColumnFuse(t, c, f2, g2, x => g(f(x)));
  }
}
