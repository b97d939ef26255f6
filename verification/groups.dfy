/** Group counts and largest-k selection: `groupby(...).size()` with
    `observed=True`, `groupby(key)['count'].sum()`, `value_counts()`,
    `nlargest(k)` and `head(k)`. */
module Groups {

  import opened Cells
  import opened Seqs

  /** One line of a grouped count: a key and its count. */
  datatype Group<K> = Group(key: K, count: nat)

  function Keys<K>(gs: seq<Group<K>>): (ks: seq<K>)
    ensures |ks| == |gs|
    ensures forall i :: 0 <= i < |gs| ==> ks[i] == gs[i].key
  {
    seq(|gs|, i requires 0 <= i < |gs| => gs[i].key)
  }

  lemma KeysCons<K(!new)>(gs: seq<Group<K>>)
    requires |gs| > 0
    ensures Keys(gs) == [gs[0].key] + Keys(gs[1..])
  {
  }

  /** The sum of the counts filed under `k`. */
  function Weight<K(==,!new)>(gs: seq<Group<K>>, k: K): nat
  {
    if |gs| == 0 then 0 else (if gs[0].key == k then gs[0].count else 0) + Weight(gs[1..], k)
  }

  /** The sum of all counts. */
  function Total<K>(gs: seq<Group<K>>): nat
  {
    if |gs| == 0 then 0 else gs[0].count + Total(gs[1..])
  }

  /** A key that does not occur carries no weight. */
  lemma {:induction false} WeightAbsent<K(!new)>(gs: seq<Group<K>>, k: K)
    requires k !in Keys(gs)
    ensures Weight(gs, k) == 0
    decreases |gs|
  {
    if |gs| > 0 {
      KeysCons(gs);
      WeightAbsent(gs[1..], k);
    }
  }

  /** With distinct keys, the weight of a key is the count on its line. */
  lemma {:induction false} WeightOfDistinct<K(!new)>(gs: seq<Group<K>>, i: nat)
    requires Distinct(Keys(gs)) && i < |gs|
    ensures Weight(gs, gs[i].key) == gs[i].count
    decreases |gs|
  {
    var ks := Keys(gs);
    KeysCons(gs);
    DistinctCons(ks);
    assert ks[1..] == Keys(gs[1..]);
    if i == 0 {
      WeightAbsent(gs[1..], gs[0].key);
    } else {
      assert ks[0] != ks[i];
      WeightOfDistinct(gs[1..], i - 1);
      assert gs[1..][i - 1] == gs[i];
    }
  }

  // ---------------------------------------------------------------------
  // Accumulating counts per key

  /** Files the count `g` under its key: added to the line of that key, or
      appended as a new line. */
  function Add<K(==,!new)>(acc: seq<Group<K>>, g: Group<K>): (r: seq<Group<K>>)
    ensures forall k :: k in Keys(r) <==> k in Keys(acc) || k == g.key
    ensures Total(r) == Total(acc) + g.count
    decreases |acc|
  {
    if |acc| == 0 then
      assert Keys([g]) == [g.key];
      [g]
    else if acc[0].key == g.key then
      var r := [Group(g.key, acc[0].count + g.count)] + acc[1..];
      assert r[1..] == acc[1..];
      assert Keys(r) == Keys(acc);
      r
    else
      var tail := Add(acc[1..], g);
      var r := [acc[0]] + tail;
      assert r[1..] == tail;
      KeysCons(acc);
      KeysCons(r);
      r
  }

  /** Filing a count never duplicates a key. */
  lemma {:induction false} AddDistinct<K(!new)>(acc: seq<Group<K>>, g: Group<K>)
    requires Distinct(Keys(acc))
    ensures Distinct(Keys(Add(acc, g)))
    decreases |acc|
  {
    if |acc| > 0 && acc[0].key != g.key {
      var tail := Add(acc[1..], g);
      var r := Add(acc, g);
      assert r == [acc[0]] + tail;
      assert r[1..] == tail;
      KeysCons(acc);
      KeysCons(r);
      DistinctCons(Keys(acc));
      AddDistinct(acc[1..], g);
      DistinctCons(Keys(r));
    } else if |acc| > 0 {
      var r := Add(acc, g);
      assert r[1..] == acc[1..];
      KeysCons(acc);
      KeysCons(r);
      assert Keys(r) == Keys(acc);
    }
  }

  /** Filing `g` adds its count to its own key and to no other. */
  lemma {:induction false} AddWeight<K(!new)>(acc: seq<Group<K>>, g: Group<K>, k: K)
    ensures Weight(Add(acc, g), k) == Weight(acc, k) + (if k == g.key then g.count else 0)
    decreases |acc|
  {
    if |acc| > 0 && acc[0].key != g.key {
      AddWeight(acc[1..], g, k);
      assert Add(acc, g)[1..] == Add(acc[1..], g);
    } else if |acc| > 0 {
      assert Add(acc, g)[1..] == acc[1..];
    }
  }

  /** `groupby(key)['count'].sum()`: one line per key, holding the sum of
      the counts filed under it. */
  function Accumulate<K(==,!new)>(ps: seq<Group<K>>): (r: seq<Group<K>>)
    ensures Distinct(Keys(r))
    ensures forall k :: k in Keys(r) <==> k in Keys(ps)
    ensures Total(r) == Total(ps)
    decreases |ps|
  {
    if |ps| == 0 then []
    else
      KeysCons(ps);
      AddDistinct(Accumulate(ps[1..]), ps[0]);
      Add(Accumulate(ps[1..]), ps[0])
  }

  /** Accumulation neither loses nor invents weight under any key. */
  lemma {:induction false} AccumulateWeight<K(!new)>(ps: seq<Group<K>>, k: K)
    ensures Weight(Accumulate(ps), k) == Weight(ps, k)
    decreases |ps|
  {
    if |ps| > 0 {
      AccumulateWeight(ps[1..], k);
      AddWeight(Accumulate(ps[1..]), ps[0], k);
    }
  }

  /** Each line of the accumulation holds the total weight of its key. */
  lemma AccumulateCounts<K(!new)>(ps: seq<Group<K>>, i: nat)
    requires i < |Accumulate(ps)|
    ensures Accumulate(ps)[i].count == Weight(ps, Accumulate(ps)[i].key)
  {
    WeightOfDistinct(Accumulate(ps), i);
    AccumulateWeight(ps, Accumulate(ps)[i].key);
  }

  // ---------------------------------------------------------------------
  // Counting rows per key

  /** How many of `keys` are `Some(k)`. */
  function Occurrences<K(==,!new)>(keys: seq<Option<K>>, k: K): nat
  {
    if |keys| == 0 then 0 else (if keys[0] == Some(k) then 1 else 0) + Occurrences(keys[1..], k)
  }

  /** How many of `keys` are present. */
  function Present<K>(keys: seq<Option<K>>): nat
  {
    if |keys| == 0 then 0 else (if keys[0].Some? then 1 else 0) + Present(keys[1..])
  }

  /** One unit-count line per present key; absent keys (a missing value in
      a grouping column) are dropped. */
  function Units<K>(keys: seq<Option<K>>): (r: seq<Group<K>>)
    ensures forall i :: 0 <= i < |r| ==> r[i].count == 1
  {
    if |keys| == 0 then []
    else (if keys[0].Some? then [Group(keys[0].value, 1)] else []) + Units(keys[1..])
  }

  lemma {:induction false} UnitsFacts<K(!new)>(keys: seq<Option<K>>, k: K)
    ensures Weight(Units(keys), k) == Occurrences(keys, k)
    ensures k in Keys(Units(keys)) <==> Some(k) in keys
    decreases |keys|
  {
    if |keys| > 0 {
      UnitsFacts(keys[1..], k);
      var u := Units(keys);
      assert keys == [keys[0]] + keys[1..];
      if keys[0].Some? {
        assert u[1..] == Units(keys[1..]);
        KeysCons(u);
      } else {
        assert u == Units(keys[1..]);
      }
    }
  }

  lemma {:induction false} UnitsTotal<K(!new)>(keys: seq<Option<K>>)
    ensures Total(Units(keys)) == Present(keys)
    decreases |keys|
  {
    if |keys| > 0 {
      UnitsTotal(keys[1..]);
      if keys[0].Some? {
        assert Units(keys) == [Group(keys[0].value, 1)] + Units(keys[1..]);
        assert Units(keys)[1..] == Units(keys[1..]);
      } else {
        assert Units(keys) == Units(keys[1..]);
      }
    }
  }

  /** `groupby(keys, observed=True).size()`: one line per distinct present
      key. */
  function GroupSizes<K(==,!new)>(keys: seq<Option<K>>): seq<Group<K>>
  {
    Accumulate(Units(keys))
  }

  /** The group count has one line per distinct observed key, each counting
      that key's rows, hence at least 1; the counts add up to the number of
      rows whose key is present. */
  lemma GroupSizesSpec<K(!new)>(keys: seq<Option<K>>)
    ensures Distinct(Keys(GroupSizes(keys)))
    ensures forall k :: k in Keys(GroupSizes(keys)) <==> Some(k) in keys
    ensures forall i :: 0 <= i < |GroupSizes(keys)| ==>
              GroupSizes(keys)[i].count == Occurrences(keys, GroupSizes(keys)[i].key) >= 1
    ensures Total(GroupSizes(keys)) == Present(keys)
  {
    var gs := GroupSizes(keys);
    forall k ensures k in Keys(gs) <==> Some(k) in keys {
      UnitsFacts(keys, k);
    }
    forall i | 0 <= i < |gs| ensures gs[i].count == Occurrences(keys, gs[i].key) >= 1 {
      AccumulateCounts(Units(keys), i);
      UnitsFacts(keys, gs[i].key);
      assert gs[i].key in Keys(gs);
      OccurrencesPositive(keys, gs[i].key);
    }
    UnitsTotal(keys);
  }

  lemma {:induction false} OccurrencesPositive<K(!new)>(keys: seq<Option<K>>, k: K)
    requires Some(k) in keys
    ensures Occurrences(keys, k) >= 1
    decreases |keys|
  {
    if keys[0] != Some(k) {
      assert Some(k) in keys[1..];
      OccurrencesPositive(keys[1..], k);
    }
  }

  // ---------------------------------------------------------------------
  // Re-grouping a count by part of its key

  /** Each line re-filed under `f` of its key, counts unchanged. */
  function Rekey<K, J>(gs: seq<Group<K>>, f: K -> J): (r: seq<Group<J>>)
    ensures |r| == |gs|
    ensures forall i :: 0 <= i < |gs| ==> r[i] == Group(f(gs[i].key), gs[i].count)
  {
    seq(|gs|, i requires 0 <= i < |gs| => Group(f(gs[i].key), gs[i].count))
  }

  /** The sum of the counts whose key `f` sends to `j`. */
  function WeightBy<K, J(==)>(gs: seq<Group<K>>, f: K -> J, j: J): nat
  {
    if |gs| == 0 then 0 else (if f(gs[0].key) == j then gs[0].count else 0) + WeightBy(gs[1..], f, j)
  }

  lemma {:induction false} RekeyWeight<K, J(!new)>(gs: seq<Group<K>>, f: K -> J, j: J)
    ensures Weight(Rekey(gs, f), j) == WeightBy(gs, f, j)
    decreases |gs|
  {
    if |gs| > 0 {
      RekeyWeight(gs[1..], f, j);
      assert Rekey(gs, f)[1..] == Rekey(gs[1..], f);
    }
  }

  lemma {:induction false} AddWeightBy<K(!new), J>(acc: seq<Group<K>>, g: Group<K>, f: K -> J, j: J)
    ensures WeightBy(Add(acc, g), f, j) == WeightBy(acc, f, j) + (if f(g.key) == j then g.count else 0)
    decreases |acc|
  {
    if |acc| > 0 && acc[0].key != g.key {
      AddWeightBy(acc[1..], g, f, j);
      assert Add(acc, g)[1..] == Add(acc[1..], g);
    } else if |acc| > 0 {
      assert Add(acc, g)[1..] == acc[1..];
    }
  }

  lemma {:induction false} AccumulateWeightBy<K(!new), J>(ps: seq<Group<K>>, f: K -> J, j: J)
    ensures WeightBy(Accumulate(ps), f, j) == WeightBy(ps, f, j)
    decreases |ps|
  {
    if |ps| > 0 {
      AccumulateWeightBy(ps[1..], f, j);
      AddWeightBy(Accumulate(ps[1..]), ps[0], f, j);
    }
  }

  /** How many of `keys` are present with `f` of the key equal to `j`. */
  function OccurrencesBy<K, J(==)>(keys: seq<Option<K>>, f: K -> J, j: J): nat
  {
    if |keys| == 0 then 0
    else (if keys[0].Some? && f(keys[0].value) == j then 1 else 0) + OccurrencesBy(keys[1..], f, j)
  }

  lemma {:induction false} UnitsWeightBy<K, J>(keys: seq<Option<K>>, f: K -> J, j: J)
    ensures WeightBy(Units(keys), f, j) == OccurrencesBy(keys, f, j)
    decreases |keys|
  {
    if |keys| > 0 {
      UnitsWeightBy(keys[1..], f, j);
      if keys[0].Some? {
        assert Units(keys) == [Group(keys[0].value, 1)] + Units(keys[1..]);
        assert Units(keys)[1..] == Units(keys[1..]);
      } else {
        assert Units(keys) == Units(keys[1..]);
      }
    }
  }

  /** `groupby(keys).size()` followed by `groupby(f(key))['count'].sum()`:
      one line per re-filed key, each holding the number of rows whose
      present key `f` sends to it. */
  function Regroup<K(==,!new), J(==,!new)>(keys: seq<Option<K>>, f: K -> J): seq<Group<J>>
  {
    Accumulate(Rekey(GroupSizes(keys), f))
  }

  /** After regrouping, keys are distinct; the keys are exactly the images
      under `f` of the present keys; and each total is the number of rows
      whose present key `f` sends to it. */
  lemma RegroupCounts<K(!new), J(!new)>(keys: seq<Option<K>>, f: K -> J)
    ensures Distinct(Keys(Regroup(keys, f)))
    ensures forall x :: Some(x) in keys ==> f(x) in Keys(Regroup(keys, f))
    ensures forall j :: j in Keys(Regroup(keys, f)) ==> exists x :: Some(x) in keys && f(x) == j
    ensures forall i :: 0 <= i < |Regroup(keys, f)| ==>
              Regroup(keys, f)[i].count == OccurrencesBy(keys, f, Regroup(keys, f)[i].key)
  {
    var r := Regroup(keys, f);
    var gs := GroupSizes(keys);
    var rk := Rekey(gs, f);
    GroupSizesSpec(keys);
    forall x | Some(x) in keys ensures f(x) in Keys(r) {
      assert x in Keys(gs);
      var i :| 0 <= i < |gs| && Keys(gs)[i] == x;
      assert Keys(rk)[i] == f(x);
    }
    forall j | j in Keys(r) ensures exists x :: Some(x) in keys && f(x) == j {
      assert j in Keys(rk);
      var i :| 0 <= i < |rk| && Keys(rk)[i] == j;
      assert Keys(gs)[i] == gs[i].key;
      assert Some(gs[i].key) in keys;
    }
    forall i | 0 <= i < |r| ensures r[i].count == OccurrencesBy(keys, f, r[i].key) {
      var j := r[i].key;
      AccumulateCounts(rk, i);
      RekeyWeight(gs, f, j);
      AccumulateWeightBy(Units(keys), f, j);
      UnitsWeightBy(keys, f, j);
    }
  }

  // ---------------------------------------------------------------------
  // Largest k

  /** Position of a largest count (the first such). */
  function MaxIndex<K>(gs: seq<Group<K>>): (m: nat)
    requires |gs| > 0
    ensures m < |gs|
    ensures forall j :: 0 <= j < |gs| ==> gs[j].count <= gs[m].count
  {
    if |gs| == 1 then 0
    else
      var m := MaxIndex(gs[1..]);
      if gs[0].count >= gs[1 + m].count then 0 else 1 + m
  }

  function RemoveAt<T>(s: seq<T>, i: nat): (r: seq<T>)
    requires i < |s|
    ensures multiset(s) == multiset(r) + multiset{s[i]}
  {
    assert s == s[..i] + [s[i]] + s[i + 1..];
    s[..i] + s[i + 1..]
  }

  /** The lines reordered by count, largest first; among equal counts
      the earlier line comes first. */
  function SortDesc<K(==)>(gs: seq<Group<K>>): (r: seq<Group<K>>)
    ensures multiset(r) == multiset(gs)
    ensures |r| == |gs|
    ensures forall i, j :: 0 <= i < j < |r| ==> r[i].count >= r[j].count
    decreases |gs|
  {
    if |gs| == 0 then []
    else
      var m := MaxIndex(gs);
      var rest := RemoveAt(gs, m);
      var tail := SortDesc(rest);
      SortStep(gs, gs[m], rest, tail);
      [gs[m]] + tail
  }

  /** A largest line in front of the sorted other lines is sorted. */
  lemma SortStep<K>(gs: seq<Group<K>>, top: Group<K>, rest: seq<Group<K>>, tail: seq<Group<K>>)
    requires multiset(gs) == multiset(rest) + multiset{top}
    requires forall j :: 0 <= j < |gs| ==> gs[j].count <= top.count
    requires multiset(tail) == multiset(rest)
    requires forall i, j :: 0 <= i < j < |tail| ==> tail[i].count >= tail[j].count
    ensures multiset([top] + tail) == multiset(gs)
    ensures forall i, j :: 0 <= i < j < |[top] + tail| ==> ([top] + tail)[i].count >= ([top] + tail)[j].count
  {
    var r := [top] + tail;
    forall i, j | 0 <= i < j < |r| ensures r[i].count >= r[j].count {
      if i == 0 {
        assert r[j] in multiset(tail);
        assert r[j] in multiset(gs);
        assert r[j] in gs;
      } else {
        assert r[i] == tail[i - 1] && r[j] == tail[j - 1];
      }
    }
  }

  /** `nlargest(k)` / `head(k)` of a count sorted in descending order: the
      first `min(k, |gs|)` lines of the sorted count. */
  function TopK<K(==)>(gs: seq<Group<K>>, k: nat): seq<Group<K>>
  {
    SortDesc(gs)[..if k < |gs| then k else |gs|]
  }

  /** The lines `TopK` leaves out. */
  function Dropped<K(==)>(gs: seq<Group<K>>, k: nat): seq<Group<K>>
  {
    SortDesc(gs)[if k < |gs| then k else |gs|..]
  }

  /** The selection keeps `min(k, |gs|)` lines, largest first; kept and
      dropped lines together are the input; and every dropped line counts
      no more than any kept line. */
  lemma TopKSpec<K>(gs: seq<Group<K>>, k: nat)
    ensures |TopK(gs, k)| == if k < |gs| then k else |gs|
    ensures multiset(TopK(gs, k)) + multiset(Dropped(gs, k)) == multiset(gs)
    ensures forall i, j :: 0 <= i < j < |TopK(gs, k)| ==> TopK(gs, k)[i].count >= TopK(gs, k)[j].count
    ensures forall i, j :: 0 <= i < |TopK(gs, k)| && 0 <= j < |Dropped(gs, k)| ==>
              Dropped(gs, k)[j].count <= TopK(gs, k)[i].count
  {
    var s := SortDesc(gs);
    var n := if k < |gs| then k else |gs|;
    assert s == s[..n] + s[n..];
    forall i, j | 0 <= i < n && 0 <= j < |s| - n ensures s[n..][j].count <= s[..n][i].count {
      assert s[n..][j] == s[n + j] && s[..n][i] == s[i];
    }
  }

  /** Every line `TopK` keeps is a line of the input. */
  lemma TopKKeepsLine<K>(gs: seq<Group<K>>, k: nat, i: nat)
    requires i < |TopK(gs, k)|
    ensures exists j :: 0 <= j < |gs| && gs[j] == TopK(gs, k)[i]
  {
    TopKSpec(gs, k);
    var g := TopK(gs, k)[i];
    assert g in multiset(TopK(gs, k));
    assert g in multiset(gs);
  }

  /** A line whose key `TopK` does not keep counts no more than any kept
      line. */
  lemma TopKDominates<K>(gs: seq<Group<K>>, k: nat, g: Group<K>)
    requires g in gs && g.key !in Keys(TopK(gs, k))
    ensures forall i :: 0 <= i < |TopK(gs, k)| ==> g.count <= TopK(gs, k)[i].count
  {
    TopKSpec(gs, k);
    var top := TopK(gs, k);
    assert g !in top;
    assert g in multiset(gs);
    assert g in multiset(Dropped(gs, k));
    var j :| 0 <= j < |Dropped(gs, k)| && Dropped(gs, k)[j] == g;
  }

  /** After regrouping by `f` and keeping the `k` largest totals, a present
      key whose image is not kept totals no more than any kept line. */
  lemma RegroupTopK<K(!new), J(!new)>(keys: seq<Option<K>>, f: K -> J, k: nat, x: K)
    requires Some(x) in keys
    ensures f(x) in Keys(Regroup(keys, f))
    ensures f(x) !in Keys(TopK(Regroup(keys, f), k)) ==>
              forall i :: 0 <= i < |TopK(Regroup(keys, f), k)| ==>
                OccurrencesBy(keys, f, f(x)) <= TopK(Regroup(keys, f), k)[i].count
  {
    var r := Regroup(keys, f);
    RegroupCounts(keys, f);
    var j :| 0 <= j < |r| && Keys(r)[j] == f(x);
    if f(x) !in Keys(TopK(r, k)) {
      TopKDominates(r, k, r[j]);
    }
  }

  /** `value_counts().head(k)`: `min(k, n)` lines, largest first, each
      counting the occurrences of its key, none below a line left out. */
  lemma TopKCounts<K(!new)>(keys: seq<Option<K>>, k: nat)
    ensures |TopK(GroupSizes(keys), k)| == if k < |GroupSizes(keys)| then k else |GroupSizes(keys)|
    ensures forall i, j :: 0 <= i < j < |TopK(GroupSizes(keys), k)| ==>
              TopK(GroupSizes(keys), k)[i].count >= TopK(GroupSizes(keys), k)[j].count
    ensures forall i :: 0 <= i < |TopK(GroupSizes(keys), k)| ==>
              TopK(GroupSizes(keys), k)[i].count == Occurrences(keys, TopK(GroupSizes(keys), k)[i].key)
    ensures forall i, j :: 0 <= i < |TopK(GroupSizes(keys), k)| && 0 <= j < |Dropped(GroupSizes(keys), k)| ==>
              Dropped(GroupSizes(keys), k)[j].count <= TopK(GroupSizes(keys), k)[i].count
  {
    var gs := GroupSizes(keys);
    GroupSizesSpec(keys);
    TopKSpec(gs, k);
    var r := TopK(gs, k);
    forall i | 0 <= i < |r| ensures r[i].count == Occurrences(keys, r[i].key) {
      TopKKeepsLine(gs, k, i);
      var j :| 0 <= j < |gs| && gs[j] == r[i];
    }
  }

  /** A present key that `value_counts().head(k)` leaves out occurs no more
      often than any kept key. */
  lemma TopKCountsDominate<K(!new)>(keys: seq<Option<K>>, k: nat, x: K)
    requires Some(x) in keys
    ensures x !in Keys(TopK(GroupSizes(keys), k)) ==>
              forall i :: 0 <= i < |TopK(GroupSizes(keys), k)| ==>
                Occurrences(keys, x) <= TopK(GroupSizes(keys), k)[i].count
  {
    var gs := GroupSizes(keys);
    GroupSizesSpec(keys);
    var j :| 0 <= j < |gs| && Keys(gs)[j] == x;
    if x !in Keys(TopK(gs, k)) {
      TopKDominates(gs, k, gs[j]);
    }
  }
}
