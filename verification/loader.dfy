/** The unguarded loaders of the two dashboards (`load_data`). They run the
    same normalisation as the guarded pipeline, then read each source
    column without checking that it exists: a missing column aborts the
    load with a `KeyError` naming it. */
module Loader {

  import opened Cells
  import opened Tables
  import opened Headers
  import opened Categories
  import opened Prep

  /** The exception the loader raises: the dataframe has no such column. */
  datatype LoadError = KeyError(column: string)

  datatype Result<T> = Success(value: T) | Failure(error: LoadError)
  {
    predicate IsFailure() {
      Failure?
    }

    function PropagateFailure<U>(): Result<U>
      requires Failure?
    {
      Failure(error)
    }

    function Extract(): T
      requires Success?
    {
      value
    }
  }

  /** The columns the loader reads, in the order it first reads them. */
  const Required: seq<string> :=
    ["time", "day_of_week", "accident_severity", "number_of_casualties",
     "age_band_of_driver", "educational_level"]

  /** The first of `names` that `hs` lacks, if any. */
  function FirstMissing(hs: seq<string>, names: seq<string>): (r: Option<string>)
    ensures r.None? <==> forall k :: 0 <= k < |names| ==> names[k] in hs
    ensures r.Some? ==> r.value in names && r.value !in hs
  {
    if |names| == 0 then None
    else if names[0] !in hs then Some(names[0])
    else
      var r := FirstMissing(hs, names[1..]);
      assert forall k :: 1 <= k < |names| ==> names[k] == names[1..][k - 1];
      r
  }

  /** `df[dst] = f(df[src])` without a guard: reading an absent `src` raises. */
  function Assign(t: Table, src: string, dst: string, f: Cell -> Cell): (r: Result<Table>)
    requires WellFormed(t)
    ensures r.Failure? <==> src !in t.header
    ensures r.Failure? ==> r.error == KeyError(src)
    ensures r.Success? ==> WellFormed(r.value) && r.value == MapColumn(t, src, dst, f)
    ensures r.Success? ==> |r.value.rows| == |t.rows|
    ensures r.Success? ==> r.value.header == t.header || r.value.header == t.header + [dst]
    ensures r.Success? ==> forall i :: 0 <= i < |t.rows| ==> Get(r.value, i, dst) == f(Get(t, i, src))
    ensures r.Success? ==> forall i, x :: 0 <= i < |t.rows| && x in t.header && x != dst ==>
              Get(r.value, i, x) == Get(t, i, x)
  {
    if src in t.header then Success(MapColumn(t, src, dst, f)) else Failure(KeyError(src))
  }

  /** The last three reads shared by both loaders: the casualty count,
      the driver's age band and the education level. */
  function ReadTail(t: Table): (r: Result<Table>)
    requires WellFormed(t)
    ensures r.Success? ==> WellFormed(r.value) && |r.value.rows| == |t.rows|
  {
    var t5 :- Assign(t, "number_of_casualties", "casualty_count", CasualtyCell);
    var t6 :- Assign(t5, "age_band_of_driver", "age_band_of_driver", CastAgeBand);
    Assign(t6, "educational_level", "educational_level", CastEducation)
  }

  /** `load_data` of the English dashboard and of `utils/io.py`. Reading
      `time` a second time for `hour` cannot fail. */
  function LoadData(raw: Table): (r: Result<Table>)
    requires WellFormed(raw)
    ensures r.Success? ==> WellFormed(r.value) && |r.value.rows| == |raw.rows|
  {
    Load(Normalize(raw))
  }

  /** The reads and casts of `LoadData` on the normalised table `t0`. */
  function Load(t0: Table): (r: Result<Table>)
    requires WellFormed(t0)
    ensures r.Success? ==> WellFormed(r.value) && |r.value.rows| == |t0.rows|
  {
    var t1 :- Assign(t0, "time", "time", TimeCell);
    var t2 :- Assign(t1, "day_of_week", "day_of_week", CastDay);
    var t3 :- Assign(t2, "accident_severity", "accident_severity", CastSeverity);
    ReadTail(MapColumn(t3, "time", "hour", HourCell))
  }

  /** `load_data` of the Chinese dashboard: severities are first mapped to
      their Chinese labels, then cast onto the Chinese order. */
  function LoadDataZh(raw: Table): (r: Result<Table>)
    requires WellFormed(raw)
    ensures r.Success? ==> WellFormed(r.value) && |r.value.rows| == |raw.rows|
  {
    LoadZh(Normalize(raw))
  }

  /** The reads and casts of `LoadDataZh` on the normalised table `t0`. */
  function LoadZh(t0: Table): (r: Result<Table>)
    requires WellFormed(t0)
    ensures r.Success? ==> WellFormed(r.value) && |r.value.rows| == |t0.rows|
  {
    var t1 :- Assign(t0, "time", "time", TimeCell);
    var t2 :- Assign(t1, "day_of_week", "day_of_week", CastDay);
    var t3 :- Assign(t2, "accident_severity", "accident_severity", TranslateSeverity);
    var t4 := MapColumn(t3, "accident_severity", "accident_severity", CastSeverityZh);
    ReadTail(MapColumn(t4, "time", "hour", HourCell))
  }

  // ---------------------------------------------------------------------
  // Properties

  /** An assignment keeps every column name and adds at most its target. */
  lemma AssignKeepsNames(t: Table, src: string, dst: string, f: Cell -> Cell, x: string)
    requires WellFormed(t) && src in t.header
    ensures x in MapColumn(t, src, dst, f).header <==> x in t.header || x == dst
  {
  }

  /** Which names are missing depends only on which of them are present. */
  lemma {:induction false} FirstMissingAgree(h1: seq<string>, h2: seq<string>, names: seq<string>)
    requires forall k :: 0 <= k < |names| ==> (names[k] in h1 <==> names[k] in h2)
    ensures FirstMissing(h1, names) == FirstMissing(h2, names)
    decreases |names|
  {
    if |names| > 0 {
      FirstMissingAgree(h1, h2, names[1..]);
    }
  }

  /** The shared tail fails exactly at its first absent source column. */
  lemma ReadTailFailure(t: Table)
    requires WellFormed(t)
    ensures ReadTail(t).Failure? <==> FirstMissing(t.header, Required[3..]).Some?
    ensures ReadTail(t).Failure? ==> ReadTail(t).error == KeyError(FirstMissing(t.header, Required[3..]).value)
  {
    var cas, age, edu := "number_of_casualties", "age_band_of_driver", "educational_level";
    assert Required[3..] == [cas, age, edu];
    assert [cas, age, edu][1..] == [age, edu];
    assert [age, edu][1..] == [edu];
    var fm := FirstMissing(t.header, Required[3..]);
    if cas !in t.header {
      assert fm == Some(cas);
    } else {
      var t5 := MapColumn(t, cas, "casualty_count", CasualtyCell);
      AssignKeepsNames(t, cas, "casualty_count", CasualtyCell, age);
      AssignKeepsNames(t, cas, "casualty_count", CasualtyCell, edu);
      assert fm == FirstMissing(t.header, [age, edu]);
      if age !in t.header {
        assert fm == Some(age);
      } else {
        var t6 := MapColumn(t5, age, age, CastAgeBand);
        AssignKeepsNames(t5, age, age, CastAgeBand, edu);
        assert ReadTail(t) == Assign(t6, edu, edu, CastEducation);
        assert fm == FirstMissing(t.header, [edu]);
        assert [edu][1..] == [];
      }
    }
  }

  /** The load fails exactly when a required column is absent after header
      normalisation, and the error names the first one read. */
  lemma LoadFailure(raw: Table)
    requires WellFormed(raw)
    ensures LoadData(raw).Failure? <==> FirstMissing(CanonHeaders(raw.header), Required).Some?
    ensures LoadData(raw).Failure? ==>
              LoadData(raw).error == KeyError(FirstMissing(CanonHeaders(raw.header), Required).value)
  {
    LoadFailsAt(Normalize(raw));
  }

  lemma LoadFailsAt(t0: Table)
    requires WellFormed(t0)
    ensures Load(t0).Failure? <==> FirstMissing(t0.header, Required).Some?
    ensures Load(t0).Failure? ==> Load(t0).error == KeyError(FirstMissing(t0.header, Required).value)
  {
    var hs := t0.header;
    var time, day, sev := "time", "day_of_week", "accident_severity";
    assert Required[1..] == [day, sev] + Required[3..];
    assert ([day, sev] + Required[3..])[1..] == [sev] + Required[3..];
    assert ([sev] + Required[3..])[1..] == Required[3..];
    var fm := FirstMissing(hs, Required);
    if time !in hs {
      assert fm == Some(time);
    } else {
      var t1 := MapColumn(t0, time, time, TimeCell);
      AssignKeepsNames(t0, time, time, TimeCell, day);
      AssignKeepsNames(t0, time, time, TimeCell, sev);
      assert fm == FirstMissing(hs, [day, sev] + Required[3..]);
      if day !in hs {
        assert fm == Some(day);
      } else {
        AssignKeepsNames(t1, day, day, CastDay, sev);
        assert fm == FirstMissing(hs, [sev] + Required[3..]);
        if sev !in hs {
          assert fm == Some(sev);
        } else {
          assert fm == FirstMissing(hs, Required[3..]);
          LoadTailFails(t0);
        }
      }
    }
  }

  /** Once its first three sources exist, the loader fails exactly where
      its tail does. */
  lemma LoadTailFails(t0: Table)
    requires WellFormed(t0)
    requires "time" in t0.header && "day_of_week" in t0.header && "accident_severity" in t0.header
    ensures Load(t0).Failure? <==> FirstMissing(t0.header, Required[3..]).Some?
    ensures Load(t0).Failure? ==> Load(t0).error == KeyError(FirstMissing(t0.header, Required[3..]).value)
  {
    LoadIsHeadThenTail(t0);
    HeadKeepsMissing(t0);
    ReadTailFailure(LoadHead(t0));
  }

  /** The head neither adds nor removes a column the tail reads. */
  lemma HeadKeepsMissing(t0: Table)
    requires WellFormed(t0)
    requires "time" in t0.header && "day_of_week" in t0.header && "accident_severity" in t0.header
    ensures FirstMissing(LoadHead(t0).header, Required[3..]) == FirstMissing(t0.header, Required[3..])
  {
    LoadHeadNames(t0);
    assert "hour" !in Required[3..];
    FirstMissingAgree(LoadHead(t0).header, t0.header, Required[3..]);
  }

  /** The loader's reads up to `hour`, once `time`, `day_of_week` and
      `accident_severity` are known to exist. */
  function LoadHead(t0: Table): Table
    requires WellFormed(t0)
    requires "time" in t0.header && "day_of_week" in t0.header && "accident_severity" in t0.header
  {
    var t1 := MapColumn(t0, "time", "time", TimeCell);
    var t2 := MapColumn(t1, "day_of_week", "day_of_week", CastDay);
    var t3 := MapColumn(t2, "accident_severity", "accident_severity", CastSeverity);
    MapColumn(t3, "time", "hour", HourCell)
  }

  /** The same reads in the guarded pipeline's order: `hour` right after `time`. */
  function EngineerHead(t0: Table): Table
    requires WellFormed(t0)
    requires "time" in t0.header && "day_of_week" in t0.header && "accident_severity" in t0.header
  {
    var t1 := MapColumn(t0, "time", "time", TimeCell);
    var t2 := MapColumn(t1, "time", "hour", HourCell);
    var t3 := MapColumn(t2, "day_of_week", "day_of_week", CastDay);
    MapColumn(t3, "accident_severity", "accident_severity", CastSeverity)
  }

  /** The last three casts, once their sources are known to exist. */
  function CastTail(t: Table): Table
    requires WellFormed(t)
    requires "number_of_casualties" in t.header && "age_band_of_driver" in t.header && "educational_level" in t.header
  {
    var t5 := MapColumn(t, "number_of_casualties", "casualty_count", CasualtyCell);
    var t6 := MapColumn(t5, "age_band_of_driver", "age_band_of_driver", CastAgeBand);
    MapColumn(t6, "educational_level", "educational_level", CastEducation)
  }

  /** With its first three sources present, the loader is its tail applied
      to its head. */
  lemma LoadIsHeadThenTail(t0: Table)
    requires WellFormed(t0)
    requires "time" in t0.header && "day_of_week" in t0.header && "accident_severity" in t0.header
    ensures Load(t0) == ReadTail(LoadHead(t0))
  {
  }

  /** The head has the input's columns plus `hour`. */
  lemma LoadHeadNames(t0: Table)
    requires WellFormed(t0)
    requires "time" in t0.header && "day_of_week" in t0.header && "accident_severity" in t0.header
    ensures forall x :: x in LoadHead(t0).header <==> x in t0.header || x == "hour"
  {
    var time, day, sev := "time", "day_of_week", "accident_severity";
    var t1 := MapColumn(t0, time, time, TimeCell);
    var t2 := MapColumn(t1, day, day, CastDay);
    var t3 := MapColumn(t2, sev, sev, CastSeverity);
    assert t1.header == t0.header && t2.header == t0.header && t3.header == t0.header;
    forall x ensures x in LoadHead(t0).header <==> x in t0.header || x == "hour" {
      AssignKeepsNames(t3, time, "hour", HourCell, x);
    }
  }

  /** The tail succeeds on a table holding its three sources. */
  lemma ReadTailSuccess(t: Table)
    requires WellFormed(t)
    requires "number_of_casualties" in t.header && "age_band_of_driver" in t.header && "educational_level" in t.header
    ensures ReadTail(t) == Success(CastTail(t))
  {
  }

  /** With every source present, the guarded pipeline runs every step. */
  lemma EngineerAllPresent(t0: Table)
    requires WellFormed(t0)
    requires "time" in t0.header && "day_of_week" in t0.header && "accident_severity" in t0.header
    requires "number_of_casualties" in t0.header && "age_band_of_driver" in t0.header && "educational_level" in t0.header
    ensures "number_of_casualties" in EngineerHead(t0).header
    ensures "age_band_of_driver" in EngineerHead(t0).header && "educational_level" in EngineerHead(t0).header
    ensures Engineer(t0) == CastTail(EngineerHead(t0))
  {
  }

  /** Deriving `hour` commutes with the day and severity casts. */
  lemma HeadsAgree(t0: Table)
    requires WellFormed(t0)
    requires "time" in t0.header && "day_of_week" in t0.header && "accident_severity" in t0.header
    ensures LoadHead(t0) == EngineerHead(t0)
  {
    var time, day, sev := "time", "day_of_week", "accident_severity";
    var t1 := MapColumn(t0, time, time, TimeCell);
    var t2 := MapColumn(t1, day, day, CastDay);
    var p2 := MapColumn(t1, time, "hour", HourCell);
    var p3 := MapColumn(p2, day, day, CastDay);
    MapColumnCommute(t1, day, day, CastDay, time, "hour", HourCell);
    assert MapColumn(t2, time, "hour", HourCell) == p3;
    MapColumnCommute(t2, sev, sev, CastSeverity, time, "hour", HourCell);
  }

  /** With every required column present, the loader computes what the
      guarded pipeline computes: `hour` is derived later in the loader, but
      no step between reads or writes it. */
  lemma LoadMatchesEngineer(t0: Table)
    requires WellFormed(t0)
    ensures Load(t0).Success? ==> Load(t0).value == Engineer(t0)
  {
    if Load(t0).Success? {
      LoadFailsAt(t0);
      assert Required[0] == "time" && Required[1] == "day_of_week" && Required[2] == "accident_severity";
      assert Required[3] == "number_of_casualties" && Required[4] == "age_band_of_driver";
      assert Required[5] == "educational_level";
      LoadAllPresent(t0);
    }
  }

  /** With every required column present, the loader succeeds with the
      guarded pipeline's table. */
  lemma LoadAllPresent(t0: Table)
    requires WellFormed(t0)
    requires "time" in t0.header && "day_of_week" in t0.header && "accident_severity" in t0.header
    requires "number_of_casualties" in t0.header && "age_band_of_driver" in t0.header && "educational_level" in t0.header
    ensures Load(t0) == Success(Engineer(t0))
  {
    LoadIsHeadThenTail(t0);
    LoadHeadNames(t0);
    HeadsAgree(t0);
    EngineerAllPresent(t0);
    ReadTailSuccess(LoadHead(t0));
  }

  /** The English loader agrees with `clean_and_engineer_features` whenever
      it succeeds. */
  lemma LoadMatchesPrep(raw: Table)
    requires WellFormed(raw)
    ensures LoadData(raw).Success? ==> LoadData(raw).value == Engineer(Normalize(raw))
  {
    LoadMatchesEngineer(Normalize(raw));
  }

  /** The tail keeps every column it is given. */
  lemma ReadTailKeepsNames(t: Table, x: string)
    requires WellFormed(t) && x in t.header && ReadTail(t).Success?
    ensures x in ReadTail(t).value.header
  {
    var cas, age, edu := "number_of_casualties", "age_band_of_driver", "educational_level";
    var t5 := MapColumn(t, cas, "casualty_count", CasualtyCell);
    var t6 := MapColumn(t5, age, age, CastAgeBand);
    assert ReadTail(t) == Success(MapColumn(t6, edu, edu, CastEducation));
    AssignKeepsNames(t, cas, "casualty_count", CasualtyCell, x);
    AssignKeepsNames(t5, age, age, CastAgeBand, x);
    AssignKeepsNames(t6, edu, edu, CastEducation, x);
  }

  /** An in-place update of a column the tail neither reads nor writes
      may be done before the tail or after it. */
  lemma ReadTailCommute(u: Table, c: string, g: Cell -> Cell)
    requires WellFormed(u) && c in u.header
    requires c != "number_of_casualties" && c != "casualty_count"
    requires c != "age_band_of_driver" && c != "educational_level"
    ensures ReadTail(MapColumn(u, c, c, g)).Failure? <==> ReadTail(u).Failure?
    ensures ReadTail(u).Failure? ==> ReadTail(MapColumn(u, c, c, g)).error == ReadTail(u).error
    ensures ReadTail(u).Success? ==>
              c in ReadTail(u).value.header
              && ReadTail(MapColumn(u, c, c, g)) == Success(MapColumn(ReadTail(u).value, c, c, g))
  {
    var v := MapColumn(u, c, c, g);
    assert v.header == u.header;
    var cas, age, edu := "number_of_casualties", "age_band_of_driver", "educational_level";
    if cas in u.header {
      var u5, v5 := MapColumn(u, cas, "casualty_count", CasualtyCell), MapColumn(v, cas, "casualty_count", CasualtyCell);
      MapColumnCommute(u, c, c, g, cas, "casualty_count", CasualtyCell);
      assert v5 == MapColumn(u5, c, c, g);
      AssignKeepsNames(u, cas, "casualty_count", CasualtyCell, c);
      AssignKeepsNames(u, cas, "casualty_count", CasualtyCell, age);
      AssignKeepsNames(u, cas, "casualty_count", CasualtyCell, edu);
      if age in u.header {
        var u6, v6 := MapColumn(u5, age, age, CastAgeBand), MapColumn(v5, age, age, CastAgeBand);
        MapColumnCommute(u5, c, c, g, age, age, CastAgeBand);
        assert v6 == MapColumn(u6, c, c, g);
        AssignKeepsNames(u5, age, age, CastAgeBand, c);
        AssignKeepsNames(u5, age, age, CastAgeBand, edu);
        if edu in u.header {
          MapColumnCommute(u6, c, c, g, edu, edu, CastEducation);
          AssignKeepsNames(u6, edu, edu, CastEducation, c);
        }
      }
    }
  }

  /** `TranslateKeepsRank` for every cell at once. */
  lemma TranslateKeepsRankAll()
    ensures forall x :: CastSeverityZh(TranslateSeverity(x)) == RelabelZh(CastSeverity(x))
  {
    forall x ensures CastSeverityZh(TranslateSeverity(x)) == RelabelZh(CastSeverity(x)) {
      TranslateKeepsRank(x);
    }
  }

  /** Mapping severities to Chinese and casting them onto the Chinese order
      is casting them onto the English order and relabelling each rank. */
  lemma ZhCastAgrees(t: Table)
    requires WellFormed(t) && "accident_severity" in t.header
    ensures MapColumn(MapColumn(t, "accident_severity", "accident_severity", TranslateSeverity),
                      "accident_severity", "accident_severity", CastSeverityZh)
         == MapColumn(MapColumn(t, "accident_severity", "accident_severity", CastSeverity),
                      "accident_severity", "accident_severity", RelabelZh)
  {
    TranslateKeepsRankAll();
    MapColumnSameComposite(t, "accident_severity", TranslateSeverity, CastSeverityZh, CastSeverity, RelabelZh);
  }

  /** The same, followed by deriving `hour`: the relabelling may move past it. */
  lemma ZhHeadAgrees(t2: Table)
    requires WellFormed(t2) && "accident_severity" in t2.header && "time" in t2.header
    ensures MapColumn(MapColumn(MapColumn(t2, "accident_severity", "accident_severity", TranslateSeverity),
                                "accident_severity", "accident_severity", CastSeverityZh),
                      "time", "hour", HourCell)
         == MapColumn(MapColumn(MapColumn(t2, "accident_severity", "accident_severity", CastSeverity),
                                "time", "hour", HourCell),
                      "accident_severity", "accident_severity", RelabelZh)
  {
    var sev := "accident_severity";
    var t3 := MapColumn(t2, sev, sev, CastSeverity);
    ZhCastAgrees(t2);
    MapColumnCommute(t3, sev, sev, RelabelZh, "time", "hour", HourCell);
  }

  /** The Chinese loader fails exactly when the English one does, with the
      same error; when both succeed they differ only in the severity
      column, where each category carries the Chinese label of its rank. */
  lemma LoadZhMatchesLoad(t0: Table)
    requires WellFormed(t0)
    ensures LoadZh(t0).Failure? <==> Load(t0).Failure?
    ensures Load(t0).Failure? ==> LoadZh(t0).error == Load(t0).error
    ensures Load(t0).Success? ==>
              "accident_severity" in Load(t0).value.header
              && LoadZh(t0) == Success(MapColumn(Load(t0).value, "accident_severity", "accident_severity", RelabelZh))
  {
    var time, day, sev := "time", "day_of_week", "accident_severity";
    if time in t0.header && day in t0.header && sev in t0.header {
      var t1 := MapColumn(t0, time, time, TimeCell);
      AssignKeepsNames(t0, time, time, TimeCell, day);
      AssignKeepsNames(t0, time, time, TimeCell, sev);
      var t2 := MapColumn(t1, day, day, CastDay);
      AssignKeepsNames(t1, day, day, CastDay, sev);
      AssignKeepsNames(t1, day, day, CastDay, time);
      var t4 := MapColumn(MapColumn(t2, sev, sev, CastSeverity), time, "hour", HourCell);
      assert Load(t0) == ReadTail(t4);
      var z5 := MapColumn(MapColumn(MapColumn(t2, sev, sev, TranslateSeverity), sev, sev, CastSeverityZh), time, "hour", HourCell);
      assert LoadZh(t0) == ReadTail(z5);
      ZhHeadAgrees(t2);
      AssignKeepsNames(MapColumn(t2, sev, sev, CastSeverity), time, "hour", HourCell, sev);
      ReadTailCommute(t4, sev, RelabelZh);
    } else if time in t0.header && day in t0.header {
      AssignKeepsNames(t0, time, time, TimeCell, sev);
      AssignKeepsNames(MapColumn(t0, time, time, TimeCell), day, day, CastDay, sev);
    } else if time in t0.header {
      AssignKeepsNames(t0, time, time, TimeCell, day);
    }
  }

  /** On the raw table: the Chinese loader fails exactly when the English
      one does, and otherwise yields the English result with each severity
      relabelled by rank. */
  lemma LoadDataZhMatchesLoadData(raw: Table)
    requires WellFormed(raw)
    ensures LoadDataZh(raw).Failure? <==> LoadData(raw).Failure?
    ensures LoadData(raw).Failure? ==> LoadDataZh(raw).error == LoadData(raw).error
    ensures LoadData(raw).Success? ==>
              "accident_severity" in LoadData(raw).value.header
              && LoadDataZh(raw) == Success(MapColumn(LoadData(raw).value, "accident_severity", "accident_severity", RelabelZh))
  {
    LoadZhMatchesLoad(Normalize(raw));
  }

  /** Every severity the English loader yields is missing or one of the
      English severities, tagged with its rank. */
  lemma LoadedSeverity(raw: Table, i: nat)
    requires WellFormed(raw) && i < |raw.rows|
    requires LoadData(raw).Success?
    ensures "accident_severity" in LoadData(raw).value.header
    ensures InDomain(SeverityOrder, Get(LoadData(raw).value, i, "accident_severity"))
  {
    LoadFailure(raw);
    assert "accident_severity" == Required[2];
    LoadMatchesPrep(raw);
    PrepCategories(raw, i);
  }

  /** Every severity the Chinese loader yields is missing or one of the
      Chinese severities, tagged with its rank. */
  lemma LoadedSeverityZh(raw: Table, i: nat)
    requires WellFormed(raw) && i < |raw.rows|
    requires LoadDataZh(raw).Success?
    ensures "accident_severity" in LoadDataZh(raw).value.header
    ensures InDomain(SeverityOrderZh, Get(LoadDataZh(raw).value, i, "accident_severity"))
  {
    LoadDataZhMatchesLoadData(raw);
    LoadedSeverity(raw, i);
  }
}
