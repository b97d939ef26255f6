/** The column-guarded cleaning pipeline `clean_and_engineer_features`.

    Raw table -> canonical headers -> sentinels cleared -> each derivation
    applied only when its source column exists. */
module Prep {

  import opened Cells
  import opened Tables
  import opened Headers
  import opened Sentinels
  import opened Parsing
  import opened Categories

  /** Header canonicalisation followed by sentinel clearing. */
  function Normalize(raw: Table): (t: Table)
    requires WellFormed(raw)
    ensures WellFormed(t) && |t.rows| == |raw.rows|
    ensures t.header == CanonHeaders(raw.header)
    ensures forall i, j :: 0 <= i < |raw.rows| && 0 <= j < |raw.header| ==>
              t.rows[i][j] == ClearCell(raw.rows[i][j])
  {
    ClearTable(Table(CanonHeaders(raw.header), raw.rows))
  }

  /** `pd.to_datetime(x, format='%H:%M:%S', errors='coerce').dt.time` on one
      cell: text that parses becomes a time of day, anything else missing. */
  function TimeCell(c: Cell): (r: Cell)
    ensures r.Missing? || (r.Time? && r.time.Valid())
    ensures r.Time? <==> c.Text? && ParseTime(c.text).Some?
    ensures r.Time? ==> r.time == ParseTime(c.text).value
  {
    if c.Text? then
      match ParseTime(c.text)
      case Some(t) => Time(t)
      case None => Missing
    else Missing
  }

  /** `x.hour if pd.notna(x) else np.nan` on one parsed time. */
  function HourCell(c: Cell): (r: Cell)
    ensures r.Missing? <==> !c.Time?
    ensures c.Time? && c.time.Valid() ==> r.Number? && 0 <= r.value < 24
  {
    if c.Time? then Number(c.time.hour) else Missing
  }

  /** A time of day written as `HH:MM:SS` is read back as that time, and
      its hour is the hour it was written with. */
  lemma TimeAndHourOfFormatted(tm: TimeOfDay)
    requires tm.Valid()
    ensures TimeCell(Text(FormatTime(tm))) == Time(tm)
    ensures HourCell(TimeCell(Text(FormatTime(tm)))) == Number(tm.hour)
  {
    ParseFormatTime(tm);
  }

  /** `pd.to_numeric(x, errors='coerce')` on one cell, for integer text. */
  function CasualtyCell(c: Cell): (r: Cell)
    ensures r.Missing? || r.Number?
    ensures c.Number? ==> r == c
    ensures c.Text? ==> (r.Number? <==> ParseInt(c.text).Some?)
    ensures c.Text? && r.Number? ==> r.value == ParseInt(c.text).value
    ensures !c.Text? && !c.Number? ==> r.Missing?
  {
    match c
    case Text(s) =>
      (match ParseInt(s)
       case Some(n) => Number(n)
       case None => Missing)
    case Number(_) => c
    case _ => Missing
  }

  /** The columns the pipeline writes. */
  const Derived: set<string> :=
    {"time", "hour", "day_of_week", "accident_severity", "casualty_count",
     "age_band_of_driver", "educational_level"}

  /** The derivations of `clean_and_engineer_features`, in source order,
      each guarded by the presence of its source column. */
  function Engineer(t0: Table): (out: Table)
    requires WellFormed(t0)
    ensures WellFormed(out)
    ensures |out.rows| == |t0.rows|
    ensures t0.header <= out.header
  {
    var t1 := Guarded(t0, "time", "time", TimeCell);
    var t2 := Guarded(t1, "time", "hour", HourCell);
    var t3 := Guarded(t2, "day_of_week", "day_of_week", CastDay);
    var t4 := Guarded(t3, "accident_severity", "accident_severity", CastSeverity);
    var t5 := Guarded(t4, "number_of_casualties", "casualty_count", CasualtyCell);
    var t6 := Guarded(t5, "age_band_of_driver", "age_band_of_driver", CastAgeBand);
    Guarded(t6, "educational_level", "educational_level", CastEducation)
  }

  /** `clean_and_engineer_features(df)`. */
  function CleanAndEngineer(raw: Table): (out: Table)
    requires WellFormed(raw)
    ensures WellFormed(out)
    ensures |out.rows| == |raw.rows|
  {
    Engineer(Normalize(raw))
  }

  /** The header the pipeline produces from the canonical header `hs`: the
      same columns in the same order, plus `hour` and `casualty_count` at
      the end when their source column exists and they do not. */
  function OutputHeader(hs: seq<string>): seq<string>
  {
    hs
    + (if "time" in hs && "hour" !in hs then ["hour"] else [])
    + (if "number_of_casualties" in hs && "casualty_count" !in hs then ["casualty_count"] else [])
  }

  // ---------------------------------------------------------------------
  // Properties

  /** A guarded step leaves every column other than its target alone. */
  lemma GuardedKeeps(t: Table, src: string, dst: string, f: Cell -> Cell, i: nat, x: string)
    requires WellFormed(t) && i < |t.rows| && x in t.header && x != dst
    ensures x in Guarded(t, src, dst, f).header
    ensures Get(Guarded(t, src, dst, f), i, x) == Get(t, i, x)
  {
  }

  /** A guarded step whose source exists writes its target. */
  lemma GuardedWrites(t: Table, src: string, dst: string, f: Cell -> Cell, i: nat)
    requires WellFormed(t) && i < |t.rows| && src in t.header
    ensures dst in Guarded(t, src, dst, f).header
    ensures Get(Guarded(t, src, dst, f), i, dst) == f(Get(t, i, src))
  {
  }

  /** Row count and row order are kept; columns are only ever appended, and
      only for a derivation whose source column exists. */
  lemma PrepHeader(raw: Table)
    requires WellFormed(raw)
    ensures CleanAndEngineer(raw).header == OutputHeader(CanonHeaders(raw.header))
  {
    EngineerHeader(Normalize(raw));
  }

  /** The header after one guarded step: the target is appended only when
      the source exists and the target does not. */
  lemma GuardedHeader(t: Table, src: string, dst: string, f: Cell -> Cell)
    requires WellFormed(t)
    ensures Guarded(t, src, dst, f).header
            == t.header + (if src in t.header && dst !in t.header then [dst] else [])
  {
  }

  lemma EngineerHeader(t0: Table)
    requires WellFormed(t0)
    ensures Engineer(t0).header == OutputHeader(t0.header)
  {
    var t1 := Guarded(t0, "time", "time", TimeCell);
    var t2 := Guarded(t1, "time", "hour", HourCell);
    var t3 := Guarded(t2, "day_of_week", "day_of_week", CastDay);
    var t4 := Guarded(t3, "accident_severity", "accident_severity", CastSeverity);
    var t5 := Guarded(t4, "number_of_casualties", "casualty_count", CasualtyCell);
    var t6 := Guarded(t5, "age_band_of_driver", "age_band_of_driver", CastAgeBand);
    var t7 := Guarded(t6, "educational_level", "educational_level", CastEducation);
    assert t7 == Engineer(t0);
    GuardedHeader(t0, "time", "time", TimeCell);
    GuardedHeader(t1, "time", "hour", HourCell);
    GuardedHeader(t2, "day_of_week", "day_of_week", CastDay);
    GuardedHeader(t3, "accident_severity", "accident_severity", CastSeverity);
    GuardedHeader(t4, "number_of_casualties", "casualty_count", CasualtyCell);
    GuardedHeader(t5, "age_band_of_driver", "age_band_of_driver", CastAgeBand);
    GuardedHeader(t6, "educational_level", "educational_level", CastEducation);
    var hs := t0.header;
    var h2 := hs + (if "time" in hs && "hour" !in hs then ["hour"] else []);
    assert t2.header == h2;
    assert t4.header == h2;
    assert "number_of_casualties" in h2 <==> "number_of_casualties" in hs;
    assert "casualty_count" in h2 <==> "casualty_count" in hs;
    assert t5.header == OutputHeader(hs);
  }

  /** No `hour` column appears when neither `time` nor `hour` is present. */
  lemma PrepNoTimeNoHour(raw: Table)
    requires WellFormed(raw)
    requires "time" !in CanonHeaders(raw.header) && "hour" !in CanonHeaders(raw.header)
    ensures "hour" !in CleanAndEngineer(raw).header
  {
    PrepHeader(raw);
  }

  /** `time` holds the parsed cleared text or is missing; `hour` is missing
      exactly when `time` is, and otherwise is the parsed hour, in 0..23. */
  lemma PrepTimeAndHour(raw: Table, i: nat)
    requires WellFormed(raw) && i < |raw.rows|
    requires "time" in CanonHeaders(raw.header)
    ensures "time" in CleanAndEngineer(raw).header && "hour" in CleanAndEngineer(raw).header
    ensures Get(CleanAndEngineer(raw), i, "time") == TimeCell(Get(Normalize(raw), i, "time"))
    ensures Get(CleanAndEngineer(raw), i, "hour").Missing? <==> Get(CleanAndEngineer(raw), i, "time").Missing?
    ensures Get(CleanAndEngineer(raw), i, "time").Time? ==>
              Get(CleanAndEngineer(raw), i, "hour") == Number(Get(CleanAndEngineer(raw), i, "time").time.hour)
              && Get(CleanAndEngineer(raw), i, "time").time.hour < 24
  {
    var t0 := Normalize(raw);
    var t1 := Guarded(t0, "time", "time", TimeCell);
    var t2 := Guarded(t1, "time", "hour", HourCell);
    var t3 := Guarded(t2, "day_of_week", "day_of_week", CastDay);
    var t4 := Guarded(t3, "accident_severity", "accident_severity", CastSeverity);
    var t5 := Guarded(t4, "number_of_casualties", "casualty_count", CasualtyCell);
    var t6 := Guarded(t5, "age_band_of_driver", "age_band_of_driver", CastAgeBand);
    var t7 := Guarded(t6, "educational_level", "educational_level", CastEducation);
    assert t7 == Engineer(t0) == CleanAndEngineer(raw);
    GuardedWrites(t0, "time", "time", TimeCell, i);
    GuardedKeeps(t1, "time", "hour", HourCell, i, "time");
    GuardedWrites(t1, "time", "hour", HourCell, i);
    var tc, hc := Get(t2, i, "time"), Get(t2, i, "hour");
    assert hc == HourCell(tc);
    GuardedKeeps(t2, "day_of_week", "day_of_week", CastDay, i, "time");
    GuardedKeeps(t2, "day_of_week", "day_of_week", CastDay, i, "hour");
    GuardedKeeps(t3, "accident_severity", "accident_severity", CastSeverity, i, "time");
    GuardedKeeps(t3, "accident_severity", "accident_severity", CastSeverity, i, "hour");
    GuardedKeeps(t4, "number_of_casualties", "casualty_count", CasualtyCell, i, "time");
    GuardedKeeps(t4, "number_of_casualties", "casualty_count", CasualtyCell, i, "hour");
    GuardedKeeps(t5, "age_band_of_driver", "age_band_of_driver", CastAgeBand, i, "time");
    GuardedKeeps(t5, "age_band_of_driver", "age_band_of_driver", CastAgeBand, i, "hour");
    GuardedKeeps(t6, "educational_level", "educational_level", CastEducation, i, "time");
    GuardedKeeps(t6, "educational_level", "educational_level", CastEducation, i, "hour");
  }

  /** If the canonical table `n` has column `name`, the output table `out`
      has it too, holding at row `i` the cast of `n`'s value onto `domain`. */
  predicate FieldCast(n: Table, out: Table, i: nat, name: string, domain: seq<string>)
    requires WellFormed(n) && WellFormed(out) && i < |n.rows| && i < |out.rows|
  {
    name in n.header ==> name in out.header && Get(out, i, name) == Cast(domain, Get(n, i, name))
  }

  /** Each ordered field present is cast onto its fixed list. */
  lemma PrepCategories(raw: Table, i: nat)
    requires WellFormed(raw) && i < |raw.rows|
    ensures FieldCast(Normalize(raw), CleanAndEngineer(raw), i, "day_of_week", DayOrder)
    ensures FieldCast(Normalize(raw), CleanAndEngineer(raw), i, "accident_severity", SeverityOrder)
    ensures FieldCast(Normalize(raw), CleanAndEngineer(raw), i, "age_band_of_driver", AgeBands)
    ensures FieldCast(Normalize(raw), CleanAndEngineer(raw), i, "educational_level", EduLevels)
  {
    var t0 := Normalize(raw);
    EngineerDay(t0, i);
    EngineerSeverity(t0, i);
    EngineerAgeBand(t0, i);
    EngineerEducation(t0, i);
  }

  lemma EngineerDay(t0: Table, i: nat)
    requires WellFormed(t0) && i < |t0.rows|
    ensures FieldCast(t0, Engineer(t0), i, "day_of_week", DayOrder)
  {
    var t1 := Guarded(t0, "time", "time", TimeCell);
    var t2 := Guarded(t1, "time", "hour", HourCell);
    var t3 := Guarded(t2, "day_of_week", "day_of_week", CastDay);
    var t4 := Guarded(t3, "accident_severity", "accident_severity", CastSeverity);
    var t5 := Guarded(t4, "number_of_casualties", "casualty_count", CasualtyCell);
    var t6 := Guarded(t5, "age_band_of_driver", "age_band_of_driver", CastAgeBand);
    var t7 := Guarded(t6, "educational_level", "educational_level", CastEducation);
    assert t7 == Engineer(t0);
    var day, sev, age, edu := "day_of_week", "accident_severity", "age_band_of_driver", "educational_level";
    if day in t0.header {
      GuardedKeeps(t0, "time", "time", TimeCell, i, day);
      GuardedKeeps(t1, "time", "hour", HourCell, i, day);
      GuardedWrites(t2, day, day, CastDay, i);
      GuardedKeeps(t3, sev, sev, CastSeverity, i, day);
      GuardedKeeps(t4, "number_of_casualties", "casualty_count", CasualtyCell, i, day);
      GuardedKeeps(t5, age, age, CastAgeBand, i, day);
      GuardedKeeps(t6, edu, edu, CastEducation, i, day);    }
  }

  lemma EngineerSeverity(t0: Table, i: nat)
    requires WellFormed(t0) && i < |t0.rows|
    ensures FieldCast(t0, Engineer(t0), i, "accident_severity", SeverityOrder)
  {
    var t1 := Guarded(t0, "time", "time", TimeCell);
    var t2 := Guarded(t1, "time", "hour", HourCell);
    var t3 := Guarded(t2, "day_of_week", "day_of_week", CastDay);
    var t4 := Guarded(t3, "accident_severity", "accident_severity", CastSeverity);
    var t5 := Guarded(t4, "number_of_casualties", "casualty_count", CasualtyCell);
    var t6 := Guarded(t5, "age_band_of_driver", "age_band_of_driver", CastAgeBand);
    var t7 := Guarded(t6, "educational_level", "educational_level", CastEducation);
    assert t7 == Engineer(t0);
    var day, sev, age, edu := "day_of_week", "accident_severity", "age_band_of_driver", "educational_level";
    if sev in t0.header {
      GuardedKeeps(t0, "time", "time", TimeCell, i, sev);
      GuardedKeeps(t1, "time", "hour", HourCell, i, sev);
      GuardedKeeps(t2, day, day, CastDay, i, sev);
      GuardedWrites(t3, sev, sev, CastSeverity, i);
      GuardedKeeps(t4, "number_of_casualties", "casualty_count", CasualtyCell, i, sev);
      GuardedKeeps(t5, age, age, CastAgeBand, i, sev);
      GuardedKeeps(t6, edu, edu, CastEducation, i, sev);    }
  }

  lemma EngineerAgeBand(t0: Table, i: nat)
    requires WellFormed(t0) && i < |t0.rows|
    ensures FieldCast(t0, Engineer(t0), i, "age_band_of_driver", AgeBands)
  {
    var t1 := Guarded(t0, "time", "time", TimeCell);
    var t2 := Guarded(t1, "time", "hour", HourCell);
    var t3 := Guarded(t2, "day_of_week", "day_of_week", CastDay);
    var t4 := Guarded(t3, "accident_severity", "accident_severity", CastSeverity);
    var t5 := Guarded(t4, "number_of_casualties", "casualty_count", CasualtyCell);
    var t6 := Guarded(t5, "age_band_of_driver", "age_band_of_driver", CastAgeBand);
    var t7 := Guarded(t6, "educational_level", "educational_level", CastEducation);
    assert t7 == Engineer(t0);
    var day, sev, age, edu := "day_of_week", "accident_severity", "age_band_of_driver", "educational_level";
    if age in t0.header {
      GuardedKeeps(t0, "time", "time", TimeCell, i, age);
      GuardedKeeps(t1, "time", "hour", HourCell, i, age);
      GuardedKeeps(t2, day, day, CastDay, i, age);
      GuardedKeeps(t3, sev, sev, CastSeverity, i, age);
      GuardedKeeps(t4, "number_of_casualties", "casualty_count", CasualtyCell, i, age);
      GuardedWrites(t5, age, age, CastAgeBand, i);
      GuardedKeeps(t6, edu, edu, CastEducation, i, age);    }
  }

  lemma EngineerEducation(t0: Table, i: nat)
    requires WellFormed(t0) && i < |t0.rows|
    ensures FieldCast(t0, Engineer(t0), i, "educational_level", EduLevels)
  {
    var t1 := Guarded(t0, "time", "time", TimeCell);
    var t2 := Guarded(t1, "time", "hour", HourCell);
    var t3 := Guarded(t2, "day_of_week", "day_of_week", CastDay);
    var t4 := Guarded(t3, "accident_severity", "accident_severity", CastSeverity);
    var t5 := Guarded(t4, "number_of_casualties", "casualty_count", CasualtyCell);
    var t6 := Guarded(t5, "age_band_of_driver", "age_band_of_driver", CastAgeBand);
    var t7 := Guarded(t6, "educational_level", "educational_level", CastEducation);
    assert t7 == Engineer(t0);
    var day, sev, age, edu := "day_of_week", "accident_severity", "age_band_of_driver", "educational_level";
    if edu in t0.header {
      GuardedKeeps(t0, "time", "time", TimeCell, i, edu);
      GuardedKeeps(t1, "time", "hour", HourCell, i, edu);
      GuardedKeeps(t2, day, day, CastDay, i, edu);
      GuardedKeeps(t3, sev, sev, CastSeverity, i, edu);
      GuardedKeeps(t4, "number_of_casualties", "casualty_count", CasualtyCell, i, edu);
      GuardedKeeps(t5, age, age, CastAgeBand, i, edu);
      GuardedWrites(t6, edu, edu, CastEducation, i);    }
  }

  /** `casualty_count` is the numeric reading of `number_of_casualties`. */
  lemma PrepCasualties(raw: Table, i: nat)
    requires WellFormed(raw) && i < |raw.rows|
    requires "number_of_casualties" in CanonHeaders(raw.header)
    ensures "casualty_count" in CleanAndEngineer(raw).header
    ensures Get(CleanAndEngineer(raw), i, "casualty_count")
            == CasualtyCell(Get(Normalize(raw), i, "number_of_casualties"))
  {
    var t0 := Normalize(raw);
    var t1 := Guarded(t0, "time", "time", TimeCell);
    var t2 := Guarded(t1, "time", "hour", HourCell);
    var t3 := Guarded(t2, "day_of_week", "day_of_week", CastDay);
    var t4 := Guarded(t3, "accident_severity", "accident_severity", CastSeverity);
    var t5 := Guarded(t4, "number_of_casualties", "casualty_count", CasualtyCell);
    var t6 := Guarded(t5, "age_band_of_driver", "age_band_of_driver", CastAgeBand);
    var t7 := Guarded(t6, "educational_level", "educational_level", CastEducation);
    assert t7 == Engineer(t0) == CleanAndEngineer(raw);
    var src := "number_of_casualties";
    GuardedKeeps(t0, "time", "time", TimeCell, i, src);
    GuardedKeeps(t1, "time", "hour", HourCell, i, src);
    GuardedKeeps(t2, "day_of_week", "day_of_week", CastDay, i, src);
    GuardedKeeps(t3, "accident_severity", "accident_severity", CastSeverity, i, src);
    GuardedWrites(t4, src, "casualty_count", CasualtyCell, i);
    GuardedKeeps(t5, "age_band_of_driver", "age_band_of_driver", CastAgeBand, i, "casualty_count");
    GuardedKeeps(t6, "educational_level", "educational_level", CastEducation, i, "casualty_count");
  }

  /** A guarded step keeps every cell of a column not named after its
      target, at the same position. */
  lemma GuardedKeepsCell(t: Table, src: string, dst: string, f: Cell -> Cell, i: nat, j: nat)
    requires WellFormed(t) && i < |t.rows| && j < |t.header| && t.header[j] != dst
    ensures j < |Guarded(t, src, dst, f).header| && Guarded(t, src, dst, f).header[j] == t.header[j]
    ensures Guarded(t, src, dst, f).rows[i][j] == t.rows[i][j]
  {
  }

  /** Normalisation at one position: the canonical name, the cleared cell. */
  lemma NormalizeCell(raw: Table, i: nat, j: nat)
    requires WellFormed(raw) && i < |raw.rows| && j < |raw.header|
    ensures j < |Normalize(raw).header| && i < |Normalize(raw).rows|
    ensures Normalize(raw).header[j] == Canon(raw.header[j])
    ensures Normalize(raw).rows[i][j] == ClearCell(raw.rows[i][j])
  {
  }

  /** A column the pipeline does not write keeps its cleared raw cells
      (stated on `Engineer(Normalize(raw))`, the body of `CleanAndEngineer`). */
  lemma PrepUntouched(raw: Table, i: nat, j: nat)
    requires WellFormed(raw) && i < |raw.rows| && j < |raw.header|
    requires Canon(raw.header[j]) !in Derived
    ensures Engineer(Normalize(raw)).rows[i][j] == ClearCell(raw.rows[i][j])
  {
    NormalizeCell(raw, i, j);
    EngineerKeepsCell(Normalize(raw), i, j);
  }

  lemma EngineerKeepsCell(t0: Table, i: nat, j: nat)
    requires WellFormed(t0) && i < |t0.rows| && j < |t0.header|
    requires t0.header[j] !in Derived
    ensures j < |Engineer(t0).header| && Engineer(t0).rows[i][j] == t0.rows[i][j]
  {
    var t1 := Guarded(t0, "time", "time", TimeCell);
    var t2 := Guarded(t1, "time", "hour", HourCell);
    var t3 := Guarded(t2, "day_of_week", "day_of_week", CastDay);
    var t4 := Guarded(t3, "accident_severity", "accident_severity", CastSeverity);
    var t5 := Guarded(t4, "number_of_casualties", "casualty_count", CasualtyCell);
    var t6 := Guarded(t5, "age_band_of_driver", "age_band_of_driver", CastAgeBand);
    var t7 := Guarded(t6, "educational_level", "educational_level", CastEducation);
    assert t7 == Engineer(t0);
    var x := t0.header[j];
    assert x != "time" && x != "hour" && x != "day_of_week" && x != "accident_severity";
    assert x != "casualty_count" && x != "age_band_of_driver" && x != "educational_level";
    GuardedKeepsCell(t0, "time", "time", TimeCell, i, j);
    GuardedKeepsCell(t1, "time", "hour", HourCell, i, j);
    GuardedKeepsCell(t2, "day_of_week", "day_of_week", CastDay, i, j);
    GuardedKeepsCell(t3, "accident_severity", "accident_severity", CastSeverity, i, j);
    GuardedKeepsCell(t4, "number_of_casualties", "casualty_count", CasualtyCell, i, j);
    GuardedKeepsCell(t5, "age_band_of_driver", "age_band_of_driver", CastAgeBand, i, j);
    GuardedKeepsCell(t6, "educational_level", "educational_level", CastEducation, i, j);
  }

  /** A sentinel `-1` in the casualty column is already missing when the
      numeric coercion sees it; any other decimal integer is read as itself. */
  lemma CasualtyReading(n: int)
    ensures CasualtyCell(ClearCell(Text("-1"))) == Missing
    ensures n != -1 ==> CasualtyCell(ClearCell(Text(ShowInt(n)))) == Number(n)
  {
    assert IsSentinel("-1");
    ParseShowInt(n);
    if n != -1 {
      ParseShowInt(-1);
      assert ShowInt(-1) == "-1";
      ParseIntRejects("Unknown", 0);
      ParseIntRejects("unknown", 0);
      ParseIntRejects("na", 0);
      ParseIntRejects("Other", 0);
      assert !IsSentinel(ShowInt(n));
    }
  }
}
