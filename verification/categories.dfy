/** The fixed ordered category lists and the cast onto them
    (`pd.Categorical(values, categories=..., ordered=True)`), plus the
    English-to-Chinese severity relabelling of the Chinese dashboard. */
module Categories {

  import opened Cells
  import Tables

  const DayOrder: seq<string> :=
    ["Monday", "Tuesday", "Wednesday", "Thursday", "Friday", "Saturday", "Sunday"]

  /** Severity, mildest first. */
  const SeverityOrder: seq<string> := ["Slight Injury", "Serious Injury", "Fatal Injury"]

  /** The severities the dashboard calls critical. */
  const CriticalSeverity: seq<string> := ["Serious Injury", "Fatal Injury"]

  const AgeBands: seq<string> := ["Under 18", "18-30", "31-50", "Over 51"]

  const EduLevels: seq<string> :=
    ["Illiterate", "Elementary school", "Junior high school",
     "High school graduate", "Above high school", "College & above"]

  /** The Chinese dashboard's severity order and critical severities. */
  const SeverityOrderZh: seq<string> := ["轻微伤害", "严重伤害", "致命伤害"]

  const CriticalSeverityZh: seq<string> := ["严重伤害", "致命伤害"]

  /** The dictionary passed to `Series.map` in the Chinese loader. */
  const SeverityZh: map<string, string> :=
    map["Slight Injury" := "轻微伤害", "Serious Injury" := "严重伤害", "Fatal Injury" := "致命伤害"]

  /** A cell of an ordered categorical column over `domain`: missing, or a
      listed value tagged with its position in the list. */
  predicate InDomain(domain: seq<string>, c: Cell) {
    c.Missing? || (c.Category? && c.rank < |domain| && domain[c.rank] == c.name)
  }

  /** Casting one value onto the ordered list `domain`. A value in the list
      keeps its identity and gains its rank; anything else, missing
      included, becomes missing. */
  function Cast(domain: seq<string>, c: Cell): (r: Cell)
    ensures InDomain(domain, r)
    ensures r.Category? <==> Label(c).Some? && Label(c).value in domain
    ensures r.Category? ==> r.name == Label(c).value
  {
    match Label(c)
    case Some(s) => if s in domain then Category(s, Tables.IndexOf(domain, s)) else Missing
    case None => Missing
  }

  /** Casting an already cast value onto the same list changes nothing. */
  lemma CastIdempotent(domain: seq<string>, c: Cell)
    ensures Cast(domain, Cast(domain, c)) == Cast(domain, c)
  {
  }

  function CastDay(c: Cell): Cell { Cast(DayOrder, c) }
  function CastSeverity(c: Cell): Cell { Cast(SeverityOrder, c) }
  function CastAgeBand(c: Cell): Cell { Cast(AgeBands, c) }
  function CastEducation(c: Cell): Cell { Cast(EduLevels, c) }
  function CastSeverityZh(c: Cell): Cell { Cast(SeverityOrderZh, c) }

  /** `Series.map(severity_mapping)` on one cell: a listed English severity
      becomes its Chinese label; every other value, missing included,
      becomes missing. */
  function TranslateSeverity(c: Cell): (r: Cell)
    ensures r.Missing? || r.Text?
    ensures r.Text? <==> Label(c).Some? && Label(c).value in SeverityZh
  {
    match Label(c)
    case Some(s) => if s in SeverityZh then Text(SeverityZh[s]) else Missing
    case None => Missing
  }

  /** Replaces an English severity category by the Chinese one of the same
      rank. */
  function RelabelZh(c: Cell): Cell
  {
    if c.Category? && c.rank < |SeverityOrderZh| then Category(SeverityOrderZh[c.rank], c.rank) else c
  }

  /** The translation dictionary follows the two orders position by
      position, and its keys are exactly the English severities. */
  lemma SeverityMapFollowsOrder()
    ensures SeverityZh.Keys == set s | s in SeverityOrder
    ensures forall k :: 0 <= k < 3 ==> SeverityZh[SeverityOrder[k]] == SeverityOrderZh[k]
  {
  }

  /** Translating and then casting onto the Chinese order is casting onto
      the English order and then relabelling: ranks 0, 1, 2 are kept. */
  lemma TranslateKeepsRank(c: Cell)
    ensures CastSeverityZh(TranslateSeverity(c)) == RelabelZh(CastSeverity(c))
  {
    match Label(c)
    case Some(s) =>
      if s in SeverityOrder {
        var k :| 0 <= k < 3 && SeverityOrder[k] == s;
        SeverityRank(k);
      } else {
        assert s !in SeverityZh;
      }
    case None =>
  }

  /** The k-th severity has rank k in its own order, and its translation
      has rank k in the Chinese order. */
  lemma SeverityRank(k: nat)
    requires k < 3
    ensures Tables.IndexOf(SeverityOrder, SeverityOrder[k]) == k
    ensures SeverityOrder[k] in SeverityZh && SeverityZh[SeverityOrder[k]] == SeverityOrderZh[k]
    ensures Tables.IndexOf(SeverityOrderZh, SeverityOrderZh[k]) == k
  {
  }

  /** The critical severities are exactly ranks 1 and 2 of the severity
      order, in both languages. */
  lemma CriticalIsTopTwoRanks(c: Cell)
    requires InDomain(SeverityOrder, c)
    ensures IsIn(c, set s | s in CriticalSeverity) <==> c.Category? && c.rank >= 1
  {
  }

  lemma CriticalIsTopTwoRanksZh(c: Cell)
    requires InDomain(SeverityOrderZh, c)
    ensures IsIn(c, set s | s in CriticalSeverityZh) <==> c.Category? && c.rank >= 1
  {
  }
}
