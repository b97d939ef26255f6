/** The two text parsers the pipeline calls: `to_datetime(..., format='%H:%M:%S')`
    for the time of day and `to_numeric` for the casualty count. Both return
    `None` where the dataframe library, with `errors='coerce'`, yields a
    missing value. */
module Parsing {

  import opened Cells

  predicate IsDigit(c: char) {
    '0' <= c <= '9'
  }

  predicate AllDigits(s: string) {
    forall i :: 0 <= i < |s| ==> IsDigit(s[i])
  }

  function DigitValue(c: char): nat
    requires IsDigit(c)
  {
    c as int - '0' as int
  }

  function DigitChar(d: nat): (c: char)
    requires d < 10
    ensures IsDigit(c) && DigitValue(c) == d
  {
    ('0' as int + d) as char
  }

  /** The value of a string of decimal digits, most significant first. */
  function DecimalValue(s: string): nat
    requires AllDigits(s)
  {
    if |s| == 0 then 0
    else DecimalValue(s[..|s| - 1]) * 10 + DigitValue(s[|s| - 1])
  }

  /** The shortest decimal spelling of `n`. */
  function ShowNat(n: nat): (s: string)
    ensures |s| > 0 && AllDigits(s)
  {
    if n < 10 then [DigitChar(n)] else ShowNat(n / 10) + [DigitChar(n % 10)]
  }

  /** Reading back a spelled-out number gives the number. */
  lemma {:induction false} DecimalShowNat(n: nat)
    ensures DecimalValue(ShowNat(n)) == n
  {
    if n >= 10 {
      var s := ShowNat(n);
      assert s[..|s| - 1] == ShowNat(n / 10);
      DecimalShowNat(n / 10);
    }
  }

  // ---------------------------------------------------------------------
  // Numbers (`pd.to_numeric(..., errors='coerce')`, integers only)

  /** A decimal integer with an optional leading sign, or `None`. */
  function ParseInt(s: string): (r: Option<int>)
    ensures r.Some? ==> |s| > 0
    ensures r.Some? && r.value < 0 ==> s[0] == '-'
  {
    if |s| >= 2 && s[0] == '-' && AllDigits(s[1..]) then Some(0 - DecimalValue(s[1..]))
    else if |s| >= 2 && s[0] == '+' && AllDigits(s[1..]) then Some(DecimalValue(s[1..]))
    else if |s| >= 1 && AllDigits(s) then Some(DecimalValue(s))
    else None
  }

  function ShowInt(n: int): string
  {
    if n < 0 then "-" + ShowNat(-n) else ShowNat(n)
  }

  /** Every integer, written in decimal, parses back to itself. */
  lemma ParseShowInt(n: int)
    ensures ParseInt(ShowInt(n)) == Some(n)
  {
    if n < 0 {
      var s := ShowInt(n);
      assert s[1..] == ShowNat(-n);
      DecimalShowNat(-n);
    } else {
      DecimalShowNat(n);
      assert ShowNat(n)[0] != '-' && ShowNat(n)[0] != '+';
    }
  }

  /** A string holding a character that is neither a digit nor a leading
      sign is not a number. */
  lemma ParseIntRejects(s: string, i: nat)
    requires i < |s| && !IsDigit(s[i]) && !(i == 0 && (s[i] == '-' || s[i] == '+'))
    ensures ParseInt(s) == None
  {
    if i > 0 {
      assert s[1..][i - 1] == s[i];
    }
  }

  // ---------------------------------------------------------------------
  // Times of day (`pd.to_datetime(..., format='%H:%M:%S', errors='coerce')`)

  /** Splits a string at every `:`; there is always at least one piece. */
  function SplitColon(s: string): (r: seq<string>)
    ensures |r| >= 1
  {
    if |s| == 0 then [""]
    else
      var rest := SplitColon(s[1..]);
      if s[0] == ':' then [""] + rest else [[s[0]] + rest[0]] + rest[1..]
  }

  lemma {:induction false} SplitColonNoColon(a: string, b: string)
    requires ':' !in a
    ensures SplitColon(a + ":" + b) == [a] + SplitColon(b)
    decreases |a|
  {
    if |a| == 0 {
      assert a + ":" + b == ":" + b;
      assert (":" + b)[1..] == b;
    } else {
      assert (a + ":" + b)[1..] == a[1..] + ":" + b;
      SplitColonNoColon(a[1..], b);
      assert [a[0]] + a[1..] == a;
    }
  }

  lemma {:induction false} SplitColonWhole(a: string)
    requires ':' !in a
    ensures SplitColon(a) == [a]
    decreases |a|
  {
    if |a| > 0 {
      SplitColonWhole(a[1..]);
      assert [a[0]] + a[1..] == a;
    }
  }

  /** One `%H`, `%M` or `%S` field: one or two digits whose value is below
      `bound` (24 for hours, 60 for minutes and seconds). */
  function Field(d: string, bound: nat): (r: Option<nat>)
    ensures r.Some? ==> r.value < bound
  {
    if 1 <= |d| <= 2 && AllDigits(d) && DecimalValue(d) < bound then Some(DecimalValue(d))
    else None
  }

  /** Parses `HH:MM:SS`; any other text, or an out-of-range field, is `None`. */
  function ParseTime(s: string): (r: Option<TimeOfDay>)
    ensures r.Some? ==> r.value.Valid()
  {
    var parts := SplitColon(s);
    if |parts| != 3 then None
    else
      match (Field(parts[0], 24), Field(parts[1], 60), Field(parts[2], 60))
      case (Some(h), Some(m), Some(sec)) => Some(TimeOfDay(h, m, sec))
      case _ => None
  }

  /** Two-digit, zero-padded spelling of a number below 100. */
  function TwoDigits(n: nat): (s: string)
    requires n < 100
    ensures |s| == 2 && AllDigits(s) && ':' !in s
  {
    [DigitChar(n / 10), DigitChar(n % 10)]
  }

  lemma TwoDigitsValue(n: nat)
    requires n < 100
    ensures DecimalValue(TwoDigits(n)) == n
  {
    var s := TwoDigits(n);
    assert s[..1][..0] == "";
    assert DecimalValue(s[..1]) == n / 10;
  }

  function FormatTime(t: TimeOfDay): string
    requires t.Valid()
  {
    TwoDigits(t.hour) + ":" + TwoDigits(t.minute) + ":" + TwoDigits(t.second)
  }

  /** Every valid time of day, written as `HH:MM:SS`, parses back to itself. */
  lemma ParseFormatTime(t: TimeOfDay)
    requires t.Valid()
    ensures ParseTime(FormatTime(t)) == Some(t)
  {
    var h, m, s := TwoDigits(t.hour), TwoDigits(t.minute), TwoDigits(t.second);
    assert FormatTime(t) == h + ":" + (m + ":" + s);
    SplitColonNoColon(h, m + ":" + s);
    SplitColonNoColon(m, s);
    SplitColonWhole(s);
    TwoDigitsValue(t.hour);
    TwoDigitsValue(t.minute);
    TwoDigitsValue(t.second);
  }

  /** An hour field beyond 23 or a minute field beyond 59 is rejected. */
  lemma ParseTimeOutOfRange()
    ensures ParseTime("25:61:00") == None
  {
    assert "25:61:00" == "25" + ":" + ("61" + ":" + "00");
    SplitColonNoColon("25", "61" + ":" + "00");
    assert Field("25", 24) == None by { assert "25"[..1] == "2"; }
  }

  /** The worked example: `08:15:00` is hour 8. */
  lemma ParseTimeExample()
    ensures ParseTime("08:15:00") == Some(TimeOfDay(8, 15, 0))
  {
    ParseFormatTime(TimeOfDay(8, 15, 0));
    assert FormatTime(TimeOfDay(8, 15, 0)) == "08:15:00";
  }
}
