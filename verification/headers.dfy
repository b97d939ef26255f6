/** Header canonicalisation: `columns.str.replace('[^A-Za-z0-9_]+', '')`
    followed by `.str.lower()`.

    The same one-liner appears in every loader of the dashboard; this module
    is its single definition. */
module Headers {

  import opened Seqs

  /** A character the regular expression `[A-Za-z0-9_]` matches. */
  predicate IsWordChar(c: char) {
    ('A' <= c <= 'Z') || ('a' <= c <= 'z') || ('0' <= c <= '9') || c == '_'
  }

  /** A character that may appear in a canonical header: `[a-z0-9_]`. */
  predicate IsCanonChar(c: char) {
    ('a' <= c <= 'z') || ('0' <= c <= '9') || c == '_'
  }

  predicate IsCanonical(h: string) {
    forall i :: 0 <= i < |h| ==> IsCanonChar(h[i])
  }

  /** ASCII lower-casing of one character. Only word characters reach it,
      so Unicode case mapping never comes into play. */
  function LowerChar(c: char): char {
    if 'A' <= c <= 'Z' then (c as int + 32) as char else c
  }

  /** Deletes every character outside `[A-Za-z0-9_]`; deleting each run of
      such characters at once, as the regular expression does, is the same. */
  function StripNonWord(h: string): (r: string)
    ensures |r| <= |h|
    ensures forall i :: 0 <= i < |r| ==> IsWordChar(r[i])
  {
    if |h| == 0 then ""
    else (if IsWordChar(h[0]) then [h[0]] else []) + StripNonWord(h[1..])
  }

  function LowerAll(h: string): (r: string)
    ensures |r| == |h|
    ensures forall i :: 0 <= i < |h| ==> r[i] == LowerChar(h[i])
  {
    if |h| == 0 then "" else [LowerChar(h[0])] + LowerAll(h[1..])
  }

  /** The canonical key of a raw header. */
  function Canon(h: string): (r: string)
    ensures IsCanonical(r)
    ensures |r| <= |h|
  {
    LowerAll(StripNonWord(h))
  }

  /** The header row after canonicalisation: same number of columns, same
      order, and no check that two raw headers collapse onto one key. */
  function CanonHeaders(hs: seq<string>): (r: seq<string>)
    ensures |r| == |hs|
    ensures forall i :: 0 <= i < |hs| ==> r[i] == Canon(hs[i])
  {
    seq(|hs|, i requires 0 <= i < |hs| => Canon(hs[i]))
  }

  // ---------------------------------------------------------------------
  // Properties

  /** Canonicalisation works character by character: it distributes over
      concatenation. Together with `CanonChar` this determines it fully. */
  lemma {:induction false} CanonConcat(a: string, b: string)
    ensures Canon(a + b) == Canon(a) + Canon(b)
  {
    StripConcat(a, b);
    LowerConcat(StripNonWord(a), StripNonWord(b));
  }

  lemma {:induction false} StripConcat(a: string, b: string)
    ensures StripNonWord(a + b) == StripNonWord(a) + StripNonWord(b)
    decreases |a|
  {
    if |a| == 0 {
      assert a + b == b;
    } else {
      assert (a + b)[1..] == a[1..] + b;
      StripConcat(a[1..], b);
    }
  }

  lemma {:induction false} LowerConcat(a: string, b: string)
    ensures LowerAll(a + b) == LowerAll(a) + LowerAll(b)
  {
  }

  /** A single character is kept, lower-cased, exactly when it is an ASCII
      letter, digit or underscore; anything else is deleted. So
      `Number_of_Casualties` keeps its underscores, while a space is dropped. */
  lemma CanonChar(c: char)
    ensures IsWordChar(c) ==> Canon([c]) == [LowerChar(c)]
    ensures !IsWordChar(c) ==> Canon([c]) == ""
  {
    assert [c][1..] == "";
  }

  /** A header that is already canonical is left alone, and only those are:
      canonicalisation has exactly the canonical strings as fixed points. */
  lemma {:induction false} CanonFixedPoint(h: string)
    ensures Canon(h) == h <==> IsCanonical(h)
    decreases |h|
  {
    if |h| == 0 {
    } else {
      assert h == [h[0]] + h[1..];
      CanonConcat([h[0]], h[1..]);
      CanonChar(h[0]);
      CanonFixedPoint(h[1..]);
      if IsCanonical(h) {
        assert IsCanonical(h[1..]) by {
          forall i | 0 <= i < |h[1..]| ensures IsCanonChar(h[1..][i]) {
            assert h[1..][i] == h[i + 1];
          }
        }
      }
      if Canon(h) == h {
        assert IsCanonical(h) by {
          var r := Canon(h);
          forall i | 0 <= i < |h| ensures IsCanonChar(h[i]) {
            assert r[i] == h[i];
          }
        }
      }
    }
  }

  /** Canonicalising twice is canonicalising once. */
  lemma CanonIdempotent(h: string)
    ensures Canon(Canon(h)) == Canon(h)
  {
    CanonFixedPoint(Canon(h));
  }

  /** The number of characters of `h` the regular expression keeps. */
  function WordCount(h: string): nat
  {
    if |h| == 0 then 0 else (if IsWordChar(h[0]) then 1 else 0) + WordCount(h[1..])
  }

  /** The canonical key keeps exactly the word characters of the raw header,
      lower-cased and in their original order: it has one character per word
      character of `h`, and it is the lower-cased header with the other
      characters deleted. */
  lemma {:induction false} CanonKeepsWordChars(h: string)
    ensures |Canon(h)| == WordCount(h)
    ensures IsSubsequence(Canon(h), LowerAll(h))
    decreases |h|
  {
    if |h| == 0 {
    } else {
      assert h == [h[0]] + h[1..];
      CanonConcat([h[0]], h[1..]);
      CanonChar(h[0]);
      CanonKeepsWordChars(h[1..]);
      assert LowerAll(h)[1..] == LowerAll(h[1..]);
      if IsWordChar(h[0]) {
        assert Canon(h)[1..] == Canon(h[1..]);
      } else {
        assert Canon(h) == Canon(h[1..]);
      }
    }
  }

  /** Two different raw headers may share a key; both columns survive. */
  lemma CollisionIsKept()
    ensures CanonHeaders(["Time", "time "]) == ["time", "time"]
  {
    CanonTime();
    CanonTimeSpace();
  }

  lemma CanonTime()
    ensures Canon("Time") == "time"
  {
    CanonFixedPoint("ime");
    CanonChar('T');
    assert "Time" == "T" + "ime";
    CanonConcat("T", "ime");
  }

  lemma CanonTimeSpace()
    ensures Canon("time ") == "time"
  {
    CanonFixedPoint("time");
    CanonChar(' ');
    assert "time " == "time" + " ";
    CanonConcat("time", " ");
  }
}
