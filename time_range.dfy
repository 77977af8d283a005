/**
 * The time-range parser: the leftmost match of
 * `(?<start>\d{2}:\d{2})\s*-\s*(?<end>\d{2}:\d{2})` in an entry's text,
 * written out as a scanner, and the signed number of minutes it spans.
 */
module TimeRange {
  import opened Wrappers
  import opened JsText

  /** `HH:MM` as the two `parseInt` results; no range check on either. */
  datatype Clock = Clock(hour: int, minute: int)

  datatype Span = Span(start: Clock, end: Clock)

  /** Two digits, a colon, two digits, starting at `p`. */
  predicate ClockAt(s: string, p: int)
  {
    0 <= p && p + 5 <= |s| &&
    IsDigit(s[p]) && IsDigit(s[p + 1]) && s[p + 2] == ':' &&
    IsDigit(s[p + 3]) && IsDigit(s[p + 4])
  }

  function ClockValue(s: string, p: int): (c: Clock)
    requires ClockAt(s, p)
    ensures 0 <= c.hour <= 99 && 0 <= c.minute <= 99
  {
    Clock(10 * DigitValue(s[p]) + DigitValue(s[p + 1]),
          10 * DigitValue(s[p + 3]) + DigitValue(s[p + 4]))
  }

  predicate AllSpace(s: string, lo: int, hi: int)
    requires 0 <= lo <= hi <= |s|
  {
    forall i :: lo <= i < hi ==> IsSpace(s[i])
  }

  /** The end of the run of `\s` that starts at `k` (the greedy `\s*`). */
  function SkipSpaces(s: string, k: nat): (r: nat)
    requires k <= |s|
    ensures k <= r <= |s| && AllSpace(s, k, r)
    ensures r < |s| ==> !IsSpace(s[r])
    decreases |s| - k
  {
    if k < |s| && IsSpace(s[k]) then SkipSpaces(s, k + 1) else k
  }

  /** The pattern matched at exactly `p`, reading `\s*` greedily. */
  function MatchAt(s: string, p: nat): Option<Span>
  {
    if !ClockAt(s, p) then None
    else
      var dash := SkipSpaces(s, p + 5);
      if dash == |s| || s[dash] != '-' then None
      else
        var q := SkipSpaces(s, dash + 1);
        if !ClockAt(s, q) then None
        else Some(Span(ClockValue(s, p), ClockValue(s, q)))
  }

  /**
   * The regular expression's own reading: the whole pattern occupies
   * `s[p..q+5]`, the hyphen sits at `dash`, and everything between the
   * clocks and the hyphen is `\s`.
   */
  ghost predicate RangeAt(s: string, p: nat, dash: nat, q: nat)
  {
    ClockAt(s, p) && p + 5 <= dash < q && ClockAt(s, q) && s[dash] == '-' &&
    AllSpace(s, p + 5, dash) && AllSpace(s, dash + 1, q)
  }

  /** The scanner finds a match at `p` exactly when the pattern has one there, with the same groups. */
  lemma MatchAtIsPattern(s: string, p: nat)
    ensures MatchAt(s, p).Some? <==> exists dash: nat, q: nat :: RangeAt(s, p, dash, q)
    ensures forall dash: nat, q: nat :: RangeAt(s, p, dash, q) ==>
      MatchAt(s, p) == Some(Span(ClockValue(s, p), ClockValue(s, q)))
  {
    forall dash: nat, q: nat | RangeAt(s, p, dash, q)
      ensures MatchAt(s, p) == Some(Span(ClockValue(s, p), ClockValue(s, q)))
    {
      assert SkipSpaces(s, p + 5) == dash;
      assert SkipSpaces(s, dash + 1) == q;
    }
    if MatchAt(s, p).Some? {
      var dash := SkipSpaces(s, p + 5);
      var q := SkipSpaces(s, dash + 1);
      assert RangeAt(s, p, dash, q);
    }
  }

  /** The leftmost match at or after `from`. */
  function LeftmostFrom(s: string, from: nat): Option<Span>
    decreases |s| - from
  {
    if from > |s| then None
    else if MatchAt(s, from).Some? then MatchAt(s, from)
    else LeftmostFrom(s, from + 1)
  }

  /** `String.prototype.match` with this pattern: the leftmost match, or none. */
  function ParseRange(s: string): Option<Span>
  {
    LeftmostFrom(s, 0)
  }

  lemma {:induction false} LeftmostFromIsLeftmost(s: string, from: nat)
    ensures LeftmostFrom(s, from).None? <==> forall p :: from <= p <= |s| ==> MatchAt(s, p).None?
    ensures LeftmostFrom(s, from).Some? ==>
      exists p :: from <= p <= |s| && MatchAt(s, p) == LeftmostFrom(s, from) &&
        forall q :: from <= q < p ==> MatchAt(s, q).None?
    decreases |s| - from
  {
    if from <= |s| {
      var here := MatchAt(s, from);
      if here.None? {
        LeftmostFromIsLeftmost(s, from + 1);
        var rest := LeftmostFrom(s, from + 1);
        assert LeftmostFrom(s, from) == rest;
        if rest.Some? {
          var p :| from + 1 <= p <= |s| && MatchAt(s, p) == rest &&
            forall q :: from + 1 <= q < p ==> MatchAt(s, q).None?;
          assert forall q :: from <= q < p ==> MatchAt(s, q).None?;
        }
      } else {
        assert LeftmostFrom(s, from) == here;
      }
    }
  }

  /**
   * Only the leftmost match counts: a parse yields nothing exactly when the
   * pattern matches nowhere, and otherwise the match at the first position
   * where it matches.
   */
  lemma ParseRangeIsLeftmost(s: string)
    ensures ParseRange(s).None? <==> forall p :: 0 <= p <= |s| ==> MatchAt(s, p).None?
    ensures ParseRange(s).Some? ==>
      exists p :: 0 <= p <= |s| && MatchAt(s, p) == ParseRange(s) &&
        forall q :: 0 <= q < p ==> MatchAt(s, q).None?
  {
    LeftmostFromIsLeftmost(s, 0);
  }

  /** Both clocks have the two-digit values `parseInt` can give them. */
  predicate TwoDigitClocks(span: Span)
  {
    0 <= span.start.hour <= 99 && 0 <= span.start.minute <= 99 &&
    0 <= span.end.hour <= 99 && 0 <= span.end.minute <= 99
  }

  /** Every clock a match yields is two digits, so no value exceeds 99; hours past 23 are kept. */
  lemma ParseRangeClocks(s: string)
    ensures ParseRange(s).Some? ==> TwoDigitClocks(ParseRange(s).value)
  {
    ParseRangeIsLeftmost(s);
    if ParseRange(s).Some? {
      var p :| 0 <= p <= |s| && MatchAt(s, p) == ParseRange(s);
    }
  }

  /**
   * End minus start in minutes since midnight, signed: a range that crosses
   * midnight comes out negative, and nothing wraps, so two-digit clocks keep
   * it within 99 hours 99 minutes either way.
   */
  function Elapsed(span: Span): (r: int)
    ensures TwoDigitClocks(span) ==> -(99 * 60 + 99) <= r <= 99 * 60 + 99
  {
    (span.end.hour * 60 + span.end.minute) - (span.start.hour * 60 + span.start.minute)
  }

  /** The worked examples: an ordinary range, one without spaces, and one that crosses midnight. */
  lemma ElapsedExamples()
    ensures ParseRange("09:00 - 10:30") == Some(Span(Clock(9, 0), Clock(10, 30)))
    ensures ParseRange("14:05-14:50") == Some(Span(Clock(14, 5), Clock(14, 50)))
    ensures Elapsed(Span(Clock(9, 0), Clock(10, 30))) == 90
    ensures Elapsed(Span(Clock(14, 5), Clock(14, 50))) == 45
    ensures ParseRange("23:30-00:15") == Some(Span(Clock(23, 30), Clock(0, 15)))
    ensures Elapsed(Span(Clock(23, 30), Clock(0, 15))) == -1395
  {
    var a := "09:00 - 10:30";
    assert ClockAt(a, 0) && ClockAt(a, 8);
    assert SkipSpaces(a, 5) == 6 by {
      assert IsSpace(a[5]) && !IsSpace(a[6]);
    }
    assert SkipSpaces(a, 7) == 8;
    assert MatchAt(a, 0) == Some(Span(Clock(9, 0), Clock(10, 30)));
    var b := "14:05-14:50";
    assert ClockAt(b, 0) && ClockAt(b, 6);
    assert SkipSpaces(b, 5) == 5;
    assert SkipSpaces(b, 6) == 6;
    assert MatchAt(b, 0) == Some(Span(Clock(14, 5), Clock(14, 50)));
    var c := "23:30-00:15";
    assert ClockAt(c, 0) && ClockAt(c, 6);
    assert SkipSpaces(c, 5) == 5;
    assert SkipSpaces(c, 6) == 6;
    assert MatchAt(c, 0) == Some(Span(Clock(23, 30), Clock(0, 15)));
  }
}
