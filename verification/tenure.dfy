/** `calculate_experience`: total tenure over a work history, in hundredths of
    a year (`round(total_days / 365, 2)` times 100).
 */
module Tenure {
  import opened Wrappers
  import opened Dates
  import opened Profile

  /** `(end - start).days` for an entry whose two dates both parse; `None` for
      an entry the loop logs and skips. */
  function EntrySpan(e: Experience): (r: Option<int>)
    ensures r.Some? <==> ParseField(e.start).Some? && ParseField(e.end).Some?
    ensures r.Some? ==> r.value == DaysBetween(ParseField(e.start).value, ParseField(e.end).value)
  {
    match (ParseField(e.start), ParseField(e.end))
    case (Some(s), Some(t)) => Some(DaysBetween(s, t))
    case _ => None
  }

  /** What one entry adds to `total_days`. */
  function EntryDays(e: Experience): int {
    EntrySpan(e).GetOr(0)
  }

  /** `total_days` after the loop has seen `es`. */
  function TotalDays(es: seq<Experience>): (t: int)
    ensures (forall k :: 0 <= k < |es| ==> EntryDays(es[k]) >= 0) ==> t >= 0
  {
    if |es| == 0 then 0 else TotalDays(es[..|es| - 1]) + EntryDays(es[|es| - 1])
  }

  /** The nearest whole number of hundredths to `t / 365` years. Ties cannot
      occur (`100 t / 365` is never an odd multiple of one half), so Python's
      half-to-even rounding and rounding half up agree. */
  function RoundHundredths(t: int): (h: int)
    ensures -365 < 730 * h - 200 * t < 365
  {
    var q := 200 * t + 365;
    assert 0 <= q - 730 * (q / 730) < 730;
    q / 730
  }

  /** The nearest hundredth is the only one that close. */
  lemma RoundHundredthsUnique(t: int, h: int)
    requires -365 < 730 * h - 200 * t < 365
    ensures h == RoundHundredths(t)
  {
    var h0 := RoundHundredths(t);
    assert -730 < 730 * (h - h0) < 730;
  }

  /** More days never round to fewer hundredths. */
  lemma RoundHundredthsMonotone(t1: int, t2: int)
    requires t1 <= t2
    ensures RoundHundredths(t1) <= RoundHundredths(t2)
  {
    var h1, h2 := RoundHundredths(t1), RoundHundredths(t2);
    assert 730 * h1 < 730 * h2 + 730;
  }

  /** `calculate_experience(es)` in hundredths of a year. */
  function Years(es: seq<Experience>): (y: int)
    ensures -365 < 730 * y - 200 * TotalDays(es) < 365
  {
    RoundHundredths(TotalDays(es))
  }

  /** The totals of two histories add up. */
  lemma {:induction false} TotalDaysAppend(a: seq<Experience>, b: seq<Experience>)
    ensures TotalDays(a + b) == TotalDays(a) + TotalDays(b)
    decreases |b|
  {
    if |b| > 0 {
      assert (a + b)[..|a + b| - 1] == a + b[..|b| - 1];
      assert (a + b)[|a + b| - 1] == b[|b| - 1];
      TotalDaysAppend(a, b[..|b| - 1]);
    } else {
      assert a + b == a;
    }
  }

  /** An entry whose dates do not both parse changes nothing, wherever it stands. */
  lemma SkippedEntry(a: seq<Experience>, e: Experience, b: seq<Experience>)
    requires EntrySpan(e).None?
    ensures TotalDays(a + [e] + b) == TotalDays(a + b)
  {
    TotalDaysAppend(a + [e], b);
    TotalDaysAppend(a, [e]);
    TotalDaysAppend(a, b);
    assert [e][..0] == [];
  }

  /** Adding an entry that is skipped, or whose dates are in order, never
      lowers the tenure. */
  lemma AddEntryMonotone(es: seq<Experience>, e: Experience)
    requires EntryDays(e) >= 0
    ensures Years(es + [e]) >= Years(es)
  {
    assert (es + [e])[..|es|] == es;
    RoundHundredthsMonotone(TotalDays(es), TotalDays(es + [e]));
  }

  /** The total over one more entry of a history. */
  lemma TotalDaysStep(es: seq<Experience>, i: int)
    requires 0 <= i < |es|
    ensures TotalDays(es[..i + 1]) == TotalDays(es[..i]) + EntryDays(es[i])
  {
    assert es[..i + 1][..i] == es[..i] && es[..i + 1][i] == es[i];
  }

  /** The loop of `calculate_experience`, entry by entry. */
  method CalculateExperience(es: seq<Experience>) returns (hundredths: int)
    ensures hundredths == Years(es)
    ensures -365 < 730 * hundredths - 200 * TotalDays(es) < 365
  {
    var totalDays := 0;
    var i := 0;
    while i < |es|
      invariant 0 <= i <= |es|
      invariant totalDays == TotalDays(es[..i])
    {
      var span := EntrySpan(es[i]);
      if span.Some? {
        totalDays := totalDays + span.value;
      }
      TotalDaysStep(es, i);
      i := i + 1;
    }
    assert es[..i] == es;
    hundredths := RoundHundredths(totalDays);
  }

  /** One entry from 2020-01-01 to 2022-01-01 gives a tenure of 2.00 years. */
  lemma TwoYearsTenure()
    ensures Years([Experience(None, None, Some("2020-01-01"), Some("2022-01-01"), None)]) == 200
  {
    TwoYearsExample();
    var es := [Experience(None, None, Some("2020-01-01"), Some("2022-01-01"), None)];
    assert es[..0] == [];
    assert TotalDays(es) == 731;
  }
}
