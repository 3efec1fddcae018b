/** `shortlist_candidates`: the four-leg eligibility rule applied to each
    candidate summary, keeping the candidates that pass in their input order.
 */
module Shortlist {
  import opened Wrappers
  import opened Text
  import opened Profile
  import opened Currency
  import opened Seqs

  const AllowedLocations: set<string> := {"united states", "united kingdom", "canada", "germany", "india"}
  const TierOneCompanies: seq<string> := ["google", "meta", "microsoft", "nvidia"]
  /** Four years, in the hundredths of a year that summaries carry. */
  const MinYears: int := 400
  const MaxUsdRate: real := 100.0
  const MinHours: int := 20

  predicate IsTierOne(c: Option<string>) {
    c.Some? && Lower(c.value) in TierOneCompanies
  }

  /** `any(c.lower() in tier_one_companies for c in companies)`, `None` where
      it raises: `any` stops at the first tier-one name, so a missing name
      raises only when no tier-one name comes before it. */
  function AnyTierOne(companies: seq<Option<string>>): (r: Option<bool>)
    ensures r == Some(true) <==>
      exists i :: 0 <= i < |companies| && IsTierOne(companies[i]) && forall j :: 0 <= j < i ==> companies[j].Some?
    ensures r == Some(false) <==>
      forall i :: 0 <= i < |companies| ==> companies[i].Some? && !IsTierOne(companies[i])
  {
    if |companies| == 0 then Some(false)
    else if companies[0].None? then None
    else if IsTierOne(companies[0]) then Some(true)
    else
      var rest := AnyTierOne(companies[1..]);
      assert forall i :: 1 <= i < |companies| ==> companies[i] == companies[1..][i - 1];
      assert rest == Some(true) ==> exists i :: 1 <= i < |companies| && IsTierOne(companies[i]) && forall j :: 0 <= j < i ==> companies[j].Some? by {
        if rest == Some(true) {
          var i :| 0 <= i < |companies| - 1 && IsTierOne(companies[1..][i]) && forall j :: 0 <= j < i ==> companies[1..][j].Some?;
          assert forall j :: 0 <= j < i + 1 ==> companies[j].Some?;
        }
      }
      rest
  }

  /** Once `any` returns, it returns `True` exactly when some name is tier one. */
  lemma TierOneNamed(companies: seq<Option<string>>)
    ensures AnyTierOne(companies).Some? ==>
      (AnyTierOne(companies) == Some(true) <==> exists i :: 0 <= i < |companies| && IsTierOne(companies[i]))
  {
    if AnyTierOne(companies) == Some(true) {
      var i :| 0 <= i < |companies| && IsTierOne(companies[i]) && forall j :: 0 <= j < i ==> companies[j].Some?;
    }
  }

  /** The compensation leg: `compensation and compensation <= 100`, where a
      converted amount of zero is as falsy as no value. */
  predicate AffordableRate(rate: string, fx: (real, string) -> Option<real>)
    ensures AffordableRate(rate, fx) ==>
      && !Contains(rate, "Others") && FirstNumeral(rate).Some? && FirstCode(rate).Some?
      && Value(FirstNumeral(rate).value) != 0.0
  {
    var usd := ToUsd(rate, fx);
    usd.Some? && usd.value != 0.0 && usd.value <= MaxUsdRate
  }

  /** Evaluating the rule raises: a missing location (`None.lower()`), a
      missing company name reached by `any`, or a missing availability
      compared with 20. */
  predicate Raises(c: CandidateSummary) {
    c.location.None? || AnyTierOne(c.companies).None? || c.availability.None?
  }

  /** The four legs, stated leg by leg. */
  ghost predicate Eligible(c: CandidateSummary, fx: (real, string) -> Option<real>)
    ensures Eligible(c, fx) ==>
      AnyTierOne(c.companies).Some? && (c.years >= MinYears || AnyTierOne(c.companies) == Some(true))
  {
    TierOneNamed(c.companies);
    && !Raises(c)
    && Lower(c.location.value) in AllowedLocations
    && (c.years >= MinYears || exists i :: 0 <= i < |c.companies| && IsTierOne(c.companies[i]))
    && AffordableRate(c.preferredRate, fx)
    && c.availability.value >= MinHours
  }

  /** One iteration of the loop: `None` where it raises, then whether the
      candidate is appended. */
  function Evaluate(c: CandidateSummary, fx: (real, string) -> Option<real>): (r: Option<bool>)
    ensures r.None? <==> Raises(c)
    ensures r == Some(true) <==> Eligible(c, fx)
  {
    if Raises(c) then None
    else
      var inLocation := Lower(c.location.value) in AllowedLocations;
      var tierOne := AnyTierOne(c.companies).value;
      var hoursAvailable := c.availability.value >= MinHours;
      Some(inLocation && (c.years >= MinYears || tierOne) && (AffordableRate(c.preferredRate, fx) && hoursAvailable))
  }

  /** `shortlist_candidates(cleaned_data)` */
  function ShortlistCandidates(cs: seq<CandidateSummary>, fx: (real, string) -> Option<real>): (r: seq<CandidateSummary>)
    ensures |r| <= |cs|
    ensures forall k :: 0 <= k < |r| ==> r[k] in cs && Eligible(r[k], fx)
    ensures forall k :: 0 <= k < |cs| && Eligible(cs[k], fx) ==> cs[k] in r
  {
    Filter(cs, (c: CandidateSummary) => Evaluate(c, fx) == Some(true))
  }

  /** The shortlist keeps the input order. */
  lemma ShortlistIsSubsequence(cs: seq<CandidateSummary>, fx: (real, string) -> Option<real>)
    ensures IsSubsequence(ShortlistCandidates(cs, fx), cs)
  {
    FilterIsSubsequence(cs, (c: CandidateSummary) => Evaluate(c, fx) == Some(true));
  }

  /** Candidates are judged one at a time: shortlisting a batch in two parts
      gives the same list, so a raising candidate never affects the others. */
  lemma ShortlistSplits(a: seq<CandidateSummary>, b: seq<CandidateSummary>, fx: (real, string) -> Option<real>)
    ensures ShortlistCandidates(a + b, fx) == ShortlistCandidates(a, fx) + ShortlistCandidates(b, fx)
  {
    FilterAppend(a, b, (c: CandidateSummary) => Evaluate(c, fx) == Some(true));
  }

  /** The loop of `shortlist_candidates`, one candidate per iteration. */
  method Shortlist(cs: seq<CandidateSummary>, fx: (real, string) -> Option<real>) returns (shortlisted: seq<CandidateSummary>)
    ensures shortlisted == ShortlistCandidates(cs, fx)
  {
    shortlisted := [];
    var i := 0;
    while i < |cs|
      invariant 0 <= i <= |cs|
      invariant shortlisted == ShortlistCandidates(cs[..i], fx)
    {
      var verdict := Evaluate(cs[i], fx);
      ShortlistSplits(cs[..i], [cs[i]], fx);
      assert cs[..i + 1] == cs[..i] + [cs[i]];
      if verdict == Some(true) {
        shortlisted := shortlisted + [cs[i]];
      }
      i := i + 1;
    }
    assert cs[..i] == cs;
  }

  /** A missing company name ahead of every tier-one name drops the candidate,
      however long their tenure. */
  lemma MissingCompanyDrops(c: CandidateSummary, fx: (real, string) -> Option<real>)
    requires |c.companies| > 0 && c.companies[0].None?
    ensures Evaluate(c, fx).None?
    ensures c !in ShortlistCandidates([c], fx)
  {
  }

  /** A converter that knows only US dollars, for the worked examples. */
  function UsdOnly(amount: real, code: string): Option<real> {
    if code == "USD" then Some(amount) else None
  }

  function Example(years: int, company: string, hours: int): CandidateSummary {
    CandidateSummary("rec1", Some("Ada"), Some("United States"), years, "80 USD", Some(hours), [Some(company)])
  }

  /** "80 USD" is within budget: its amount is 80 and its code is USD. */
  lemma RateExample()
    ensures AffordableRate("80 USD", UsdOnly)
  {
    RateTextRoundTrip(Numeral("80", ""), "USD");
    assert NumeralText(Numeral("80", "")) + " " + "USD" == "80 USD";
    RateValue();
    NoOthersWithoutO("80 USD");
  }

  lemma RateValue()
    ensures Value(Numeral("80", "")) == 80.0
  {
    assert "80"[..1] == "8" && "8"[..0] == "";
    assert DigitsValue("80") == 80;
  }

  lemma LocationExample()
    ensures Lower("United States") == "united states"
  {
  }

  /** Five years in the United States at 80 USD for 25 hours a week passes. */
  lemma LongTenureExample()
    ensures Evaluate(Example(500, "Acme", 25), UsdOnly) == Some(true)
  {
    RateExample();
    LocationExample();
  }

  /** The same candidate at 15 hours a week does not. */
  lemma FewHoursExample()
    ensures Evaluate(Example(500, "Acme", 15), UsdOnly) == Some(false)
  {
    LocationExample();
  }

  lemma GoogleIsTierOne()
    ensures IsTierOne(Some("Google"))
  {
    assert Lower("Google") == "google";
  }

  /** Two years at Google passes on the tier-one leg. */
  lemma TierOneExample()
    ensures Evaluate(Example(200, "Google", 25), UsdOnly) == Some(true)
  {
    RateExample();
    LocationExample();
    GoogleIsTierOne();
  }
}
