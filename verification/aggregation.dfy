/** Profile aggregation: `build_combined_json`, the loop of
    `push_combined_json` that caches each profile, and
    `extract_applicant_summaries`, which turns cached profiles into the
    summaries the shortlist rules read.

    The record store is a set of `get` calls whose attempts are given as
    functions; every `get` and every cache write goes through the retry
    wrapper with its defaults, as `safe_get` and `safe_batch_update` do.
 */
module Aggregation {
  import opened Wrappers
  import opened Retry
  import opened Profile
  import opened Tenure
  import opened Seqs

  /** The three linked tables: `personal(id, k)` is what attempt `k` of
      `get(id)` on "Personal Details" does, and likewise for the others. */
  datatype Store = Store(
    personal: (string, nat) -> Outcome<PersonalFields>,
    work: (string, nat) -> Outcome<WorkFields>,
    salary: (string, nat) -> Outcome<SalaryFields>)

  /** `safe_get(personal_detail_conn, id)`: `None` once its retries are exhausted. */
  function GetPersonal(st: Store, id: string): Option<PersonalFields> {
    SafeCall((k: nat) => st.personal(id, k))
  }

  function GetWork(st: Store, id: string): Option<WorkFields> {
    SafeCall((k: nat) => st.work(id, k))
  }

  function GetSalary(st: Store, id: string): Option<SalaryFields> {
    SafeCall((k: nat) => st.salary(id, k))
  }

  /** The five fields copied from a work row into the profile. */
  function ToExperience(w: WorkFields): Experience {
    Experience(w.company, w.title, w.start, w.end, w.technologies)
  }

  /** The `for wid in work_ids` loop: every reference resolved, in order, or
      `None` as soon as one lookup fails. */
  function WorkEntries(st: Store, ids: seq<string>): (r: Option<seq<Experience>>)
    ensures r.Some? <==> forall i :: 0 <= i < |ids| ==> GetWork(st, ids[i]).Some?
    ensures r.Some? ==> |r.value| == |ids|
    ensures r.Some? ==> forall i :: 0 <= i < |ids| ==> r.value[i] == ToExperience(GetWork(st, ids[i]).value)
  {
    if |ids| == 0 then Some([])
    else
      match GetWork(st, ids[0])
      case None => None
      case Some(w) =>
        match WorkEntries(st, ids[1..])
        case None => None
        case Some(rest) => Some([ToExperience(w)] + rest)
  }

  /** The personal part: the first linked row only, or nothing at all. */
  function PersonalPart(st: Store, ids: seq<string>): Option<Personal> {
    if |ids| == 0 then Some(Personal(None, None))
    else
      match GetPersonal(st, ids[0])
      case None => None
      case Some(p) => Some(Personal(p.fullName, p.location))
  }

  /** The salary part: the first linked row only, or nothing at all. */
  function SalaryPart(st: Store, ids: seq<string>): Option<Salary> {
    if |ids| == 0 then Some(Salary(None, None, None))
    else
      match GetSalary(st, ids[0])
      case None => None
      case Some(s) => Some(Salary(s.preferredRate, s.currency, s.availability))
  }

  /** `build_combined_json(applicant)`; `None` is the `{}` it returns when a
      lookup raises. */
  function BuildCombined(a: ApplicantRecord, st: Store): (r: Option<CanonicalProfile>)
    ensures r.Some? <==>
      && (|a.personalIds| == 0 || GetPersonal(st, a.personalIds[0]).Some?)
      && (forall i :: 0 <= i < |a.workIds| ==> GetWork(st, a.workIds[i]).Some?)
      && (|a.salaryIds| == 0 || GetSalary(st, a.salaryIds[0]).Some?)
    ensures r.Some? ==> r.value.applicantId == a.applicantId
    ensures r.Some? && |a.personalIds| == 0 ==> r.value.personal == Personal(None, None)
    ensures r.Some? && |a.personalIds| > 0 ==>
      var p := GetPersonal(st, a.personalIds[0]).value;
      r.value.personal == Personal(p.fullName, p.location)
    ensures r.Some? ==> |r.value.experience| == |a.workIds|
    ensures r.Some? ==> forall i :: 0 <= i < |a.workIds| ==>
      r.value.experience[i] == ToExperience(GetWork(st, a.workIds[i]).value)
    ensures r.Some? && |a.salaryIds| == 0 ==> r.value.salary == Salary(None, None, None)
    ensures r.Some? && |a.salaryIds| > 0 ==>
      var s := GetSalary(st, a.salaryIds[0]).value;
      r.value.salary == Salary(s.preferredRate, s.currency, s.availability)
  {
    match (PersonalPart(st, a.personalIds), WorkEntries(st, a.workIds), SalaryPart(st, a.salaryIds))
    case (Some(p), Some(es), Some(s)) => Some(CanonicalProfile(a.applicantId, p, es, s))
    case _ => None
  }

  /** Only the first personal and the first salary reference are read: the
      others never change the profile. */
  lemma OnlyFirstReferenceUsed(a: ApplicantRecord, st: Store, personalRest: seq<string>, salaryRest: seq<string>)
    requires |a.personalIds| > 0 && |a.salaryIds| > 0
    ensures BuildCombined(a.(personalIds := [a.personalIds[0]] + personalRest,
                             salaryIds := [a.salaryIds[0]] + salaryRest), st)
         == BuildCombined(a, st)
  {
  }

  /** An applicant with no work references gets an empty history, not a failure. */
  lemma NoWorkReferences(a: ApplicantRecord, st: Store)
    requires |a.workIds| == 0 && |a.personalIds| == 0 && |a.salaryIds| == 0
    ensures BuildCombined(a, st) == Some(CanonicalProfile(a.applicantId, Personal(None, None), [], Salary(None, None, None)))
  {
  }

  // ---------------------------------------------------------------------------
  // push_combined_json

  /** One "Compressed JSON" update. */
  datatype CacheWrite = CacheWrite(id: string, profile: CanonicalProfile)

  /** The cache write for one applicant: none when its build returned `{}`. */
  function IntendedWrite(a: ApplicantRecord, st: Store): Option<CacheWrite> {
    match BuildCombined(a, st)
    case None => None
    case Some(p) => Some(CacheWrite(a.id, p))
  }

  /** The cache writes the loop means to make: one per applicant whose profile
      could be built, in store order; an applicant whose build returned `{}`
      gets none. */
  function IntendedWrites(apps: seq<ApplicantRecord>, st: Store): (ws: seq<CacheWrite>)
    ensures |ws| <= |apps|
    ensures ws == FilterMap(apps, (a: ApplicantRecord) => IntendedWrite(a, st))
    ensures forall i :: 0 <= i < |apps| && BuildCombined(apps[i], st).Some? ==>
      CacheWrite(apps[i].id, BuildCombined(apps[i], st).value) in ws
  {
    if |apps| == 0 then []
    else
      var rest := IntendedWrites(apps[1..], st);
      assert forall i :: 1 <= i < |apps| ==> apps[i] == apps[1..][i - 1];
      match BuildCombined(apps[0], st)
      case None => rest
      case Some(p) => [CacheWrite(apps[0].id, p)] + rest
  }

  /** Every intended write carries the profile built for an applicant with
      that id: an applicant whose build returned `{}` contributes nothing. */
  lemma {:induction false} IntendedWritesFromBuilds(apps: seq<ApplicantRecord>, st: Store, w: CacheWrite)
    requires w in IntendedWrites(apps, st)
    ensures exists i :: 0 <= i < |apps| && apps[i].id == w.id && BuildCombined(apps[i], st) == Some(w.profile)
  {
    var rest := IntendedWrites(apps[1..], st);
    if w in rest {
      IntendedWritesFromBuilds(apps[1..], st, w);
      var i :| 0 <= i < |apps| - 1 && apps[1..][i].id == w.id && BuildCombined(apps[1..][i], st) == Some(w.profile);
      assert apps[i + 1] == apps[1..][i];
    }
  }

  /** `safe_batch_update` of one cache write succeeded. */
  function WriteSucceeds(write: (CacheWrite, nat) -> Outcome<()>, w: CacheWrite): bool {
    SafeCall((k: nat) => write(w, k)).Some?
  }

  /** `push_combined_json`: the cache writes that were made. A write whose
      retries are exhausted raises out of the loop into the outer handler, so
      no later applicant is written. */
  function PushCombined(apps: seq<ApplicantRecord>, st: Store, write: (CacheWrite, nat) -> Outcome<()>): (done: seq<CacheWrite>)
    ensures done <= IntendedWrites(apps, st)
    ensures (forall w :: w in IntendedWrites(apps, st) ==> WriteSucceeds(write, w)) ==> done == IntendedWrites(apps, st)
    ensures forall w :: w in done ==> WriteSucceeds(write, w)
    ensures |done| < |IntendedWrites(apps, st)| ==> !WriteSucceeds(write, IntendedWrites(apps, st)[|done|])
  {
    if |apps| == 0 then []
    else
      var rest := PushCombined(apps[1..], st, write);
      IntendedWritesHead(apps, st);
      match BuildCombined(apps[0], st)
      case None => rest
      case Some(p) =>
        var w := CacheWrite(apps[0].id, p);
        if WriteSucceeds(write, w) then
          WrittenPrefixCons(w, rest, IntendedWrites(apps[1..], st), write);
          [w] + rest
        else []
  }

  lemma IntendedWritesHead(apps: seq<ApplicantRecord>, st: Store)
    requires |apps| > 0
    ensures BuildCombined(apps[0], st).None? ==> IntendedWrites(apps, st) == IntendedWrites(apps[1..], st)
    ensures BuildCombined(apps[0], st).Some? ==>
      IntendedWrites(apps, st) == [CacheWrite(apps[0].id, BuildCombined(apps[0], st).value)] + IntendedWrites(apps[1..], st)
  {
  }

  /** The writes made are a prefix of those intended, all successful, and
      they stop short only at a failed write. */
  predicate WrittenPrefix(done: seq<CacheWrite>, ws: seq<CacheWrite>, write: (CacheWrite, nat) -> Outcome<()>) {
    && done <= ws
    && ((forall w :: w in ws ==> WriteSucceeds(write, w)) ==> done == ws)
    && (forall w :: w in done ==> WriteSucceeds(write, w))
    && (|done| < |ws| ==> !WriteSucceeds(write, ws[|done|]))
  }

  /** A successful write in front keeps the writes made a prefix of those intended. */
  lemma WrittenPrefixCons(w: CacheWrite, done: seq<CacheWrite>, ws: seq<CacheWrite>, write: (CacheWrite, nat) -> Outcome<()>)
    requires WrittenPrefix(done, ws, write) && WriteSucceeds(write, w)
    ensures WrittenPrefix([w] + done, [w] + ws, write)
  {
    if forall x :: x in [w] + ws ==> WriteSucceeds(write, x) {
      assert forall x :: x in ws ==> x in [w] + ws;
    }
    if |[w] + done| < |[w] + ws| {
      assert ([w] + ws)[|[w] + done|] == ws[|done|];
    }
  }

  // ---------------------------------------------------------------------------
  // extract_applicant_summaries

  /** `str(v)` for a field that may be `None`. */
  function Show(v: Option<string>): string {
    match v
    case None => "None"
    case Some(s) => s
  }

  /** The f-string `f"{rate} {currency}"`. */
  function RateText(s: Salary): (t: string)
    ensures |t| == |Show(s.rate)| + 1 + |Show(s.currency)| && t[|Show(s.rate)|] == ' '
    ensures t[..|Show(s.rate)|] == Show(s.rate) && t[|Show(s.rate)| + 1..] == Show(s.currency)
  {
    Show(s.rate) + " " + Show(s.currency)
  }

  /** The summary of one cached profile. */
  function Summarize(id: string, p: CanonicalProfile): (c: CandidateSummary)
    ensures |c.companies| == |p.experience|
    ensures forall i :: 0 <= i < |p.experience| ==> c.companies[i] == p.experience[i].company
    ensures -365 < 730 * c.years - 200 * TotalDays(p.experience) < 365
    ensures c.id == id && c.name == p.personal.name && c.location == p.personal.location
    ensures c.availability == p.salary.availability
    ensures c.preferredRate == RateText(p.salary)
  {
    var companies := seq(|p.experience|, i requires 0 <= i < |p.experience| => p.experience[i].company);
    CandidateSummary(id, p.personal.name, p.personal.location, Years(p.experience),
                     RateText(p.salary), p.salary.availability, companies)
  }

  predicate HasCache(r: ApplicantRecord) {
    r.cache.Some?
  }

  /** `extract_applicant_summaries`: one summary per applicant whose cached
      profile can be read, in store order; a row without one raises and is
      skipped. */
  function ExtractSummaries(records: seq<ApplicantRecord>): (ss: seq<CandidateSummary>)
    ensures |ss| == |Filter(records, HasCache)|
    ensures forall i :: 0 <= i < |ss| ==>
      var r := Filter(records, HasCache)[i]; ss[i] == Summarize(r.id, r.cache.value)
  {
    var cached := Filter(records, HasCache);
    seq(|cached|, i requires 0 <= i < |cached| => Summarize(cached[i].id, cached[i].cache.value))
  }
}
