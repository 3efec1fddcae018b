/** The records the pipeline reads and derives: the store's applicant rows and
    the linked personal, work and salary rows, the canonical profile cached as
    "Compressed JSON", and the per-candidate summary the rules run on.

    A field the code reads with `.get` is an `Option`: `None` stands for a
    missing field or a JSON `null`. Fields the code never reads are left out.
 */
module Profile {
  import opened Wrappers

  /** A row of "Personal Details": "Full Name", "Location". */
  datatype PersonalFields = PersonalFields(fullName: Option<string>, location: Option<string>)

  /** A row of "Work Experience": "Company", "Title", "Start", "End", "Technologies". */
  datatype WorkFields = WorkFields(
    company: Option<string>, title: Option<string>,
    start: Option<string>, end: Option<string>, technologies: Option<string>)

  /** A row of "Salary Preferences": "Preferred Rate" (as the text `str()` gives
      for the stored number), "Currency", "Availability (hrs/wk)". */
  datatype SalaryFields = SalaryFields(preferredRate: Option<string>, currency: Option<string>, availability: Option<int>)

  /** An "Applicants" row: its record id, "Applicant ID", the three link lists
      and the cached profile ("Compressed JSON"), absent until one is written. */
  datatype ApplicantRecord = ApplicantRecord(
    id: string, applicantId: Option<int>,
    personalIds: seq<string>, workIds: seq<string>, salaryIds: seq<string>,
    cache: Option<CanonicalProfile>)

  datatype Personal = Personal(name: Option<string>, location: Option<string>)

  datatype Experience = Experience(
    company: Option<string>, title: Option<string>,
    start: Option<string>, end: Option<string>, technologies: Option<string>)

  datatype Salary = Salary(rate: Option<string>, currency: Option<string>, availability: Option<int>)

  /** The profile `build_combined_json` assembles for one applicant. */
  datatype CanonicalProfile = CanonicalProfile(
    applicantId: Option<int>, personal: Personal, experience: seq<Experience>, salary: Salary)

  /** The summary `extract_applicant_summaries` derives; `years` is the tenure
      in hundredths of a year (`total_experience_years` times 100). */
  datatype CandidateSummary = CandidateSummary(
    id: string, name: Option<string>, location: Option<string>, years: int,
    preferredRate: string, availability: Option<int>, companies: seq<Option<string>>)
}
