# Lead shortlist automation — a Dafny model of the shortlisting core

This project models the decision core of the applicant-shortlisting service in
`main.py`. When an applicant submits the intake form, the service:

- caches a canonical profile (personal details, work history, salary preferences)
  for every applicant;
- reads the cached profiles back as candidate summaries, with tenure computed
  from the work dates;
- shortlists candidates by location, tenure or tier-one employer, hourly rate in
  US dollars and weekly availability;
- writes neutral default enrichment fields, ten records per batch, for every
  candidate not shortlisted;
- asks a language model to assess each shortlisted candidate, and writes back
  the summary, score, follow-up questions and status parsed from its reply.

The record store, the currency converter and the completion service are
parameters of the model: functions from a request (and an attempt number, where
the call is retried) to an outcome. Every function is pure and total; each
`except` branch of the source is an explicit `None`, `Failure` or skipped entry.

Modules, in the order of the program:

| module | file | models |
|---|---|---|
| `Wrappers` | wrappers.dfy | `Option`, and `Outcome` (a call returns or raises) |
| `Text` | text.dfy | `str.strip`, `str.split`, `str.join`, `str.lower` and `in` on strings |
| `Seqs` | seqs.dfy | filtering, concatenation, fixed-size slicing |
| `Retry` | retry.dfy | `retry_on_failure` and the `safe_*` wrappers |
| `Profile` | profile.dfy | applicant rows, the cached canonical profile, the candidate summary |
| `Aggregation` | aggregation.dfy | `build_combined_json`, `push_combined_json`, `extract_applicant_summaries` |
| `Dates` | dates.dfy | `datetime.strptime(_, "%Y-%m-%d")` and the day count of a date difference |
| `Tenure` | tenure.dfy | `calculate_experience` |
| `Currency` | currency.dfy | `currencyconverter` |
| `Shortlist` | shortlist.dfy | `shortlist_candidates` |
| `ResponseParser` | response_parser.dfy | `parse_result` |
| `Enrichment` | enrichment.dfy | `enrich_with_llm`, and steps 9 to 11 of the form handler |

Tenure is an integer count of hundredths of a year. Python's
`round(total_days / 365, 2)` becomes the nearest integer to `200 * t / 730`:
`RoundHundredths` pins the result to within half a unit. A day total that lands
exactly half-way between two hundredths cannot occur, because `200 * t + 365` is
odd.

Some behaviours of the code are easy to miss:

- A parsed amount of zero ("0 USD") gives no value. The code tests `not amount`.
  A converted amount of zero also fails the compensation leg, because the test is
  `compensation and compensation <= 100`.
- The currency conversion is not retried: `currencyconverter` calls the converter
  directly, and any exception gives no value.
- Dates follow `strptime`, which is more lenient than strict `YYYY-MM-DD`. It
  accepts a one-digit month, and a day written with one digit or with a leading
  space ("2020-1- 5").
- A score that `int()` cannot parse does not default to 0. It raises `ValueError`
  inside the loop, so that candidate gets no record and no write. This includes
  a score of more than 4300 digits, which is CPython's default limit for
  converting text to an integer.
- From 2020-01-01 to 2022-01-01 is 731 days, because 2020 is a leap year. The
  tenure still rounds to 2.00 years.
- A section body in `parse_result` ends at the next bare label WORD, with or
  without a colon after it, or at the end of the text. The lookahead lists the
  labels without the colon. So a summary containing the word "Score" is cut
  short there.

## Model

| member | source | states |
|---|---|---|
| Retry.Retry | main.py:39-58 | Attempts run from 1 upwards and stop at the first success. A fixed delay is slept before each retry: one fewer sleep than attempts. The run re-raises the last attempt's error exactly when all `max_retries` attempts fail. With at least one allowed attempt, the run always ends in a value or a re-raise. With fewer than one, nothing runs and the wrapper returns `None` |
| Retry.RunFrom | main.py:44-58 | From attempt `k` on: every attempt before the last one failed, a returned value is what the last attempt returned, and a re-raise happens only at attempt `max_retries` with that attempt's error |
| Retry.Execute | main.py:43-58 | The attempt loop as a method: it computes the same ending, attempt count and sleep count as the recursive definition, with fewer sleeps than attempts |
| Retry.SafeCall | main.py:74-88 | A `safe_*` call with the default of three attempts yields a value exactly when one of attempts 1 to 3 succeeds. The value is the one returned by the first successful attempt, every earlier attempt having failed |
| Aggregation.WorkEntries | main.py:116-127 | The work history resolves every reference, in reference order, mapping each row to its five fields. It fails as soon as any one lookup exhausts its retries, and only then |
| Aggregation.BuildCombined | main.py:103-151 | A profile is built exactly when the first personal reference, every work reference and the first salary reference all resolve; otherwise the result is the empty `{}`. A missing reference list gives an empty substructure. The applicant id, the personal fields, the experience entries and the salary fields are the ones read from the store |
| Aggregation.OnlyFirstReferenceUsed | main.py:110-113 | Personal and salary references after the first never change the profile |
| Aggregation.NoWorkReferences | main.py:116-148 | An applicant with no linked rows gets a profile with empty substructures and an empty history, not a failure |
| Aggregation.IntendedWrites | main.py:157-165 | The writes are, in applicant order, one per applicant whose profile builds, carrying that profile. An applicant whose build returned `{}` gets none |
| Aggregation.IntendedWritesFromBuilds | main.py:158-160 | Every cache write carries the profile built for an applicant with that id, so an empty profile is never written |
| Aggregation.PushCombined | main.py:154-167 | The writes made are a prefix of the intended writes, and each of them succeeded. The first intended write not made is one whose retries ran out: it ends the loop, so later applicants are skipped. All intended writes are made when every write succeeds |
| Aggregation.Summarize | main.py:186-196 | A summary carries the row id, the profile's name, location and availability, the companies in history order, and the preferred rate as the text `"<rate> <currency>"`. Its tenure is within half a hundredth of the total days divided by 365 |
| Aggregation.RateText | main.py:193 | The rate text is the rate as printed, one space, then the currency as printed, with `None` printed for a missing one |
| Aggregation.ExtractSummaries | main.py:182-199 | One summary per row with a cached profile, in row order. Rows without one are skipped |
| Dates.ParseDate | main.py:174-175 | Every accepted string denotes a real calendar date in years 1 to 9999 |
| Dates.ParseFormat | main.py:174-175 | Parsing the zero-padded `YYYY-MM-DD` text of any valid date gives back that date |
| Dates.ParsedDatesHaveOrdinals | main.py:174-176 | Every parsed date has a month in 1 to 12, so it has a day number and two parsed dates can be subtracted |
| Dates.OrdinalNextDay | main.py:176 | The day count of a date difference advances by exactly one from a date to the next calendar day, across month and year ends and leap days |
| Dates.NextDayValid | main.py:176 | The next calendar day of a valid date before year 9999 is valid |
| Dates.DaysBeforeNextYear | main.py:176 | Day numbers of successive years differ by that year's length: 366 for a Gregorian leap year, 365 otherwise |
| Dates.TwoYearsExample | main.py:174-176 | "2020-01-01" and "2022-01-01" parse, and are 731 days apart |
| Dates.LenientFormExample | main.py:174 | The lenient form "2020-1- 5" parses to 5 January 2020 |
| Dates.RejectedFormsExample | main.py:174 | Month 13 and 29 February of a common year are rejected |
| Tenure.EntrySpan | main.py:173-178 | An entry contributes a span exactly when both of its dates parse. The span is the day count between them; otherwise the entry is skipped |
| Tenure.Years | main.py:170-179 | The tenure is within half a hundredth of the history's total days divided by 365 |
| Tenure.TotalDays | main.py:171-178 | The day total is non-negative when every entry's contribution is |
| Tenure.RoundHundredths | main.py:179 | The result is within half a hundredth of `t / 365` years |
| Tenure.RoundHundredthsUnique | main.py:179 | Any integer within half a hundredth of `t / 365` is the rounded value, so the rounding is determined |
| Tenure.RoundHundredthsMonotone | main.py:179 | Rounding never decreases as the day total grows |
| Tenure.TotalDaysAppend | main.py:172-176 | The day total of a history is the sum over its parts |
| Tenure.SkippedEntry | main.py:177-178 | An entry whose dates do not parse contributes nothing, wherever it stands |
| Tenure.AddEntryMonotone | main.py:170-179 | Adding an entry never decreases the tenure, unless its end date comes before its start date |
| Tenure.CalculateExperience | main.py:170-179 | The loop computes the tenure, within half a hundredth of total days over 365 |
| Tenure.TwoYearsTenure | main.py:170-179 | 2020-01-01 to 2022-01-01 gives 2.00 years |
| Currency.FirstNumeral | main.py:207 | An amount is found exactly when the text has a digit. It is the greedy match of `\d+(?:\.\d+)?` at the first digit: all the digits there, then a point and all the digits after it when a digit follows the point |
| Currency.FirstCode | main.py:209 | A code is found exactly when three upper-case letters stand between word boundaries somewhere in the text. It is the one at the first such position |
| Currency.ToUsd | main.py:202-216 | No value when the text contains "Others", when no amount or no code is found, or when the amount is zero. Otherwise the converter's answer for the first amount and the first code |
| Currency.NumeralZero | main.py:207-212 | An amount is zero exactly when every one of its digits is 0, and that is when `not amount` rejects it |
| Currency.NumeralRoundTrip | main.py:207-208 | The amount found in the text of a decimal, followed by a non-numeric suffix, is that decimal |
| Currency.CodeRoundTrip | main.py:209-210 | The code found after text with no upper-case letters is that code |
| Currency.RateTextRoundTrip | main.py:193-210 | When the rate is printed as a plain decimal numeral (at least one whole digit, digits only, an optional fraction of digits) and the currency is three capital letters, the amount found in the rate text `"<rate> <currency>"` is the rate and the code found is the currency. Other rate texts, such as `1e-05`, or a currency of `None`, "usd" or "Others", are not covered |
| Currency.ConvertsExample | main.py:202-213 | "85.5 USD" converts the amount 85.5 from USD |
| Currency.ZeroAmountExample | main.py:211-212 | "0 USD" gives no value |
| Currency.OthersExample | main.py:205-206 | "85 Others" gives no value |
| Currency.NoAmountExample | main.py:207-212 | "not a rate" gives no value |
| Shortlist.AnyTierOne | main.py:226 | The check is true when some company is tier-one and every name before it is present. It is false when every name is present and none is tier-one. In every other case a missing name raises before a tier-one name is reached |
| Shortlist.TierOneNamed | main.py:226 | When `any` returns, it returns true exactly when some company name is tier-one |
| Shortlist.AffordableRate | main.py:229 | The compensation leg holds only when the rate text has no "Others", has an amount and a code, and the amount is not zero |
| Shortlist.Eligible | main.py:224-230 | An eligible candidate's company check returns, and the candidate has four years or a tier-one employer |
| Shortlist.Evaluate | main.py:224-232 | Evaluating a candidate raises exactly when the location, availability or a company name reached by `any` is missing. It is true exactly when all four legs hold: allowed location; four years or a tier-one employer; a nonzero converted rate of at most 100; at least 20 hours |
| Shortlist.ShortlistCandidates | main.py:219-233 | Every shortlisted candidate is an input that meets all four legs, and every input that meets them is shortlisted |
| Shortlist.ShortlistIsSubsequence | main.py:223-230 | The shortlist keeps the input order |
| Shortlist.ShortlistSplits | main.py:223-232 | Candidates are judged independently: a raising candidate never affects any other |
| Shortlist.Shortlist | main.py:222-233 | The loop builds exactly the shortlist |
| Shortlist.MissingCompanyDrops | main.py:226-232 | A missing first company name raises, and the candidate is dropped whatever their tenure |
| Shortlist.LongTenureExample | main.py:225-230 | Five years in the United States at 80 USD for 25 hours passes |
| Shortlist.FewHoursExample | main.py:228-229 | The same candidate at 15 hours does not |
| Shortlist.TierOneExample | main.py:226-229 | Two years at Google passes on the tier-one leg |
| ResponseParser.HeaderAt | main.py:267 | A header is recognised exactly when the text starts with one of the four labels and a colon |
| ResponseParser.BodyEnd | main.py:267 | A body runs to the first position where a label word starts, or where only an optional final newline is left |
| ResponseParser.Scan | main.py:267 | No section body found contains a label word |
| ResponseParser.ScanSuffix | main.py:267 | The sections come in text order: from any header on, the sections found are the scan of the text from that header, after all earlier sections |
| ResponseParser.Collect | main.py:268 | The dictionary has exactly the labels found |
| ResponseParser.CollectLast | main.py:268 | A label's entry is the stripped body of its last section |
| ResponseParser.IssueItems | main.py:269-270 | One item per comma-separated part, in order, each the part stripped: at least one item, none holding a comma |
| ResponseParser.FollowUpLines | main.py:271-274 | The follow-ups are the non-blank lines, in order, each with its leading and trailing stars and spaces removed and then stripped. Blank lines give nothing |
| ResponseParser.ParseResult | main.py:266-275 | Each field is present exactly when its label and a colon occur somewhere in the reply. Summary and score are trimmed and label-free |
| ResponseParser.ParseResultBodies | main.py:266-275 | Each present field comes from the body of a match of its header: summary and score are that body stripped, the issues its stripped comma-separated parts, the follow-ups its cleaned non-blank lines |
| ResponseParser.ScanSound | main.py:267 | Every section found is the match at a header of the text: the label, and the body from after the colon to the first position where the lookahead holds |
| ResponseParser.ScanComplete | main.py:267 | The match at every header of the text is among the sections found, so no header is skipped |
| ResponseParser.ScanNames | main.py:267 | A label is among the sections found exactly when its header occurs in the text |
| ResponseParser.NoHeaderInsideMatch | main.py:267 | No header starts inside a match, neither in its label nor in its body |
| ResponseParser.MatchAtShift | main.py:267 | A match read from a suffix of the text is the match at the same place of the whole text |
| ResponseParser.CollectFrom | main.py:268 | The value kept under a label is the stripped body of one of that label's sections |
| ResponseParser.CollectMiddle | main.py:268 | A section followed by no other section of its label is the one whose stripped body the dictionary keeps |
| ResponseParser.CollectLastMatch | main.py:267-268 | When no header of a label follows a given one in the text, the dictionary keeps the stripped body of the match at that last header: the last match wins |
| ResponseParser.ParseResultLast | main.py:266-275 | Each field comes from the last header of its label in the reply: summary and score are that match's stripped body, the issues its comma-separated parts, the follow-ups its cleaned non-blank lines |
| ResponseParser.DuplicateLabelExample | main.py:266-268 | "Summary: a\nSummary: b" parses to the summary "b" |
| ResponseParser.ParseRender | main.py:255-275 | A reply written in the instructed four-section format parses back to its own summary, score, issues and follow-ups |
| ResponseParser.ScanRender | main.py:267 | The instructed format scans into its four sections |
| ResponseParser.CollectRender | main.py:268 | The dictionary of those sections holds the four stripped bodies |
| ResponseParser.IssuesRoundTrip | main.py:269-270 | Issues joined with commas split back to the same items |
| ResponseParser.FollowUpsRoundTrip | main.py:271-274 | Follow-ups written as a bullet list parse back to the same items |
| ResponseParser.BulletLine | main.py:273 | A bullet line is not blank, and stripping its marker and spaces gives the item |
| ResponseParser.NoColonNoMatch | main.py:267 | Text without a colon yields no sections |
| ResponseParser.GarbageExample | main.py:266-275 | A reply with no labels parses to an empty result, without raising |
| ResponseParser.ExampleCompletion | main.py:266-275 | A concrete four-section reply parses to its summary "ok", score "7", issues ["None"] and follow-ups ["a", "b"] |
| Enrichment.ParseInt | main.py:288 | `int()` accepts the text exactly when, with the whitespace it skips removed from both ends, it is an optional sign and a digit body of at most 4300 digits. The value is not positive after a minus sign and not negative otherwise |
| Enrichment.ParseBody | main.py:288 | A digit body with single underscores between digits is accepted when it has at most 4300 digits, not counting the underscores, and nothing else is. Its value is that of its digits with the underscores removed |
| Enrichment.ParseIntText | main.py:288 | `int()` reads back the decimal text of every integer of at most 4300 digits, and raises on a longer one |
| Enrichment.ParseIntSpacesExample | main.py:288 | Surrounding whitespace is ignored |
| Enrichment.ParseIntUnderscoreExample | main.py:288 | "1_000" reads as 1000 |
| Enrichment.ParseIntRejectsExample | main.py:288 | "1__000" and "7/10" are rejected |
| Enrichment.ParseIntBlankExample | main.py:288 | Empty and blank text are rejected |
| Enrichment.ParseIntSeparatorExample | main.py:288 | `strip()` removes a leading `\x1c`, but `int()` does not skip it and raises |
| Enrichment.FollowUpText | main.py:289 | "NA" when there are no follow-ups or when they join to the empty text. Otherwise the follow-ups joined by "; ", so a single non-empty follow-up stands alone |
| Enrichment.Derive | main.py:284-292 | A record is derived unless a present score fails to parse. It carries the candidate's id, and the summary or "NA". Its score is the parsed score, or 0 when there is none. Its follow-up text is derived as above, and its status is Yes exactly when the score exceeds 1 |
| Enrichment.DeriveFromReply | main.py:282-292 | A well-formed reply whose score is the text of an integer of at most 4300 digits always yields that record. A longer score raises, and the candidate gets no record |
| Enrichment.MissingFieldsExample | main.py:287-290 | A reply with no labels yields the record ("NA", 0, "NA", No) |
| Enrichment.EnrichOne | main.py:281-296 | A candidate yields a record exactly when the completion returns, the score parses and the write succeeds. The record is the one derived from the reply |
| Enrichment.EnrichAppend | main.py:280-296 | Candidates are enriched independently: a failed candidate never affects the others |
| Enrichment.Enrich | main.py:278-297 | At most one record per candidate |
| Enrichment.EnrichKeepsAll | main.py:278-297 | A record comes back for every candidate exactly when every candidate's enrichment succeeds |
| Enrichment.EnrichSound | main.py:280-297 | Every returned record is a successful enrichment of one of the candidates |
| Enrichment.EnrichComplete | main.py:280-297 | Every candidate whose enrichment succeeds has its record returned |
| Enrichment.EnrichWithLlm | main.py:278-297 | The loop returns exactly the records of the successful enrichments, in candidate order |
| Enrichment.DefaultUpdates | main.py:378-387 | One ("NA", 0, "NA", No) update per summary whose id was not shortlisted, in summary order, and none for a shortlisted id |
| Enrichment.DefaultsAndEnrichedDisjoint | main.py:378-392 | No candidate gets both a default record and an enriched record |
| Enrichment.Batches | main.py:388-389 | Batches are non-empty and hold at most ten records. All but the last hold exactly ten, and together, in order, they are the updates |
| Enrichment.BatchesExample | main.py:388-389 | Twenty-three updates go out as batches of 10, 10 and 3 |
| Enrichment.WriteBatches | main.py:388-389 | The batches written are a prefix of the batches, each one succeeded, and the first batch not written failed |
| Enrichment.AllDefaultsWritten | main.py:388-389 | When every batch write succeeds, every default update is written, in order |
| Enrichment.FinishRequest | main.py:374-407 | The request answers normally exactly when every default batch is written. It then returns the shortlist, and its records are exactly the enrichment of the shortlisted candidates |
| Text.StripBy | main.py:268-273 | The stripped text has no droppable character at either end, and is empty exactly when every character is droppable |
| Text.StripPadded | main.py:268 | Stripping removes exactly the droppable padding around a stripped text |
| Text.Split | main.py:270-273 | Splitting gives at least one part, none containing the separator |
| Text.JoinSplit | main.py:270-273 | Joining the parts of a split with the separator gives back the text |
| Text.SplitJoin | main.py:270 | Splitting parts joined with a separator they do not contain gives back the parts |
| Text.ContainsIff | main.py:205 | The substring test holds exactly when the substring occurs at some position |
| Seqs.Filter | main.py:223-230 | A filtered list holds only kept elements of the input, and every kept element |
| Seqs.FilterMapKeepsAll | main.py:280-297 | Nothing is dropped exactly when every input gives a value |
| Seqs.FilterAppend | main.py:223-232 | Filtering distributes over concatenation |
| Seqs.ConcatChunks | main.py:388-389 | Fixed-size slices, concatenated in order, give back the list |
| Seqs.ChunkSlices | main.py:388-389 | Slice `k` is `xs[k*n : k*n + n]`, cut at the end of the list |
| Seqs.ChunkCount | main.py:388 | The number of slices is the length divided by the size, rounded up |

## Left out

- The Flask routes are left out: `index` and steps 1 to 8 of `create_applicant` (form parsing, the creation of the four linked rows, and the re-read of all rows sorted by their cache field). Steps 9 to 11 start from the summaries that step 8 extracts.
- `make_counter` and `new_id` are left out. They only number new applicants.
- Store access, the currency converter and the completion service are parameters. Logging and `time.sleep` are left out, and the retry model counts sleeps instead.
- `json.dumps` and `json.loads` are left out: the cached profile is stored and read back as a value. A cache field holding text that does not decode is modelled as a missing cache.
- Aggregation.BuildCombined: a row returned by the store whose fields are not a mapping is outside the model. "Availability (hrs/wk)" and "Applicant ID" are optional integers; the other fields are optional strings.
- The prompt text and its formatting of a candidate (`str(candidate)`) are left out: the completion is a function of the candidate summary.
- Currency.ToUsd: the amount is an exact decimal, not a binary float. An amount whose float rounding changes a comparison with 0 or 100 is not modelled.
- Tenure.RoundHundredths: computes Python's `round` exactly, so float division error and round-half-even on ties are not modelled. No day total is a tie, so only float error could differ.
- Enrichment.ParseInt: the digit limit is CPython's default of 4300. A limit changed through `sys.set_int_max_str_digits` or `PYTHONINTMAXSTRDIGITS` is not modelled.
- Character classes other than whitespace are ASCII only. This covers `str.lower`, `\d` and `\b` in the regular expressions, and the digits accepted by `int()` and `strptime`. Whitespace for `strip()` is Python's full Unicode `str.isspace` set. `int()` skips that set minus the ASCII separators `\x1c` to `\x1f`.
- Dynamic type errors other than a missing field are left out. Examples are a non-string location, or an availability that is not a number.
- The response JSON of the route is reduced to the `Answer` datatype.
