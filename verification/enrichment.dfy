/** The last steps of a form submission: default records for the candidates
    that were not shortlisted, written in batches of ten, and the record
    `enrich_with_llm` derives from each shortlisted candidate's completion.
 */
module Enrichment {
  import opened Wrappers
  import opened Text
  import opened Seqs
  import opened Retry
  import opened Profile
  import opened ResponseParser
  import Dates
  import Shortlist

  // ---------------------------------------------------------------------------
  // int(text)

  /** What `int()` accepts after the sign: decimal digits, single underscores
      allowed between two digits. */
  predicate IsIntBody(b: string) {
    && |b| > 0 && IsDigit(b[0]) && IsDigit(b[|b| - 1])
    && (forall k :: 0 <= k < |b| ==> IsDigit(b[k]) || b[k] == '_')
    && (forall k :: 0 <= k < |b| - 1 ==> b[k] == '_' ==> b[k + 1] != '_')
  }

  predicate NotUnderscore(c: char) {
    c != '_'
  }

  /** CPython's default `sys.int_info.default_max_str_digits`: `int()` of a
      decimal text with more digits raises `ValueError`. */
  const MaxStrDigits: nat := 4300

  /** The digits of a body, counted without its underscores, are within the
      limit; leading zeros count. */
  predicate WithinDigitLimit(b: string) {
    |Filter(b, NotUnderscore)| <= MaxStrDigits
  }

  /** The digits after the sign, underscores dropped; `None` when they are
      not a valid body or are too many. */
  function ParseBody(b: string): (r: Option<nat>)
    ensures r.Some? <==> IsIntBody(b) && WithinDigitLimit(b)
    ensures r.Some? ==> r.value == DigitsValue(Filter(b, NotUnderscore))
  {
    if IsIntBody(b) && WithinDigitLimit(b) then Some(DigitsValue(Filter(b, NotUnderscore))) else None
  }

  /** An optional sign, then the body. */
  function ParseSigned(t: string): Option<int> {
    if |t| == 0 then None
    else if t[0] == '-' then (match ParseBody(t[1..]) case None => None case Some(v) => Some(-(v as int)))
    else if t[0] == '+' then (match ParseBody(t[1..]) case None => None case Some(v) => Some(v))
    else (match ParseBody(t) case None => None case Some(v) => Some(v))
  }

  /** What `int()` accepts once the whitespace is stripped: an optional
      sign, then a body of at most `MaxStrDigits` digits. */
  predicate IsIntText(t: string) {
    && |t| > 0
    && var b := if t[0] == '-' || t[0] == '+' then t[1..] else t;
       IsIntBody(b) && WithinDigitLimit(b)
  }

  /** The whitespace `int()` skips around the number. CPython turns every
      non-ASCII whitespace character into a space but leaves ASCII
      characters alone, then skips only tab to carriage return and the
      space: the separators `\x1c` to `\x1f`, which `str.isspace` and
      `strip()` count as whitespace, are not skipped. */
  predicate IsIntSpace(c: char) {
    IsSpace(c) && !('\U{1C}' <= c <= '\U{1F}')
  }

  /** Python's `int(s)` on a string: surrounding whitespace, an optional
      sign, then the digits; `None` is the `ValueError` it raises. */
  function ParseInt(s: string): (r: Option<int>)
    ensures r.Some? <==> IsIntText(StripBy(s, IsIntSpace))
    ensures r.Some? && StripBy(s, IsIntSpace)[0] == '-' ==> r.value <= 0
    ensures r.Some? && StripBy(s, IsIntSpace)[0] != '-' ==> r.value >= 0
  {
    ParseSigned(StripBy(s, IsIntSpace))
  }

  /** `str(n)` for a natural number. */
  function NatText(n: nat): (t: string)
    ensures |t| > 0 && forall k :: 0 <= k < |t| ==> IsDigit(t[k])
  {
    if n < 10 then [Dates.Digit(n)] else NatText(n / 10) + [Dates.Digit(n % 10)]
  }

  /** `str(n)` */
  function IntText(n: int): string {
    if n < 0 then "-" + NatText(-n) else NatText(n)
  }

  lemma {:induction false} NatTextValue(n: nat)
    ensures DigitsValue(NatText(n)) == n
  {
    if n >= 10 {
      var t := NatText(n);
      assert t[..|t| - 1] == NatText(n / 10);
      NatTextValue(n / 10);
    }
  }

  /** The number of decimal digits of `str(n)`, sign excluded. */
  function DigitCount(n: int): nat {
    |NatText(if n < 0 then -n else n)|
  }

  /** The digits of a natural number are a body worth that number, unless
      they are too many. */
  lemma ParseNatBody(m: nat)
    ensures ParseBody(NatText(m)) == if |NatText(m)| <= MaxStrDigits then Some(m) else None
  {
    var t := NatText(m);
    assert IsIntBody(t);
    FilterAll(t, NotUnderscore);
    NatTextValue(m);
  }

  /** A text of digits, or `-` and digits, has no whitespace to skip. */
  lemma IntTextStripped(n: int)
    ensures StripBy(IntText(n), IsIntSpace) == IntText(n)
  {
    var t := IntText(n);
    var digits := NatText(if n < 0 then -n else n);
    assert t[|t| - 1] == digits[|digits| - 1];
    StripNothing(t, IsIntSpace);
  }

  lemma ParseSignedText(n: int)
    ensures ParseSigned(IntText(n)) == if DigitCount(n) <= MaxStrDigits then Some(n) else None
  {
    if n < 0 {
      ParseNegativeText(-n);
    } else {
      ParseUnsignedText(n);
    }
  }

  lemma ParseUnsignedText(m: nat)
    ensures ParseSigned(NatText(m)) == if |NatText(m)| <= MaxStrDigits then Some(m) else None
  {
    var t := NatText(m);
    assert IsDigit(t[0]);
    ParseNatBody(m);
  }

  lemma ParseNegativeText(m: nat)
    requires m > 0
    ensures ParseSigned("-" + NatText(m)) == if |NatText(m)| <= MaxStrDigits then Some(-(m as int)) else None
  {
    var t := "-" + NatText(m);
    assert t[0] == '-' && t[1..] == NatText(m);
    ParseNatBody(m);
  }

  /** `int(str(n)) == n` for every integer of at most `MaxStrDigits` digits;
      a longer one raises. */
  lemma ParseIntText(n: int)
    ensures DigitCount(n) <= MaxStrDigits ==> ParseInt(IntText(n)) == Some(n)
    ensures DigitCount(n) > MaxStrDigits ==> ParseInt(IntText(n)) == None
  {
    IntTextStripped(n);
    ParseSignedText(n);
  }

  /** A rendered integer survives a reply: no label word, nothing to strip. */
  lemma IntTextFits(n: int)
    ensures LabelFree(IntText(n)) && StrippedBy(IntText(n), IsSpace)
  {
    var t := IntText(n);
    var digits := NatText(if n < 0 then -n else n);
    assert t[|t| - 1] == digits[|digits| - 1];
    forall j | 0 <= j < |t| ensures !StartsWithLabel(t[j..]) {
      assert t[j..][0] == t[j];
    }
  }

  /** Surrounding whitespace is ignored. */
  lemma ParseIntSpacesExample()
    ensures ParseInt(" 7 ") == Some(7)
  {
    StripPadded(" ", "7", " ", IsIntSpace);
    assert " " + "7" + " " == " 7 ";
    SevenSigned();
  }

  lemma SevenSigned()
    ensures ParseSigned("7") == Some(7)
  {
    ParseUnsignedText(7);
    assert NatText(7) == "7";
  }

  lemma ThousandValue()
    ensures DigitsValue("1000") == 1000
  {
    assert "1000"[..3] == "100" && "100"[..2] == "10" && "10"[..1] == "1" && "1"[..0] == "";
    assert DigitsValue("1") == 1;
    assert DigitsValue("10") == 10;
    assert DigitsValue("100") == 100;
  }

  lemma DropUnderscore()
    ensures Filter("1_000", NotUnderscore) == "1000"
  {
    DropLeadingUnderscore();
    var t := "1_000";
    assert t[0] == '1' && t[1..] == "_000";
    FilterHead(t, NotUnderscore);
  }

  lemma DropLeadingUnderscore()
    ensures Filter("_000", NotUnderscore) == "000"
  {
    var t := "_000";
    assert t[0] == '_' && t[1..] == "000";
    FilterAll("000", NotUnderscore);
    FilterHead(t, NotUnderscore);
  }

  lemma UnderscoreBody()
    ensures ParseBody("1_000") == Some(1000)
  {
    assert IsIntBody("1_000");
    DropUnderscore();
    ThousandValue();
  }

  /** A text with nothing to strip is its own stripped form. */
  lemma StripNothing(t: string, drop: char -> bool)
    requires StrippedBy(t, drop)
    ensures StripBy(t, drop) == t
  {
    StripPadded("", t, "", drop);
    assert "" + t + "" == t;
  }

  /** Underscores between digits are accepted. */
  lemma ParseIntUnderscoreExample()
    ensures ParseInt("1_000") == Some(1000)
  {
    var t := "1_000";
    assert t[0] == '1' && t[|t| - 1] == '0';
    StripNothing(t, IsIntSpace);
    UnsignedUnderscore();
  }

  lemma UnsignedUnderscore()
    ensures ParseSigned("1_000") == Some(1000)
  {
    assert "1_000"[0] == '1';
    UnderscoreBody();
  }

  /** Two underscores in a row and other characters raise. */
  lemma ParseIntRejectsExample()
    ensures ParseInt("1__000") == None
    ensures ParseInt("7/10") == None
  {
    DoubleUnderscoreRejected();
    SlashRejected();
  }

  lemma DoubleUnderscoreRejected()
    ensures ParseInt("1__000") == None
  {
    var t := "1__000";
    assert t[0] == '1' && t[|t| - 1] == '0';
    StripNothing(t, IsIntSpace);
    assert t[1] == '_' && t[2] == '_';
    assert !IsIntBody(t);
  }

  lemma SlashRejected()
    ensures ParseInt("7/10") == None
  {
    var t := "7/10";
    assert t[0] == '7' && t[|t| - 1] == '0';
    StripNothing(t, IsIntSpace);
    assert t[1] == '/';
    assert !IsIntBody(t);
  }

  /** `strip()` removes an information separator, but `int()` does not
      skip one. */
  lemma ParseIntSeparatorExample()
    ensures Strip("\U{1C}5") == "5"
    ensures ParseInt("\U{1C}5") == None
  {
    var t := "\U{1C}5";
    assert t == [t[0]] + "5" + "";
    StripPadded([t[0]], "5", "", IsSpace);
    assert t[|t| - 1] == '5';
    StripNothing(t, IsIntSpace);
    assert !IsIntBody(t);
  }

  /** An empty or blank score raises. */
  lemma ParseIntBlankExample()
    ensures ParseInt("") == None
    ensures ParseInt("  ") == None
  {
  }

  // ---------------------------------------------------------------------------
  // the record derived from a completion

  datatype Status = Yes | No

  /** The four fields written back to the applicant. */
  datatype Fields = Fields(summary: string, score: int, followUps: string, status: Status)

  /** `{"id": ..., "fields": {...}}` */
  datatype Record = Record(id: string, fields: Fields)

  /** `"; ".join(follow_ups) or "NA"` */
  function FollowUpText(followUps: Option<seq<string>>): (t: string)
    ensures followUps.None? ==> t == "NA"
    ensures followUps.Some? && |followUps.value| == 1 && followUps.value[0] != "" ==> t == followUps.value[0]
    ensures Join(followUps.GetOr([]), "; ") == "" ==> t == "NA"
    ensures Join(followUps.GetOr([]), "; ") != "" ==> t == Join(followUps.GetOr([]), "; ")
    ensures followUps.Some? && |followUps.value| >= 2 ==> t == Join(followUps.value, "; ")
  {
    var joined := Join(followUps.GetOr([]), "; ");
    if joined == "" then "NA" else joined
  }

  /** The record `enrich_with_llm` builds from a parsed completion; `None`
      when `int()` raises on the score, which skips the candidate. */
  function Derive(c: CandidateSummary, p: Parsed): (r: Option<Record>)
    ensures r.None? <==> p.score.Some? && ParseInt(p.score.value).None?
    ensures r.Some? ==> r.value.id == c.id
    ensures r.Some? ==> (r.value.fields.status == Yes <==> r.value.fields.score > 1)
    ensures r.Some? && p.score.None? ==> r.value.fields.score == 0 && r.value.fields.status == No
    ensures r.Some? && p.score.Some? ==> Some(r.value.fields.score) == ParseInt(p.score.value)
    ensures r.Some? ==> r.value.fields.summary == p.summary.GetOr("NA")
    ensures r.Some? ==> r.value.fields.followUps == FollowUpText(p.followUps)
  {
    var score := if p.score.None? then Some(0) else ParseInt(p.score.value);
    match score
    case None => None
    case Some(n) =>
      Some(Record(c.id, Fields(p.summary.GetOr("NA"), n, FollowUpText(p.followUps), if n > 1 then Yes else No)))
  }

  /** A completion in the requested shape yields a record carrying its
      summary, its score, its follow-ups, and "Yes" exactly when the score
      is above one; a score of more than `MaxStrDigits` digits raises. */
  lemma DeriveFromReply(c: CandidateSummary, reply: Reply, n: int)
    requires RoundTrips(reply) && reply.score == IntText(n)
    ensures DigitCount(n) <= MaxStrDigits ==>
      Derive(c, ParseResult(Render(reply)))
      == Some(Record(c.id, Fields(reply.summary, n, FollowUpText(Some(reply.followUps)), if n > 1 then Yes else No)))
    ensures DigitCount(n) > MaxStrDigits ==> Derive(c, ParseResult(Render(reply))).None?
  {
    ParseRender(reply);
    ParseIntText(n);
  }

  /** A completion without a score line gives score 0 and "No"; one
      without any label gives every default. */
  lemma MissingFieldsExample(c: CandidateSummary)
    ensures Derive(c, ParseResult("garbage")) == Some(Record(c.id, Fields("NA", 0, "NA", No)))
  {
    GarbageExample();
  }

  // ---------------------------------------------------------------------------
  // enrich_with_llm

  /** The completion service: the text returned for a candidate, or `None`
      when the call raises. */
  type Completion = CandidateSummary -> Option<string>

  /** `safe_update_applicant`: attempt `k` of the write of a record. */
  type RecordWrite = (Record, nat) -> Outcome<()>

  predicate Written(write: RecordWrite, r: Record) {
    SafeCall((k: nat) => write(r, k)).Some?
  }

  /** One iteration of the loop: the record appended for a candidate, or
      `None` when the completion raised, its score did not parse, or the
      write's retries ran out. */
  function EnrichOne(c: CandidateSummary, complete: Completion, write: RecordWrite): (r: Option<Record>)
    ensures r.Some? <==>
      && complete(c).Some?
      && Derive(c, ParseResult(complete(c).value)).Some?
      && Written(write, Derive(c, ParseResult(complete(c).value)).value)
    ensures r.Some? ==> r == Derive(c, ParseResult(complete(c).value))
  {
    match complete(c)
    case None => None
    case Some(text) =>
      match Derive(c, ParseResult(text))
      case None => None
      case Some(record) => if Written(write, record) then Some(record) else None
  }

  /** `enrich_with_llm(shortlisted)`: the records appended, in candidate
      order; a candidate that fails is skipped and the loop goes on. */
  function Enrich(cs: seq<CandidateSummary>, complete: Completion, write: RecordWrite): (rs: seq<Record>)
    ensures |rs| <= |cs|
  {
    FilterMap(cs, (c: CandidateSummary) => EnrichOne(c, complete, write))
  }

  /** Candidates are enriched independently of one another. */
  lemma EnrichAppend(a: seq<CandidateSummary>, b: seq<CandidateSummary>, complete: Completion, write: RecordWrite)
    ensures Enrich(a + b, complete, write) == Enrich(a, complete, write) + Enrich(b, complete, write)
  {
    FilterMapAppend(a, b, (c: CandidateSummary) => EnrichOne(c, complete, write));
  }

  /** Every record comes from one candidate's successful iteration. */
  lemma EnrichSound(cs: seq<CandidateSummary>, complete: Completion, write: RecordWrite, k: nat)
    requires k < |Enrich(cs, complete, write)|
    ensures exists i :: 0 <= i < |cs| && EnrichOne(cs[i], complete, write) == Some(Enrich(cs, complete, write)[k])
  {
    FilterMapSound(cs, (c: CandidateSummary) => EnrichOne(c, complete, write), k);
  }

  /** Every successful iteration contributes its record. */
  lemma EnrichComplete(cs: seq<CandidateSummary>, complete: Completion, write: RecordWrite, i: nat)
    requires i < |cs| && EnrichOne(cs[i], complete, write).Some?
    ensures EnrichOne(cs[i], complete, write).value in Enrich(cs, complete, write)
  {
    FilterMapComplete(cs, (c: CandidateSummary) => EnrichOne(c, complete, write), i);
  }

  /** A record comes back for every summary exactly when no iteration
      fails. */
  lemma EnrichKeepsAll(cs: seq<CandidateSummary>, complete: Completion, write: RecordWrite)
    ensures |Enrich(cs, complete, write)| == |cs| <==> forall i :: 0 <= i < |cs| ==> EnrichOne(cs[i], complete, write).Some?
  {
    FilterMapKeepsAll(cs, (c: CandidateSummary) => EnrichOne(c, complete, write));
  }

  /** One more candidate adds its record, if it gives one, at the end. */
  lemma EnrichStep(cs: seq<CandidateSummary>, i: nat, complete: Completion, write: RecordWrite)
    requires i < |cs|
    ensures var outcome := EnrichOne(cs[i], complete, write);
      Enrich(cs[..i + 1], complete, write) == Enrich(cs[..i], complete, write) + (if outcome.Some? then [outcome.value] else [])
  {
    var outcome := EnrichOne(cs[i], complete, write);
    EnrichAppend(cs[..i], [cs[i]], complete, write);
    assert cs[..i + 1] == cs[..i] + [cs[i]];
    assert Enrich([cs[i]], complete, write) == (if outcome.Some? then [outcome.value] else []) + Enrich([], complete, write);
  }

  /** The loop of `enrich_with_llm`. */
  method EnrichWithLlm(cs: seq<CandidateSummary>, complete: Completion, write: RecordWrite) returns (records: seq<Record>)
    ensures records == Enrich(cs, complete, write)
  {
    records := [];
    var i := 0;
    while i < |cs|
      invariant 0 <= i <= |cs|
      invariant records == Enrich(cs[..i], complete, write)
    {
      var outcome := EnrichOne(cs[i], complete, write);
      EnrichStep(cs, i, complete, write);
      if outcome.Some? {
        records := records + [outcome.value];
      }
      i := i + 1;
    }
    assert cs[..i] == cs;
  }

  // ---------------------------------------------------------------------------
  // the candidates that were not shortlisted

  function ShortlistedIds(shortlisted: seq<CandidateSummary>): set<string> {
    set k | 0 <= k < |shortlisted| :: shortlisted[k].id
  }

  function DefaultRecord(id: string): Record {
    Record(id, Fields("NA", 0, "NA", No))
  }

  /** The default record of one summary, unless its id was shortlisted. */
  function DefaultFor(shortlisted: seq<CandidateSummary>, c: CandidateSummary): Option<Record> {
    if c.id in ShortlistedIds(shortlisted) then None else Some(DefaultRecord(c.id))
  }

  /** The default record of every summary whose id was not shortlisted, in
      the order of `cleaned_data`: one per such summary. */
  function DefaultUpdates(cleaned: seq<CandidateSummary>, shortlisted: seq<CandidateSummary>): (us: seq<Record>)
    ensures |us| <= |cleaned|
    ensures forall k :: 0 <= k < |us| ==> us[k] == DefaultRecord(us[k].id) && us[k].id !in ShortlistedIds(shortlisted)
    ensures forall i :: 0 <= i < |cleaned| && cleaned[i].id !in ShortlistedIds(shortlisted) ==>
      DefaultRecord(cleaned[i].id) in us
    ensures us == FilterMap(cleaned, (c: CandidateSummary) => DefaultFor(shortlisted, c))
  {
    if |cleaned| == 0 then []
    else
      var rest := DefaultUpdates(cleaned[1..], shortlisted);
      assert forall i :: 1 <= i < |cleaned| ==> cleaned[i] == cleaned[1..][i - 1];
      (if cleaned[0].id in ShortlistedIds(shortlisted) then [] else [DefaultRecord(cleaned[0].id)]) + rest
  }

  /** Default records and enriched records never share an id: a candidate
      gets one or the other. */
  lemma DefaultsAndEnrichedDisjoint(cleaned: seq<CandidateSummary>, shortlisted: seq<CandidateSummary>,
                                    complete: Completion, write: RecordWrite)
    ensures forall k, j :: 0 <= k < |DefaultUpdates(cleaned, shortlisted)| && 0 <= j < |Enrich(shortlisted, complete, write)| ==>
      DefaultUpdates(cleaned, shortlisted)[k].id != Enrich(shortlisted, complete, write)[j].id
  {
    var rs := Enrich(shortlisted, complete, write);
    forall j | 0 <= j < |rs| ensures rs[j].id in ShortlistedIds(shortlisted) {
      EnrichSound(shortlisted, complete, write, j);
    }
  }

  /** The batch size of the default writes. */
  const BatchSize: nat := 10

  /** The batches `updates[s:s + 10]` for `s in range(0, len(updates), 10)`. */
  function Batches(us: seq<Record>): (bs: seq<seq<Record>>)
    ensures forall k :: 0 <= k < |bs| ==> 0 < |bs[k]| <= BatchSize
    ensures forall k :: 0 <= k < |bs| - 1 ==> |bs[k]| == BatchSize
    ensures Concat(bs) == us
  {
    ConcatChunks(us, BatchSize);
    Chunks(us, BatchSize)
  }

  /** `safe_batch_update`: attempt `k` of the write of one batch. */
  type BatchWrite = (seq<Record>, nat) -> Outcome<()>

  predicate BatchWritten(write: BatchWrite, b: seq<Record>) {
    SafeCall((k: nat) => write(b, k)).Some?
  }

  /** The batches written. A batch whose retries run out raises out of the
      request, so no later batch is written. */
  function WriteBatches(bs: seq<seq<Record>>, write: BatchWrite): (done: seq<seq<Record>>)
    ensures done <= bs
    ensures forall k :: 0 <= k < |done| ==> BatchWritten(write, done[k])
    ensures |done| < |bs| ==> !BatchWritten(write, bs[|done|])
  {
    if |bs| == 0 then []
    else if BatchWritten(write, bs[0]) then [bs[0]] + WriteBatches(bs[1..], write)
    else []
  }

  /** What the request answers once the summaries are extracted: the
      shortlist and the enriched records, or the error response when a
      default batch cannot be written. */
  datatype Answer = Processed(shortlisted: seq<CandidateSummary>, records: seq<Record>) | ServerError

  /** Steps 9 to 11 of the form handler. */
  function FinishRequest(cleaned: seq<CandidateSummary>, fx: (real, string) -> Option<real>,
                         batchWrite: BatchWrite, complete: Completion, write: RecordWrite): (a: Answer)
    ensures a.Processed? <==>
      WriteBatches(Batches(DefaultUpdates(cleaned, Shortlist.ShortlistCandidates(cleaned, fx))), batchWrite)
        == Batches(DefaultUpdates(cleaned, Shortlist.ShortlistCandidates(cleaned, fx)))
    ensures a.Processed? ==> a.shortlisted == Shortlist.ShortlistCandidates(cleaned, fx)
    ensures a.Processed? ==> a.records == Enrich(a.shortlisted, complete, write)
    ensures a.Processed? ==> forall k :: 0 <= k < |a.records| ==> a.records[k].id in ShortlistedIds(a.shortlisted)
  {
    var shortlisted := Shortlist.ShortlistCandidates(cleaned, fx);
    var bs := Batches(DefaultUpdates(cleaned, shortlisted));
    if WriteBatches(bs, batchWrite) == bs then
      var rs := Enrich(shortlisted, complete, write);
      assert forall k :: 0 <= k < |rs| ==> rs[k].id in ShortlistedIds(shortlisted) by {
        forall k | 0 <= k < |rs| ensures rs[k].id in ShortlistedIds(shortlisted) {
          EnrichSound(shortlisted, complete, write, k);
        }
      }
      Processed(shortlisted, rs)
    else ServerError
  }

  /** When every batch write goes through, all default records are written,
      in order. */
  lemma AllDefaultsWritten(us: seq<Record>, write: BatchWrite)
    requires forall b :: BatchWritten(write, b)
    ensures Concat(WriteBatches(Batches(us), write)) == us
  {
    var bs := Batches(us);
    WriteAllBatches(bs, write);
  }

  lemma {:induction false} WriteAllBatches(bs: seq<seq<Record>>, write: BatchWrite)
    requires forall b :: BatchWritten(write, b)
    ensures WriteBatches(bs, write) == bs
  {
    if |bs| > 0 {
      WriteAllBatches(bs[1..], write);
    }
  }

  /** Twenty-three default records go out as batches of 10, 10 and 3. */
  lemma BatchesExample(us: seq<Record>)
    requires |us| == 23
    ensures |Batches(us)| == 3
    ensures Batches(us) == [us[..10], us[10..20], us[20..]]
  {
    assert ChunksFrom(us, BatchSize, 20) == [us[20..]];
    assert ChunksFrom(us, BatchSize, 10) == [us[10..20]] + ChunksFrom(us, BatchSize, 20);
    assert Chunks(us, BatchSize) == [us[0..10]] + ChunksFrom(us, BatchSize, 10);
    assert us[0..10] == us[..10];
  }
}
