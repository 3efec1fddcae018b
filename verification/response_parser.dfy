/** `parse_result`: the labelled sections of a completion text.

    The code runs `re.findall` with the pattern
    `(Summary|Score|Issues|Follow-Ups):([\s\S]*?)(?=(Summary|Score|Issues|Follow-Ups|$))`
    and keeps, per label, the stripped body of its last match. `Scan` is that
    search written out as a scanner over the text: a header is a label word
    and a colon; its body runs lazily up to the first position where a label
    word starts, or to the end (`$` also matches just before a final newline).
 */
module ResponseParser {
  import opened Wrappers
  import opened Text
  import opened Seqs

  datatype Label = Summary | Score | Issues | FollowUps

  function LabelText(l: Label): string {
    match l
    case Summary => "Summary"
    case Score => "Score"
    case Issues => "Issues"
    case FollowUps => "Follow-Ups"
  }

  /** A label word starts `s` (an alternative of the lookahead). */
  predicate StartsWithLabel(s: string) {
    LabelText(Summary) <= s || LabelText(Score) <= s || LabelText(Issues) <= s || LabelText(FollowUps) <= s
  }

  /** `(Summary|Score|Issues|Follow-Ups):` at the start of `s`, tried in that order. */
  function HeaderAt(s: string): (r: Option<Label>)
    ensures r.Some? ==> LabelText(r.value) + ":" <= s
    ensures r.None? ==> forall l: Label :: !(LabelText(l) + ":" <= s)
  {
    if LabelText(Summary) + ":" <= s then Some(Summary)
    else if LabelText(Score) + ":" <= s then Some(Score)
    else if LabelText(Issues) + ":" <= s then Some(Issues)
    else if LabelText(FollowUps) + ":" <= s then Some(FollowUps)
    else None
  }

  /** The lookahead holds at index `j` of `s`. */
  predicate BodyStops(s: string, j: nat)
    requires j <= |s|
  {
    j == |s| || (j == |s| - 1 && s[j] == '\n') || StartsWithLabel(s[j..])
  }

  /** Where the lazy body that starts at `i` ends: the first index at which
      the lookahead holds. */
  function BodyEnd(s: string, i: nat): (e: nat)
    requires i <= |s|
    ensures i <= e <= |s| && BodyStops(s, e)
    ensures forall j :: i <= j < e ==> !BodyStops(s, j)
    decreases |s| - i
  {
    if BodyStops(s, i) then i else BodyEnd(s, i + 1)
  }

  /** One match of the pattern: the label and its raw body. */
  datatype Section = Section(name: Label, body: string)

  /** No label word starts anywhere inside `s`. */
  predicate LabelFree(s: string) {
    forall j :: 0 <= j < |s| ==> !StartsWithLabel(s[j..])
  }

  /** A label word at the start of `s` is still there with text added after it. */
  lemma StartsWithLabelExtends(s: string, t: string)
    ensures StartsWithLabel(s) ==> StartsWithLabel(s + t)
  {
    forall l: Label | LabelText(l) <= s ensures LabelText(l) <= s + t {
      assert (s + t)[..|LabelText(l)|] == s[..|LabelText(l)|];
    }
  }

  /** A body ends before any label word, so none lies inside it. */
  lemma BodyLabelFree(s: string, h: nat, e: nat)
    requires h <= e <= |s|
    requires forall j :: h <= j < e ==> !BodyStops(s, j)
    ensures LabelFree(s[h..e])
  {
    var body := s[h..e];
    forall j | 0 <= j < |body| ensures !StartsWithLabel(body[j..]) {
      assert !BodyStops(s, h + j);
      StartsWithLabelExtends(body[j..], s[e..]);
      assert body[j..] + s[e..] == s[h + j..];
    }
  }

  /** `re.findall` over `s`: the matches from left to right. No body holds a
      label word, since a body ends where one starts. */
  function Scan(s: string): (ms: seq<Section>)
    ensures forall k :: 0 <= k < |ms| ==> LabelFree(ms[k].body)
    decreases |s|
  {
    if |s| == 0 then []
    else
      match HeaderAt(s)
      case None => Scan(s[1..])
      case Some(l) =>
        var h := |LabelText(l)| + 1;
        var e := BodyEnd(s, h);
        BodyLabelFree(s, h, e);
        [Section(l, s[h..e])] + Scan(s[e..])
  }

  /** The labels that occur among the matches. */
  function Names(ms: seq<Section>): set<Label> {
    set k | 0 <= k < |ms| :: ms[k].name
  }

  /** The dict comprehension `{m[0]: m[1].strip() for m in matches}`: one
      key per label that occurs. */
  function Collect(ms: seq<Section>): (m: map<Label, string>)
    ensures m.Keys == Names(ms)
  {
    if |ms| == 0 then map[]
    else
      var init := ms[..|ms| - 1];
      var last := ms[|ms| - 1];
      assert Names(ms) == Names(init) + {last.name} by {
        assert forall k :: 0 <= k < |init| ==> init[k] == ms[k];
      }
      Collect(init)[last.name := Strip(last.body)]
  }

  /** A later match of the same label overwrites an earlier one: the value
      kept is the stripped body of the label's last match. */
  lemma {:induction false} CollectLast(ms: seq<Section>, k: nat)
    requires k < |ms|
    requires forall k' :: k < k' < |ms| ==> ms[k'].name != ms[k].name
    ensures ms[k].name in Collect(ms) && Collect(ms)[ms[k].name] == Strip(ms[k].body)
  {
    if k < |ms| - 1 {
      var init := ms[..|ms| - 1];
      assert init[k] == ms[k];
      CollectLast(init, k);
    }
  }

  /** The value kept under a label is the stripped body of one of its matches. */
  lemma {:induction false} CollectFrom(ms: seq<Section>, l: Label)
    requires l in Collect(ms)
    ensures exists k :: 0 <= k < |ms| && ms[k].name == l && Collect(ms)[l] == Strip(ms[k].body)
  {
    var init := ms[..|ms| - 1];
    if ms[|ms| - 1].name != l {
      CollectFrom(init, l);
      var k :| 0 <= k < |init| && init[k].name == l && Collect(init)[l] == Strip(init[k].body);
      assert ms[k] == init[k];
    }
  }

  // ---------------------------------------------------------------------------
  // the matches, read off the text

  /** A header of label `l` starts at some index of `s`. */
  predicate HeaderOccurs(s: string, l: Label) {
    exists p :: 0 <= p < |s| && HeaderAt(s[p..]) == Some(l)
  }

  /** The match of the pattern at index `p`, where a header starts: the label,
      and the lazy body from the colon to the first index at which the
      lookahead holds. */
  function MatchAt(s: string, p: nat): Section
    requires p < |s| && HeaderAt(s[p..]).Some?
  {
    var l := HeaderAt(s[p..]).value;
    var h := p + |LabelText(l)| + 1;
    Section(l, s[h..BodyEnd(s, h)])
  }

  /** The letters a header can start with. */
  predicate IsHeaderInitial(c: char) {
    c == 'S' || c == 'I' || c == 'F'
  }

  lemma HeaderStart(t: string)
    ensures HeaderAt(t).Some? ==> |t| > 0 && IsHeaderInitial(t[0]) && StartsWithLabel(t)
  {
    if HeaderAt(t).Some? {
      var l := HeaderAt(t).value;
      assert t[0] == (LabelText(l) + ":")[0];
      assert LabelText(l) <= t by {
        assert t[..|LabelText(l)|] == (LabelText(l) + ":")[..|LabelText(l)|];
      }
    }
  }

  /** No header letter follows the first letter of a header. */
  lemma HeaderInitialOnlyFirst(l: Label, j: nat)
    requires 0 < j < |LabelText(l)| + 1
    ensures !IsHeaderInitial((LabelText(l) + ":")[j])
  {
  }

  /** No header starts inside another header. */
  lemma NoHeaderInsideHeader(s: string, l: Label, p: nat)
    requires LabelText(l) + ":" <= s && 0 < p < |LabelText(l)| + 1
    ensures HeaderAt(s[p..]).None?
  {
    assert s[p..][0] == (LabelText(l) + ":")[p];
    HeaderInitialOnlyFirst(l, p);
    HeaderStart(s[p..]);
  }

  /** No header starts inside the match at the start of `s`, header or body. */
  lemma NoHeaderInsideMatch(s: string, l: Label, p: nat)
    requires HeaderAt(s) == Some(l) && p < |s|
    ensures 0 < p < BodyEnd(s, |LabelText(l)| + 1) ==> HeaderAt(s[p..]).None?
  {
    var h := |LabelText(l)| + 1;
    if 0 < p < h {
      NoHeaderInsideHeader(s, l, p);
    } else if h <= p < BodyEnd(s, h) {
      assert !BodyStops(s, p);
      HeaderStart(s[p..]);
    }
  }

  /** The lookahead seen from a suffix is the lookahead of the whole text. */
  lemma {:induction false} BodyEndShift(s: string, d: nat, i: nat)
    requires d <= |s| && i <= |s| - d
    ensures BodyEnd(s[d..], i) + d == BodyEnd(s, i + d)
    decreases |s| - d - i
  {
    var t := s[d..];
    assert t[i..] == s[i + d..];
    assert BodyStops(t, i) == BodyStops(s, i + d);
    if !BodyStops(t, i) {
      BodyEndShift(s, d, i + 1);
    }
  }

  /** A match found in a suffix is the match at the same place of the whole
      text: index `p` of `s[d..]` is index `q` of `s`. */
  lemma MatchAtShift(s: string, d: nat, p: nat, q: nat)
    requires d <= |s| && q == p + d && q < |s| && HeaderAt(s[q..]).Some?
    ensures s[d..][p..] == s[q..]
    ensures MatchAt(s[d..], p) == MatchAt(s, q)
  {
    var t := s[d..];
    assert t[p..] == s[q..];
    var h := p + |LabelText(HeaderAt(t[p..]).value)| + 1;
    BodyEndShift(s, d, h);
    SliceShift(s, d, h, BodyEnd(t, h));
  }

  lemma SliceShift(s: string, d: nat, i: nat, j: nat)
    requires d <= |s| && i <= j <= |s| - d
    ensures s[d..][i..j] == s[i + d..j + d]
  {
  }

  /** Where no header starts, the scan moves on one character. */
  lemma ScanSkip(s: string)
    requires |s| > 0 && HeaderAt(s).None?
    ensures Scan(s) == Scan(s[1..])
  {
  }

  /** Where header `l` starts, the scan takes its match and goes on after it. */
  lemma ScanTake(s: string, l: Label, h: nat, e: nat) returns (ms: seq<Section>, rest: seq<Section>)
    requires HeaderAt(s) == Some(l) && h == |LabelText(l)| + 1 && h <= |s| && e == BodyEnd(s, h)
    ensures 0 < e && ms == Scan(s) && rest == Scan(s[e..]) && ms == [Section(l, s[h..e])] + rest
  {
    ms, rest := Scan(s), Scan(s[e..]);
  }

  /** `m` is the match at some header of `s`. */
  predicate IsMatchIn(s: string, m: Section) {
    exists p :: 0 <= p < |s| && HeaderAt(s[p..]).Some? && m == MatchAt(s, p)
  }

  /** A match at a header of a suffix is a match at a header of the whole text. */
  lemma MatchShift(s: string, d: nat, m: Section)
    requires d <= |s|
    ensures IsMatchIn(s[d..], m) ==> IsMatchIn(s, m)
  {
    if IsMatchIn(s[d..], m) {
      var p :| 0 <= p < |s[d..]| && HeaderAt(s[d..][p..]).Some? && m == MatchAt(s[d..], p);
      var q := p + d;
      assert s[d..][p..] == s[q..];
      MatchAtShift(s, d, p, q);
      assert HeaderAt(s[q..]).Some? && m == MatchAt(s, q);
    }
  }

  /** The first match of a text that starts with a header is a match of it. */
  lemma FirstIsMatch(s: string, l: Label, h: nat, e: nat)
    requires HeaderAt(s) == Some(l) && h == |LabelText(l)| + 1 && h <= |s| && e == BodyEnd(s, h)
    ensures IsMatchIn(s, Section(l, s[h..e]))
  {
    assert s[0..] == s;
    assert HeaderAt(s[0..]).Some? && MatchAt(s, 0) == Section(l, s[h..e]);
  }

  /** No header starts inside the first match, so a header before its end is
      the first header itself. */
  lemma FirstMatchAt(s: string, l: Label, h: nat, e: nat, p: nat)
    requires HeaderAt(s) == Some(l) && h == |LabelText(l)| + 1 && h <= |s| && e == BodyEnd(s, h)
    requires p < |s| && HeaderAt(s[p..]).Some? && p < e
    ensures MatchAt(s, p) == Section(l, s[h..e])
  {
    NoHeaderInsideMatch(s, l, p);
    assert p == 0;
    assert s[0..] == s;
  }

  /** Every section the scan finds is the match at some header of the text. */
  lemma {:induction false} ScanSound(s: string, k: nat)
    requires k < |Scan(s)|
    ensures IsMatchIn(s, Scan(s)[k])
    decreases |s|, 1
  {
    if HeaderAt(s).None? {
      ScanSoundSkip(s, k);
    } else {
      var l := HeaderAt(s).value;
      var h := |LabelText(l)| + 1;
      ScanSoundTake(s, k, l, h, BodyEnd(s, h));
    }
  }

  lemma {:induction false} ScanSoundSkip(s: string, k: nat)
    requires |s| > 0 && HeaderAt(s).None? && k < |Scan(s)|
    ensures IsMatchIn(s, Scan(s)[k])
    decreases |s|, 0
  {
    ScanSkip(s);
    ScanSound(s[1..], k);
    MatchShift(s, 1, Scan(s)[k]);
  }

  lemma {:induction false} ScanSoundTake(s: string, k: nat, l: Label, h: nat, e: nat)
    requires HeaderAt(s) == Some(l) && h == |LabelText(l)| + 1 && h <= |s| && e == BodyEnd(s, h) && k < |Scan(s)|
    ensures IsMatchIn(s, Scan(s)[k])
    decreases |s|, 0
  {
    var ms, rest := ScanTake(s, l, h, e);
    if k > 0 {
      ScanSound(s[e..], k - 1);
    }
    SoundStep(s, l, h, e, ms, rest, k);
  }

  /** The step of `ScanSound` at a header: the first section is the match
      there, and a later one is a match of the rest of the text. */
  lemma SoundStep(s: string, l: Label, h: nat, e: nat, ms: seq<Section>, rest: seq<Section>, k: nat)
    requires HeaderAt(s) == Some(l) && h == |LabelText(l)| + 1 && h <= |s| && e == BodyEnd(s, h)
    requires ms == [Section(l, s[h..e])] + rest && k < |ms|
    requires k > 0 ==> IsMatchIn(s[e..], rest[k - 1])
    ensures IsMatchIn(s, ms[k])
  {
    if k == 0 {
      FirstIsMatch(s, l, h, e);
    } else {
      ConsIndex(ms, ms[0], rest, k);
      MatchShift(s, e, ms[k]);
    }
  }

  lemma ConsIndex<T>(ms: seq<T>, x: T, rest: seq<T>, k: nat)
    requires ms == [x] + rest && 0 < k < |ms|
    ensures ms[k] == rest[k - 1]
  { }

  /** The match at every header of the text is among the sections found:
      no header starts inside another match, so none is skipped. */
  lemma {:induction false} ScanComplete(s: string, p: nat)
    requires p < |s| && HeaderAt(s[p..]).Some?
    ensures MatchAt(s, p) in Scan(s)
    decreases |s|, 1
  {
    if HeaderAt(s).None? {
      ScanCompleteSkip(s, p);
    } else {
      var l := HeaderAt(s).value;
      ScanCompleteTake(s, p, l, |LabelText(l)| + 1);
    }
  }

  lemma {:induction false} ScanCompleteSkip(s: string, p: nat)
    requires p < |s| && HeaderAt(s[p..]).Some? && HeaderAt(s).None?
    ensures MatchAt(s, p) in Scan(s)
    decreases |s|, 0
  {
    ScanSkip(s);
    assert p != 0 by { assert s[0..] == s; }
    assert s[1..][p - 1..] == s[p..];
    ScanComplete(s[1..], p - 1);
    MatchAtShift(s, 1, p - 1, p);
  }

  lemma {:induction false} ScanCompleteTake(s: string, p: nat, l: Label, h: nat)
    requires p < |s| && HeaderAt(s[p..]).Some? && HeaderAt(s) == Some(l) && h == |LabelText(l)| + 1
    ensures MatchAt(s, p) in Scan(s)
    decreases |s|, 0
  {
    var e := BodyEnd(s, h);
    var ms, rest := ScanTake(s, l, h, e);
    if p >= e {
      assert s[e..][p - e..] == s[p..];
      ScanComplete(s[e..], p - e);
      MatchAtShift(s, e, p - e, p);
    } else {
      FirstMatchAt(s, l, h, e, p);
    }
    InFirstOrRest(MatchAt(s, p), Section(l, s[h..e]), ms, rest);
  }

  lemma InFirstOrRest(x: Section, m0: Section, ms: seq<Section>, rest: seq<Section>)
    requires ms == [m0] + rest && (x == m0 || x in rest)
    ensures x in ms
  {
  }

  /** A label is among the scanned sections exactly when its header occurs. */
  lemma ScanNames(s: string, l: Label)
    ensures l in Names(Scan(s)) <==> HeaderOccurs(s, l)
  {
    if l in Names(Scan(s)) {
      var k :| 0 <= k < |Scan(s)| && Scan(s)[k].name == l;
      ScanSound(s, k);
    }
    if HeaderOccurs(s, l) {
      var p :| 0 <= p < |s| && HeaderAt(s[p..]) == Some(l);
      ScanComplete(s, p);
    }
  }

  // ---------------------------------------------------------------------------
  // post-processing

  /** `[i.strip() for i in body.split(",")]` */
  function IssueItems(body: string): (items: seq<string>)
    ensures |items| >= 1
    ensures forall k :: 0 <= k < |items| ==> StrippedBy(items[k], IsSpace) && ',' !in items[k]
    ensures |items| == |Split(body, ',')|
    ensures forall k :: 0 <= k < |items| ==> items[k] == Strip(Split(body, ',')[k])
  {
    var parts := Split(body, ',');
    seq(|parts|, k requires 0 <= k < |parts| =>
      assert forall c :: c in Strip(parts[k]) ==> c in parts[k] by { StripIsSlice(parts[k], IsSpace); }
      Strip(parts[k]))
  }

  /** The characters of `f.strip("* ")`. */
  predicate IsStarOrSpace(c: char) {
    c == '*' || c == ' '
  }

  /** What one line contributes: nothing when it is blank, otherwise the
      line without its bullet marker and surrounding whitespace. */
  function FollowUpItem(f: string): Option<string> {
    if Strip(f) == "" then None else Some(Strip(StripBy(f, IsStarOrSpace)))
  }

  /** `[f.strip("* ").strip() for f in lines if f.strip()]` */
  function FollowUpLines(lines: seq<string>): (r: seq<string>)
    ensures |r| <= |lines|
    ensures forall k :: 0 <= k < |r| ==> StrippedBy(r[k], IsSpace)
    ensures r == FilterMap(lines, FollowUpItem)
  {
    if |lines| == 0 then []
    else
      var head := ValueOf(lines[0], FollowUpItem);
      var rest := FollowUpLines(lines[1..]);
      FollowUpItemStripped(lines[0]);
      AllStrippedConcat(head, rest);
      head + rest
  }

  /** A follow-up kept from a line has no whitespace at either end. */
  lemma FollowUpItemStripped(f: string)
    ensures forall k :: 0 <= k < |ValueOf(f, FollowUpItem)| ==> StrippedBy(ValueOf(f, FollowUpItem)[k], IsSpace)
  {
    if FollowUpItem(f).Some? {
      var t := StripBy(f, IsStarOrSpace);
      assert FollowUpItem(f).value == StripBy(t, IsSpace);
    }
  }

  lemma AllStrippedConcat(a: seq<string>, b: seq<string>)
    requires forall k :: 0 <= k < |a| ==> StrippedBy(a[k], IsSpace)
    requires forall k :: 0 <= k < |b| ==> StrippedBy(b[k], IsSpace)
    ensures forall k :: 0 <= k < |a + b| ==> StrippedBy((a + b)[k], IsSpace)
  {
    forall k | 0 <= k < |a + b| ensures StrippedBy((a + b)[k], IsSpace) {
      if k >= |a| {
        assert (a + b)[k] == b[k - |a|];
      }
    }
  }

  /** What `parse_result` returns: the four possible keys, each present or not. */
  datatype Parsed = Parsed(
    summary: Option<string>, score: Option<string>,
    issues: Option<seq<string>>, followUps: Option<seq<string>>)

  function Lookup(m: map<Label, string>, l: Label): Option<string> {
    if l in m then Some(m[l]) else None
  }

  /** `parse_result(content)`. Total: it never raises on text. A key is
      present exactly when its header occurs in the text, and its value comes
      from the body of one match of that header. */
  function ParseResult(content: string): (r: Parsed)
    ensures r.summary.Some? <==> HeaderOccurs(content, Summary)
    ensures r.score.Some? <==> HeaderOccurs(content, Score)
    ensures r.issues.Some? <==> HeaderOccurs(content, Issues)
    ensures r.followUps.Some? <==> HeaderOccurs(content, FollowUps)
    ensures r.summary.Some? ==> LabelFree(r.summary.value) && StrippedBy(r.summary.value, IsSpace)
    ensures r.score.Some? ==> LabelFree(r.score.value) && StrippedBy(r.score.value, IsSpace)
  {
    var m := Collect(Scan(content));
    assert forall l :: l in m ==> LabelFree(m[l]) && StrippedBy(m[l], IsSpace) by {
      forall l | l in m ensures LabelFree(m[l]) && StrippedBy(m[l], IsSpace) {
        CollectedBodies(Scan(content), l);
      }
    }
    assert forall l :: l in m <==> HeaderOccurs(content, l) by {
      forall l: Label ensures l in m <==> HeaderOccurs(content, l) {
        ScanNames(content, l);
      }
    }
    Assemble(m)
  }

  /** `v` is the stripped body of a match of header `l` in `content`. */
  predicate CollectedMatch(content: string, l: Label, v: string) {
    exists p :: 0 <= p < |content| && HeaderAt(content[p..]) == Some(l) && v == Strip(MatchAt(content, p).body)
  }

  /** Each value `parse_result` returns comes from the body of a match of its
      header: summary and score are the stripped body, the issues are split
      from it at commas and the follow-ups at line breaks. */
  lemma ParseResultBodies(content: string)
    ensures var r := ParseResult(content);
      && (r.summary.Some? ==>
            exists p :: 0 <= p < |content| && HeaderAt(content[p..]) == Some(Summary)
              && r.summary.value == Strip(MatchAt(content, p).body))
      && (r.score.Some? ==>
            exists p :: 0 <= p < |content| && HeaderAt(content[p..]) == Some(Score)
              && r.score.value == Strip(MatchAt(content, p).body))
      && (r.issues.Some? ==>
            exists p :: 0 <= p < |content| && HeaderAt(content[p..]) == Some(Issues)
              && r.issues.value == IssueItems(Strip(MatchAt(content, p).body)))
      && (r.followUps.Some? ==>
            exists p :: 0 <= p < |content| && HeaderAt(content[p..]) == Some(FollowUps)
              && r.followUps.value == FollowUpLines(Split(Strip(MatchAt(content, p).body), '\n')))
  {
    var m := Collect(Scan(content));
    assert ParseResult(content) == Assemble(m);
    forall l | l in m ensures CollectedMatch(content, l, m[l]) {
      CollectedFromMatch(content, l);
    }
  }

  /** The value collected under a label is the stripped body of a match of
      its header in the text. */
  lemma CollectedFromMatch(content: string, l: Label)
    requires l in Collect(Scan(content))
    ensures CollectedMatch(content, l, Collect(Scan(content))[l])
  {
    var ms := Scan(content);
    CollectFrom(ms, l);
    var k :| 0 <= k < |ms| && ms[k].name == l && Collect(ms)[l] == Strip(ms[k].body);
    ScanSound(content, k);
    var p :| 0 <= p < |content| && HeaderAt(content[p..]).Some? && ms[k] == MatchAt(content, p);
    assert HeaderAt(content[p..]) == Some(l);
  }

  /** Header `l` starts at index `p` of `s`, and at no later index. */
  predicate LastHeader(s: string, p: nat, l: Label) {
    p < |s| && HeaderAt(s[p..]) == Some(l) && forall q :: p < q < |s| ==> HeaderAt(s[q..]) != Some(l)
  }

  /** The scan of a text is the sections before a header followed by the
      scan from that header on: a match never straddles a header. */
  lemma {:induction false} ScanSuffix(s: string, q: nat) returns (a: seq<Section>)
    requires q < |s| && HeaderAt(s[q..]).Some?
    ensures Scan(s) == a + Scan(s[q..])
    decreases |s|, 1
  {
    if HeaderAt(s).None? {
      a := ScanSuffixSkip(s, q);
    } else {
      var l0 := HeaderAt(s).value;
      var h := |LabelText(l0)| + 1;
      a := ScanSuffixTake(s, q, l0, h, BodyEnd(s, h));
    }
  }

  lemma {:induction false} ScanSuffixSkip(s: string, q: nat) returns (a: seq<Section>)
    requires q < |s| && HeaderAt(s[q..]).Some? && HeaderAt(s).None?
    ensures Scan(s) == a + Scan(s[q..])
    decreases |s|, 0
  {
    ScanSkip(s);
    assert q != 0 by { assert s[0..] == s; }
    assert s[1..][q - 1..] == s[q..];
    a := ScanSuffix(s[1..], q - 1);
  }

  lemma {:induction false} ScanSuffixTake(s: string, q: nat, l0: Label, h: nat, e: nat) returns (a: seq<Section>)
    requires q < |s| && HeaderAt(s[q..]).Some?
    requires HeaderAt(s) == Some(l0) && h == |LabelText(l0)| + 1 && h <= |s| && e == BodyEnd(s, h)
    ensures Scan(s) == a + Scan(s[q..])
    decreases |s|, 0
  {
    var ms, rest := ScanTake(s, l0, h, e);
    if q >= e {
      DropShift(s, e, q);
      var a' := ScanSuffix(s[e..], q - e);
      a := [Section(l0, s[h..e])] + a';
      ConsAppend(Section(l0, s[h..e]), rest, a', Scan(s[q..]));
    } else {
      NoHeaderInsideMatch(s, l0, q);
      assert s[0..] == s;
      a := [];
    }
  }

  lemma DropShift(s: string, d: nat, q: nat)
    requires d <= q <= |s|
    ensures s[d..][q - d..] == s[q..]
  {
  }

  lemma ConsAppend(x: Section, rest: seq<Section>, a: seq<Section>, tail: seq<Section>)
    requires rest == a + tail
    ensures [x] + rest == ([x] + a) + tail
  {
  }

  /** After the last header of `l`, the rest of the text holds none. */
  lemma NoLaterHeader(s: string, p: nat, t: string, e: nat, u: string, l: Label)
    requires LastHeader(s, p, l) && t == s[p..] && 0 < e <= |t| && u == t[e..]
    ensures !HeaderOccurs(u, l)
  {
    forall q | 0 <= q < |u| ensures HeaderAt(u[q..]) != Some(l) {
      assert u[q..] == s[p + e + q..];
    }
  }

  /** Among sections `a`, then `m`, then sections without label `l`, the
      value kept under `l` is the stripped body of `m`. */
  lemma CollectMiddle(a: seq<Section>, m: Section, rest: seq<Section>, l: Label)
    requires m.name == l && l !in Names(rest)
    ensures Lookup(Collect(a + ([m] + rest)), l) == Some(Strip(m.body))
  {
    var ms := a + ([m] + rest);
    forall k' | |a| < k' < |ms| ensures ms[k'].name != ms[|a|].name {
      assert ms[k'] == rest[k' - |a| - 1];
    }
    CollectLast(ms, |a|);
  }

  /** A later match of a label overwrites an earlier one in the text: the
      value kept is the stripped body of the match at its last header. */
  lemma CollectLastMatch(content: string, p: nat, l: Label)
    requires LastHeader(content, p, l)
    ensures Lookup(Collect(Scan(content)), l) == Some(Strip(MatchAt(content, p).body))
  {
    var a := ScanSuffix(content, p);
    var h := |LabelText(l)| + 1;
    var t := content[p..];
    var e := BodyEnd(t, h);
    CollectFromLast(content, p, l, t, t[e..], a, h, e);
  }

  lemma CollectFromLast(content: string, p: nat, l: Label, t: string, u: string, a: seq<Section>, h: nat, e: nat)
    requires LastHeader(content, p, l) && t == content[p..] && Scan(content) == a + Scan(t)
    requires h == |LabelText(l)| + 1 && h <= |t| && e == BodyEnd(t, h) && u == t[e..]
    ensures Lookup(Collect(Scan(content)), l) == Some(Strip(MatchAt(content, p).body))
  {
    var ms, rest := ScanTake(t, l, h, e);
    LastMatchFromSuffix(content, p, l, t, h, e);
    NoLaterHeader(content, p, t, e, u, l);
    ScanNames(u, l);
    CollectMiddle(a, Section(l, t[h..e]), rest, l);
  }

  /** The match at `p` is the first match of the text from `p` on. */
  lemma LastMatchFromSuffix(content: string, p: nat, l: Label, t: string, h: nat, e: nat)
    requires p < |content| && HeaderAt(content[p..]) == Some(l) && t == content[p..]
    requires h == |LabelText(l)| + 1 && h <= |t| && e == BodyEnd(t, h)
    ensures MatchAt(content, p) == Section(l, t[h..e])
  {
    MatchAtShift(content, p, 0, p);
    assert t[0..] == t;
  }

  /** Each field `parse_result` returns comes from the last match of its
      header. */
  lemma ParseResultLast(content: string, p: nat, l: Label)
    requires LastHeader(content, p, l)
    ensures var r := ParseResult(content);
      var v := Strip(MatchAt(content, p).body);
      && (l == Summary ==> r.summary == Some(v))
      && (l == Score ==> r.score == Some(v))
      && (l == Issues ==> r.issues == Some(IssueItems(v)))
      && (l == FollowUps ==> r.followUps == Some(FollowUpLines(Split(v, '\n'))))
  {
    CollectLastMatch(content, p, l);
    assert ParseResult(content) == Assemble(Collect(Scan(content)));
  }

  /** The result dict built from the collected bodies, with the issue and
      follow-up lists split out. */
  function Assemble(m: map<Label, string>): Parsed {
    Parsed(
      Lookup(m, Summary),
      Lookup(m, Score),
      if Issues in m then Some(IssueItems(m[Issues])) else None,
      if FollowUps in m then Some(FollowUpLines(Split(m[FollowUps], '\n'))) else None)
  }

  /** A stripped text is a slice of the original. */
  lemma StripIsSlice(s: string, drop: char -> bool)
    ensures forall c :: c in StripBy(s, drop) ==> c in s
  {
    var t := s[LeadingCount(s, drop)..];
    assert forall c :: c in t ==> c in s;
    assert forall c :: c in t[..|t| - TrailingCount(t, drop)] ==> c in t;
  }

  /** Removing characters from both ends keeps a text label-free. */
  lemma LabelFreeSlice(s: string, i: nat, j: nat)
    requires LabelFree(s) && i <= j <= |s|
    ensures LabelFree(s[i..j])
  {
    forall k | 0 <= k < j - i ensures !StartsWithLabel(s[i..j][k..]) {
      StartsWithLabelExtends(s[i..j][k..], s[j..]);
      assert s[i..j][k..] + s[j..] == s[i + k..];
    }
  }

  /** Stripping a label-free text leaves it label-free. */
  lemma StripLabelFree(b: string)
    requires LabelFree(b)
    ensures LabelFree(Strip(b))
  {
    var n := LeadingCount(b, IsSpace);
    var t := b[n..];
    LabelFreeSlice(b, n, |b|);
    assert b[n..|b|] == t;
    LabelFreeSlice(t, 0, |t| - TrailingCount(t, IsSpace));
    assert t[0..|t| - TrailingCount(t, IsSpace)] == Strip(b);
  }

  /** What `Collect` stores is a stripped, label-free body. */
  lemma {:induction false} CollectedBodies(ms: seq<Section>, l: Label)
    requires forall k :: 0 <= k < |ms| ==> LabelFree(ms[k].body)
    requires l in Collect(ms)
    ensures LabelFree(Collect(ms)[l]) && StrippedBy(Collect(ms)[l], IsSpace)
  {
    var init := ms[..|ms| - 1];
    var last := ms[|ms| - 1];
    if last.name == l {
      StripLabelFree(last.body);
    } else {
      assert forall k :: 0 <= k < |init| ==> init[k] == ms[k];
      CollectedBodies(init, l);
    }
  }

  // ---------------------------------------------------------------------------
  // the reply format the prompt asks for

  /** A completion in the requested shape. */
  datatype Reply = Reply(summary: string, score: string, issues: seq<string>, followUps: seq<string>)

  function Bullets(fs: seq<string>): (bs: seq<string>)
    ensures |bs| == |fs|
    ensures forall k :: 0 <= k < |fs| ==> bs[k] == "* " + fs[k]
  {
    seq(|fs|, k requires 0 <= k < |fs| => "* " + fs[k])
  }

  /** One section "<Label>: <x>" and its line break. */
  function Middle(l: Label, x: string): string {
    LabelText(l) + ":" + (" " + x + "\n")
  }

  /** The closing section "<Label>: <x>", with nothing after it. */
  function Last(l: Label, x: string): string {
    LabelText(l) + ":" + (" " + x)
  }

  /** The text "Summary: <text>\nScore: <n>\nIssues: <a,b>\nFollow-Ups: * <q1>\n* <q2>". */
  function Render(r: Reply): string {
    Middle(Summary, r.summary)
      + (Middle(Score, r.score)
      + (Middle(Issues, Join(r.issues, ","))
      + Last(FollowUps, Join(Bullets(r.followUps), "\n"))))
  }

  /** A part that comes back unchanged: no label word, nothing for `strip`. */
  predicate FieldFits(x: string) {
    LabelFree(x) && StrippedBy(x, IsSpace)
  }

  /** An issue also holds no comma. */
  predicate IssueFits(x: string) {
    FieldFits(x) && ',' !in x
  }

  /** A follow-up is one non-empty line without a bullet of its own. */
  predicate FollowUpFits(f: string) {
    |f| > 0 && FieldFits(f) && '\n' !in f && StrippedBy(f, IsStarOrSpace)
  }

  /** Replies whose every part survives the trip through text. */
  predicate RoundTrips(r: Reply) {
    && FieldFits(r.summary) && FieldFits(r.score)
    && |r.issues| >= 1
    && (forall k :: 0 <= k < |r.issues| ==> IssueFits(r.issues[k]))
    && (forall k :: 0 <= k < |r.followUps| ==> FollowUpFits(r.followUps[k]))
  }

  /** The four raw bodies of a rendered reply. */
  function RenderedSections(r: Reply): seq<Section> {
    [Section(Summary, " " + r.summary + "\n"),
     Section(Score, " " + r.score + "\n"),
     Section(Issues, " " + Join(r.issues, ",") + "\n"),
     Section(FollowUps, " " + Join(Bullets(r.followUps), "\n"))]
  }

  lemma StartsWithOwnLabel(l: Label, t: string)
    requires LabelText(l) <= t
    ensures StartsWithLabel(t)
  {
    match l
    case Summary =>
    case Score =>
    case Issues =>
    case FollowUps =>
  }

  /** A section starts with its label word. */
  lemma SectionStartsWithLabel(l: Label, body: string, rest: string)
    ensures StartsWithLabel(LabelText(l) + ":" + body + rest)
  {
    var t := LabelText(l) + ":" + body + rest;
    assert t[..|LabelText(l)|] == LabelText(l);
    StartsWithOwnLabel(l, t);
  }

  /** A middle section followed by the next header is one match. */
  lemma ScanMiddle(l: Label, x: string, rest: string)
    requires LabelFree(x) && StartsWithLabel(rest)
    ensures Scan(Middle(l, x) + rest) == [Section(l, " " + x + "\n")] + Scan(rest)
    ensures StartsWithLabel(Middle(l, x) + rest)
  {
    BodyBeforeLabel(x, rest);
    ScanSection(l, " " + x + "\n", rest);
    SectionStartsWithLabel(l, " " + x + "\n", rest);
  }

  /** The follow-up section closes the text and is the last match. */
  lemma ScanLast(fs: seq<string>)
    requires forall k :: 0 <= k < |fs| ==> FollowUpFits(fs[k])
    ensures Scan(Last(FollowUps, Join(Bullets(fs), "\n"))) == [Section(FollowUps, " " + Join(Bullets(fs), "\n"))]
    ensures StartsWithLabel(Last(FollowUps, Join(Bullets(fs), "\n")))
  {
    var bulletText := Join(Bullets(fs), "\n");
    BulletsLabelFree(fs);
    SeparatorsNotLabelChars();
    JoinLabelFree(Bullets(fs), '\n');
    assert bulletText == Join(Bullets(fs), ['\n']);
    LastBody(bulletText, fs);
    ScanSection(FollowUps, " " + bulletText, []);
    assert LabelText(FollowUps) + ":" + (" " + bulletText) + [] == Last(FollowUps, bulletText);
    assert Scan([]) == [];
    SectionStartsWithLabel(FollowUps, " " + bulletText, []);
  }

  /** The scanner finds the four sections of a rendered reply, in order. */
  lemma ScanRender(r: Reply)
    requires RoundTrips(r)
    ensures Scan(Render(r)) == RenderedSections(r)
  {
    var t3 := Middle(Issues, Join(r.issues, ",")) + Last(FollowUps, Join(Bullets(r.followUps), "\n"));
    var t2 := Middle(Score, r.score) + t3;
    var ms := RenderedSections(r);
    IssuesLabelFree(r.issues);
    ScanLastTwo(Join(r.issues, ","), r.followUps);
    assert Scan(t3) == ms[2..];
    ScanMiddle(Score, r.score, t3);
    assert Scan(t2) == ms[1..];
    ScanMiddle(Summary, r.summary, t2);
    assert Render(r) == Middle(Summary, r.summary) + t2;
  }

  /** The joined issues hold no label word. */
  lemma IssuesLabelFree(issues: seq<string>)
    requires forall k :: 0 <= k < |issues| ==> IssueFits(issues[k])
    ensures LabelFree(Join(issues, ","))
  {
    assert Join(issues, ",") == Join(issues, [',']);
    SeparatorsNotLabelChars();
    JoinLabelFree(issues, ',');
  }

  /** The issues and follow-up sections of a rendered reply scan back. */
  lemma ScanLastTwo(issuesText: string, fs: seq<string>)
    requires LabelFree(issuesText)
    requires forall k :: 0 <= k < |fs| ==> FollowUpFits(fs[k])
    ensures var t3 := Middle(Issues, issuesText) + Last(FollowUps, Join(Bullets(fs), "\n"));
      && Scan(t3) == [Section(Issues, " " + issuesText + "\n"), Section(FollowUps, " " + Join(Bullets(fs), "\n"))]
      && StartsWithLabel(t3)
  {
    ScanLast(fs);
    ScanMiddle(Issues, issuesText, Last(FollowUps, Join(Bullets(fs), "\n")));
  }

  /** Stripping a middle body gives back its text. */
  lemma StripMiddle(x: string)
    requires StrippedBy(x, IsSpace)
    ensures Strip(" " + x + "\n") == x
  {
    StripPadded(" ", x, "\n", IsSpace);
  }

  /** The four labels in the order a reply gives them. */
  predicate InReplyOrder(ms: seq<Section>) {
    |ms| == 4 && ms[0].name == Summary && ms[1].name == Score && ms[2].name == Issues && ms[3].name == FollowUps
  }

  /** Collecting four sections with distinct labels keeps each stripped body
      under its label. */
  lemma CollectInOrder(ms: seq<Section>, k: nat)
    requires InReplyOrder(ms) && k < 4
    ensures Lookup(Collect(ms), ms[k].name) == Some(Strip(ms[k].body))
  {
    assert forall k' :: k < k' < |ms| ==> ms[k'].name != ms[k].name;
    CollectLast(ms, k);
  }

  /** What `Collect` keeps from a rendered reply: the text of each part. */
  lemma CollectRender(r: Reply)
    requires RoundTrips(r)
    ensures Lookup(Collect(RenderedSections(r)), Summary) == Some(r.summary)
    ensures Lookup(Collect(RenderedSections(r)), Score) == Some(r.score)
    ensures Lookup(Collect(RenderedSections(r)), Issues) == Some(Join(r.issues, ","))
    ensures Lookup(Collect(RenderedSections(r)), FollowUps) == Some(Strip(" " + Join(Bullets(r.followUps), "\n")))
  {
    var ms := RenderedSections(r);
    CollectInOrder(ms, 0);
    CollectInOrder(ms, 1);
    CollectInOrder(ms, 2);
    CollectInOrder(ms, 3);
    StripMiddle(r.summary);
    StripMiddle(r.score);
    assert Join(r.issues, ",") == Join(r.issues, [',']);
    JoinStrippedBy(r.issues, ',', IsSpace);
    StripMiddle(Join(r.issues, ","));
  }

  /** Parsing a reply in the requested shape gives back every part of it. */
  lemma ParseRender(r: Reply)
    requires RoundTrips(r)
    ensures ParseResult(Render(r)) == Parsed(Some(r.summary), Some(r.score), Some(r.issues), Some(r.followUps))
  {
    ScanRender(r);
    CollectRender(r);
    IssuesRoundTrip(r.issues);
    FollowUpsRoundTrip(r.followUps, " " + Join(Bullets(r.followUps), "\n"));
    assert ParseResult(Render(r)) == Assemble(Collect(RenderedSections(r)));
  }

  /** The issues text splits back into the issues. */
  lemma IssuesRoundTrip(issues: seq<string>)
    requires |issues| >= 1
    requires forall k :: 0 <= k < |issues| ==> IssueFits(issues[k])
    ensures IssueItems(Join(issues, ",")) == issues
  {
    assert Join(issues, ",") == Join(issues, [',']);
    SplitJoin(issues, ',');
    forall k | 0 <= k < |issues| ensures Strip(issues[k]) == issues[k] {
      StripPadded("", issues[k], "", IsSpace);
      assert "" + issues[k] + "" == issues[k];
    }
  }

  /** The follow-up body strips, splits and cleans back into the follow-ups. */
  lemma FollowUpsRoundTrip(fs: seq<string>, b4: string)
    requires b4 == " " + Join(Bullets(fs), "\n")
    requires forall k :: 0 <= k < |fs| ==> FollowUpFits(fs[k])
    ensures FollowUpLines(Split(Strip(b4), '\n')) == fs
  {
    if |fs| == 0 {
      NoFollowUps(b4);
    } else {
      var bs := Bullets(fs);
      StripBullets(fs, b4);
      forall k | 0 <= k < |bs| ensures '\n' !in bs[k] {
        assert bs[k] == ['*', ' '] + fs[k];
      }
      SplitJoin(bs, '\n');
      BulletLines(fs);
    }
  }

  /** An empty follow-up section gives an empty list. */
  lemma NoFollowUps(b4: string)
    requires b4 == " " + Join([], "\n")
    ensures FollowUpLines(Split(Strip(b4), '\n')) == []
  {
    assert b4 == " " + "" + "";
    StripPadded(" ", "", "", IsSpace);
    assert Split("", '\n') == [""];
    assert FollowUpLines([""]) == [] + FollowUpLines([]);
  }

  /** Stripping the follow-up body removes only the space after the colon. */
  lemma StripBullets(fs: seq<string>, b4: string)
    requires |fs| > 0 && b4 == " " + Join(Bullets(fs), "\n")
    requires forall k :: 0 <= k < |fs| ==> |fs[k]| > 0 && StrippedBy(fs[k], IsSpace)
    ensures Strip(b4) == Join(Bullets(fs), ['\n'])
  {
    var bs := Bullets(fs);
    assert Join(bs, "\n") == Join(bs, ['\n']);
    JoinFirstChar(bs, '\n');
    JoinLastChar(bs, '\n');
    var last := bs[|bs| - 1];
    assert last[|last| - 1] == fs[|fs| - 1][|fs[|fs| - 1]| - 1];
    assert StrippedBy(Join(bs, "\n"), IsSpace);
    StripPadded(" ", Join(bs, "\n"), "", IsSpace);
    assert " " + Join(bs, "\n") + "" == b4;
  }

  /** One bullet line is kept and cleans back to its follow-up. */
  lemma BulletLine(f: string)
    requires StrippedBy(f, IsSpace) && StrippedBy(f, IsStarOrSpace)
    ensures Strip("* " + f) != ""
    ensures Strip(StripBy("* " + f, IsStarOrSpace)) == f
  {
    BulletNotBlank(f);
    BulletMarkerDropped(f);
    StripPadded("", f, "", IsSpace);
    assert "" + f + "" == f;
  }

  /** A bullet line is never blank: it starts with its star. */
  lemma BulletNotBlank(f: string)
    ensures Strip("* " + f) != ""
  {
    var line := "* " + f;
    assert line[0] == '*';
  }

  /** Stripping stars and spaces removes exactly the bullet marker. */
  lemma BulletMarkerDropped(f: string)
    requires StrippedBy(f, IsStarOrSpace)
    ensures StripBy("* " + f, IsStarOrSpace) == f
  {
    StripPadded("* ", f, "", IsStarOrSpace);
    assert "* " + f + "" == "* " + f;
  }

  /** Each bullet line cleans back to its follow-up. */
  lemma {:induction false} BulletLines(fs: seq<string>)
    requires forall k :: 0 <= k < |fs| ==> StrippedBy(fs[k], IsSpace) && StrippedBy(fs[k], IsStarOrSpace)
    ensures FollowUpLines(Bullets(fs)) == fs
  {
    if |fs| > 0 {
      var bs := Bullets(fs);
      BulletLine(fs[0]);
      BulletsTail(fs);
      BulletLines(fs[1..]);
      FollowUpLinesHead(bs);
      assert [fs[0]] + fs[1..] == fs;
    }
  }

  lemma BulletsTail(fs: seq<string>)
    requires |fs| > 0
    ensures Bullets(fs)[0] == "* " + fs[0] && Bullets(fs)[1..] == Bullets(fs[1..])
  {
  }

  /** Cleaning looks at the first line, then at the rest. */
  lemma FollowUpLinesHead(lines: seq<string>)
    requires |lines| > 0
    ensures FollowUpLines(lines) ==
      (if Strip(lines[0]) == "" then [] else [Strip(StripBy(lines[0], IsStarOrSpace))]) + FollowUpLines(lines[1..])
  {
  }

  // ---------------------------------------------------------------------------
  // scanning lemmas

  /** Every character of a label word, and nothing else, can continue one. */
  predicate LabelChar(c: char) {
    c in LabelText(Summary) || c in LabelText(Score) || c in LabelText(Issues) || c in LabelText(FollowUps)
  }

  /** No label word holds a comma or a line break, the two separators. */
  lemma SeparatorsNotLabelChars()
    ensures !LabelChar(',') && !LabelChar('\n')
  {
    assert forall i :: 0 <= i < |LabelText(Summary)| ==> LabelText(Summary)[i] !in ",\n";
    assert forall i :: 0 <= i < |LabelText(Score)| ==> LabelText(Score)[i] !in ",\n";
    assert forall i :: 0 <= i < |LabelText(Issues)| ==> LabelText(Issues)[i] !in ",\n";
    assert forall i :: 0 <= i < |LabelText(FollowUps)| ==> LabelText(FollowUps)[i] !in ",\n";
  }

  /** A label word that runs past the end of `x` uses the character after `x`. */
  lemma PrefixAcross(p: string, x: string, c: char, y: string)
    requires p <= x + [c] + y && |p| > |x|
    ensures p[|x|] == c
  {
    assert (x + [c] + y)[|x|] == c;
  }

  /** No label word starts inside `x` or at the separator after it. */
  lemma SeparatedNoLabel(x: string, c: char, y: string)
    requires LabelFree(x) && !LabelChar(c)
    ensures forall j :: 0 <= j <= |x| ==> !StartsWithLabel((x + [c] + y)[j..])
  {
    forall j | 0 <= j <= |x| ensures !StartsWithLabel((x + [c] + y)[j..]) {
      var t := (x + [c] + y)[j..];
      assert t == x[j..] + [c] + y;
      forall l: Label ensures !(LabelText(l) <= t) {
        var p := LabelText(l);
        if p <= t {
          if |p| <= |x[j..]| {
            assert p <= x[j..];
            assert j < |x|;
            assert StartsWithLabel(x[j..]);
          } else {
            PrefixAcross(p, x[j..], c, y);
          }
        }
      }
    }
  }

  /** Label-free texts joined by a separator that no label uses stay label-free. */
  lemma LabelFreeSep(x: string, c: char, y: string)
    requires LabelFree(x) && LabelFree(y) && !LabelChar(c)
    ensures LabelFree(x + [c] + y)
  {
    SeparatedNoLabel(x, c, y);
    var s := x + [c] + y;
    forall j | |x| < j < |s| ensures !StartsWithLabel(s[j..]) {
      assert s[j..] == y[j - |x| - 1..];
    }
  }

  lemma {:induction false} JoinLabelFree(parts: seq<string>, sep: char)
    requires !LabelChar(sep)
    requires forall k :: 0 <= k < |parts| ==> LabelFree(parts[k])
    ensures LabelFree(Join(parts, [sep]))
  {
    if |parts| > 1 {
      JoinLabelFree(parts[1..], sep);
      LabelFreeSep(parts[0], sep, Join(parts[1..], [sep]));
    }
  }

  lemma BulletsLabelFree(fs: seq<string>)
    requires forall k :: 0 <= k < |fs| ==> LabelFree(fs[k])
    ensures forall k :: 0 <= k < |fs| ==> LabelFree(Bullets(fs)[k])
  {
    forall k | 0 <= k < |fs| ensures LabelFree(Bullets(fs)[k]) {
      LabelFreeSep([], ' ', fs[k]);
      assert [] + [' '] + fs[k] == [' '] + fs[k];
      LabelFreeSep([], '*', [' '] + fs[k]);
      assert [] + ['*'] + ([' '] + fs[k]) == "* " + fs[k] == Bullets(fs)[k];
    }
  }

  /** The body of a middle section holds no label word up to the next header. */
  lemma BodyBeforeLabel(x: string, rest: string)
    requires LabelFree(x)
    ensures forall j :: 0 <= j < |" " + x + "\n"| ==> !StartsWithLabel((" " + x + "\n" + rest)[j..])
  {
    SeparatedNoLabel(x, '\n', rest);
    var s := " " + x + "\n" + rest;
    forall j | 0 <= j < |" " + x + "\n"| ensures !StartsWithLabel(s[j..]) {
      if j == 0 {
        assert s[0] == ' ';
      } else {
        assert s[j..] == (x + ['\n'] + rest)[j - 1..];
      }
    }
  }

  /** The last body holds no label word and does not end in a newline. */
  lemma LastBody(bulletText: string, fs: seq<string>)
    requires bulletText == Join(Bullets(fs), "\n") && LabelFree(Join(Bullets(fs), ['\n']))
    requires forall k :: 0 <= k < |fs| ==> |fs[k]| > 0 && '\n' !in fs[k]
    ensures forall j :: 0 <= j < |" " + bulletText| ==> !StartsWithLabel((" " + bulletText + [])[j..])
    ensures |" " + bulletText| == 0 || (" " + bulletText)[|" " + bulletText| - 1] != '\n'
  {
    assert Join(Bullets(fs), "\n") == Join(Bullets(fs), ['\n']);
    LabelFreeSep([], ' ', bulletText);
    assert [] + [' '] + bulletText == " " + bulletText + [];
    if |fs| > 0 {
      JoinLastChar(Bullets(fs), '\n');
      var last := Bullets(fs)[|fs| - 1];
      assert last[|last| - 1] == fs[|fs| - 1][|fs[|fs| - 1]| - 1];
      assert last[|last| - 1] in fs[|fs| - 1];
    }
  }

  /** A join of non-empty parts ends with the last character of its last part. */
  lemma {:induction false} JoinLastChar(parts: seq<string>, sep: char)
    requires |parts| > 0 && |parts[|parts| - 1]| > 0
    ensures |Join(parts, [sep])| > 0
    ensures Join(parts, [sep])[|Join(parts, [sep])| - 1] == parts[|parts| - 1][|parts[|parts| - 1]| - 1]
  {
    if |parts| > 1 {
      JoinLastChar(parts[1..], sep);
    }
  }

  /** A join starts with the first character of its first part. */
  lemma JoinFirstChar(parts: seq<string>, sep: char)
    requires |parts| > 0 && |parts[0]| > 0
    ensures |Join(parts, [sep])| > 0 && Join(parts, [sep])[0] == parts[0][0]
  {
  }

  lemma HeaderOfLabel(l: Label, rest: string)
    ensures HeaderAt(LabelText(l) + ":" + rest) == Some(l)
  {
    var s := LabelText(l) + ":" + rest;
    assert s[..|LabelText(l)| + 1] == LabelText(l) + ":";
    match l
    case Summary =>
    case Score => assert s[1] == 'c';
    case Issues => assert s[0] == 'I';
    case FollowUps => assert s[0] == 'F';
  }

  /** The lazy body from `i` ends at `e` when the lookahead first holds there. */
  lemma {:induction false} BodyEndAt(s: string, i: nat, e: nat)
    requires i <= e <= |s| && BodyStops(s, e)
    requires forall j :: i <= j < e ==> !BodyStops(s, j)
    ensures BodyEnd(s, i) == e
    decreases e - i
  {
    if i < e {
      BodyEndAt(s, i + 1, e);
    }
  }

  /** A header, a label-free body, then the next header or the end: one match. */
  lemma ScanSection(l: Label, b: string, rest: string)
    requires forall j :: 0 <= j < |b| ==> !StartsWithLabel((b + rest)[j..])
    requires rest == [] || StartsWithLabel(rest)
    requires rest == [] ==> |b| == 0 || b[|b| - 1] != '\n'
    ensures Scan(LabelText(l) + ":" + b + rest) == [Section(l, b)] + Scan(rest)
  {
    var s := LabelText(l) + ":" + b + rest;
    var h := |LabelText(l)| + 1;
    HeaderOfLabel(l, b + rest);
    assert LabelText(l) + ":" + (b + rest) == s;
    forall j | h <= j < h + |b| ensures !BodyStops(s, j) {
      assert s[j..] == (b + rest)[j - h..];
      assert s[j] == b[j - h];
    }
    assert s[h + |b|..] == rest;
    BodyEndAt(s, h, h + |b|);
    assert s[h..h + |b|] == b;
    assert Scan(s) == [Section(l, s[h..h + |b|])] + Scan(s[h + |b|..]);
  }

  lemma HeaderHasColon(l: Label, s: string)
    ensures LabelText(l) + ":" <= s ==> ':' in s
  {
    if LabelText(l) + ":" <= s {
      assert s[|LabelText(l)|] == ':';
    }
  }

  /** Every header holds a colon, so text without one has no matches. */
  lemma {:induction false} NoColonNoMatch(s: string)
    requires ':' !in s
    ensures Scan(s) == []
    decreases |s|
  {
    if |s| > 0 {
      forall l: Label ensures !(LabelText(l) + ":" <= s) {
        HeaderHasColon(l, s);
      }
      NoColonNoMatch(s[1..]);
    }
  }

  /** Text with no header gives an empty result, never an error. */
  lemma GarbageExample()
    ensures ParseResult("garbage") == Parsed(None, None, None, None)
  {
    NoColonNoMatch("garbage");
  }

  /** A repeated label keeps its later body. */
  lemma DuplicateLabelExample()
    ensures ParseResult("Summary: a\nSummary: b").summary == Some("b")
  {
    var content := "Summary: a\nSummary: b";
    assert content[11..] == "Summary: b";
    forall q | 11 < q < |content| ensures HeaderAt(content[q..]) != Some(Summary) {
      assert content[q..][0] == content[q];
    }
    assert BodyEnd(content, 19) == 21;
    assert content[19..21] == " " + "b" + "";
    StripPadded(" ", "b", "", IsSpace);
    ParseResultLast(content, 11, Summary);
  }

  function ExampleReply(): Reply {
    Reply("ok", "7", ["None"], ["a", "b"])
  }

  lemma ExampleBullets()
    ensures Join(Bullets(["a", "b"]), "\n") == "* a\n* b"
  {
    var bs := Bullets(["a", "b"]);
    assert bs[0] == "* " + "a" == "* a";
    assert bs[1] == "* " + "b" == "* b";
    assert bs == ["* a", "* b"];
    assert Join(["* a", "* b"], "\n") == "* a" + "\n" + "* b";
  }

  lemma ExampleRender()
    ensures Render(ExampleReply()) == "Summary: ok\n" + ("Score: 7\n" + ("Issues: None\n" + "Follow-Ups: * a\n* b"))
  {
    var r := ExampleReply();
    ExampleBullets();
    assert Join(["None"], ",") == "None";
    assert Last(FollowUps, Join(Bullets(r.followUps), "\n")) == "Follow-Ups: * a\n* b";
    assert Middle(Issues, Join(r.issues, ",")) == "Issues: None\n";
    assert Middle(Score, r.score) == "Score: 7\n";
    assert Middle(Summary, r.summary) == "Summary: ok\n";
  }

  lemma ExampleRoundTrips()
    ensures RoundTrips(ExampleReply())
  {
    assert LabelFree("ok") && LabelFree("7") && LabelFree("None") && LabelFree("a") && LabelFree("b");
  }

  /** The example completion parses into its four parts. */
  lemma ExampleCompletion()
    ensures ParseResult("Summary: ok\n" + ("Score: 7\n" + ("Issues: None\n" + "Follow-Ups: * a\n* b")))
         == Parsed(Some("ok"), Some("7"), Some(["None"]), Some(["a", "b"]))
  {
    ExampleRender();
    ExampleRoundTrips();
    ParseRender(ExampleReply());
  }
}
