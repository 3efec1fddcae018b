/** `currencyconverter`: pull the first amount and the first three-letter
    currency code out of a rate text such as "85.5 USD" and convert the
    amount to US dollars.

    The converter is the function `fx(amount, code)`, `None` where it raises
    (an unknown code, say). Every way the function returns `False` is `None`
    here, and a zero amount is one of them.
 */
module Currency {
  import opened Wrappers
  import opened Text

  // ---------------------------------------------------------------------------
  // re.search(r"\d+(?:\.\d+)?", value)

  /** Index of the first digit at or after `i`. */
  function FirstDigitFrom(s: string, i: nat): (r: Option<nat>)
    requires i <= |s|
    ensures r.Some? ==> i <= r.value < |s| && IsDigit(s[r.value])
    ensures r.Some? ==> forall k :: i <= k < r.value ==> !IsDigit(s[k])
    ensures r.None? ==> forall k :: i <= k < |s| ==> !IsDigit(s[k])
    decreases |s| - i
  {
    if i == |s| then None
    else if IsDigit(s[i]) then Some(i)
    else FirstDigitFrom(s, i + 1)
  }

  /** End of the run of digits that starts at `i` (greedy `\d+`). */
  function DigitRunEnd(s: string, i: nat): (e: nat)
    requires i <= |s|
    ensures i <= e <= |s|
    ensures forall k :: i <= k < e ==> IsDigit(s[k])
    ensures e < |s| ==> !IsDigit(s[e])
    decreases |s| - i
  {
    if i < |s| && IsDigit(s[i]) then DigitRunEnd(s, i + 1) else i
  }

  /** A matched amount: the digits before the point and those after it
      (`fraction` is empty when there is no point). */
  datatype Numeral = Numeral(whole: string, fraction: string)

  predicate AllDigits(ds: string) {
    forall k :: 0 <= k < |ds| ==> IsDigit(ds[k])
  }

  /** `n` is what `\d+(?:\.\d+)?` matches at `i`, read off the text: the
      longest run of digits, then a point and the longest run of digits after
      it when a digit follows the point, and no fraction otherwise. */
  predicate MatchesAt(s: string, i: nat, n: Numeral) {
    var e := i + |n.whole|;
    && |n.whole| > 0 && e <= |s| && s[i..e] == n.whole && AllDigits(n.whole)
    && (e < |s| ==> !IsDigit(s[e]))
    && if |n.fraction| == 0 then !(e + 1 < |s| && s[e] == '.' && IsDigit(s[e + 1]))
       else
         var f := e + 1 + |n.fraction|;
         && f <= |s| && s[e] == '.' && s[e + 1..f] == n.fraction && AllDigits(n.fraction)
         && (f < |s| ==> !IsDigit(s[f]))
  }

  /** The greedy match of `\d+(?:\.\d+)?` at a digit: the optional part is
      taken only when a digit follows the point. */
  function NumeralAt(s: string, start: nat): (n: Numeral)
    requires start < |s| && IsDigit(s[start])
    ensures |n.whole| > 0 && AllDigits(n.whole) && AllDigits(n.fraction)
    ensures MatchesAt(s, start, n)
  {
    var e := DigitRunEnd(s, start);
    if e + 1 < |s| && s[e] == '.' && IsDigit(s[e + 1]) then
      Numeral(s[start..e], s[e + 1..DigitRunEnd(s, e + 1)])
    else
      Numeral(s[start..e], "")
  }

  /** `re.search(r"\d+(?:\.\d+)?", value)`: the match starts at the first digit. */
  function FirstNumeral(s: string): (r: Option<Numeral>)
    ensures r.None? <==> forall k :: 0 <= k < |s| ==> !IsDigit(s[k])
    ensures r.Some? ==> exists i :: 0 <= i < |s| && IsDigit(s[i]) && (forall k :: 0 <= k < i ==> !IsDigit(s[k]))
                                    && MatchesAt(s, i, r.value)
  {
    match FirstDigitFrom(s, 0)
    case None => None
    case Some(i) =>
      assert IsDigit(s[i]) && (forall k :: 0 <= k < i ==> !IsDigit(s[k])) && MatchesAt(s, i, NumeralAt(s, i));
      Some(NumeralAt(s, i))
  }

  function Pow10(n: nat): (p: nat)
    ensures p >= 1
  {
    if n == 0 then 1 else 10 * Pow10(n - 1)
  }

  /** `float(match.group())`, exactly. */
  function Value(n: Numeral): real {
    DigitsValue(n.whole) as real + DigitsValue(n.fraction) as real / Pow10(|n.fraction|) as real
  }

  /** A run of digits is worth zero exactly when every digit is `0`. */
  lemma {:induction false} DigitsValueZero(ds: string)
    requires AllDigits(ds)
    ensures DigitsValue(ds) == 0 <==> forall k :: 0 <= k < |ds| ==> ds[k] == '0'
  {
    if |ds| > 0 {
      var init := ds[..|ds| - 1];
      DigitsValueZero(init);
      assert forall k :: 0 <= k < |init| ==> init[k] == ds[k];
    }
  }

  /** An amount is falsy exactly when all its digits are `0` ("0", "00.000"). */
  lemma NumeralZero(n: Numeral)
    requires AllDigits(n.whole) && AllDigits(n.fraction)
    ensures Value(n) == 0.0 <==>
      (forall k :: 0 <= k < |n.whole| ==> n.whole[k] == '0') && (forall k :: 0 <= k < |n.fraction| ==> n.fraction[k] == '0')
  {
    DigitsValueZero(n.whole);
    DigitsValueZero(n.fraction);
    FractionZero(DigitsValue(n.fraction) as real, Pow10(|n.fraction|) as real);
  }

  /** A non-negative quotient by a positive divisor is zero only for a zero dividend. */
  lemma FractionZero(f: real, p: real)
    requires f >= 0.0 && p > 0.0
    ensures f / p >= 0.0
    ensures f / p == 0.0 <==> f == 0.0
  {
  }

  // ---------------------------------------------------------------------------
  // re.search(r"\b[A-Z]{3}\b", value)

  /** Three capitals at `k` with a word boundary on each side. */
  predicate IsCodeAt(s: string, k: nat) {
    && k + 3 <= |s|
    && IsUpper(s[k]) && IsUpper(s[k + 1]) && IsUpper(s[k + 2])
    && (k == 0 || !IsWordChar(s[k - 1]))
    && (k + 3 == |s| || !IsWordChar(s[k + 3]))
  }

  /** Index of the first currency code at or after `i`. */
  function FirstCodeFrom(s: string, i: nat): (r: Option<nat>)
    requires i <= |s|
    ensures r.Some? ==> i <= r.value && IsCodeAt(s, r.value)
    ensures r.Some? ==> forall k :: i <= k < r.value ==> !IsCodeAt(s, k)
    ensures r.None? ==> forall k :: i <= k <= |s| ==> !IsCodeAt(s, k)
    decreases |s| - i
  {
    if i == |s| then None
    else if IsCodeAt(s, i) then Some(i)
    else FirstCodeFrom(s, i + 1)
  }

  /** The first currency code of `s`. */
  function FirstCode(s: string): (r: Option<string>)
    ensures r.Some? ==> |r.value| == 3 && IsUpper(r.value[0]) && IsUpper(r.value[1]) && IsUpper(r.value[2])
    ensures r.None? <==> forall p :: 0 <= p <= |s| ==> !IsCodeAt(s, p)
    ensures r.Some? ==> exists p :: 0 <= p <= |s| && IsCodeAt(s, p) && (forall q :: 0 <= q < p ==> !IsCodeAt(s, q))
                                    && r.value == s[p..p + 3]
  {
    match FirstCodeFrom(s, 0)
    case None => None
    case Some(k) =>
      assert IsCodeAt(s, k) && forall q :: 0 <= q < k ==> !IsCodeAt(s, q);
      Some(s[k..k + 3])
  }

  // ---------------------------------------------------------------------------
  // currencyconverter

  /** `currencyconverter(value)`; `None` for each way it returns `False`. */
  function ToUsd(value: string, fx: (real, string) -> Option<real>): (r: Option<real>)
    ensures Contains(value, "Others") ==> r.None?
    ensures FirstNumeral(value).None? || FirstCode(value).None? ==> r.None?
    ensures FirstNumeral(value).Some? && Value(FirstNumeral(value).value) == 0.0 ==> r.None?
    ensures r.Some? ==> r == fx(Value(FirstNumeral(value).value), FirstCode(value).value)
    ensures !Contains(value, "Others") && FirstNumeral(value).Some? && FirstCode(value).Some?
            && Value(FirstNumeral(value).value) != 0.0 ==>
      r == fx(Value(FirstNumeral(value).value), FirstCode(value).value)
  {
    if Contains(value, "Others") then None
    else
      match (FirstNumeral(value), FirstCode(value))
      case (Some(n), Some(code)) => if Value(n) == 0.0 then None else fx(Value(n), code)
      case _ => None
  }

  // ---------------------------------------------------------------------------
  // the rate text of a summary, f"{rate} {currency}"

  /** How Python prints a plain decimal rate: `whole` or `whole.fraction`. */
  function NumeralText(n: Numeral): string {
    if |n.fraction| == 0 then n.whole else n.whole + "." + n.fraction
  }

  /** The first amount of a text that starts with a written numeral is that numeral. */
  lemma NumeralRoundTrip(n: Numeral, rest: string)
    requires |n.whole| > 0 && AllDigits(n.whole) && AllDigits(n.fraction)
    requires |rest| > 0 ==> !IsDigit(rest[0]) && rest[0] != '.'
    ensures FirstNumeral(NumeralText(n) + rest) == Some(n)
  {
    var s := NumeralText(n) + rest;
    var w := |n.whole|;
    assert s[..w] == n.whole;
    assert forall k :: 0 <= k < w ==> s[k] == n.whole[k];
    DigitRunEndAt(s, 0, w);
    if |n.fraction| > 0 {
      var f := |n.fraction|;
      assert s[w] == '.' && s[w + 1] == n.fraction[0];
      assert forall k :: w + 1 <= k < w + 1 + f ==> s[k] == n.fraction[k - w - 1];
      DigitRunEndAt(s, w + 1, w + 1 + f);
      assert s[w + 1..w + 1 + f] == n.fraction;
    }
  }

  /** The first code of a text with no capitals before a space and a code is that code. */
  lemma CodeRoundTrip(t: string, code: string)
    requires forall k :: 0 <= k < |t| ==> !IsUpper(t[k])
    requires |code| == 3 && IsUpper(code[0]) && IsUpper(code[1]) && IsUpper(code[2])
    ensures FirstCode(t + " " + code) == Some(code)
  {
    var s := t + " " + code;
    var c := |t| + 1;
    assert s[c..c + 3] == code;
    assert forall k :: 0 <= k < c ==> !IsUpper(s[k]);
    FirstCodeIs(s, 0, c);
  }

  /** A rate text reads back as the amount and code it was written from. */
  lemma RateTextRoundTrip(n: Numeral, code: string)
    requires |n.whole| > 0 && AllDigits(n.whole) && AllDigits(n.fraction)
    requires |code| == 3 && IsUpper(code[0]) && IsUpper(code[1]) && IsUpper(code[2])
    ensures FirstNumeral(NumeralText(n) + " " + code) == Some(n)
    ensures FirstCode(NumeralText(n) + " " + code) == Some(code)
  {
    NumeralRoundTrip(n, " " + code);
    assert NumeralText(n) + " " + code == NumeralText(n) + (" " + code);
    var t := NumeralText(n);
    assert forall k :: 0 <= k < |t| ==> t[k] == '.' || IsDigit(t[k]);
    CodeRoundTrip(t, code);
  }

  /** The run of digits from `i` ends at `e` when `i .. e-1` are digits and `e` is not. */
  lemma {:induction false} DigitRunEndAt(s: string, i: nat, e: nat)
    requires i <= e <= |s|
    requires forall k :: i <= k < e ==> IsDigit(s[k])
    requires e < |s| ==> !IsDigit(s[e])
    ensures DigitRunEnd(s, i) == e
    decreases e - i
  {
    if i < e {
      DigitRunEndAt(s, i + 1, e);
    }
  }

  /** The scan for a code from `i` stops at `c` when no code starts before it. */
  lemma {:induction false} FirstCodeIs(s: string, i: nat, c: nat)
    requires i <= c < |s| && IsCodeAt(s, c)
    requires forall k :: i <= k < c ==> !IsUpper(s[k])
    ensures FirstCodeFrom(s, i) == Some(c)
    decreases c - i
  {
    if i < c {
      FirstCodeIs(s, i + 1, c);
    }
  }

  /** Only a text with a capital O can contain "Others". */
  lemma {:induction false} NoOthersWithoutO(s: string)
    requires 'O' !in s
    ensures !Contains(s, "Others")
    decreases |s|
  {
    if |s| > 0 {
      assert s[0] != 'O';
      assert |s| >= 6 ==> s[..6][0] == s[0];
      assert forall c :: c in s[1..] ==> c in s;
      NoOthersWithoutO(s[1..]);
    }
  }

  lemma ExampleValue()
    ensures Value(Numeral("85", "5")) == 85.5
  {
    assert "85"[..1] == "8" && "8"[..0] == "" && "5"[..0] == "";
    assert DigitsValue("85") == 85;
    assert DigitsValue("5") == 5;
    assert Pow10(1) == 10;
  }

  lemma ExampleTokens()
    ensures FirstNumeral("85.5 USD") == Some(Numeral("85", "5"))
    ensures FirstCode("85.5 USD") == Some("USD")
  {
    RateTextRoundTrip(Numeral("85", "5"), "USD");
    assert NumeralText(Numeral("85", "5")) + " " + "USD" == "85.5 USD";
  }

  /** A plain rate converts its amount with its code. */
  lemma ConvertsExample(fx: (real, string) -> Option<real>)
    ensures ToUsd("85.5 USD", fx) == fx(85.5, "USD")
  {
    ExampleTokens();
    ExampleValue();
    NoOthersWithoutO("85.5 USD");
  }

  /** A zero amount gives no value, like a missing one. */
  lemma ZeroAmountExample(fx: (real, string) -> Option<real>)
    ensures ToUsd("0 USD", fx) == None
  {
    RateTextRoundTrip(Numeral("0", ""), "USD");
    assert NumeralText(Numeral("0", "")) + " " + "USD" == "0 USD";
  }

  /** The "Others" currency choice gives no value. */
  lemma OthersExample(fx: (real, string) -> Option<real>)
    ensures ToUsd("85 Others", fx) == None
  {
    assert "Others" <= "85 Others"[3..];
    ContainsIff("85 Others", "Others");
  }

  /** A text without an amount gives no value. */
  lemma NoAmountExample(fx: (real, string) -> Option<real>)
    ensures ToUsd("not a rate", fx) == None
  {
    var s := "not a rate";
    assert forall k :: 0 <= k < |s| ==> s[k] == ' ' || 'a' <= s[k] <= 'z';
    assert forall k :: 0 <= k < |s| ==> !IsDigit(s[k]);
  }
}
