/**
 * Post-processing of the language-model replies: the provider calls are
 * oracles, and only what the code does with their text is modelled (the
 * primary/fallback choice, digit extraction, option matching, truncation and
 * the input guards in front of each call).
 */
module GeminiCv {
  import opened Wrappers
  import opened Text

  /**
   * What the providers replied to one prompt. `primary` is the text of the
   * first attempt (Gemini, or Groq after a quota error); `secondary` is the
   * Groq fallback asked when the first attempt produced no text.
   */
  datatype Llm = Llm(primary: Option<string>, secondary: Option<string>)

  /** The reply the code goes on with: the primary's text, else the fallback's, else none. */
  function ReplyText(llm: Llm): (r: Option<string>)
    ensures r.Some? ==> r.value != ""
    ensures llm.primary.Some? && llm.primary.value != "" ==> r == llm.primary
    ensures r.Some? && r != llm.primary ==> r == llm.secondary
    ensures r.None? ==> (llm.primary.None? || llm.primary.value == "") && (llm.secondary.None? || llm.secondary.value == "")
  {
    if llm.primary.Some? && llm.primary.value != "" then llm.primary
    else if llm.secondary.Some? && llm.secondary.value != "" then llm.secondary
    else None
  }

  const DefaultSalary := "95000"

  predicate IsDigitOrDot(c: char) {
    IsDigit(c) || c == '.'
  }

  predicate IsQuote(c: char) {
    c == '"' || c == '\''
  }

  /** `str(text).strip().strip('"\'')`. */
  function Unquote(text: string): string {
    StripWhere(Strip(text), IsQuote)
  }

  /** `num.split(".")[0]`: the text before the first dot. */
  function IntegerPart(num: string): (r: string)
    ensures '.' !in r && StartsWith(num, r)
  {
    if '.' in num then num[..IndexOfChar(num, '.')] else num
  }

  /** The choice made on the reply's digits and dots (`num`, non-empty). */
  function SalaryFromDigits(num: string): (r: string)
    ensures AllDigits(r)
    ensures AllDigits(IntegerPart(num)) ==> r == IntegerPart(num)
    ensures !AllDigits(IntegerPart(num)) && !AllDigits(num) ==> r == DefaultSalary
    ensures r != DefaultSalary ==> r == IntegerPart(num) || r == num
  {
    if '.' in num && AllDigits(IntegerPart(num)) then IntegerPart(num)
    else if AllDigits(num) then num
    else DefaultSalary
  }

  /** `get_salary_expectation_gemini`: the digits of the reply up to its first dot, or 95000. */
  function SalaryExpectation(llm: Llm): (r: string)
    ensures AllDigits(r)
    ensures ReplyText(llm).None? ==> r == DefaultSalary
    ensures ReplyText(llm).Some? ==>
              var num := Filter(Strip(ReplyText(llm).value), IsDigitOrDot);
              (num == "" || (!AllDigits(IntegerPart(num)) && !AllDigits(num))) ==> r == DefaultSalary
    ensures ReplyText(llm).Some? ==>
              var num := Filter(Strip(ReplyText(llm).value), IsDigitOrDot);
              num != "" && AllDigits(IntegerPart(num)) ==> r == IntegerPart(num)
    ensures r != DefaultSalary ==>
              ReplyText(llm).Some? && var num := Filter(Strip(ReplyText(llm).value), IsDigitOrDot);
              num != "" && (r == IntegerPart(num) || r == num)
  {
    match ReplyText(llm)
    case None => DefaultSalary
    case Some(text) =>
      var num := Filter(Strip(text), IsDigitOrDot);
      if num == "" then DefaultSalary else SalaryFromDigits(num)
  }

  /** The salary is decided by the reply's digits and dots alone. */
  lemma SalaryOfFiltered(llm: Llm, num: string)
    requires ReplyText(llm).Some? && Filter(Strip(ReplyText(llm).value), IsDigitOrDot) == num && num != ""
    ensures SalaryExpectation(llm) == SalaryFromDigits(num)
  {
  }

  lemma DigitsHaveNoDot(digits: string)
    requires AllDigits(digits)
    ensures '.' !in digits
  {
    forall i | 0 <= i < |digits| ensures digits[i] != '.' {
      assert IsDigit(digits[i]);
    }
  }

  lemma FilterKeepsDigitsAndDots(s: string)
    requires forall i :: 0 <= i < |s| ==> IsDigit(s[i]) || s[i] == '.'
    ensures Filter(s, IsDigitOrDot) == s
  {
    forall i | 0 <= i < |s| ensures IsDigitOrDot(s[i]) {
    }
    FilterKeepsAll(s, IsDigitOrDot);
  }

  /** A reply made only of digits is the salary itself. */
  lemma SalaryOfDigits(llm: Llm, digits: string)
    requires AllDigits(digits) && ReplyText(llm) == Some(digits)
    ensures SalaryExpectation(llm) == digits
  {
    DigitsHaveNoDot(digits);
    StripUnpadded(digits);
    FilterKeepsDigitsAndDots(digits);
    SalaryOfFiltered(llm, digits);
    assert SalaryFromDigits(digits) == digits;
  }

  /** `a.b` splits at its dot into `a`. */
  lemma IntegerPartOfDecimal(a: string, b: string)
    requires AllDigits(a)
    ensures IntegerPart(a + "." + b) == a
  {
    var s := a + "." + b;
    DigitsHaveNoDot(a);
    assert s[|a|] == '.';
    assert s[..|a|] == a;
    assert IndexOfChar(s, '.') == |a|;
  }

  /** "a.b" has no padding. */
  lemma DecimalUnpadded(a: string, b: string, s: string)
    requires AllDigits(a) && AllDigits(b) && s == a + "." + b
    ensures Strip(s) == s
  {
    assert s[0] == a[0] && s[|s| - 1] == b[|b| - 1];
    StripUnpadded(s);
  }

  /** "a.b" holds only digits and a dot. */
  lemma DecimalIsItsOwnFilter(a: string, b: string, s: string)
    requires AllDigits(a) && AllDigits(b) && s == a + "." + b
    ensures Filter(s, IsDigitOrDot) == s
  {
    forall i | 0 <= i < |s| ensures IsDigit(s[i]) || s[i] == '.' {
      if i < |a| {
        assert s[i] == a[i];
      } else if i > |a| {
        assert s[i] == b[i - |a| - 1];
      }
    }
    FilterKeepsDigitsAndDots(s);
  }

  /** A reply "a.b" of two digit strings gives its integer part `a`. */
  lemma SalaryOfDecimal(llm: Llm, a: string, b: string)
    requires AllDigits(a) && AllDigits(b) && ReplyText(llm) == Some(a + "." + b)
    ensures SalaryExpectation(llm) == a
  {
    var s := ReplyText(llm).value;
    DecimalUnpadded(a, b, s);
    DecimalIsItsOwnFilter(a, b, s);
    SalaryOfFiltered(llm, s);
    IntegerPartOfDecimal(a, b);
    assert s[|a|] == '.';
  }

  /** In particular a printed number comes back unchanged. */
  lemma SalaryOfNumber(llm: Llm, n: nat)
    requires ReplyText(llm) == Some(NatToString(n))
    ensures SalaryExpectation(llm) == NatToString(n)
  {
    SalaryOfDigits(llm, NatToString(n));
  }

  /** The options the picker works on: stripped, with the empty ones dropped. */
  function CleanOptions(options: seq<string>): (r: seq<string>)
    ensures |r| <= |options|
    ensures forall x :: x in r ==> x != ""
  {
    if options == [] then []
    else if Strip(options[0]) == "" then CleanOptions(options[1..])
    else [Strip(options[0])] + CleanOptions(options[1..])
  }

  /** Every cleaned option is the stripped text of an original one. */
  lemma {:induction false} CleanOptionsFromOptions(options: seq<string>, x: string)
    requires x in CleanOptions(options)
    ensures exists o :: o in options && x == Strip(o)
  {
    if Strip(options[0]) != "" && x == Strip(options[0]) {
    } else {
      CleanOptionsFromOptions(options[1..], x);
      var o :| o in options[1..] && x == Strip(o);
      assert o in options;
    }
  }

  /** A list that is already stripped and free of empty entries is its own cleaned list. */
  lemma {:induction false} CleanOptionsOfClean(options: seq<string>)
    requires forall i :: 0 <= i < |options| ==> options[i] != "" && Strip(options[i]) == options[i]
    ensures CleanOptions(options) == options
  {
    if options != [] {
      CleanOptionsOfClean(options[1..]);
    }
  }

  /** The case-insensitive equality or containment the picker accepts between an option and the reply. */
  predicate OptionMatches(o: string, chosen: string) {
    Lower(o) == Lower(chosen) || Occurs(Lower(chosen), Lower(o)) || Occurs(Lower(o), Lower(chosen))
  }

  /** The first option that matches the reply. */
  function FirstMatching(options: seq<string>, chosen: string): (r: Option<string>)
    ensures r.Some? ==> r.value in options && OptionMatches(r.value, chosen)
    ensures r.Some? ==> exists i :: 0 <= i < |options| && options[i] == r.value
                                    && forall j :: 0 <= j < i ==> !OptionMatches(options[j], chosen)
    ensures r.None? ==> forall o :: o in options ==> !OptionMatches(o, chosen)
  {
    if options == [] then None
    else if OptionMatches(options[0], chosen) then Some(options[0])
    else
      var rest := FirstMatching(options[1..], chosen);
      if rest.Some? then
        var i :| 0 <= i < |options[1..]| && options[1..][i] == rest.value
                 && forall j :: 0 <= j < i ==> !OptionMatches(options[1..][j], chosen);
        assert options[i + 1] == rest.value;
        assert forall j :: 0 <= j < i + 1 ==> !OptionMatches(options[j], chosen) by {
          forall j | 0 <= j < i + 1 ensures !OptionMatches(options[j], chosen) {
            if j > 0 { assert options[j] == options[1..][j - 1]; }
          }
        }
        rest
      else rest
  }

  /**
   * `get_answer_from_options`: map the reply back onto the cleaned option
   * list, falling back to the first option.
   */
  function AnswerFromOptions(options: seq<string>, llm: Llm): (r: Option<string>)
    ensures r.None? <==> CleanOptions(options) == []
    ensures r.Some? ==> r.value in CleanOptions(options)
    ensures ReplyText(llm).None? && r.Some? ==> r.value == CleanOptions(options)[0]
  {
    var cleaned := CleanOptions(options);
    if cleaned == [] then None
    else
      match ReplyText(llm)
      case None => Some(cleaned[0])
      case Some(text) =>
        match FirstMatching(cleaned, Unquote(text))
        case Some(o) => Some(o)
        case None => Some(cleaned[0])
  }

  /** The reply is mapped to an option it matches whenever some option matches it. */
  lemma AnswerFromOptionsMatchesReply(options: seq<string>, llm: Llm, o: string)
    requires ReplyText(llm).Some? && o in CleanOptions(options) && OptionMatches(o, Unquote(ReplyText(llm).value))
    ensures AnswerFromOptions(options, llm).Some?
    ensures OptionMatches(AnswerFromOptions(options, llm).value, Unquote(ReplyText(llm).value))
  {
  }

  /** Without a matching option the picker falls back to the first cleaned option. */
  lemma AnswerFromOptionsFallsBackToFirst(options: seq<string>, llm: Llm)
    requires CleanOptions(options) != [] && ReplyText(llm).Some?
    requires forall o :: o in CleanOptions(options) ==> !OptionMatches(o, Unquote(ReplyText(llm).value))
    ensures AnswerFromOptions(options, llm) == Some(CleanOptions(options)[0])
  {
  }

  /**
   * `get_years_of_experience_from_cv`: the first two digit characters of the
   * reply, read as a number and printed back, for a question with a CV of at
   * least 30 characters.
   */
  function YearsFromCv(question: string, cvText: string, llm: Llm): (r: Option<string>)
    ensures question == "" || |Strip(cvText)| < 30 ==> r == None
    ensures r.Some? ==> AllDigits(r.value) && 1 <= |r.value| <= 2 && (r.value[0] == '0' ==> r.value == "0")
  {
    if question == "" || Strip(cvText) == "" || |Strip(cvText)| < 30 then None
    else
      match ReplyText(llm)
      case None => None
      case Some(text) =>
        var num := Filter(Strip(text), IsDigit);
        if num == "" then None
        else
          var n := DigitsValue(Take(num, 2));
          TwoDigitsBelowHundred(Take(num, 2));
          var n' := if n > 99 then 99 else n;
          NatToStringShort(n');
          Some(NatToString(n'))
  }

  lemma TwoDigitsBelowHundred(s: string)
    requires |s| <= 2 && forall i :: 0 <= i < |s| ==> IsDigit(s[i])
    ensures DigitsValue(s) <= 99
  {
    if |s| == 2 {
      assert DigitsValue(s) == 10 * DigitsValue(s[..1]) + DigitValue(s[1]);
      assert DigitsValue(s[..1]) == DigitValue(s[0]);
    }
  }

  /** Reading the years answer back gives the number formed by the reply's first two digits. */
  lemma YearsFromCvReadsBack(question: string, cvText: string, llm: Llm)
    requires YearsFromCv(question, cvText, llm).Some?
    ensures var num := Filter(Strip(ReplyText(llm).value), IsDigit);
            num != "" && DigitsValue(YearsFromCv(question, cvText, llm).value) == DigitsValue(Take(num, 2)) <= 99
  {
    var num := Filter(Strip(ReplyText(llm).value), IsDigit);
    TwoDigitsBelowHundred(Take(num, 2));
    NatToStringRoundTrip(DigitsValue(Take(num, 2)));
  }

  /** The short-answer post-processing shared by the free-form helpers: unquote, cut, refuse empty. */
  function ShortAnswer(llm: Llm, maxLength: nat): (r: Option<string>)
    ensures r.Some? ==> 0 < |r.value| <= maxLength
    ensures r.Some? ==> ReplyText(llm).Some? && StartsWith(Unquote(ReplyText(llm).value), r.value)
  {
    match ReplyText(llm)
    case None => None
    case Some(text) =>
      var out := Take(Unquote(text), maxLength);
      if out == "" then None else Some(out)
  }

  /** A reply that fits is returned whole. */
  lemma ShortAnswerKeepsShortReply(llm: Llm, maxLength: nat)
    requires ReplyText(llm).Some?
    requires 0 < |Unquote(ReplyText(llm).value)| <= maxLength
    ensures ShortAnswer(llm, maxLength) == Some(Unquote(ReplyText(llm).value))
  {
    var u := Unquote(ReplyText(llm).value);
    assert Take(u, maxLength) == u[..|u|] == u;
  }

  /** `get_answer_any_question_gemini`: nothing for a blank question. */
  function AnyQuestionAnswer(question: string, maxLength: nat, llm: Llm): (r: Option<string>)
    ensures Strip(question) == "" ==> r == None
    ensures r.Some? ==> 0 < |r.value| <= maxLength && r == ShortAnswer(llm, maxLength)
  {
    if Strip(question) == "" then None else ShortAnswer(llm, maxLength)
  }

  /**
   * `get_answer_from_cv_with_gemini`: nothing unless USE_GEMINI_FOR_CV holds,
   * the question is not blank and the stripped CV has 50 characters or more.
   */
  function CvAnswer(question: string, cvText: string, useGeminiForCv: bool, maxLength: nat, llm: Llm): (r: Option<string>)
    ensures !useGeminiForCv || Strip(question) == "" || |Strip(cvText)| < 50 ==> r == None
    ensures r.Some? ==> 0 < |r.value| <= maxLength && r == ShortAnswer(llm, maxLength)
  {
    if !useGeminiForCv || cvText == "" || question == "" then None
    else if Strip(question) == "" || |Strip(cvText)| < 50 then None
    else ShortAnswer(llm, maxLength)
  }

  /** The fallback provider's reply is used only when the primary produced no text. */
  lemma SecondaryOnlyWithoutPrimary(llm: Llm)
    requires ReplyText(llm).Some? && ReplyText(llm) != llm.primary
    ensures llm.primary.None? || llm.primary.value == ""
    ensures ReplyText(llm) == llm.secondary
  {
  }
}
