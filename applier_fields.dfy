/**
 * The value choices `_fill_additional_questions` makes for each kind of
 * required field in an Easy Apply step: text inputs, dropdowns, LinkedIn's
 * custom option blocks and native radio groups. What the page shows is an
 * input; what the filler would type, select or check is the result.
 */
module ApplierFields {
  import opened Wrappers
  import opened Text
  import opened Config
  import opened GeminiCv
  import opened CvReader

  // ---------------------------------------------------------------------------
  // Text and number inputs

  const TextFallback := "none"

  /** Labels of rating fields, which take a decimal such as 8.0. */
  const RatingLabels: seq<string> := [
    "frontend", "backend", "microservice", "microservices", "api", "database", "devops",
    "fullstack", "mobile", "cloud", "security", "testing", "data"
  ]

  predicate WantsDecimal(labelLower: string) {
    AnyOccurs(RatingLabels, labelLower)
  }

  predicate WantsWholeNumber(labelLower: string) {
    Occurs("years", labelLower) && Occurs("experience", labelLower) && !WantsDecimal(labelLower)
  }

  /** The rating typed into a decimal field: 8.0 for frontend or backend, 5.0 otherwise. */
  function RatingDefault(labelLower: string): (r: string)
    ensures r == "8.0" || r == "5.0"
  {
    if Occurs("frontend", labelLower) || Occurs("backend", labelLower) then "8.0" else "5.0"
  }

  /** A string matching `-?\d+(\.\d+)?`, taken apart. */
  datatype Decimal = Decimal(negative: bool, whole: string, fraction: Option<string>)

  /** Parses the whole string against `-?\d+(\.\d+)?`. */
  function ParseDecimal(s: string): (r: Option<Decimal>)
    ensures r.Some? ==> AllDigits(r.value.whole) && (r.value.fraction.Some? ==> AllDigits(r.value.fraction.value))
    ensures r.Some? ==> s == DecimalText(r.value)
  {
    var negative := s != [] && s[0] == '-';
    var body := if negative then s[1..] else s;
    var r := ParseUnsigned(negative, body);
    assert r.Some? ==> s == (if negative then "-" else "") + body;
    r
  }

  /** Parses `\d+(\.\d+)?`, the part after the optional sign. */
  function ParseUnsigned(negative: bool, body: string): (r: Option<Decimal>)
    ensures r.Some? ==> r.value.negative == negative
    ensures r.Some? ==> AllDigits(r.value.whole) && (r.value.fraction.Some? ==> AllDigits(r.value.fraction.value))
    ensures r.Some? ==> body == UnsignedText(r.value)
  {
    if '.' in body then
      var i := IndexOfChar(body, '.');
      if AllDigits(body[..i]) && AllDigits(body[i + 1..]) then
        assert body == body[..i] + "." + body[i + 1..];
        Some(Decimal(negative, body[..i], Some(body[i + 1..])))
      else None
    else if AllDigits(body) then Some(Decimal(negative, body, None))
    else None
  }

  /** The text a decimal is written as. */
  function DecimalText(d: Decimal): string {
    (if d.negative then "-" else "") + UnsignedText(d)
  }

  /** The digits of a decimal, without its sign. */
  function UnsignedText(d: Decimal): string {
    d.whole + (if d.fraction.Some? then "." + d.fraction.value else "")
  }

  /** Parsing reads back every well-formed decimal. */
  lemma ParseDecimalText(d: Decimal)
    requires AllDigits(d.whole) && (d.fraction.Some? ==> AllDigits(d.fraction.value))
    ensures ParseDecimal(DecimalText(d)) == Some(d)
  {
    var s := DecimalText(d);
    var body := UnsignedText(d);
    assert body[0] == d.whole[0];
    assert s != [] && (s[0] == '-' <==> d.negative);
    assert (if d.negative then s[1..] else s) == body;
    ParseUnsignedText(d);
  }

  lemma ParseUnsignedText(d: Decimal)
    requires AllDigits(d.whole) && (d.fraction.Some? ==> AllDigits(d.fraction.value))
    ensures ParseUnsigned(d.negative, UnsignedText(d)) == Some(d)
  {
    var body := UnsignedText(d);
    DigitsHaveNoDot(d.whole);
    if d.fraction.Some? {
      DigitsHaveNoDot(d.fraction.value);
      var i := IndexOfChar(body, '.');
      assert body[|d.whole|] == '.';
      assert i == |d.whole| by {
        assert '.' !in body[..|d.whole|];
        assert body[..|d.whole|] == d.whole;
      }
      assert body[..i] == d.whole && body[i + 1..] == d.fraction.value;
    } else {
      assert body == d.whole;
    }
  }

  /** `float(s) < 0.1`, read on the digits: a negative number, or a zero whole part whose first decimal is 0. */
  predicate BelowTenth(d: Decimal)
    requires AllDigits(d.whole) && (d.fraction.Some? ==> AllDigits(d.fraction.value))
  {
    d.negative || (DigitsValue(d.whole) == 0 && (d.fraction.None? || d.fraction.value[0] == '0'))
  }

  /** `int(float(s))`: the whole part, with its sign (truncation toward zero). */
  function Truncated(d: Decimal): int
    requires AllDigits(d.whole)
  {
    if d.negative then 0 - DigitsValue(d.whole) else DigitsValue(d.whole)
  }

  /** The value a decimal field keeps, or `None` when the rating default replaces it. */
  predicate AcceptableDecimal(text: string) {
    ParseDecimal(text).Some? && !BelowTenth(ParseDecimal(text).value)
  }

  /** The first replacement: a missing answer, or an empty or N/A one in a text area, gets a type-dependent default. */
  function InitialAnswer(answer: Option<string>, labelLower: string, tag: string, isNumber: bool): (r: string)
    ensures answer.Some? && (Strip(answer.value) !in ["", "N/A"] || tag == "input" || isNumber) ==> r == answer.value
    ensures answer.None? && WantsDecimal(labelLower) ==> r == RatingDefault(labelLower)
    ensures answer.None? && !WantsDecimal(labelLower) && isNumber ==> r == (if WantsWholeNumber(labelLower) then "3" else "0")
    ensures answer.None? && !WantsDecimal(labelLower) && !isNumber ==> r == TextFallback
    ensures answer.None? || r == answer.value || r in [RatingDefault(labelLower), TextFallback]
  {
    if answer.None? || (Strip(answer.value) in ["", "N/A"] && tag != "input" && !isNumber) then
      if WantsDecimal(labelLower) then RatingDefault(labelLower)
      else if isNumber then (if WantsWholeNumber(labelLower) then "3" else "0")
      else TextFallback
    else answer.value
  }

  const NotANumber: seq<string> := ["yes", "no", "oui", "non", "n/a", ""]

  /** Rating fields: anything that is not a decimal of at least 0.1 becomes the rating default. */
  function DecimalStep(text: string, labelLower: string): (r: string)
    ensures WantsDecimal(labelLower) ==> r == RatingDefault(labelLower) || (r == text && AcceptableDecimal(text))
    ensures !WantsDecimal(labelLower) ==> r == text
  {
    if !WantsDecimal(labelLower) then text
    else if Lower(text) in NotANumber then RatingDefault(labelLower)
    else if ParseDecimal(text).None? then RatingDefault(labelLower)
    else if BelowTenth(ParseDecimal(text).value) then RatingDefault(labelLower)
    else text
  }

  /** Whole-number fields: a decimal is cut to its whole part. */
  function WholeStep(text: string, labelLower: string): (r: string)
    ensures WantsWholeNumber(labelLower) && ParseDecimal(text).Some? ==> IsWholeNumber(r)
    ensures !(WantsWholeNumber(labelLower) && ParseDecimal(text).Some?) ==> r == text
  {
    if WantsWholeNumber(labelLower) && ParseDecimal(text).Some? then
      IntToStringWhole(Truncated(ParseDecimal(text).value));
      IntToString(Truncated(ParseDecimal(text).value))
    else text
  }

  /** `"none " * k`. */
  function Repeat(s: string, k: nat): (r: string)
    ensures |r| == |s| * k
  {
    if k == 0 then "" else s + Repeat(s, k - 1)
  }

  /** `("none " * (max_len // 5 + 1))[:max_len]`: long enough, then cut. */
  function NonePadding(maxLength: nat): (r: string)
    ensures |r| == maxLength
  {
    Take(Repeat(TextFallback + " ", maxLength / 5 + 1), maxLength)
  }

  /** Text fields with a known character limit: a bare "none" is repeated up to the limit. */
  function PaddingStep(text: string, tag: string, isNumber: bool, maxLength: Option<int>): (r: string)
    ensures r != text ==> maxLength.Some? && maxLength.value > |text| && |r| == maxLength.value
    ensures r != text ==> maxLength.value >= 0 && r == NonePadding(maxLength.value)
    ensures ((tag == "textarea" || (tag == "input" && !isNumber)) && maxLength.Some? && maxLength.value > |text|
             && Lower(text) == TextFallback) ==> r == NonePadding(maxLength.value)
    ensures !(tag == "textarea" || (tag == "input" && !isNumber)) || Lower(text) != TextFallback ==> r == text
  {
    if (tag == "textarea" || (tag == "input" && !isNumber))
       && maxLength.Some? && maxLength.value != 0 && |text| < maxLength.value && Lower(text) == TextFallback then
      NonePadding(maxLength.value)
    else text
  }

  /**
   * The text typed into a required text, number or textarea field.
   * `maxLength` is the field's character limit when one could be read.
   */
  function TextInputValue(answer: Option<string>, labelText: string, tag: string, isNumber: bool, maxLength: Option<int>): (r: string)
    ensures !isNumber ==> r != ""
  {
    var l := Lower(labelText);
    var text := Strip(InitialAnswer(answer, l, tag, isNumber));
    var text1 := if text == "" && !isNumber then TextFallback else text;
    var text2 := DecimalStep(text1, l);
    var text3 := WholeStep(text2, l);
    PaddingStep(text3, tag, isNumber, maxLength)
  }

  /** A rating field always receives a decimal of at least 0.1. */
  lemma RatingFieldGetsDecimal(answer: Option<string>, labelText: string, tag: string, isNumber: bool, maxLength: Option<int>)
    requires WantsDecimal(Lower(labelText))
    ensures AcceptableDecimal(TextInputValue(answer, labelText, tag, isNumber, maxLength))
  {
    var l := Lower(labelText);
    var text := Strip(InitialAnswer(answer, l, tag, isNumber));
    var text1 := if text == "" && !isNumber then TextFallback else text;
    var text2 := DecimalStep(text1, l);
    assert TextInputValue(answer, labelText, tag, isNumber, maxLength) == PaddingStep(WholeStep(text2, l), tag, isNumber, maxLength);
    DecimalStepAcceptable(text1, l);
    DecimalSurvivesLaterSteps(text2, l, tag, isNumber, maxLength);
  }

  /** The decimal step always leaves an acceptable rating in a rating field. */
  lemma DecimalStepAcceptable(text: string, labelLower: string)
    requires WantsDecimal(labelLower)
    ensures AcceptableDecimal(DecimalStep(text, labelLower))
  {
    RatingDefaultAcceptable(labelLower);
  }

  /** The whole-number and padding steps leave an acceptable rating alone. */
  lemma DecimalSurvivesLaterSteps(text: string, labelLower: string, tag: string, isNumber: bool, maxLength: Option<int>)
    requires WantsDecimal(labelLower) && AcceptableDecimal(text)
    ensures PaddingStep(WholeStep(text, labelLower), tag, isNumber, maxLength) == text
  {
    NoneIsNotDecimal(text);
  }

  lemma RatingDefaultAcceptable(labelLower: string)
    ensures AcceptableDecimal(RatingDefault(labelLower))
    ensures Lower(RatingDefault(labelLower)) == RatingDefault(labelLower)
  {
    if RatingDefault(labelLower) == "8.0" {
      RatingAcceptable('8');
    } else {
      RatingAcceptable('5');
    }
  }

  lemma RatingAcceptable(c: char)
    requires c == '8' || c == '5'
    ensures AcceptableDecimal([c, '.', '0'])
    ensures Lower([c, '.', '0']) == [c, '.', '0']
  {
    var s := [c, '.', '0'];
    assert IndexOfChar(s, '.') == 1;
    assert s[..1] == [c] && s[2..] == ['0'];
    assert AllDigits([c]) && AllDigits(['0']);
    assert DigitsValue([c]) != 0;
    assert Lower(s) == [LowerChar(c)] + Lower(s[1..]);
  }

  lemma NoneIsNotDecimal(text: string)
    requires ParseDecimal(text).Some?
    ensures Lower(text) != TextFallback
  {
    DecimalEndsInDigit(ParseDecimal(text).value);
    DigitEndIsNotNone(text);
  }

  lemma DecimalEndsInDigit(d: Decimal)
    requires AllDigits(d.whole) && (d.fraction.Some? ==> AllDigits(d.fraction.value))
    ensures var s := DecimalText(d); |s| > 0 && IsDigit(s[|s| - 1])
  {
    var s := DecimalText(d);
    if d.fraction.Some? {
      var f := d.fraction.value;
      assert s[|s| - 1] == f[|f| - 1];
    } else {
      assert s[|s| - 1] == d.whole[|d.whole| - 1];
    }
  }

  /** A text ending in a digit is not "none" in any case. */
  lemma DigitEndIsNotNone(s: string)
    requires |s| > 0 && IsDigit(s[|s| - 1])
    ensures Lower(s) != TextFallback
  {
    assert Lower(s)[|s| - 1] == s[|s| - 1];
  }

  /** A years-of-experience field given a decimal receives a whole number. */
  lemma YearsFieldGetsWholeNumber(answer: Option<string>, labelText: string, tag: string, isNumber: bool, maxLength: Option<int>)
    requires WantsWholeNumber(Lower(labelText))
    requires ParseDecimal(Strip(InitialAnswer(answer, Lower(labelText), tag, isNumber))).Some?
    ensures IsWholeNumber(TextInputValue(answer, labelText, tag, isNumber, maxLength))
  {
    var l := Lower(labelText);
    var text := Strip(InitialAnswer(answer, l, tag, isNumber));
    assert text != "";
    var text3 := WholeStep(text, l);
    if Lower(text3) == TextFallback {
      WholeIsNotNone(text3);
    }
  }

  lemma WholeIsNotNone(s: string)
    requires IsWholeNumber(s)
    ensures Lower(s) != TextFallback
  {
    assert IsDigit(s[|s| - 1]);
    DigitEndIsNotNone(s);
  }

  /** The padding has exactly the limit's length and is a prefix of "none none none …". */
  lemma PaddingFillsLimit(maxLength: nat)
    ensures |NonePadding(maxLength)| == maxLength
    ensures StartsWith(Repeat(TextFallback + " ", maxLength / 5 + 1), NonePadding(maxLength))
  {
  }

  /** A required text field, as the page shows it. */
  datatype TextField = TextField(
    labelText: string,          // the label found for the field
    required: bool,             // required attribute, aria-required, or a star in the label
    existing: Option<string>,   // the current value; None when reading it raised
    tag: string,                // "input" or "textarea"
    isNumber: bool,             // type="number"
    maxLength: Option<int>,     // the character limit, when one could be read
    ai: Oracles)                // the language models' replies to this field's own prompts

  /** Whether the loop fills this field: required and not already holding a value. */
  predicate FillsField(f: TextField) {
    f.required && !(f.existing.Some? && Strip(f.existing.value) != "")
  }

  /** The value typed into a field the loop fills. */
  function FieldValue(f: TextField, p: Profile, cvText: string): string {
    var labelText := Strip(f.labelText);
    TextInputValue(AnswerForQuestion(labelText, p, cvText, f.ai), labelText, f.tag, f.isNumber, f.maxLength)
  }

  /** The values the resolver gives the fields. */
  function FieldValues(p: Profile, cvText: string): TextField -> string {
    f => FieldValue(f, p, cvText)
  }

  /** What the loop does with one field, given how a field's value is computed: `None` leaves it alone. */
  function FillWith(value: TextField -> string, f: TextField): (r: Option<string>)
    ensures r.Some? <==> FillsField(f)
    ensures r.Some? ==> r.value == value(f)
  {
    if FillsField(f) then Some(value(f)) else None
  }

  /** What the loop does with one field. */
  function FillFor(f: TextField, p: Profile, cvText: string): (r: Option<string>)
    ensures r.Some? <==> FillsField(f)
    ensures r.Some? ==> r.value == FieldValue(f, p, cvText)
  {
    FillWith(FieldValues(p, cvText), f)
  }

  /** What the loop does with each of `fields`, in order. */
  function FillAllWith(value: TextField -> string, fields: seq<TextField>): (r: seq<Option<string>>)
    ensures |r| == |fields|
  {
    if fields == [] then []
    else FillAllWith(value, fields[..|fields| - 1]) + [FillWith(value, fields[|fields| - 1])]
  }

  function FillAll(fields: seq<TextField>, p: Profile, cvText: string): (r: seq<Option<string>>)
    ensures |r| == |fields|
  {
    FillAllWith(FieldValues(p, cvText), fields)
  }

  lemma {:induction false} FillAllWithAt(value: TextField -> string, fields: seq<TextField>, i: nat)
    requires i < |fields|
    ensures FillAllWith(value, fields)[i] == FillWith(value, fields[i])
  {
    if i < |fields| - 1 {
      FillAllWithAt(value, fields[..|fields| - 1], i);
    }
  }

  /** The loop's result, field by field. */
  lemma FillAllAt(fields: seq<TextField>, p: Profile, cvText: string, i: nat)
    requires i < |fields|
    ensures FillAll(fields, p, cvText)[i] == FillFor(fields[i], p, cvText)
  {
    FillAllWithAt(FieldValues(p, cvText), fields, i);
  }

  /**
   * The loop over text fields: required fields without a value are filled
   * with their computed value; `fills[i]` is `None` for a field left alone.
   */
  method FillTextInputs(fields: seq<TextField>, p: Profile, cvText: string) returns (fills: seq<Option<string>>)
    ensures fills == FillAll(fields, p, cvText)
  {
    fills := FillEach(FieldValues(p, cvText), fields);
  }

  /** The loop of `FillTextInputs`, given how a field's value is computed. */
  method FillEach(value: TextField -> string, fields: seq<TextField>) returns (fills: seq<Option<string>>)
    ensures fills == FillAllWith(value, fields)
  {
    fills := [];
    var i := 0;
    while i < |fields|
      invariant 0 <= i <= |fields|
      invariant fills == FillAllWith(value, fields[..i])
    {
      var f := fields[i];
      var fill: Option<string>;
      if !f.required || (f.existing.Some? && Strip(f.existing.value) != "") {
        fill := None;
      } else {
        fill := Some(value(f));
      }
      assert fields[..i + 1][..i] == fields[..i];
      fills := fills + [fill];
      i := i + 1;
    }
    assert fields[..i] == fields;
  }

  /** Every text field the loop fills receives a non-empty value. */
  lemma FilledTextIsNonEmpty(f: TextField, p: Profile, cvText: string)
    requires !f.isNumber
    ensures FieldValue(f, p, cvText) != ""
  {
  }

  // ---------------------------------------------------------------------------
  // Dropdowns

  const PlaceholderOptions: seq<string> := ["select an option", "choose", ""]

  /** An option text as collected: trimmed, neither empty nor a placeholder. */
  predicate RealOption(text: string) {
    text != "" && Lower(text) !in PlaceholderOptions
  }

  /** The option texts the filler considers, in page order. */
  function RealOptions(raw: seq<string>): (r: seq<string>)
    ensures forall o :: o in r ==> RealOption(o) && exists t :: t in raw && o == Strip(t)
  {
    if raw == [] then []
    else
      var rest := RealOptions(raw[1..]);
      var text := Strip(raw[0]);
      if RealOption(text) then [text] + rest else rest
  }

  /** The collecting loop over a dropdown's options. */
  method CollectOptionTexts(raw: seq<string>) returns (optionTexts: seq<string>)
    ensures optionTexts == RealOptions(raw)
  {
    optionTexts := [];
    var i := |raw|;
    while i > 0
      invariant 0 <= i <= |raw|
      invariant optionTexts == RealOptions(raw[i..])
    {
      i := i - 1;
      assert raw[i..][1..] == raw[i + 1..];
      var text := Strip(raw[i]);
      if RealOption(text) {
        optionTexts := [text] + optionTexts;
      }
    }
    assert raw[0..] == raw;
  }

  /** Collected options are their own trimmed text. */
  predicate CleanList(optionTexts: seq<string>) {
    forall o :: o in optionTexts ==> RealOption(o) && Strip(o) == o
  }

  /** The collected options satisfy what the choice needs. */
  lemma RealOptionsAreClean(raw: seq<string>)
    ensures CleanList(RealOptions(raw))
  {
    forall o | o in RealOptions(raw) ensures Strip(o) == o {
      var t :| t in raw && o == Strip(t);
      StripTwice(t);
    }
  }

  lemma StripTwice(t: string)
    ensures Strip(Strip(t)) == Strip(t)
  {
    StripUnpadded(Strip(t));
  }

  const LegalStatusOptions: seq<string> := ["No status", "Other", "Open Work Visa"]

  /** The first option that is one of the no-status answers. */
  function FirstLegalStatusOption(optionTexts: seq<string>): (r: Option<string>)
    ensures r.Some? ==> r.value in optionTexts && r.value in LegalStatusOptions
    ensures r.None? ==> forall o :: o in optionTexts ==> o !in LegalStatusOptions
  {
    if optionTexts == [] then None
    else if optionTexts[0] in LegalStatusOptions then Some(optionTexts[0])
    else FirstLegalStatusOption(optionTexts[1..])
  }

  /**
   * The answer a dropdown starts from: the resolver's, except that a
   * question about legal status in Canada takes the first no-status option.
   */
  function SelectAnswer(labelText: string, optionTexts: seq<string>, resolved: Option<string>): (r: Option<string>)
    ensures Occurs("legal status", Lower(labelText)) && Occurs("canada", Lower(labelText)) && FirstLegalStatusOption(optionTexts).Some?
            ==> r.Some? && r.value in optionTexts && r.value in LegalStatusOptions
    ensures !(Occurs("legal status", Lower(labelText)) && Occurs("canada", Lower(labelText))) ==> r == resolved
  {
    var l := Lower(labelText);
    if Occurs("legal status", l) && Occurs("canada", l) && FirstLegalStatusOption(optionTexts).Some?
    then FirstLegalStatusOption(optionTexts) else resolved
  }

  /** Whether an option and a lower-cased answer contain one another. */
  predicate OptionMatchesAnswer(o: string, answerLower: string) {
    Occurs(answerLower, Lower(o)) || Occurs(Lower(o), answerLower) || answerLower == Lower(o)
  }

  /** The options matching a (non-empty) lower-cased answer, in page order. */
  function Matches(optionTexts: seq<string>, answerLower: string): (r: seq<string>)
    ensures forall o :: o in r <==> o in optionTexts && answerLower != "" && OptionMatchesAnswer(o, answerLower)
    ensures r != [] ==> OptionMatchesAnswer(r[0], answerLower)
  {
    if optionTexts == [] || answerLower == "" then []
    else
      var o := optionTexts[0];
      var rest := Matches(optionTexts[1..], answerLower);
      if OptionMatchesAnswer(o, answerLower) then [o] + rest else rest
  }

  /** The first option that reads `word` once trimmed and lower-cased. */
  function FirstOptionReading(optionTexts: seq<string>, word: string): (r: Option<string>)
    ensures r.Some? ==> r.value in optionTexts && Lower(Strip(r.value)) == word
    ensures r.None? ==> forall o :: o in optionTexts ==> Lower(Strip(o)) != word
  {
    if optionTexts == [] then None
    else if Lower(Strip(optionTexts[0])) == word then Some(optionTexts[0])
    else FirstOptionReading(optionTexts[1..], word)
  }

  /** French forms of a Yes/No answer, for dropdowns offering Oui/Non. */
  function OuiNonOption(optionTexts: seq<string>, answerLower: string): (r: Option<string>)
    ensures r.Some? ==> r.value in optionTexts && answerLower in ["yes", "no"]
    ensures answerLower == "yes" && r.Some? ==> Lower(Strip(r.value)) == "oui"
    ensures answerLower == "no" && r.Some? ==> Lower(Strip(r.value)) == "non"
  {
    if answerLower == "yes" then FirstOptionReading(optionTexts, "oui")
    else if answerLower == "no" then FirstOptionReading(optionTexts, "non")
    else None
  }

  /**
   * The option chosen for a lower-cased answer: the first matching option,
   * else Oui/Non for a Yes/No answer, else the options model's choice.
   */
  function ChooseOption(optionTexts: seq<string>, answerLower: string, optionsLlm: Llm): (r: string)
    requires optionTexts != [] && CleanList(optionTexts)
    ensures r in optionTexts
    ensures Matches(optionTexts, answerLower) != [] ==> r == Matches(optionTexts, answerLower)[0]
    ensures Matches(optionTexts, answerLower) == [] && OuiNonOption(optionTexts, answerLower).Some?
            ==> r == OuiNonOption(optionTexts, answerLower).value
    ensures Matches(optionTexts, answerLower) == [] && OuiNonOption(optionTexts, answerLower).None?
            ==> Some(r) == AnswerFromOptions(optionTexts, optionsLlm)
  {
    var matches := Matches(optionTexts, answerLower);
    if matches != [] then matches[0]
    else
      var ouiNon := OuiNonOption(optionTexts, answerLower);
      if ouiNon.Some? then ouiNon.value
      else
        CleanListIsClean(optionTexts);
        AnswerFromOptions(optionTexts, optionsLlm).value
  }

  lemma CleanListIsClean(optionTexts: seq<string>)
    requires CleanList(optionTexts)
    ensures CleanOptions(optionTexts) == optionTexts
  {
    forall i | 0 <= i < |optionTexts| ensures optionTexts[i] != "" && Strip(optionTexts[i]) == optionTexts[i] {
      assert optionTexts[i] in optionTexts;
    }
    CleanOptionsOfClean(optionTexts);
  }

  /** The lower-cased answer used to compare with options; empty when there is no answer. */
  function AnswerLower(answer: Option<string>): string {
    if answer.Some? && answer.value != "" then Lower(Strip(answer.value)) else ""
  }

  /** The option selected in a required dropdown whose real options are `optionTexts`. */
  function SelectChoice(labelText: string, optionTexts: seq<string>, resolved: Option<string>, optionsLlm: Llm): (r: string)
    requires optionTexts != [] && CleanList(optionTexts)
    ensures r in optionTexts
  {
    ChooseOption(optionTexts, AnswerLower(SelectAnswer(labelText, optionTexts, resolved)), optionsLlm)
  }

  /** A legal-status question in Canada picks a no-status option whenever one is offered. */
  lemma LegalStatusPicksNoStatus(labelText: string, optionTexts: seq<string>, resolved: Option<string>, optionsLlm: Llm)
    requires optionTexts != [] && CleanList(optionTexts)
    requires Occurs("legal status", Lower(labelText)) && Occurs("canada", Lower(labelText))
    requires FirstLegalStatusOption(optionTexts).Some?
    ensures OptionMatchesAnswer(SelectChoice(labelText, optionTexts, resolved, optionsLlm),
                                Lower(FirstLegalStatusOption(optionTexts).value))
  {
    var o := FirstLegalStatusOption(optionTexts).value;
    assert SelectAnswer(labelText, optionTexts, resolved) == Some(o);
    assert Strip(o) == o;
    var a := Lower(o);
    assert AnswerLower(Some(o)) == a;
    assert a != "" by { assert |Lower(o)| == |o|; }
    assert OptionMatchesAnswer(o, a);
    assert o in Matches(optionTexts, a);
  }

  /** A resolver answer equal to an option, ignoring case, selects a matching option. */
  lemma ExactAnswerIsSelected(optionTexts: seq<string>, answerLower: string, optionsLlm: Llm, o: string)
    requires optionTexts != [] && CleanList(optionTexts)
    requires o in optionTexts && answerLower != "" && Lower(o) == answerLower
    ensures OptionMatchesAnswer(ChooseOption(optionTexts, answerLower, optionsLlm), answerLower)
  {
    assert OptionMatchesAnswer(o, answerLower);
    assert o in Matches(optionTexts, answerLower);
  }

  /** A required dropdown, as the page shows it. */
  datatype SelectField = SelectField(
    labelText: string,
    required: bool,
    hasSelection: bool,         // a real option is already selected
    rawOptions: seq<string>,    // the options' text content
    optionsLlm: Llm,            // the options model's reply for this dropdown
    ai: Oracles)                // the language models' replies to this dropdown's own prompts

  /** Whether the loop selects an option in this dropdown. */
  predicate FillsSelect(f: SelectField) {
    f.required && !f.hasSelection && RealOptions(f.rawOptions) != []
  }

  /** The option selected in a dropdown the loop fills. */
  function SelectValue(f: SelectField, p: Profile, cvText: string): (r: string)
    requires FillsSelect(f)
    ensures r in RealOptions(f.rawOptions)
  {
    RealOptionsAreClean(f.rawOptions);
    var labelText := Strip(f.labelText);
    SelectChoice(labelText, RealOptions(f.rawOptions), AnswerForQuestion(labelText, p, cvText, f.ai), f.optionsLlm)
  }

  /** What the loop does with one dropdown: `None` leaves it alone. */
  function PickFor(f: SelectField, p: Profile, cvText: string): (r: Option<string>)
    ensures r.Some? <==> FillsSelect(f)
    ensures r.Some? ==> r.value in RealOptions(f.rawOptions)
  {
    if FillsSelect(f) then Some(SelectValue(f, p, cvText)) else None
  }

  /** What the loop does with each of `fields`, in order. */
  function PickAll(fields: seq<SelectField>, p: Profile, cvText: string): (r: seq<Option<string>>)
    ensures |r| == |fields|
  {
    if fields == [] then []
    else PickAll(fields[..|fields| - 1], p, cvText) + [PickFor(fields[|fields| - 1], p, cvText)]
  }

  /** Each dropdown the loop fills gets one of its own real options, and no other dropdown is touched. */
  lemma PickAllAt(fields: seq<SelectField>, p: Profile, cvText: string, i: nat)
    requires i < |fields|
    ensures PickAll(fields, p, cvText)[i].Some? <==> FillsSelect(fields[i])
    ensures PickAll(fields, p, cvText)[i].Some? ==> PickAll(fields, p, cvText)[i].value in RealOptions(fields[i].rawOptions)
  {
    PickAllIs(fields, p, cvText, i);
    var r := PickFor(fields[i], p, cvText);
    assert r.Some? <==> FillsSelect(fields[i]);
  }

  /** The loop's pick for the i-th dropdown is the one made for it alone. */
  lemma {:induction false} PickAllIs(fields: seq<SelectField>, p: Profile, cvText: string, i: nat)
    requires i < |fields|
    ensures PickAll(fields, p, cvText)[i] == PickFor(fields[i], p, cvText)
  {
    if i < |fields| - 1 {
      PickAllIs(fields[..|fields| - 1], p, cvText, i);
    }
  }

  /** One more dropdown: its pick is appended. */
  lemma PickAllSnoc(fields: seq<SelectField>, p: Profile, cvText: string, i: nat)
    requires i < |fields|
    ensures PickAll(fields[..i + 1], p, cvText) == PickAll(fields[..i], p, cvText) + [PickFor(fields[i], p, cvText)]
  {
    var prefix := fields[..i + 1];
    assert prefix[..i] == fields[..i] && prefix[i] == fields[i];
  }

  /** One dropdown: skipped unless required and unselected, then its options are collected and one is chosen. */
  method FillSelect(f: SelectField, p: Profile, cvText: string) returns (pick: Option<string>)
    ensures pick == PickFor(f, p, cvText)
  {
    pick := None;
    if f.required && !f.hasSelection {
      var optionTexts := CollectOptionTexts(f.rawOptions);
      if optionTexts != [] {
        pick := Some(SelectValue(f, p, cvText));
      }
    }
  }

  /** The loop over dropdowns: `picks[i]` is the option selected, or `None` when the field is left alone. */
  method FillSelects(fields: seq<SelectField>, p: Profile, cvText: string) returns (picks: seq<Option<string>>)
    ensures picks == PickAll(fields, p, cvText)
  {
    picks := [];
    var i := 0;
    while i < |fields|
      invariant 0 <= i <= |fields|
      invariant picks == PickAll(fields[..i], p, cvText)
    {
      var pick := FillSelect(fields[i], p, cvText);
      PickAllSnoc(fields, p, cvText, i);
      picks := picks + [pick];
      i := i + 1;
    }
    assert fields[..i] == fields;
  }
}
