/**
 * The pure helpers of the Easy Apply modal filler: the key a question is
 * looked up under, the lookup itself, and the checks made on what the modal
 * shows.
 */
module ApplierKeys {
  import opened Wrappers
  import opened Text

  // ---------------------------------------------------------------------------
  // Question keys and the configured answers

  const YearsKey := "years_of_experience"
  const SalaryKey := "salary"
  const VisaKey := "visa"
  const LinkedinKey := "linkedin_url"
  const KeyMaxLength := 80
  const YearsKeyWords: seq<string> := ["années", "years", "experience"]

  /**
   * `_normalize_question_key`: labels about experience, salary, visas and
   * profile links share one canonical key each (checked in that order);
   * any other label is keyed by its normal form cut to 80 characters.
   */
  function NormalizeQuestionKey(questionText: string): (r: string)
    ensures questionText == "" ==> r == ""
    ensures (questionText != "" && AnyOccurs(YearsKeyWords, Normalize(questionText))) ==> r == YearsKey
    ensures |r| <= KeyMaxLength
  {
    if questionText == "" then ""
    else
      var key := Normalize(questionText);
      if AnyOccurs(YearsKeyWords, key) then YearsKey
      else if Occurs("salaire", key) || Occurs("salary", key) then SalaryKey
      else if Occurs("visa", key) || Occurs("sponsorship", key) then VisaKey
      else if Occurs("linkedin", key) || Occurs("url", key) then LinkedinKey
      else Take(key, KeyMaxLength)
  }

  /** A label that names no canonical topic is keyed by its normal form, cut to 80 characters. */
  lemma PlainLabelKey(questionText: string)
    requires questionText != ""
    requires var key := Normalize(questionText);
             !AnyOccurs(YearsKeyWords, key)
             && !(Occurs("salaire", key) || Occurs("salary", key))
             && !(Occurs("visa", key) || Occurs("sponsorship", key))
             && !(Occurs("linkedin", key) || Occurs("url", key))
    ensures NormalizeQuestionKey(questionText) == Take(Normalize(questionText), KeyMaxLength)
    ensures |Normalize(questionText)| <= KeyMaxLength ==> NormalizeQuestionKey(questionText) == Normalize(questionText)
  {
  }

  /** Such a key is lower case, starts with no whitespace and has no whitespace but single spaces. */
  lemma PlainKeyShape(questionText: string)
    ensures NormalFormKey(Take(Normalize(questionText), KeyMaxLength))
  {
    NormalizeInNormalForm(questionText);
    TakeOfNormalForm(Normalize(questionText), KeyMaxLength);
  }

  /** What a plain key looks like: lower case and no whitespace but single inner spaces. */
  predicate NormalFormKey(k: string) {
    IsLowered(k) && NoDoubleSpace(k) && (forall i :: 0 <= i < |k| ==> IsSpace(k[i]) ==> k[i] == ' ')
    && (k == [] || !IsSpace(k[0]))
  }

  lemma TakeOfNormalForm(k: string, n: nat)
    requires NormalForm(k)
    ensures NormalFormKey(Take(k, n))
  {
    var t := Take(k, n);
    forall i | 0 <= i < |t| ensures t[i] == k[i] {
    }
  }

  /** Two labels with the same normal form get the same key. */
  lemma KeyIgnoresCaseAndSpacing(a: string, b: string)
    requires a != "" && b != "" && Normalize(a) == Normalize(b)
    ensures NormalizeQuestionKey(a) == NormalizeQuestionKey(b)
  {
  }

  /** The configured answers, in insertion order, as key/value pairs. */
  type FormAnswers = seq<(string, string)>

  /** `form_answers.get(key)`: the value stored under `key`. */
  function Lookup(answers: FormAnswers, key: string): (r: Option<string>)
    ensures r.None? <==> forall i :: 0 <= i < |answers| ==> answers[i].0 != key
    ensures r.Some? ==> exists i :: 0 <= i < |answers| && answers[i] == (key, r.value)
  {
    if answers == [] then None
    else if answers[0].0 == key then Some(answers[0].1)
    else
      var r := Lookup(answers[1..], key);
      assert r.Some? ==> exists i :: 0 <= i < |answers[1..]| && answers[1..][i] == (key, r.value);
      r
  }

  /** A key and a questionText that contain one another, ignoring case. */
  predicate KeyRelates(key: string, questionText: string) {
    Occurs(Lower(key), Lower(questionText)) || Occurs(Lower(questionText), Lower(key))
  }

  /** The value of the first entry whose key and the questionText contain one another. */
  function FirstRelated(answers: FormAnswers, questionText: string): (r: Option<string>)
    ensures r.None? <==> forall i :: 0 <= i < |answers| ==> !KeyRelates(answers[i].0, questionText)
    ensures r.Some? ==> exists i :: 0 <= i < |answers| && KeyRelates(answers[i].0, questionText) && answers[i].1 == r.value
                                    && forall j :: 0 <= j < i ==> !KeyRelates(answers[j].0, questionText)
  {
    if answers == [] then None
    else if KeyRelates(answers[0].0, questionText) then Some(answers[0].1)
    else
      var r := FirstRelated(answers[1..], questionText);
      if r.Some? then
        var i :| 0 <= i < |answers[1..]| && KeyRelates(answers[1..][i].0, questionText) && answers[1..][i].1 == r.value
                 && forall j :: 0 <= j < i ==> !KeyRelates(answers[1..][j].0, questionText);
        assert answers[i + 1] == answers[1..][i];
        r
      else r
  }

  /** Python's `a or b` on two looked-up values: the first unless it is missing or empty. */
  function OrElse(a: Option<string>, b: Option<string>): Option<string> {
    if a.Some? && a.value != "" then a else b
  }

  /**
   * `_find_answer_for_question`: the value under the questionText's key if there is
   * one, else the first entry whose key and the questionText contain one another,
   * else the value under the questionText itself or under its key.
   */
  function FindAnswer(questionLabel: string, answers: FormAnswers): (r: Option<string>)
    ensures var norm := NormalizeQuestionKey(questionLabel);
            norm != "" && Lookup(answers, norm).Some? ==> r == Lookup(answers, norm)
  {
    var norm := NormalizeQuestionKey(questionLabel);
    if norm != "" && Lookup(answers, norm).Some? then Lookup(answers, norm)
    else
      var related := FirstRelated(answers, questionLabel);
      if related.Some? then related
      else OrElse(Lookup(answers, questionLabel), Lookup(answers, norm))
  }

  /**
   * The final `get` calls of `_find_answer_for_question` can never find
   * anything: an entry under the questionText itself, or under an empty key, would
   * already have been returned by the containment search.
   */
  lemma FinalLookupsFindNothing(questionLabel: string, answers: FormAnswers)
    requires FirstRelated(answers, questionLabel).None?
    requires NormalizeQuestionKey(questionLabel) == "" || Lookup(answers, NormalizeQuestionKey(questionLabel)).None?
    ensures FindAnswer(questionLabel, answers) == None
  {
    OccursSelf(Lower(questionLabel));
    OccursEmptyText(Lower(questionLabel));
  }

  /** So the lookup is: the key's entry, else the first related entry, else nothing. */
  lemma FindAnswerCases(questionLabel: string, answers: FormAnswers)
    ensures var norm := NormalizeQuestionKey(questionLabel);
            FindAnswer(questionLabel, answers) ==
              if norm != "" && Lookup(answers, norm).Some? then Lookup(answers, norm)
              else FirstRelated(answers, questionLabel)
  {
    var norm := NormalizeQuestionKey(questionLabel);
    if !(norm != "" && Lookup(answers, norm).Some?) && FirstRelated(answers, questionLabel).None? {
      FinalLookupsFindNothing(questionLabel, answers);
    }
  }

  // ---------------------------------------------------------------------------
  // What the modal shows

  const ValidationErrorPhrases: seq<string> := [
    "enter a decimal number larger than 0.0",
    "enter a whole number between 0 and 99",
    "please enter a valid",
    "veuillez saisir une réponse valable",
    "veuillez saisir",
    "valid response",
    "réponse valable",
    "this field is required",
    "ce champ est obligatoire"
  ]

  /**
   * `_modal_has_validation_errors`. `bodyText` is the modal's lower-cased
   * text and `invalidCount` the number of `aria-invalid='true'` elements;
   * `None` stands for a query that raised, which makes the answer false.
   */
  function HasValidationErrors(bodyText: Option<string>, invalidCount: Option<nat>): (b: bool)
    ensures b <==> bodyText.Some? &&
                   (AnyOccurs(ValidationErrorPhrases, bodyText.value) || (invalidCount.Some? && invalidCount.value > 0))
  {
    if bodyText.None? then false
    else if AnyOccurs(ValidationErrorPhrases, bodyText.value) then true
    else invalidCount.Some? && invalidCount.value > 0
  }

  /** The French "veuillez saisir" phrase alone is enough, whatever follows it. */
  lemma FrenchPromptIsAnError(bodyText: string, invalidCount: Option<nat>)
    requires Occurs("veuillez saisir", bodyText)
    ensures HasValidationErrors(Some(bodyText), invalidCount)
  {
    assert "veuillez saisir" in ValidationErrorPhrases;
  }

  const ConsentKeywords: seq<string> := [
    "consent", "i consent", "agree", "privacy", "declare", "read and understand", "approve", "accept", "authorize"
  ]

  /** A consent or approval checkbox is ticked when its (lower-cased) context names consent. */
  predicate IsConsentCheckbox(context: string) {
    context != "" && AnyOccurs(ConsentKeywords, context)
  }

  /** A checkbox is ticked as consent exactly when its text mentions a consent keyword; the blank guard adds nothing. */
  lemma ConsentCheckboxExactly(context: string)
    ensures IsConsentCheckbox(context) <==> AnyOccurs(ConsentKeywords, context)
    ensures Occurs("i agree", context) ==> IsConsentCheckbox(context)
  {
    if AnyOccurs(ConsentKeywords, context) {
      var k :| k in ConsentKeywords && Occurs(k, context);
      OccursEmptyText(k);
    }
    if Occurs("i agree", context) {
      OccursTransitive("agree", "i agree", context);
      assert "agree" in ConsentKeywords;
    }
  }

  /**
   * The option picked in a required checkbox group: the first whose label
   * mentions LinkedIn in any case, else the option at `randomIndex` (the
   * random pick). Labels are the `data-test-text-selectable-option__label`
   * values; `None` when the attribute is missing.
   */
  function CheckboxGroupChoice(labels: seq<Option<string>>, randomIndex: nat): (k: nat)
    requires randomIndex < |labels|
    ensures k < |labels|
    ensures (exists i :: 0 <= i < |labels| && MentionsLinkedin(labels[i])) ==>
              MentionsLinkedin(labels[k]) && forall j :: 0 <= j < k ==> !MentionsLinkedin(labels[j])
    ensures (forall i :: 0 <= i < |labels| ==> !MentionsLinkedin(labels[i])) ==> k == randomIndex
  {
    match FirstLinkedin(labels, 0)
    case Some(i) => i
    case None => randomIndex
  }

  predicate MentionsLinkedin(questionText: Option<string>) {
    questionText.Some? && questionText.value != "" && Occurs("linkedin", Lower(questionText.value))
  }

  function FirstLinkedin(labels: seq<Option<string>>, from: nat): (r: Option<nat>)
    requires from <= |labels|
    ensures r.Some? ==> from <= r.value < |labels| && MentionsLinkedin(labels[r.value])
                        && forall j :: from <= j < r.value ==> !MentionsLinkedin(labels[j])
    ensures r.None? ==> forall j :: from <= j < |labels| ==> !MentionsLinkedin(labels[j])
    decreases |labels| - from
  {
    if from == |labels| then None
    else if MentionsLinkedin(labels[from]) then Some(from)
    else FirstLinkedin(labels, from + 1)
  }
}
