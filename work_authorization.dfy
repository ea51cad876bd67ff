/**
 * The work-authorisation classifier: a question about sponsorship gets the
 * configured "needs sponsorship" answer; otherwise a question about
 * citizenship, residency or the right to work gets the configured
 * "authorised" answer; anything else gets no answer.
 */
module WorkAuthorization {
  import opened Wrappers
  import opened Text
  import opened Config

  /** Authorisation, citizenship and residency phrasings, alternations spelt out. */
  const WorkAuthPatterns: seq<Pattern> := [
    Literal("citizenship"), Literal("citizen of"), Literal("authorized to work"),
    Literal("legally eligible to work"), Literal("legally authorized to work"),
    Literal("right to work"), Literal("reside in"), Literal("residency in"),
    Literal("currently live"), Literal("currently reside"),
    Literal("work permit"), Literal("work authorization"), Literal("work visa"),
    Literal("citoyenneté"), Literal("autorisé à travailler"), Literal("résidence"),
    Literal("work in canada"), Literal("work in usa"), Literal("work in united states"),
    Literal("work in uk"), Literal("work in france")]

  /**
   * Sponsorship phrasings. `sponsorship.*(employment)?.*visa` is `sponsorship`
   * followed by `visa`, since the middle group is optional.
   */
  const SponsorshipQuestionPatterns: seq<Pattern> := [
    Then("require", "sponsorship"),
    Then("need", "sponsorship"),
    Literal("do you need sponsorship"), Literal("do you require sponsorship"),
    Literal("sponsorship required"), Literal("sponsorship needed"),
    Then("sponsorship", "visa"),
    Then("visa", "sponsorship"),
    Then("will you ", " require sponsorship"),
    Literal("sponsorship for employment visa"),
    Then("parrainage", "immigration"), Then("parrainage", "autorisation"), Then("parrainage", "travail"),
    Then("aurez", "parrainage"), Then("aurez-vous", "parrainage")]

  const Countries: seq<string> := ["canada", "usa", "united states", "uk", "france", "germany", "maroc", "morocco"]

  /** The words that, next to a country name, make a label an authorisation question. */
  predicate MentionsWorkOrStatus(text: string) {
    Occurs("work", text) || Occurs("authorized", text) || Occurs("citizen", text) || Occurs("resid", text)
  }

  /** Every sponsorship rule of `get_work_authorization_answer`, on the normalised text. */
  predicate SponsorshipRuleFires(text: string) {
    || AnyMatches(SponsorshipQuestionPatterns, text)
    || (Occurs("sponsorship", text) && (Occurs("require", text) || Occurs("need", text) || Occurs("future", text)))
    || (Occurs("visa", text) && Occurs("sponsorship", text))
    || (Occurs("parrainage", text)
        && (Occurs("immigration", text) || Occurs("autorisation", text) || Occurs("travail", text) || Occurs("aurez", text)))
  }

  /**
   * `is_work_authorization_question(question_label, country_hint)`, where
   * `configuredCountry` is WORK_AUTHORIZATION_COUNTRY.
   */
  function IsWorkAuthorizationQuestion(questionLabel: string, countryHint: string, configuredCountry: string): (b: bool)
    ensures questionLabel == "" ==> !b
    ensures questionLabel != "" && AnyMatches(WorkAuthPatterns, Normalize(questionLabel)) ==> b
  {
    if questionLabel == "" then false
    else
      var text := Normalize(questionLabel);
      var country := Lower(if countryHint != "" then countryHint else configuredCountry);
      || AnyMatches(WorkAuthPatterns, text)
      || (exists c :: c in Countries && Occurs(c, text) && MentionsWorkOrStatus(text))
      || (Occurs(country, text) && MentionsWorkOrStatus(text))
  }

  /** `get_work_authorization_answer`: sponsorship first, then authorisation, else nothing. */
  function WorkAuthorizationAnswer(questionLabel: string, p: Profile): (r: Option<string>)
    ensures questionLabel == "" ==> r == None
    ensures r == None || r == Some(p.workNeedSponsorshipAnswer) || r == Some(p.workAuthorizationAnswer)
    ensures questionLabel != "" && SponsorshipRuleFires(Normalize(questionLabel)) ==> r == Some(p.workNeedSponsorshipAnswer)
  {
    if questionLabel == "" then None
    else if SponsorshipRuleFires(Normalize(questionLabel)) then Some(p.workNeedSponsorshipAnswer)
    else if IsWorkAuthorizationQuestion(questionLabel, "", p.workAuthorizationCountry) then Some(p.workAuthorizationAnswer)
    else None
  }

  // ---------------------------------------------------------------------------
  // Properties of the classifier

  /**
   * When the two configured answers differ, the "authorised" answer comes back
   * exactly when no sponsorship rule fires and the label is an authorisation
   * question.
   */
  lemma AuthorizationAnswerExactly(questionLabel: string, p: Profile)
    requires p.workNeedSponsorshipAnswer != p.workAuthorizationAnswer
    ensures WorkAuthorizationAnswer(questionLabel, p) == Some(p.workAuthorizationAnswer)
            <==> && questionLabel != ""
                 && !SponsorshipRuleFires(Normalize(questionLabel))
                 && IsWorkAuthorizationQuestion(questionLabel, "", p.workAuthorizationCountry)
  {
  }

  /** Sponsorship wins even when an authorisation pattern matches too. */
  lemma SponsorshipBeatsAuthorization(questionLabel: string, p: Profile)
    requires questionLabel != ""
    requires SponsorshipRuleFires(Normalize(questionLabel)) && AnyMatches(WorkAuthPatterns, Normalize(questionLabel))
    ensures IsWorkAuthorizationQuestion(questionLabel, "", p.workAuthorizationCountry)
    ensures WorkAuthorizationAnswer(questionLabel, p) == Some(p.workNeedSponsorshipAnswer)
  {
  }

  /** "sponsorship" with "require", "need" or "future" gets the sponsorship answer. */
  lemma SponsorshipKeywordRule(questionLabel: string, p: Profile)
    requires questionLabel != ""
    requires Occurs("sponsorship", Normalize(questionLabel))
    requires Occurs("require", Normalize(questionLabel)) || Occurs("need", Normalize(questionLabel))
             || Occurs("future", Normalize(questionLabel))
    ensures WorkAuthorizationAnswer(questionLabel, p) == Some(p.workNeedSponsorshipAnswer)
  {
  }

  /** A listed country next to "work", "authorized", "citizen" or "resid" makes an authorisation question. */
  lemma ListedCountryRule(questionLabel: string, countryHint: string, configuredCountry: string, c: string)
    requires questionLabel != "" && c in Countries
    requires Occurs(c, Normalize(questionLabel)) && MentionsWorkOrStatus(Normalize(questionLabel))
    ensures IsWorkAuthorizationQuestion(questionLabel, countryHint, configuredCountry)
  {
  }

  /**
   * The hint, or else the configured country, counts like a listed country.
   * An empty one occurs in every label, so then the keywords alone suffice.
   */
  lemma ConfiguredCountryRule(questionLabel: string, countryHint: string, configuredCountry: string)
    requires questionLabel != "" && MentionsWorkOrStatus(Normalize(questionLabel))
    requires Occurs(Lower(if countryHint != "" then countryHint else configuredCountry), Normalize(questionLabel))
    ensures IsWorkAuthorizationQuestion(questionLabel, countryHint, configuredCountry)
  {
  }

  lemma EmptyCountryMatchesAnyKeywordLabel(questionLabel: string)
    requires questionLabel != "" && MentionsWorkOrStatus(Normalize(questionLabel))
    ensures IsWorkAuthorizationQuestion(questionLabel, "", "")
  {
    OccursSelf(Normalize(questionLabel));
    assert Lower("") == "";
    ConfiguredCountryRule(questionLabel, "", "");
  }

  /** Nothing in the tables fires on an empty text. */
  lemma NothingFiresOnEmpty()
    ensures !SponsorshipRuleFires("")
    ensures !AnyMatches(WorkAuthPatterns, "")
    ensures !MentionsWorkOrStatus("")
  {
    NoPatternMatchesEmpty(SponsorshipQuestionPatterns);
    NoPatternMatchesEmpty(WorkAuthPatterns);
    OccursEmptyText("sponsorship");
    OccursEmptyText("visa");
    OccursEmptyText("parrainage");
    OccursEmptyText("work");
    OccursEmptyText("authorized");
    OccursEmptyText("citizen");
    OccursEmptyText("resid");
  }

  /** A label that normalises to nothing gets no answer. */
  lemma BlankLabelGetsNoAnswer(questionLabel: string, p: Profile)
    requires Normalize(questionLabel) == ""
    ensures WorkAuthorizationAnswer(questionLabel, p) == None
  {
    NothingFiresOnEmpty();
    if questionLabel != "" {
      var country := Lower(p.workAuthorizationCountry);
      assert !(exists c :: c in Countries && Occurs(c, "") && MentionsWorkOrStatus(""));
      assert !IsWorkAuthorizationQuestion(questionLabel, "", p.workAuthorizationCountry);
    }
  }

  /** Two non-empty labels with the same normal form are classified alike. */
  lemma SameNormalFormNonEmpty(a: string, b: string, p: Profile)
    requires a != "" && b != "" && Normalize(a) == Normalize(b)
    ensures WorkAuthorizationAnswer(a, p) == WorkAuthorizationAnswer(b, p)
  {
  }

  /** Case and spacing never change the answer: it depends only on the normalised label. */
  lemma AnswerIgnoresCaseAndSpacing(questionLabel: string, p: Profile)
    ensures WorkAuthorizationAnswer(Normalize(questionLabel), p) == WorkAuthorizationAnswer(questionLabel, p)
  {
    var text := Normalize(questionLabel);
    NormalizeIdempotent(questionLabel);
    if text == "" {
      BlankLabelGetsNoAnswer(questionLabel, p);
      BlankLabelGetsNoAnswer(text, p);
    } else {
      SameNormalFormNonEmpty(text, questionLabel, p);
    }
  }

  /** Two labels that differ only in case and spacing get the same answer. */
  lemma SameNormalFormSameAnswer(a: string, b: string, p: Profile)
    requires Normalize(a) == Normalize(b)
    ensures WorkAuthorizationAnswer(a, p) == WorkAuthorizationAnswer(b, p)
  {
    AnswerIgnoresCaseAndSpacing(a, p);
    AnswerIgnoresCaseAndSpacing(b, p);
  }
}
