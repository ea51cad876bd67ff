/**
 * The experience knowledge table: how many years to claim for a technology
 * named in a question, and whether a question asks Yes/No about experience.
 * Every rule is substring containment on the normalised label, checked in a
 * fixed order where the first rule that fires decides.
 */
module ExperienceMap {
  import opened Wrappers
  import opened Text

  const YearsJavaCore := 4
  const YearsPrimary := 3
  const YearsOther := 2
  const TotalYearsDefault := 3

  /** Technologies answered with `YearsJavaCore`. */
  const Tech4Years: seq<string> := ["java", "core java", "java se", "jvm"]

  /** Technologies answered with `YearsPrimary`. */
  const Tech3Years: seq<string> := [
    "spring", "spring boot", "springboot", "postgres", "postgresql", "mysql",
    "websocket", "web socket", "webservices", "web services", "rest api", "restapis",
    "restful", "react", "angular", "mockito", "unit test", "unittesting", "junit",
    "agile", "scrum", "agile/scrum", "microservices", "docker", "ci/cd", "git",
    "nestjs", "typescript", "ejb", "enterprise javabeans", "data structures",
    "keycloak", "rbac", "graphql", "graph ql", "ruby", "banking", "angular ui",
    "ui integration"]

  /** Words without which a label is not a years question at all. */
  const YearTriggers: seq<string> := ["year", "years", "année", "expérience", "experience"]

  /** The Yes/No phrasings, with each alternation of the original table spelt out. */
  const YesNoExperiencePatterns: seq<Pattern> := [
    Then("do you have ", " experience"),
    Literal("do you have experience"),
    Literal("do you have at least"), Literal("do you have an understanding of"),
    Literal("have you worked"), Literal("have you used"), Literal("have you experience"),
    Literal("are you experienced"), Literal("are you familiar"),
    Then("experience with ", "?"),
    Literal("experience programming"), Literal("experience using"), Literal("experience with"),
    Then("avez-vous ", " expérience"),
    Literal("oui ou non"),
    Literal("yes or no"),
    Literal("yes/no")]

  /** The label mentions "year" or "experience" (the English triggers). */
  predicate MentionsYearOrExperience(text: string) {
    Occurs("year", text) || Occurs("experience", text)
  }

  /**
   * `get_years_for_question`: the years to claim, or `None` when the label is
   * not a years question.
   */
  function YearsForQuestion(questionLabel: string): (r: Option<int>)
    ensures questionLabel == "" ==> r == None
    ensures r.Some? ==> r.value in {YearsOther, YearsPrimary, YearsJavaCore}
  {
    if questionLabel == "" then None else YearsForText(Normalize(questionLabel))
  }

  /** The table's rules, on the normalised label. */
  function YearsForText(text: string): (r: Option<int>)
    ensures r.Some? ==> r.value in {YearsOther, YearsPrimary, YearsJavaCore}
  {
    if !AnyOccurs(YearTriggers, text) then None
    else if Occurs("total", text) && MentionsYearOrExperience(text) then Some(TotalYearsDefault)
    else if AnyOccurs(Tech4Years, text) then Some(YearsJavaCore)
    else if AnyOccurs(Tech3Years, text) then Some(YearsPrimary)
    else if MentionsYearOrExperience(text) then Some(YearsOther)
    else None
  }

  /** `is_yes_no_experience_question`. */
  function IsYesNoExperienceQuestion(questionLabel: string): (b: bool)
    ensures questionLabel == "" ==> !b
    ensures Occurs("how many", Normalize(questionLabel)) && Occurs("years", Normalize(questionLabel)) ==> !b
  {
    questionLabel != "" && IsYesNoText(Normalize(questionLabel))
  }

  /** The Yes/No rules, on the normalised label. */
  predicate IsYesNoText(text: string) {
    !(Occurs("how many", text) && Occurs("years", text)) && AnyMatches(YesNoExperiencePatterns, text)
  }

  /**
   * `get_yes_no_for_experience`: "Yes" when we claim more than zero years,
   * which every tier does.
   */
  function YesNoForExperience(questionLabel: string): (r: Option<string>)
    ensures r.None? <==> !IsYesNoExperienceQuestion(questionLabel)
    ensures r.Some? ==> r.value == "Yes"
  {
    if !IsYesNoExperienceQuestion(questionLabel) then None
    else
      var years := match YearsForQuestion(questionLabel) case Some(y) => y case None => YearsOther;
      if years > 0 then Some("Yes") else Some("No")
  }

  // ---------------------------------------------------------------------------
  // Properties of the table

  /** Without one of the trigger words the label is not a years question. */
  lemma YearsNeedTrigger(questionLabel: string)
    requires !AnyOccurs(YearTriggers, Normalize(questionLabel))
    ensures YearsForQuestion(questionLabel) == None
  {
  }

  /** A common-stack technology, with no Java-tier token and no "total", gets the middle tier. */
  lemma PrimaryTier(questionLabel: string)
    requires questionLabel != "" && MentionsYearOrExperience(Normalize(questionLabel))
    requires !Occurs("total", Normalize(questionLabel)) && !AnyOccurs(Tech4Years, Normalize(questionLabel))
    requires AnyOccurs(Tech3Years, Normalize(questionLabel))
    ensures YearsForQuestion(questionLabel) == Some(YearsPrimary)
  {
    TriggeredByYearOrExperience(Normalize(questionLabel));
  }

  /** A years or experience label naming no listed technology gets the lowest tier. */
  lemma OtherTier(questionLabel: string)
    requires questionLabel != "" && MentionsYearOrExperience(Normalize(questionLabel))
    requires !Occurs("total", Normalize(questionLabel)) && !AnyOccurs(Tech4Years, Normalize(questionLabel))
    requires !AnyOccurs(Tech3Years, Normalize(questionLabel))
    ensures YearsForQuestion(questionLabel) == Some(YearsOther)
  {
    TriggeredByYearOrExperience(Normalize(questionLabel));
  }

  lemma TriggeredByYearOrExperience(text: string)
    requires MentionsYearOrExperience(text)
    ensures AnyOccurs(YearTriggers, text)
  {
    if Occurs("year", text) {
      assert "year" in YearTriggers;
    } else {
      assert "experience" in YearTriggers;
    }
  }

  /** "Total" with "year" or "experience" gets the total default, whatever technology is named. */
  lemma TotalWins(questionLabel: string)
    requires questionLabel != "" && Occurs("total", Normalize(questionLabel))
    requires MentionsYearOrExperience(Normalize(questionLabel))
    ensures YearsForQuestion(questionLabel) == Some(TotalYearsDefault)
  {
    var text := Normalize(questionLabel);
    assert AnyOccurs(YearTriggers, text) by {
      if Occurs("year", text) {
        assert "year" in YearTriggers;
      } else {
        assert "experience" in YearTriggers;
      }
    }
    assert YearsForText(text) == Some(TotalYearsDefault);
  }

  /** Tier precedence: a Java-tier token wins over every 3-year technology. */
  lemma JavaTierWins(questionLabel: string, tech: string)
    requires questionLabel != "" && tech in Tech4Years
    requires Occurs(tech, Normalize(questionLabel)) && MentionsYearOrExperience(Normalize(questionLabel))
    requires !Occurs("total", Normalize(questionLabel))
    ensures YearsForQuestion(questionLabel) == Some(YearsJavaCore)
  {
    var text := Normalize(questionLabel);
    assert AnyOccurs(YearTriggers, text) by {
      if Occurs("year", text) {
        assert "year" in YearTriggers;
      } else {
        assert "experience" in YearTriggers;
      }
    }
    assert AnyOccurs(Tech4Years, text);
    assert YearsForText(text) == Some(YearsJavaCore);
  }

  /** Containment is by substring, so a label naming JavaScript lands in the Java tier. */
  lemma JavaScriptCountsAsJava(questionLabel: string)
    requires questionLabel != ""
    requires Occurs("javascript", Normalize(questionLabel)) && Occurs("years", Normalize(questionLabel))
    requires !Occurs("total", Normalize(questionLabel))
    ensures YearsForQuestion(questionLabel) == Some(YearsJavaCore)
  {
    var text := Normalize(questionLabel);
    JavaInJavaScript();
    OccursTransitive("java", "javascript", text);
    YearInYears();
    OccursTransitive("year", "years", text);
    assert "java" in Tech4Years;
    JavaTierWins(questionLabel, "java");
  }

  lemma JavaInJavaScript()
    ensures Occurs("java", "javascript")
  {
    assert "javascript"[..4] == "java";
    assert StartsWith("javascript", "java");
  }

  lemma YearInYears()
    ensures Occurs("year", "years")
  {
    assert "years"[..4] == "year";
    assert StartsWith("years", "year");
  }

  /**
   * A label whose only trigger is French ("années d'expérience") and that names
   * no technology of either tier gets no answer from the table.
   */
  lemma FrenchOnlyTriggerGivesNone(questionLabel: string)
    requires !MentionsYearOrExperience(Normalize(questionLabel))
    requires !AnyOccurs(Tech4Years, Normalize(questionLabel)) && !AnyOccurs(Tech3Years, Normalize(questionLabel))
    ensures YearsForQuestion(questionLabel) == None
  {
  }

  /** The table only looks at the normalised label, so normalising first changes nothing. */
  lemma YearsIgnoreCaseAndSpacing(questionLabel: string)
    ensures YearsForQuestion(Normalize(questionLabel)) == YearsForQuestion(questionLabel)
  {
    var text := Normalize(questionLabel);
    NormalizeIdempotent(questionLabel);
    if text == "" {
      NoTriggerInEmptyText();
      assert YearsForText(text) == None;
    } else {
      assert questionLabel != "";
      assert YearsForQuestion(text) == YearsForText(Normalize(text));
    }
  }

  lemma NoTriggerInEmptyText()
    ensures !AnyOccurs(YearTriggers, "")
  {
    forall k | k in YearTriggers ensures !Occurs(k, "") {
      OccursEmptyText(k);
    }
  }

  /** The same holds for the Yes/No classification. */
  lemma YesNoIgnoresCaseAndSpacing(questionLabel: string)
    ensures IsYesNoExperienceQuestion(Normalize(questionLabel)) == IsYesNoExperienceQuestion(questionLabel)
  {
    var text := Normalize(questionLabel);
    NormalizeIdempotent(questionLabel);
    if text == "" {
      NoYesNoInEmptyText();
    } else {
      assert questionLabel != "";
      assert IsYesNoExperienceQuestion(text) == IsYesNoText(Normalize(text));
    }
  }

  lemma NoYesNoInEmptyText()
    ensures !IsYesNoText("")
  {
    forall p | p in YesNoExperiencePatterns ensures !Matches(p, "") {
    }
  }

  /**
   * A "how many years" question is never treated as Yes/No, so it never gets
   * a Yes/No answer, even when it also matches a Yes/No phrasing.
   */
  lemma HowManyYearsIsNotYesNo(questionLabel: string)
    requires Occurs("how many", Normalize(questionLabel)) && Occurs("years", Normalize(questionLabel))
    ensures YesNoForExperience(questionLabel) == None
  {
  }
}
