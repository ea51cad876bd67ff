/**
 * The answer resolver for Easy Apply form questions: given a question label,
 * the configured profile, the CV text and what the language models reply, it
 * picks the answer to type or choose, trying its rules in a fixed order.
 */
module CvReader {
  import opened Wrappers
  import opened Text
  import opened Config
  import opened ExperienceMap
  import opened WorkAuthorization
  import opened GeminiCv
  import opened SkillExtraction

  // ---------------------------------------------------------------------------
  // Is a skill the question asks about in the CV or in the configured list?

  /** The non-blank comma-separated entries of a configured list, trimmed and lower-cased. */
  function ListEntries(parts: seq<string>): (r: seq<string>)
    ensures forall e :: e in r ==> e != ""
  {
    if parts == [] then []
    else
      var rest := ListEntries(parts[1..]);
      var e := Lower(Strip(parts[0]));
      if Strip(parts[0]) != "" then [e] + rest else rest
  }

  /** One phrase and one list entry name the same skill when either contains the other. */
  predicate ListNames(entries: seq<string>, phrases: seq<string>) {
    exists ph, e :: ph in phrases && e in entries && (Occurs(e, ph) || Occurs(ph, e))
  }

  /** A phrase appears in the lower-cased CV, or, when longer than three characters, does once spaces are ignored. */
  predicate CvNames(cvLower: string, phrases: seq<string>) {
    exists ph :: ph in phrases &&
      (Occurs(ph, cvLower) || (|ph| > 3 && Occurs(RemoveSpaces(ph), RemoveSpaces(cvLower))))
  }

  /**
   * `_skill_mentioned_in_cv`: a question whose skills cannot be extracted
   * counts as mentioned; otherwise some phrase must match the configured list
   * or the CV.
   */
  function SkillMentionedInCv(questionLabel: string, cvText: string, configSkillsList: string): (b: bool)
    ensures SkillPhrases(questionLabel) == [] ==> b
    ensures b <==> SkillPhrases(questionLabel) == []
                   || (Strip(configSkillsList) != "" && ListNames(ListEntries(SplitOn(configSkillsList, ',')), SkillPhrases(questionLabel)))
                   || (Strip(cvText) != "" && CvNames(Lower(cvText), SkillPhrases(questionLabel)))
  {
    var phrases := SkillPhrases(questionLabel);
    if phrases == [] then true
    else if Strip(configSkillsList) != "" && ListNames(ListEntries(SplitOn(configSkillsList, ',')), phrases) then true
    else Strip(cvText) != "" && CvNames(Lower(cvText), phrases)
  }

  /** A skill phrase found verbatim in a non-blank CV counts as mentioned, whatever the configured list says. */
  lemma PhraseInCvIsMentioned(questionLabel: string, cvText: string, configSkillsList: string, ph: string)
    requires Strip(cvText) != ""
    requires ph in SkillPhrases(questionLabel) && Occurs(ph, Lower(cvText))
    ensures SkillMentionedInCv(questionLabel, cvText, configSkillsList)
  {
    assert CvNames(Lower(cvText), SkillPhrases(questionLabel));
  }

  /** With no CV text and no configured list, only a question without extractable skills counts as mentioned. */
  lemma NothingToSearch(questionLabel: string)
    ensures SkillMentionedInCv(questionLabel, "", "") <==> SkillPhrases(questionLabel) == []
  {
  }

  // ---------------------------------------------------------------------------
  // Certifications

  predicate IsNotSpace(c: char) {
    !IsSpace(c)
  }

  /** `s.split()[0]` for a string that does not start with whitespace: everything up to the first whitespace. */
  function FirstWord(s: string): (r: string)
    ensures StartsWith(s, r)
    ensures forall i :: 0 <= i < |r| ==> !IsSpace(r[i])
    ensures |r| < |s| ==> IsSpace(s[|r|])
  {
    s[..|s| - |TrimLeftWhere(s, IsNotSpace)|]
  }

  /**
   * `_has_certification`: the first word of the certification's name appears
   * in the CV, or a configured entry is part of the name or contains that
   * word. (The source's two further CV tests repeat the first one under extra
   * conditions and can never succeed where it failed.)
   */
  function HasCertification(certName: string, cvText: string, configList: string): (b: bool)
    ensures Strip(certName) == "" ==> !b
    ensures b <==> Strip(certName) != "" &&
                   (Occurs(FirstWord(Lower(Strip(certName))), Lower(cvText))
                    || (configList != "" && CertificationListed(Lower(Strip(certName)), SplitOn(configList, ','))))
  {
    if Strip(certName) == "" then false
    else
      var clean := Lower(Strip(certName));
      var key := FirstWord(clean);
      if Occurs(key, Lower(cvText)) then true
      else configList != "" && CertificationListed(clean, SplitOn(configList, ','))
  }

  /** Some configured entry, trimmed and lower-cased, is part of the name or contains its first word. */
  predicate CertificationListed(clean: string, parts: seq<string>) {
    exists part :: part in parts && Lower(Strip(part)) != "" &&
      (Occurs(Lower(Strip(part)), clean) || Occurs(FirstWord(clean), Lower(Strip(part))))
  }

  /** A certification listed verbatim in the configuration is held. */
  lemma ListedCertificationIsHeld(certName: string, cvText: string, configList: string)
    requires Strip(certName) != "" && configList != ""
    requires Lower(Strip(certName)) in ListEntries(SplitOn(configList, ','))
    ensures HasCertification(certName, cvText, configList)
  {
    var clean := Lower(Strip(certName));
    var part := ListedPart(SplitOn(configList, ','), clean);
    OccursSelf(clean);
  }

  /** An entry of `ListEntries(parts)` comes from some part. */
  lemma {:induction false} ListedPart(parts: seq<string>, e: string) returns (part: string)
    requires e in ListEntries(parts)
    ensures part in parts && Lower(Strip(part)) == e && Strip(part) != ""
  {
    if Strip(parts[0]) != "" && e == Lower(Strip(parts[0])) {
      part := parts[0];
    } else {
      part := ListedPart(parts[1..], e);
    }
  }

  const CertificationKeywords: seq<string> := ["certificat", "certification", "permit", "permis", "licence"]

  /** Prefixes that show the text after a colon is still the question, not a name. */
  const QuestionOpenings: seq<string> := ["avez", "do you", "have you"]

  /**
   * `_certification_question_and_name`: for a certification or permit
   * question, the name of what is asked about, taken after the colon when
   * there is a usable one, else the whole trimmed label (certificates only).
   */
  function CertificationName(questionLabel: string): (r: Option<string>)
    ensures r.Some? ==> AnyOccurs(CertificationKeywords, Lower(questionLabel))
    ensures r.Some? ==> r.value != "" || Strip(questionLabel) == ""
  {
    if questionLabel == "" || !AnyOccurs(CertificationKeywords, Lower(questionLabel)) then None
    else
      var after := if ':' in questionLabel then Strip(DropQuestionTail(Strip(AfterFirst(questionLabel, ':')))) else "";
      if ':' in questionLabel && after != "" && |after| < 80
         && !(exists o :: o in QuestionOpenings && StartsWith(Lower(after), o)) then
        Some(after)
      else if Occurs("certification", Lower(questionLabel)) || Occurs("certificat", Lower(questionLabel)) then
        Some(Strip(questionLabel))
      else None
  }

  // ---------------------------------------------------------------------------
  // Loading the CV

  /** The text of each page (`extract_text() or ""`) joined with line breaks. */
  function JoinPages(pages: seq<Option<string>>): (r: string)
    ensures pages != [] ==> |r| >= |pages| - 1
  {
    if pages == [] then ""
    else if |pages| == 1 then PageText(pages[0])
    else JoinPages(pages[..|pages| - 1]) + "\n" + PageText(pages[|pages| - 1])
  }

  function PageText(page: Option<string>): string {
    if page.Some? then page.value else ""
  }

  /** Joining pages keeps every page's text in order: the text of the last page ends the whole. */
  lemma LastPageEndsText(pages: seq<Option<string>>)
    requires pages != []
    ensures var t := JoinPages(pages);
            var last := PageText(pages[|pages| - 1]);
            |last| <= |t| && t[|t| - |last|..] == last
  {
  }

  /** The process-wide cache of the CV text (`_cv_text_cache`). */
  class CvCache {
    var cache: Option<string>

    constructor()
      ensures cache == None
    {
      cache := None;
    }

    /**
     * `load_cv_text`. The file system and the PDF reader are parameters:
     * whether the path exists, whether the PDF library is installed, and the
     * pages the reader extracts (`None` when reading raises). Only a
     * successful read fills the cache; every failure returns "".
     */
    method LoadCvText(cvPath: string, pathExists: bool, pdfReaderAvailable: bool, pages: Option<seq<Option<string>>>)
      returns (text: string)
      modifies this
      ensures old(cache).Some? ==> text == old(cache).value && cache == old(cache)
      ensures old(cache).None? && (cvPath == "" || !pathExists || !pdfReaderAvailable || pages.None?) ==>
                text == "" && cache == None
      ensures old(cache).None? && cvPath != "" && pathExists && pdfReaderAvailable && pages.Some? ==>
                text == JoinPages(pages.value) && cache == Some(text)
      ensures cache.Some? ==> text == cache.value
    {
      if cache.Some? {
        return cache.value;
      }
      if cvPath == "" || !pathExists || !pdfReaderAvailable || pages.None? {
        return "";
      }
      var ps := pages.value;
      text := "";
      var i := 0;
      while i < |ps|
        invariant 0 <= i <= |ps|
        invariant text == JoinPages(ps[..i])
      {
        assert ps[..i + 1][..i] == ps[..i];
        if i == 0 {
          text := PageText(ps[0]);
        } else {
          text := text + "\n" + PageText(ps[i]);
        }
        i := i + 1;
      }
      assert ps[..|ps|] == ps;
      cache := Some(text);
    }
  }

  // ---------------------------------------------------------------------------
  // The resolver, rule by rule

  /** What the language models reply to each kind of request the resolver may make. */
  datatype Oracles = Oracles(salary: Llm, yearsFromCv: Llm, cvAnswer: Llm, anyAnswer: Llm)

  const AnswerMaxLength := 100

  const HybridKeywords: seq<string> := [
    "hybride", "hybrid", "remote", "télétravail", "telework", "work from home", "présence obligatoire",
    "on-site", "on site", "in-office", "work arrangement", "mode de travail", "work mode"
  ]
  const FirstNameKeywords: seq<string> := ["first name", "prénom", "prenom", "given name"]
  const LastNameKeywords: seq<string> := ["last name", "nom de famille", "family name", "surname"]
  const GenderKeywords: seq<string> := ["gender", "sexe", "sex ", "male", "female", "how do you describe your gender"]
  const NegativeHybrid: seq<string> := ["no", "non", "0", "false"]

  /** The configured value when set, else the default, trimmed: `(X or default).strip()`. */
  function OrDefault(value: string, default: string): string {
    Strip(if value != "" then value else default)
  }

  /** The configured work-mode answer reduced to "Yes" or "No". */
  function HybridAnswer(configured: string): (r: string)
    ensures r == "No" <==> Lower(OrDefault(configured, "Yes")) in NegativeHybrid
    ensures r == "Yes" || r == "No"
  {
    if Lower(OrDefault(configured, "Yes")) in NegativeHybrid then "No" else "Yes"
  }

  /** Rules 2 to 3a: legal status in Canada, the city, first and last name. `l` is the lower-cased trimmed label. */
  function IdentityAnswer(l: string, p: Profile): Option<string> {
    if Occurs("legal status", l) && Occurs("canada", l) then Some("No status")
    else if Occurs("location", l) && Occurs("city", l) && p.locationCity != "" then Some(Strip(p.locationCity))
    else if AnyOccurs(FirstNameKeywords, l) && !Occurs("last", l) && !Occurs("nom de famille", l) then
      Some(if p.firstName != "" then Strip(p.firstName) else "N/A")
    else if AnyOccurs(LastNameKeywords, l) || Strip(l) == "nom" then
      Some(if p.lastName != "" then Strip(p.lastName) else "N/A")
    else None
  }

  /** Rules 3b to 5: work mode, salary expectation, notice period. */
  function TermsAnswer(l: string, p: Profile, salaryLlm: Llm): Option<string> {
    if AnyOccurs(HybridKeywords, l) then Some(HybridAnswer(p.hybridAnswer))
    else if Occurs("salary", l) && (Occurs("expectation", l) || Occurs("expected", l) || Occurs("compensation", l)) then
      Some(SalaryExpectation(salaryLlm))
    else if Occurs("notice", l) && (Occurs("start", l) || Occurs("before", l) || Occurs("joining", l)) then
      Some(OrDefault(p.noticePeriod, "3 months"))
    else None
  }

  /** Rules 5b and 5c: current company and title, pronouns, gender. */
  function EmploymentAnswer(l: string, p: Profile): Option<string> {
    if Occurs("current company", l) || (Occurs("company", l) && Occurs("current", l)) then
      Some(OrDefault(p.currentCompany, "N/A"))
    else if Occurs("current title", l) || (Occurs("title", l) && Occurs("current", l)) then
      Some(OrDefault(p.currentTitle, "N/A"))
    else if Occurs("pronouns", l) then Some("Prefer not to say")
    else if AnyOccurs(GenderKeywords, l) then Some(if p.gender != "" then Strip(p.gender) else "Male")
    else None
  }

  /** Rules 2 to 5c, in order: the answers taken from the configured profile. */
  function ProfileAnswer(l: string, p: Profile, salaryLlm: Llm): Option<string> {
    var identity := IdentityAnswer(l, p);
    if identity.Some? then identity
    else
      var terms := TermsAnswer(l, p, salaryLlm);
      if terms.Some? then terms else EmploymentAnswer(l, p)
  }

  /** Rule 5d: a certification question is answered "Yes" exactly when the certification is held. */
  function CertificationAnswer(questionLabel: string, p: Profile, cv: string): (r: Option<string>)
    ensures r.Some? <==> CertificationName(questionLabel).Some?
    ensures r == Some("Yes") <==>
              CertificationName(questionLabel).Some? && HasCertification(CertificationName(questionLabel).value, cv, p.certifications)
    ensures r.Some? ==> r.value == "Yes" || r.value == "No"
  {
    match CertificationName(questionLabel)
    case None => None
    case Some(name) => Some(if HasCertification(name, cv, p.certifications) then "Yes" else "No")
  }

  /** Labels asking for years of experience that are really rating fields, left to rule 8b. */
  const RatingYearsKeywords: seq<string> := [
    "frontend", "backend", "microservice", "api", "database", "devops", "fullstack", "mobile", "cloud", "security", "testing"
  ]

  /** `str(int(years_default))`, or "3" when the configured default is not an integer. */
  function DefaultYears(yearsDefault: string): (r: string)
    ensures IsWholeNumber(r)
  {
    match ParseInt(yearsDefault)
    case Some(n) => IntToStringWhole(n); IntToString(n)
    case None => "3"
  }

  /** Whether the AI may be asked about the CV: it is enabled and the CV has at least 50 non-blank-edged characters. */
  predicate CvUsable(p: Profile, cv: string) {
    p.useGeminiForCv && cv != "" && |Strip(cv)| >= 50
  }

  /**
   * Rule 6: a years-of-experience question that is not a rating field gets a
   * whole number: 0 when a "how many" question names a skill the candidate
   * lacks, else the experience table, else the AI reading of the CV, else the
   * configured default.
   */
  function YearsAnswer(questionLabel: string, l: string, p: Profile, cv: string, llm: Llm): (r: Option<string>)
    ensures r.Some? <==> Occurs("years", l) && Occurs("experience", l) && !AnyOccurs(RatingYearsKeywords, l)
  {
    if !(Occurs("years", l) && Occurs("experience", l)) || AnyOccurs(RatingYearsKeywords, l) then None
    else if Occurs("how many", l) && !SkillMentionedInCv(questionLabel, cv, p.certifications) then Some("0")
    else if YearsForQuestion(questionLabel).Some? then Some(IntToString(YearsForQuestion(questionLabel).value))
    else if CvUsable(p, cv) && YearsFromCv(questionLabel, cv, llm).Some? then YearsFromCv(questionLabel, cv, llm)
    else Some(DefaultYears(p.yearsDefault))
  }

  /** Every answer of rule 6 is a whole number. */
  lemma YearsAnswerIsWhole(questionLabel: string, l: string, p: Profile, cv: string, llm: Llm)
    requires YearsAnswer(questionLabel, l, p, cv, llm).Some?
    ensures IsWholeNumber(YearsAnswer(questionLabel, l, p, cv, llm).value)
  {
    var r := YearsAnswer(questionLabel, l, p, cv, llm);
    if Occurs("how many", l) && !SkillMentionedInCv(questionLabel, cv, p.certifications) {
      assert r == Some("0");
      assert IsDigit("0"[0]);
    } else if YearsForQuestion(questionLabel).Some? {
      IntToStringWhole(YearsForQuestion(questionLabel).value);
      assert r == Some(IntToString(YearsForQuestion(questionLabel).value));
    } else if CvUsable(p, cv) && YearsFromCv(questionLabel, cv, llm).Some? {
      assert r == YearsFromCv(questionLabel, cv, llm);
    } else {
      assert r == Some(DefaultYears(p.yearsDefault));
    }
  }

  /** "How many years of experience with X?" is answered 0 when X is neither in the CV nor in the configured list. */
  lemma MissingSkillGivesZeroYears(questionLabel: string, l: string, p: Profile, cv: string, llm: Llm)
    requires Occurs("years", l) && Occurs("experience", l) && Occurs("how many", l)
    requires !AnyOccurs(RatingYearsKeywords, l)
    requires !SkillMentionedInCv(questionLabel, cv, p.certifications)
    ensures YearsAnswer(questionLabel, l, p, cv, llm) == Some("0")
  {
  }

  /** Rule 7: a yes/no experience question is answered "No" when its skill is missing, else "Yes". */
  function YesNoAnswer(questionLabel: string, p: Profile, cv: string): (r: Option<string>)
    ensures r.Some? <==> IsYesNoExperienceQuestion(questionLabel)
    ensures r == Some("No") <==> IsYesNoExperienceQuestion(questionLabel) && !SkillMentionedInCv(questionLabel, cv, p.certifications)
    ensures r.Some? ==> r.value == "Yes" || r.value == "No"
  {
    if !IsYesNoExperienceQuestion(questionLabel) then None
    else if !SkillMentionedInCv(questionLabel, cv, p.certifications) then Some("No")
    else YesNoForExperience(questionLabel)
  }

  /** Rule 8: the experience table, then the AI reading of the CV when a CV path is configured. */
  function TableOrCvYears(questionLabel: string, p: Profile, cvText: string, llm: Llm): (r: Option<string>)
    ensures YearsForQuestion(questionLabel).Some? ==> r == Some(IntToString(YearsForQuestion(questionLabel).value))
    ensures r.Some? ==> IsWholeNumber(r.value)
  {
    if YearsForQuestion(questionLabel).Some? then
      IntToStringWhole(YearsForQuestion(questionLabel).value);
      Some(IntToString(YearsForQuestion(questionLabel).value))
    else if p.useGeminiForCv && p.cvPath != "" && |Strip(cvText)| >= 50 then YearsFromCv(questionLabel, cvText, llm)
    else None
  }

  const RatingKeywords: seq<string> := [
    "frontend", "backend", "microservice", "microservices", "api", "database", "devops",
    "fullstack", "full-stack", "mobile", "cloud", "security", "testing", "data"
  ]

  predicate IsStar(c: char) {
    c == '*'
  }

  /** Rule 8b: a short label naming a rating field gets 8.0 for frontend or backend, 5.0 otherwise. */
  function RatingAnswer(questionLabel: string): (r: Option<string>)
    ensures r.Some? ==> r.value == "8.0" || r.value == "5.0"
    ensures r.Some? <==> var c := Strip(Lower(TrimRightWhere(questionLabel, IsStar)));
                         c != "" && |c| < 50 && AnyOccurs(RatingKeywords, c)
  {
    var c := Strip(Lower(TrimRightWhere(questionLabel, IsStar)));
    if c != "" && |c| < 50 && AnyOccurs(RatingKeywords, c) then
      Some(if Occurs("frontend", c) || Occurs("backend", c) then "8.0" else "5.0")
    else None
  }

  /** Rule 9: the AI answer from the CV, then the AI answer from the question alone. */
  function AiAnswer(questionLabel: string, p: Profile, cv: string, ai: Oracles): (r: Option<string>)
    ensures !p.useGeminiForCv ==> r == None
    ensures r.Some? ==> 0 < |r.value| <= AnswerMaxLength
  {
    if !p.useGeminiForCv then None
    else if CvUsable(p, cv) && CvAnswer(questionLabel, cv, p.useGeminiForCv, AnswerMaxLength, ai.cvAnswer).Some? then
      CvAnswer(questionLabel, cv, p.useGeminiForCv, AnswerMaxLength, ai.cvAnswer)
    else AnyQuestionAnswer(questionLabel, AnswerMaxLength, ai.anyAnswer)
  }

  const FallbackYearWords: seq<string> := ["year", "experience", "how many"]
  const FallbackYesWords: seq<string> := ["yes", "no", "experience with", "have you", "do you have"]
  const OpenQuestionWords: seq<string> := ["describe", "explain", "why", "what", "comment"]

  /** The last-resort answers, so that no field is left empty. */
  function FallbackAnswer(q: string, l: string, yearsDefault: string): (r: string)
    ensures r != ""
    ensures AnyOccurs(FallbackYearWords, l) ==> IsWholeNumber(r)
    ensures !AnyOccurs(FallbackYearWords, l) ==> r in ["Yes", "1", "5.0", "N/A"]
  {
    if AnyOccurs(FallbackYearWords, l) then DefaultYears(yearsDefault)
    else if AnyOccurs(FallbackYesWords, l) then "Yes"
    else if Occurs("number", l) || Occurs("salary", l) || Occurs("amount", l) then "1"
    else if |q| < 40 && !AnyOccurs(OpenQuestionWords, l) then "5.0"
    else "N/A"
  }

  /** The CV text as seen by the resolver: read only when a CV path is configured. */
  function EffectiveCv(p: Profile, cvText: string): string {
    if p.cvPath != "" then cvText else ""
  }

  /**
   * `get_answer_for_question`. `cvText` is what `load_cv_text` returns for
   * the configured path; a blank label gets nothing, any other is answered
   * from its trimmed text.
   */
  function AnswerForQuestion(questionLabel: string, p: Profile, cvText: string, ai: Oracles): (r: Option<string>)
    ensures r.None? <==> Strip(questionLabel) == ""
  {
    var q := Strip(questionLabel);
    if q == "" then None else Some(ResolveTrimmed(q, p, cvText, ai))
  }

  /** The rules tried in the source's order on a trimmed, non-blank label; the fallback always answers. */
  function ResolveTrimmed(q: string, p: Profile, cvText: string, ai: Oracles): string {
    var l := Lower(q);
    var cv := EffectiveCv(p, cvText);
    var work := WorkAuthorizationAnswer(q, p);
    if work.Some? then work.value
    else
      var early := EarlyAnswer(q, l, p, cv, ai);
      if early.Some? then early.value
      else
        var late := LateAnswer(q, p, cvText, cv, ai);
        if late.Some? then late.value
        else FallbackAnswer(q, l, p.yearsDefault)
  }

  /** Rules 2 to 7, in order. */
  function EarlyAnswer(q: string, l: string, p: Profile, cv: string, ai: Oracles): Option<string> {
    var profile := ProfileAnswer(l, p, ai.salary);
    if profile.Some? then profile
    else
      var cert := CertificationAnswer(q, p, cv);
      if cert.Some? then cert
      else
        var years := YearsAnswer(q, l, p, cv, ai.yearsFromCv);
        if years.Some? then years
        else YesNoAnswer(q, p, cv)
  }

  /** Rules 8 to 9, in order. */
  function LateAnswer(q: string, p: Profile, cvText: string, cv: string, ai: Oracles): Option<string> {
    var table := TableOrCvYears(q, p, cvText, ai.yearsFromCv);
    if table.Some? then table
    else
      var rating := RatingAnswer(q);
      if rating.Some? then rating
      else AiAnswer(q, p, cv, ai)
  }

  // ---------------------------------------------------------------------------
  // What the resolver promises

  /** The work-authorization rules come before every other rule. */
  lemma WorkAuthorizationComesFirst(questionLabel: string, p: Profile, cvText: string, ai: Oracles)
    requires WorkAuthorizationAnswer(Strip(questionLabel), p).Some?
    ensures AnswerForQuestion(questionLabel, p, cvText, ai) == WorkAuthorizationAnswer(Strip(questionLabel), p)
  {
  }

  /** Whitespace around the label changes nothing: the resolver sees only the trimmed label. */
  lemma SurroundingSpaceIgnored(questionLabel: string, p: Profile, cvText: string, ai: Oracles)
    ensures AnswerForQuestion(Strip(questionLabel), p, cvText, ai) == AnswerForQuestion(questionLabel, p, cvText, ai)
  {
    StripUnpadded(Strip(questionLabel));
  }

  /**
   * A years-of-experience label that is not a rating field, once the
   * earlier rules (work authorization, profile fields, certifications) have
   * passed it by, always gets a whole number.
   */
  lemma YearsQuestionGetsWholeNumber(questionLabel: string, p: Profile, cvText: string, ai: Oracles)
    requires var q := Strip(questionLabel);
             q != "" && WorkAuthorizationAnswer(q, p).None?
             && ProfileAnswer(Lower(q), p, ai.salary).None?
             && CertificationAnswer(q, p, EffectiveCv(p, cvText)).None?
    requires var l := Lower(Strip(questionLabel));
             Occurs("years", l) && Occurs("experience", l) && !AnyOccurs(RatingYearsKeywords, l)
    ensures IsWholeNumber(AnswerForQuestion(questionLabel, p, cvText, ai).value)
  {
    var q := Strip(questionLabel);
    YearsAnswerIsWhole(q, Lower(q), p, EffectiveCv(p, cvText), ai.yearsFromCv);
  }

  /**
   * Rule 8 comes before rule 8b: a label the experience table knows gets the
   * table's whole number even when it also names a rating field such as
   * "backend".
   */
  lemma TableBeatsRating(questionLabel: string, p: Profile, cvText: string, ai: Oracles)
    requires var q := Strip(questionLabel);
             q != "" && WorkAuthorizationAnswer(q, p).None?
             && EarlyAnswer(q, Lower(q), p, EffectiveCv(p, cvText), ai).None?
             && YearsForQuestion(q).Some?
    ensures AnswerForQuestion(questionLabel, p, cvText, ai) == Some(IntToString(YearsForQuestion(Strip(questionLabel)).value))
  {
  }

  /** A configured text value that is either unset or has something besides whitespace. */
  predicate Usable(value: string) {
    value == "" || exists i :: 0 <= i < |value| && !IsSpace(value[i])
  }

  /** The profile values the resolver may return are usable, and the two work-authorization answers are set. */
  predicate ProfileFilled(p: Profile) {
    p.workAuthorizationAnswer != "" && p.workNeedSponsorshipAnswer != ""
    && Usable(p.locationCity) && Usable(p.firstName) && Usable(p.lastName) && Usable(p.noticePeriod)
    && Usable(p.currentCompany) && Usable(p.currentTitle) && Usable(p.gender)
  }

  /** The shipped defaults are filled. */
  lemma DefaultsFilled()
    ensures ProfileFilled(Defaults)
  {
    assert !IsSpace(Defaults.locationCity[0]) && !IsSpace(Defaults.noticePeriod[0]);
  }

  lemma NonBlank(s: string)
    requires s != [] && !IsSpace(s[0]) && !IsSpace(s[|s| - 1])
    ensures Strip(s) == s
  {
    StripUnpadded(s);
  }

  /** A usable configured value, or a default with a non-space character, is not trimmed away. */
  lemma OrDefaultNonEmpty(value: string, default: string)
    requires Usable(value) && default != "" && !IsSpace(default[0])
    ensures OrDefault(value, default) != ""
  {
    StripEmptyIffAllSpace(if value != "" then value else default);
  }

  lemma IdentityAnswerNonEmpty(l: string, p: Profile)
    requires ProfileFilled(p)
    ensures IdentityAnswer(l, p).Some? ==> IdentityAnswer(l, p).value != ""
  {
    var r := IdentityAnswer(l, p);
    if Occurs("legal status", l) && Occurs("canada", l) {
      assert r == Some("No status");
    } else if Occurs("location", l) && Occurs("city", l) && p.locationCity != "" {
      OrDefaultNonEmpty(p.locationCity, "N/A");
    } else if AnyOccurs(FirstNameKeywords, l) && !Occurs("last", l) && !Occurs("nom de famille", l) {
      OrDefaultNonEmpty(p.firstName, "N/A");
    } else {
      OrDefaultNonEmpty(p.lastName, "N/A");
    }
  }

  lemma TermsAnswerNonEmpty(l: string, p: Profile, salaryLlm: Llm)
    requires ProfileFilled(p)
    ensures TermsAnswer(l, p, salaryLlm).Some? ==> TermsAnswer(l, p, salaryLlm).value != ""
  {
    OrDefaultNonEmpty(p.noticePeriod, "3 months");
  }

  lemma EmploymentAnswerNonEmpty(l: string, p: Profile)
    requires ProfileFilled(p)
    ensures EmploymentAnswer(l, p).Some? ==> EmploymentAnswer(l, p).value != ""
  {
    var r := EmploymentAnswer(l, p);
    if Occurs("current company", l) || (Occurs("company", l) && Occurs("current", l)) {
      OrDefaultNonEmpty(p.currentCompany, "N/A");
    } else if Occurs("current title", l) || (Occurs("title", l) && Occurs("current", l)) {
      OrDefaultNonEmpty(p.currentTitle, "N/A");
    } else if !Occurs("pronouns", l) && r.Some? {
      assert r.value == if p.gender != "" then Strip(p.gender) else "Male";
      OrDefaultNonEmpty(p.gender, "N/A");
    }
  }

  /** Rules 2 to 5c never answer with an empty string for a filled profile. */
  lemma ProfileAnswerNonEmpty(l: string, p: Profile, salaryLlm: Llm)
    requires ProfileFilled(p)
    ensures ProfileAnswer(l, p, salaryLlm).Some? ==> ProfileAnswer(l, p, salaryLlm).value != ""
  {
    IdentityAnswerNonEmpty(l, p);
    TermsAnswerNonEmpty(l, p, salaryLlm);
    EmploymentAnswerNonEmpty(l, p);
  }

  /** Rules 2 to 7 never answer with an empty string for a filled profile. */
  lemma EarlyAnswerNonEmpty(q: string, l: string, p: Profile, cv: string, ai: Oracles)
    requires ProfileFilled(p)
    ensures EarlyAnswer(q, l, p, cv, ai).Some? ==> EarlyAnswer(q, l, p, cv, ai).value != ""
  {
    ProfileAnswerNonEmpty(l, p, ai.salary);
    if YearsAnswer(q, l, p, cv, ai.yearsFromCv).Some? {
      YearsAnswerIsWhole(q, l, p, cv, ai.yearsFromCv);
    }
  }

  /** Rules 8 to 9 never answer with an empty string. */
  lemma LateAnswerNonEmpty(q: string, p: Profile, cvText: string, cv: string, ai: Oracles)
    ensures LateAnswer(q, p, cvText, cv, ai).Some? ==> LateAnswer(q, p, cvText, cv, ai).value != ""
  {
    var table := TableOrCvYears(q, p, cvText, ai.yearsFromCv);
    if table.Some? {
      assert IsWholeNumber(table.value);
    }
  }

  /** With a filled profile, no rule answers with an empty string. */
  lemma AnswerNeverEmpty(questionLabel: string, p: Profile, cvText: string, ai: Oracles)
    requires ProfileFilled(p)
    requires Strip(questionLabel) != ""
    ensures AnswerForQuestion(questionLabel, p, cvText, ai).value != ""
  {
    var q := Strip(questionLabel);
    var cv := EffectiveCv(p, cvText);
    var r := AnswerForQuestion(questionLabel, p, cvText, ai);
    if WorkAuthorizationAnswer(q, p).Some? {
      assert r == WorkAuthorizationAnswer(q, p);
    } else if EarlyAnswer(q, Lower(q), p, cv, ai).Some? {
      EarlyAnswerNonEmpty(q, Lower(q), p, cv, ai);
    } else {
      LateAnswerNonEmpty(q, p, cvText, cv, ai);
    }
  }
}
